/**
 The diff reader of fliki as functions of its state: where it stands in the diff, and the static
 variables its calls leave behind.
 */
module FlikiReader {
  import opened Text
  import opened Decimal
  import opened NormalDiff

  const EOF: int := -1
  const ERR: int := -2
  const EOS: int := -3

  /** Which of the reader's functions was used last. */
  datatype Fxn = FxnNext | FxnGetc | FxnNone

  datatype HunkType = NoType | AppendType | DeleteType | ChangeType

  /** HUNK, without its serial number. */
  datatype Hunk = Hunk(kind: HunkType, oldStart: int, oldEnd: int, newStart: int, newEnd: int)

  /** pos: how much of the diff has been consumed; the rest are the static variables lastChar,
      errStatus, lastUsed and file_finished. */
  datatype State = State(pos: nat, lastChar: int, errStatus: int, lastUsed: Fxn, finished: nat)

  /** A byte read through a char variable, which is signed; end of file reads as -1. */
  function CharAt(s: string, pos: nat): int {
    if pos >= |s| then EOF else if s[pos] as int < 128 then s[pos] as int else s[pos] as int % 256 - 256
  }

  /** fgetcLogged. */
  function Log(s: string, st: State): (t: State)
    ensures st.pos <= t.pos <= st.pos + 1 && (st.pos < |s| ==> t.pos == st.pos + 1) && (st.pos >= |s| ==> t.lastChar == EOF)
  {
    st.(pos := if st.pos < |s| then st.pos + 1 else st.pos, lastChar := CharAt(s, st.pos))
  }

  predicate DigitCode(c: int) {
    '0' as int <= c <= '9' as int
  }

  const NL: int := '\n' as int

  /** advanceUntil for a newline; the character it stops at is lastChar. */
  function SkipLine(s: string, st: State): (t: State)
    ensures t.pos >= st.pos && (st.pos < |s| ==> t.pos > st.pos) && (st.pos >= |s| ==> t.lastChar == EOF)
    decreases |s| - st.pos
  {
    var t := Log(s, st);
    if t.lastChar == NL || t.lastChar <= 0 || st.pos >= |s| then t else SkipLine(s, t)
  }

  datatype IntRead = IntRead(value: int, st: State)

  /** parseInt: the value grows digit by digit; the character it stops at is lastChar. */
  function ParseInt(s: string, st: State, acc: int): (r: IntRead)
    ensures r.st.pos >= st.pos
    decreases |s| - st.pos
  {
    var t := Log(s, st);
    if !DigitCode(t.lastChar) || st.pos >= |s| then IntRead(acc, t) else ParseInt(s, t, acc * 10 + t.lastChar - 48)
  }

  /** One or two numbers with a comma between them. */
  function ParsePair(s: string, st: State, acc: int): (r: (int, int, State))
    ensures r.2.pos >= st.pos
  {
    var a := ParseInt(s, st, acc);
    if a.st.lastChar == ',' as int then var b := ParseInt(s, a.st, 0); (a.value, b.value, b.st) else (a.value, a.value, a.st)
  }

  datatype Read = Read(status: int, h: Hunk, st: State)

  function TypeOf(c: int): HunkType {
    if c == 'a' as int then AppendType else if c == 'c' as int then ChangeType else if c == 'd' as int then DeleteType else NoType
  }

  /** parseHeader, behind the first digit: 1 with the hunk, 0 on bad format, -1 at end of file. */
  function ParseHeader(s: string, st: State, firstInt: int, h: Hunk): (r: Read)
    ensures r.st.pos >= st.pos && r.status in {-1, 0, 1}
  {
    var (a, b, t) := ParsePair(s, st, firstInt);
    var kind := TypeOf(t.lastChar);
    if kind.NoType? then Read(if t.lastChar == EOF then -1 else 0, h, t)
    else
      var (c, e, u) := ParsePair(s, t, 0);
      if u.lastChar <= 0 then Read(-1, h, u)
      else if u.lastChar != NL then Read(0, h, u)
      else Read(1, Hunk(kind, a, b, c, e), u)
  }

  /** The loop of hunk_next. */
  function NextLoop(s: string, st: State, h: Hunk, firstRun: bool): Read
    decreases |s| - st.pos
  {
    var t := Log(s, st);
    var c := t.lastChar;
    if !DigitCode(c) && c != '<' as int && c != '>' as int && c != '-' as int && !firstRun then Read(ERR, h, t.(errStatus := ERR))
    else
      var r := if DigitCode(c) then ParseHeader(s, t, c - 48, h) else Read(0, h, t);
      if r.status == 0 then
        var u := SkipLine(s, r.st);
        if u.lastChar < 0 || st.pos >= |s| then Read(EOF, r.h, u.(errStatus := EOF)) else NextLoop(s, u, r.h, false)
      else if r.status == -1 then Read(EOF, r.h, r.st.(errStatus := EOF))
      else if (r.h.oldEnd != r.h.oldStart && r.h.kind.AppendType?) || (r.h.newEnd != r.h.newStart && r.h.kind.DeleteType?) then
        Read(ERR, r.h, r.st.(errStatus := ERR))
      else Read(0, r.h, r.st.(errStatus := 0, finished := 0))
  }

  /** hunk_next. */
  function HunkNext(s: string, st: State, h: Hunk): Read {
    NextLoop(s, st.(lastUsed := FxnNext), h, true)
  }

  datatype Got = Got(c: int, st: State)

  /** Whether hunk_getc gives up before it reads anything. */
  predicate Dead(st: State) {
    || (st.lastUsed.FxnGetc? && st.errStatus == ERR) || (st.lastUsed.FxnNext? && st.errStatus < 0)
    || st.lastUsed.FxnNone? || st.finished == 2
  }

  function Fail(st: State): Got {
    Got(ERR, st.(errStatus := ERR))
  }

  function Give(st: State): Got {
    Got(st.lastChar, st.(errStatus := 0))
  }

  /** hunk_getc. */
  function HunkGetc(s: string, st: State, kind: HunkType): Got {
    if Dead(st) then Fail(st)
    else
      var t := Log(s, st.(lastUsed := FxnGetc));
      var c := t.lastChar;
      if c < 0 then
        if st.lastChar != NL then Fail(t) else Got(EOS, t.(errStatus := EOS, finished := 2))
      else if st.lastChar != NL then Give(t)
      else if c == '-' as int then
        if !kind.ChangeType? then Fail(t) else Dashes(s, t)
      else if c == '<' as int || c == '>' as int then
        if kind == (if c == '<' as int then AppendType else DeleteType) then Fail(t)
        else
          var u := Log(s, t);
          if u.lastChar != ' ' as int then Fail(u)
          else
            var v := Log(s, u);
            if v.lastChar < 0 then Fail(v) else Give(v)
      else if DigitCode(c) then Got(EOS, t.(pos := t.pos - 1, lastChar := NL, errStatus := EOS, finished := 2))
      else Fail(t)
  }

  /** Behind the first dash of the line between deletions and additions. */
  function Dashes(s: string, t: State): Got {
    var u := Log(s, t);
    if u.lastChar != '-' as int then Fail(u)
    else
      var v := Log(s, u);
      if v.lastChar != '-' as int then Fail(v)
      else
        var w := Log(s, v);
        if w.lastChar != NL then Fail(w) else Got(EOS, w.(errStatus := EOS, finished := 1))
  }

  // ---------------------------------------------------------------- errors stick

  /** An error is final for hunk_getc: it answers ERR and reads nothing exactly when it is dead, and
      once it has answered ERR it is. */
  lemma GetcSticks(s: string, st: State, kind: HunkType)
    ensures var g := HunkGetc(s, st, kind); (Dead(st) ==> g.c == ERR && g.st.pos == st.pos) && (g.c == ERR ==> Dead(g.st))
  {
  }

  /** hunk_next brings the reader back to life exactly when it succeeds. */
  lemma {:induction false} NextRevives(s: string, st: State, h: Hunk, firstRun: bool)
    requires st.lastUsed.FxnNext?
    ensures var r := NextLoop(s, st, h, firstRun);
      r.status in {0, EOF, ERR} && (r.status == 0 <==> !Dead(r.st)) && r.st.lastUsed.FxnNext?
    decreases |s| - st.pos
  {
    hide SkipLine, ParseHeader;
    var t := Log(s, st);
    var r := if DigitCode(t.lastChar) then ParseHeader(s, t, t.lastChar - 48, h) else Read(0, h, t);
    if DigitCode(t.lastChar) { HeaderKeeps(s, t, t.lastChar - 48, h); }
    if r.status == 0 {
      var u := SkipLine(s, r.st);
      SkipKeeps(s, r.st);
      if st.pos < |s| { NextRevives(s, u, r.h, false); }
    }
  }

  lemma {:induction false} SkipKeeps(s: string, st: State)
    ensures SkipLine(s, st).lastUsed == st.lastUsed
    decreases |s| - st.pos
  {
    var t := Log(s, st);
    if st.pos < |s| { SkipKeeps(s, t); }
  }

  lemma {:induction false} IntKeeps(s: string, st: State, acc: int)
    ensures ParseInt(s, st, acc).st.lastUsed == st.lastUsed
    decreases |s| - st.pos
  {
    var t := Log(s, st);
    if st.pos < |s| { IntKeeps(s, t, acc * 10 + t.lastChar - 48); }
  }

  lemma HeaderKeeps(s: string, st: State, firstInt: int, h: Hunk)
    ensures ParseHeader(s, st, firstInt, h).st.lastUsed == st.lastUsed
  {
    hide ParseInt;
    PairKeeps(s, st, firstInt);
    PairKeeps(s, ParsePair(s, st, firstInt).2, 0);
  }

  lemma PairKeeps(s: string, st: State, acc: int)
    ensures ParsePair(s, st, acc).2.lastUsed == st.lastUsed
  {
    hide ParseInt;
    IntKeeps(s, st, acc);
    IntKeeps(s, ParseInt(s, st, acc).st, 0);
  }

  datatype Call = NextCall | GetcCall

  function Called(s: string, st: State, h: Hunk, c: Call): Read {
    match c
    case NextCall => HunkNext(s, st, h)
    case GetcCall => var g := HunkGetc(s, st, h.kind); Read(g.c, h, g.st)
  }

  /** State and hunk after a list of calls. */
  function AfterCalls(s: string, st: State, h: Hunk, cs: seq<Call>): (State, Hunk)
    decreases cs
  {
    if cs == [] then (st, h) else var r := Called(s, st, h, cs[0]); AfterCalls(s, r.st, r.h, cs[1..])
  }

  /** No call in the list is a hunk_next that succeeds. */
  predicate NoSuccess(s: string, st: State, h: Hunk, cs: seq<Call>)
    decreases cs
  {
    cs != [] ==>
      var r := Called(s, st, h, cs[0]);
      !(cs[0].NextCall? && r.status == 0) && NoSuccess(s, r.st, r.h, cs[1..])
  }

  /** Over any calls at all: after an error, and as long as no hunk_next succeeds, hunk_getc answers ERR
      and consumes nothing. */
  lemma {:induction false} ErrorSticks(s: string, st: State, kind: HunkType, h: Hunk, cs: seq<Call>)
    requires HunkGetc(s, st, kind).c == ERR && NoSuccess(s, HunkGetc(s, st, kind).st, h, cs)
    ensures var (e, g) := AfterCalls(s, HunkGetc(s, st, kind).st, h, cs); HunkGetc(s, e, g.kind).c == ERR && HunkGetc(s, e, g.kind).st.pos == e.pos
  {
    hide HunkNext;
    GetcSticks(s, st, kind);
    DeadSticks(s, HunkGetc(s, st, kind).st, h, cs);
    var (e, g) := AfterCalls(s, HunkGetc(s, st, kind).st, h, cs);
    GetcSticks(s, e, g.kind);
  }

  lemma {:induction false} DeadSticks(s: string, st: State, h: Hunk, cs: seq<Call>)
    requires Dead(st) && NoSuccess(s, st, h, cs)
    ensures Dead(AfterCalls(s, st, h, cs).0)
    decreases cs
  {
    hide NextLoop;
    if cs != [] {
      var r := Called(s, st, h, cs[0]);
      if cs[0].NextCall? {
        NextRevives(s, st.(lastUsed := FxnNext), h, true);
      } else {
        GetcSticks(s, st, h.kind);
      }
      DeadSticks(s, r.st, r.h, cs[1..]);
    }
  }

  // ---------------------------------------------------------------- reading a printed header

  predicate Ascii(s: string) {
    forall i :: 0 <= i < |s| ==> 0 < s[i] as int < 128
  }

  lemma CharIs(s: string, pos: nat, p: string, rest: string)
    requires pos <= |s| && s[pos..] == p + rest && p != "" && 0 < p[0] as int < 128
    ensures CharAt(s, pos) == p[0] as int && pos < |s| && s[pos + 1..] == p[1..] + rest
  {
    assert s[pos] == s[pos..][0] == p[0];
    assert s[pos + 1..] == s[pos..][1..];
    assert (p + rest)[1..] == p[1..] + rest;
  }

  /** The value of digits d behind those that make acc. */
  function Num10(acc: int, d: string): int
    requires AllDigits(d)
    decreases d
  {
    if d == "" then acc else Num10(acc * 10 + DigitValue(d[0]), d[1..])
  }

  lemma {:induction false} Num10More(acc: int, d: string, c: char)
    requires AllDigits(d) && IsDigit(c)
    ensures AllDigits(d + [c]) && Num10(acc, d + [c]) == Num10(acc, d) * 10 + DigitValue(c)
    decreases d
  {
    if d != "" {
      Num10More(acc * 10 + DigitValue(d[0]), d[1..], c);
      assert (d + [c])[1..] == d[1..] + [c];
    } else {
      assert d + [c] == [c] && [c][1..] == "";
    }
  }

  lemma {:induction false} Num10Value(d: string)
    requires AllDigits(d)
    ensures Num10(0, d) == Value(d)
    decreases |d|
  {
    if d != "" {
      var e, c := d[..|d| - 1], d[|d| - 1];
      assert d == e + [c];
      Num10Value(e);
      Num10More(0, e, c);
    }
  }

  /** parseInt reads exactly the digits, and one character more. */
  lemma {:induction false} IntRead10(s: string, st: State, acc: int, d: string, x: char, rest: string)
    requires st.pos <= |s| && s[st.pos..] == d + [x] + rest && AllDigits(d) && !IsDigit(x) && 0 < x as int < 128
    ensures var r := ParseInt(s, st, acc);
      r.value == Num10(acc, d) && r.st == st.(pos := st.pos + |d| + 1, lastChar := x as int) && r.st.pos <= |s| && s[r.st.pos..] == rest
    decreases |d|
  {
    if d == "" {
      assert d + [x] + rest == [x] + rest;
      CharIs(s, st.pos, [x], rest);
      assert [x][1..] + rest == rest;
    } else {
      assert d + [x] + rest == d + ([x] + rest);
      CharIs(s, st.pos, d, [x] + rest);
      assert d[1..] + ([x] + rest) == d[1..] + [x] + rest;
      IntRead10(s, Log(s, st), acc * 10 + d[0] as int - 48, d[1..], x, rest);
    }
  }

  /** A printed range behind its first digit, which was read ahead; then one character x. */
  lemma PairRead(s: string, st: State, acc: int, a: nat, b: nat, ahead: bool, x: char, rest: string)
    requires st.pos <= |s| && s[st.pos..] == (if ahead then Range(a, b)[1..] else Range(a, b)) + [x] + rest
    requires !IsDigit(x) && x != ',' && 0 < x as int < 128 && Range(a, b) != "" && Num(a) != "" && AllDigits(Num(a))
    requires acc == if ahead then Num(a)[0] as int - 48 else 0
    ensures var r := ParsePair(s, st, acc);
      r.0 == a && r.1 == b && r.2 == st.(pos := r.2.pos, lastChar := x as int) && r.2.pos <= |s| && s[r.2.pos..] == rest
  {
    hide Num, ParseInt, Value;
    ValueOfNum(a);
    ValueOfNum(b);
    Num10Value(Num(a));
    Num10Value(Num(b));
    var d := if ahead then Num(a)[1..] else Num(a);
    assert Num10(acc, d) == Num10(0, Num(a));
    if a == b {
      IntRead10(s, st, acc, d, x, rest);
    } else {
      var tail := Num(b) + [x] + rest;
      CutRange(Num(a), Num(b), ahead, x, rest);
      IntRead10(s, st, acc, d, ',', tail);
      IntRead10(s, ParseInt(s, st, acc).st, 0, Num(b), x, rest);
    }
  }

  lemma CutRange(na: string, nb: string, ahead: bool, x: char, rest: string)
    requires na != ""
    ensures (if ahead then (na + "," + nb)[1..] else na + "," + nb) + [x] + rest == (if ahead then na[1..] else na) + [','] + (nb + [x] + rest)
  {
    assert (na + "," + nb)[1..] == na[1..] + "," + nb;
  }

  function KindOf(k: Kind): HunkType {
    match k case Append => AppendType case Delete => DeleteType case Change => ChangeType
  }

  function HunkOf(d: DiffHunk): Hunk {
    Hunk(KindOf(d.kind), d.oldStart, d.oldEnd, d.newStart, d.newEnd)
  }

  /** hunk_next on a printed hunk: the header's numbers, and the reader at the start of the body. */
  lemma HeaderRead(s: string, st: State, h: Hunk, d: DiffHunk, rest: string)
    requires Proper(d) && st.pos <= |s| && s[st.pos..] == Header(d) + rest
    ensures var r := HunkNext(s, st, h); r.status == 0 && r.h == HunkOf(d) && r.st.pos <= |s| && s[r.st.pos..] == rest
    ensures var r := HunkNext(s, st, h); r.st == State(r.st.pos, NL, 0, FxnNext, 0)
  {
    hide Num, ParsePair, SkipLine, Value;
    ValueOfNum(d.oldStart);
    ValueOfNum(d.newStart);
    var a, l, b := Range(d.oldStart, d.oldEnd), [Letter(d.kind)], Range(d.newStart, d.newEnd);
    assert a[0] == Num(d.oldStart)[0] && Header(d) + rest == a + (l + b + "\n" + rest);
    var st0 := st.(lastUsed := FxnNext);
    CharIs(s, st.pos, a, l + b + "\n" + rest);
    var t := Log(s, st0);
    assert a[1..] + (l + b + "\n" + rest) == a[1..] + l + (b + "\n" + rest);
    PairRead(s, t, t.lastChar - 48, d.oldStart, d.oldEnd, true, Letter(d.kind), b + "\n" + rest);
    var u := ParsePair(s, t, t.lastChar - 48).2;
    PairRead(s, u, 0, d.newStart, d.newEnd, false, '\n', rest);
  }

  // ---------------------------------------------------------------- reading a printed body

  /** What is left of a line: nothing, or text with the newline at its end. */
  predicate LineRest(l: string) {
    Ascii(l) && (l != "" ==> l[|l| - 1] == '\n') && forall i :: 0 <= i < |l| - 1 ==> l[i] != '\n'
  }

  predicate AsciiLines(ls: seq<string>) {
    forall i :: 0 <= i < |ls| ==> IsLine(ls[i]) && Ascii(ls[i])
  }

  /** The reader is alive inside a section of lines under one mark: l of the current line and then the
      lines ls are still to come, and then rest. */
  ghost predicate Within(s: string, st: State, mark: char, l: string, ls: seq<string>, rest: string) {
    && !Dead(st) && st.pos <= |s| && LineRest(l) && AsciiLines(ls) && (l == "" <==> st.lastChar == NL)
    && s[st.pos..] == l + Flat(Marked([mark, ' '], ls)) + rest
  }

  /** A section of kind: deletions or additions. */
  predicate Allowed(mark: char, kind: HunkType) {
    (mark == '<' && (kind.DeleteType? || kind.ChangeType?)) || (mark == '>' && (kind.AppendType? || kind.ChangeType?))
  }

  /** In the middle of a line hunk_getc gives its next character. */
  lemma GetcInLine(s: string, st: State, kind: HunkType, mark: char, l: string, ls: seq<string>, rest: string)
    requires Within(s, st, mark, l, ls, rest) && l != ""
    ensures var g := HunkGetc(s, st, kind); g.c == l[0] as int && Within(s, g.st, mark, l[1..], ls, rest)
  {
    var tail := Flat(Marked([mark, ' '], ls)) + rest;
    assert l + Flat(Marked([mark, ' '], ls)) + rest == l + tail;
    CharIs(s, st.pos, l, tail);
    assert l[1..] + tail == l[1..] + Flat(Marked([mark, ' '], ls)) + rest;
  }

  lemma FirstMarked(mark: char, ls: seq<string>, rest: string)
    requires ls != []
    ensures "" + Flat(Marked([mark, ' '], ls)) + rest == [mark, ' '] + (ls[0] + (Flat(Marked([mark, ' '], ls[1..])) + rest))
  {
    var m := Marked([mark, ' '], ls);
    assert m[0] == [mark, ' '] + ls[0] && m[1..] == Marked([mark, ' '], ls[1..]);
    JoinFour([mark, ' '], ls[0], Flat(m[1..]), rest);
  }

  lemma JoinFour(a: string, b: string, c: string, d: string)
    ensures "" + (a + b + c) + d == a + (b + (c + d))
  {
  }

  /** hunk_getc at the start of a line, by the characters it meets. */
  lemma GetcByMark(s: string, st: State, kind: HunkType, mark: char)
    requires !Dead(st) && st.lastChar == NL && st.pos + 2 < |s| && Allowed(mark, kind)
    requires CharAt(s, st.pos) == mark as int && CharAt(s, st.pos + 1) == ' ' as int && CharAt(s, st.pos + 2) > 0
    ensures HunkGetc(s, st, kind) == Got(CharAt(s, st.pos + 2), State(st.pos + 3, CharAt(s, st.pos + 2), 0, FxnGetc, st.finished))
  {
    hide CharAt;
  }

  lemma GetcByEnd(s: string, st: State, kind: HunkType)
    requires !Dead(st) && st.lastChar == NL && st.pos <= |s|
    ensures st.pos == |s| ==> HunkGetc(s, st, kind) == Got(EOS, State(st.pos, EOF, EOS, FxnGetc, 2))
    ensures st.pos < |s| && DigitCode(CharAt(s, st.pos)) ==> HunkGetc(s, st, kind) == Got(EOS, State(st.pos, NL, EOS, FxnGetc, 2))
    ensures st.pos < |s| && CharAt(s, st.pos) == '-' as int && kind.ChangeType? ==> HunkGetc(s, st, kind) == Dashes(s, Log(s, st.(lastUsed := FxnGetc)))
  {
    hide Dashes;
  }

  /** Two mark characters passed over, and one character given. */
  lemma GetcMarked(s: string, st: State, kind: HunkType, mark: char, l: string, tail: string)
    requires !Dead(st) && st.pos <= |s| && st.lastChar == NL && s[st.pos..] == [mark, ' '] + (l + tail)
    requires l != "" && 0 < l[0] as int < 128 && Allowed(mark, kind)
    ensures HunkGetc(s, st, kind) == Got(l[0] as int, State(st.pos + 3, l[0] as int, 0, FxnGetc, st.finished))
    ensures st.pos + 3 <= |s| && s[st.pos + 3..] == l[1..] + tail
  {
    hide HunkGetc, CharAt;
    CharIs(s, st.pos, [mark, ' '], l + tail);
    assert [mark, ' '][1..] == [' '];
    CharIs(s, st.pos + 1, [' '], l + tail);
    assert [' '][1..] + (l + tail) == l + tail;
    CharIs(s, st.pos + 2, l, tail);
    GetcByMark(s, st, kind, mark);
  }

  /** At the start of a line it passes over the mark and gives the first character of the line. */
  lemma GetcAtLine(s: string, st: State, kind: HunkType, mark: char, ls: seq<string>, rest: string)
    requires Within(s, st, mark, "", ls, rest) && ls != [] && Allowed(mark, kind)
    ensures var g := HunkGetc(s, st, kind); g.c == ls[0][0] as int && Within(s, g.st, mark, ls[0][1..], ls[1..], rest)
  {
    hide HunkGetc, Flat;
    var l, f := ls[0], Flat(Marked([mark, ' '], ls[1..]));
    FirstMarked(mark, ls, rest);
    GetcMarked(s, st, kind, mark, l, f + rest);
    assert l[1..] + (f + rest) == l[1..] + f + rest;
  }

  /** One character of the section's text. */
  lemma GetcText(s: string, st: State, kind: HunkType, mark: char, l: string, ls: seq<string>, rest: string) returns (l': string, ls': seq<string>)
    requires Within(s, st, mark, l, ls, rest) && l + Flat(ls) != "" && Allowed(mark, kind)
    ensures var g := HunkGetc(s, st, kind); g.c == (l + Flat(ls))[0] as int > 0 && Within(s, g.st, mark, l', ls', rest)
    ensures l' + Flat(ls') == (l + Flat(ls))[1..]
  {
    hide HunkGetc;
    if l != "" {
      GetcInLine(s, st, kind, mark, l, ls, rest);
      l', ls' := l[1..], ls;
      assert (l + Flat(ls))[1..] == l[1..] + Flat(ls);
    } else {
      GetcAtLine(s, st, kind, mark, ls, rest);
      l', ls' := ls[0][1..], ls[1..];
      assert l + Flat(ls) == ls[0] + Flat(ls[1..]);
      assert (ls[0] + Flat(ls[1..]))[1..] == ls[0][1..] + Flat(ls[1..]);
    }
  }

  /** What may follow a section: end of file, the next header, or the line in front of the additions. */
  predicate Follows(rest: string, kind: HunkType) {
    rest == "" || (IsDigit(rest[0])) || (kind.ChangeType? && "---\n" <= rest)
  }

  lemma DashesRead(s: string, t: State, r: string)
    requires t.pos <= |s| && s[t.pos..] == "--\n" + r
    ensures Dashes(s, t) == Got(EOS, State(t.pos + 3, NL, EOS, t.lastUsed, 1))
  {
    CharIs(s, t.pos, "--\n", r);
    assert "--\n"[1..] == "-\n";
    CharIs(s, t.pos + 1, "-\n", r);
    assert "-\n"[1..] == "\n";
    CharIs(s, t.pos + 2, "\n", r);
  }

  /** At the end of a section hunk_getc answers EOS; it stays in front of the next header, and moves
      behind the line in front of the additions. */
  lemma GetcEnd(s: string, st: State, kind: HunkType, mark: char, rest: string)
    requires Within(s, st, mark, "", [], rest) && Follows(rest, kind)
    ensures var g := HunkGetc(s, st, kind);
      g.c == EOS && g.st == State(if "---\n" <= rest then st.pos + 4 else st.pos, if rest == "" then EOF else NL, EOS, FxnGetc, if "---\n" <= rest then 1 else 2)
  {
    hide HunkGetc, CharAt, Within, Dead;
    WithinEnd(s, st, mark, rest);
    if "---\n" <= rest {
      PrefixRest("---\n", rest);
      GetcDashes(s, st, rest[4..], rest, kind);
    } else {
      GetcNext(s, st, rest, kind);
    }
  }

  lemma PrefixRest(p: string, s: string)
    requires p <= s
    ensures s == p + s[|p|..]
  {
  }

  lemma WithinEnd(s: string, st: State, mark: char, rest: string)
    requires Within(s, st, mark, "", [], rest)
    ensures !Dead(st) && st.pos <= |s| && st.lastChar == NL && s[st.pos..] == rest
  {
    assert Marked([mark, ' '], []) == [];
  }

  lemma GetcNext(s: string, st: State, rest: string, kind: HunkType)
    requires !Dead(st) && st.lastChar == NL && st.pos <= |s| && s[st.pos..] == rest && (rest == "" || IsDigit(rest[0]))
    ensures HunkGetc(s, st, kind) == Got(EOS, State(st.pos, if rest == "" then EOF else NL, EOS, FxnGetc, 2))
  {
    hide HunkGetc, CharAt, Dead;
    GetcByEnd(s, st, kind);
    if rest != "" {
      assert rest == [rest[0]] + rest[1..];
      CharIs(s, st.pos, [rest[0]], rest[1..]);
    }
  }

  lemma GetcDashes(s: string, st: State, r: string, rest: string, kind: HunkType)
    requires !Dead(st) && st.lastChar == NL && st.pos <= |s| && s[st.pos..] == rest && rest == "---\n" + r && kind.ChangeType?
    ensures HunkGetc(s, st, kind) == Got(EOS, State(st.pos + 4, NL, EOS, FxnGetc, 1))
  {
    hide HunkGetc, CharAt, Dashes;
    assert rest == "-" + ("--\n" + r) && "-"[1..] + ("--\n" + r) == "--\n" + r;
    CharIs(s, st.pos, "-", "--\n" + r);
    GetcByEnd(s, st, kind);
    DashesRead(s, Log(s, st.(lastUsed := FxnGetc)), r);
  }

  // ---------------------------------------------------------------- any text

  /** hunk_getc at the start of a line, on any ASCII text t behind a successful call: the end of the text and
      a digit end the section, and so do three dashes in a change; a mark that the kind of the hunk allows,
      with a blank behind it, leads to the first character of the line; everything else is an error. */
  lemma GetcExact(s: string, st: State, kind: HunkType, t: string)
    requires !Dead(st) && st.lastChar == NL && st.pos <= |s| && t == s[st.pos..] && Ascii(t)
    ensures var g := HunkGetc(s, st, kind);
      if t == "" || '0' <= t[0] <= '9' then g == Got(EOS, State(st.pos, if t == "" then EOF else NL, EOS, FxnGetc, 2))
      else if t[0] == '<' && !kind.AppendType? && |t| > 2 && t[1] == ' ' then g == Got(t[2] as int, State(st.pos + 3, t[2] as int, 0, FxnGetc, st.finished))
      else if t[0] == '>' && !kind.DeleteType? && |t| > 2 && t[1] == ' ' then g == Got(t[2] as int, State(st.pos + 3, t[2] as int, 0, FxnGetc, st.finished))
      else if kind.ChangeType? && "---\n" <= t then g == Got(EOS, State(st.pos + 4, NL, EOS, FxnGetc, 1))
      else g.c == ERR
  {
    hide CharAt, Dashes;
    CharFrom(s, st.pos, t, 0);
    CharFrom(s, st.pos, t, 1);
    CharFrom(s, st.pos, t, 2);
    if "---\n" <= t {
      PrefixRest("---\n", t);
      if kind.ChangeType? { GetcDashes(s, st, t[4..], t, kind); }
    } else if t != "" && t[0] == '-' {
      DashesBeyond(s, Log(s, st.(lastUsed := FxnGetc)), t);
    }
  }

  /** Inside a line it gives the next character, and an error where the text ends without a newline. */
  lemma GetcInside(s: string, st: State, kind: HunkType, t: string)
    requires !Dead(st) && st.lastChar != NL && st.pos <= |s| && t == s[st.pos..] && Ascii(t)
    ensures var g := HunkGetc(s, st, kind);
      if t == "" then g.c == ERR else g == Got(t[0] as int, State(st.pos + 1, t[0] as int, 0, FxnGetc, st.finished))
  {
    hide CharAt, Dashes;
    CharFrom(s, st.pos, t, 0);
  }

  /** The first n answers of hunk_getc, and the state behind them. */
  function Gets(s: string, st: State, kind: HunkType, n: nat): (seq<int>, State)
    decreases n
  {
    if n == 0 then ([], st)
    else var g := HunkGetc(s, st, kind); var (cs, e) := Gets(s, g.st, kind, n - 1); ([g.c] + cs, e)
  }

  function Codes(t: string): seq<int> {
    seq(|t|, i requires 0 <= i < |t| => t[i] as int)
  }

  /** Reading a whole section: exactly its text, character by character, and then EOS. */
  lemma {:induction false} SectionRead(s: string, st: State, kind: HunkType, mark: char, l: string, ls: seq<string>, rest: string)
    requires Within(s, st, mark, l, ls, rest) && Allowed(mark, kind)
    ensures var (cs, e) := Gets(s, st, kind, |l + Flat(ls)|); cs == Codes(l + Flat(ls)) && Within(s, e, mark, "", [], rest)
    ensures Follows(rest, kind) ==> HunkGetc(s, Gets(s, st, kind, |l + Flat(ls)|).1, kind).c == EOS
    decreases |l + Flat(ls)|
  {
    hide HunkGetc, Within;
    var t := l + Flat(ls);
    if l == "" && ls == [] {
      if Follows(rest, kind) { GetcEnd(s, st, kind, mark, rest); }
    } else {
      SectionLeft(s, st, mark, l, ls, rest);
      var l', ls' := GetcText(s, st, kind, mark, l, ls, rest);
      SectionRead(s, HunkGetc(s, st, kind).st, kind, mark, l', ls', rest);
      assert Codes(t) == [t[0] as int] + Codes(t[1..]);
    }
  }

  lemma SectionLeft(s: string, st: State, mark: char, l: string, ls: seq<string>, rest: string)
    requires Within(s, st, mark, l, ls, rest) && (l != "" || ls != [])
    ensures l + Flat(ls) != ""
  {
    if ls != [] { assert |ls[0]| > 0 && Flat(ls) == ls[0] + Flat(ls[1..]); }
  }

  // ---------------------------------------------------------------- a section, one answer at a time

  /** Behind a section: in front of the next header, or behind the line in front of the additions. */
  ghost predicate Ended(s: string, st: State, rest: string) {
    && st.pos <= |s| && st.lastUsed.FxnGetc? && st.errStatus == EOS
    && if "---\n" <= rest then s[st.pos..] == rest[4..] && st.lastChar == NL && st.finished == 1
       else s[st.pos..] == rest
  }

  /** From character k on, text t of the section is still to come. */
  ghost predicate Pending(s: string, st: State, mark: char, t: string, k: nat, l: string, ls: seq<string>, rest: string) {
    k <= |t| && Within(s, st, mark, l, ls, rest) && l + Flat(ls) == t[k..]
  }

  /** Answer c was character k of the text.  Behind its last one it was EOS, if something may follow there
      that ends a section, and else one character too many or an error. */
  ghost predicate Answered(s: string, st: State, kind: HunkType, mark: char, t: string, k: nat, l: string, ls: seq<string>, rest: string, c: int) {
    if k < |t| then c == t[k] as int > 0 && Pending(s, st, mark, t, k + 1, l, ls, rest)
    else k == |t| && if Follows(rest, kind) then c == EOS && Ended(s, st, rest) else c == ERR || c > 0
  }

  /** Text that cannot follow a section does not end it. */
  lemma GetcBeyond(s: string, st: State, kind: HunkType, mark: char, rest: string)
    requires Within(s, st, mark, "", [], rest) && !Follows(rest, kind) && Ascii(rest)
    ensures HunkGetc(s, st, kind).c == ERR || HunkGetc(s, st, kind).c > 0
  {
    hide CharAt, Within, Dead, Dashes;
    WithinEnd(s, st, mark, rest);
    assert |s| == st.pos + |rest|;
    CharFrom(s, st.pos, rest, 0);
    CharFrom(s, st.pos, rest, 1);
    CharFrom(s, st.pos, rest, 2);
    if rest[0] == '-' && kind.ChangeType? { DashesBeyond(s, Log(s, st.(lastUsed := FxnGetc)), rest); }
  }

  lemma DashesBeyond(s: string, t: State, rest: string)
    requires 0 < t.pos <= |s| && s[t.pos - 1..] == rest && rest[0] == '-' && Ascii(rest) && !("---\n" <= rest)
    ensures Dashes(s, t).c == ERR
  {
    hide CharAt;
    assert |s| == t.pos - 1 + |rest|;
    CharFrom(s, t.pos - 1, rest, 1);
    CharFrom(s, t.pos - 1, rest, 2);
    CharFrom(s, t.pos - 1, rest, 3);
  }

  lemma CharFrom(s: string, pos: nat, rest: string, i: nat)
    requires pos <= |s| && s[pos..] == rest && Ascii(rest)
    ensures CharAt(s, pos + i) == if i < |rest| then rest[i] as int else EOF
  {
    if i < |rest| { assert s[pos + i] == rest[i]; }
  }

  lemma GetcAnswers(s: string, st: State, kind: HunkType, mark: char, t: string, k: nat, l: string, ls: seq<string>, rest: string) returns (l': string, ls': seq<string>)
    requires Pending(s, st, mark, t, k, l, ls, rest) && Allowed(mark, kind) && Ascii(rest)
    ensures Answered(s, HunkGetc(s, st, kind).st, kind, mark, t, k, l', ls', rest, HunkGetc(s, st, kind).c)
  {
    hide HunkGetc, Within;
    if l == "" && ls == [] {
      l', ls' := l, ls;
      assert l + Flat(ls) == "";
      assert k == |t|;
      if Follows(rest, kind) {
        GetcEnd(s, st, kind, mark, rest);
        EndText(s, st, mark, rest);
      } else {
        GetcBeyond(s, st, kind, mark, rest);
      }
    } else {
      SectionLeft(s, st, mark, l, ls, rest);
      l', ls' := GetcText(s, st, kind, mark, l, ls, rest);
      assert t[k..][0] == t[k] && t[k..][1..] == t[k + 1..];
    }
  }

  lemma EndText(s: string, st: State, mark: char, rest: string)
    requires Within(s, st, mark, "", [], rest)
    ensures st.pos <= |s| && s[st.pos..] == rest && ("---\n" <= rest ==> s[st.pos + 4..] == rest[4..])
  {
    assert Marked([mark, ' '], []) == [];
    assert Flat([]) == "" && "" + "" + rest == rest;
    if "---\n" <= rest { assert s[st.pos..][4..] == s[st.pos + 4..]; }
  }

  /** An answer that is a character has consumed something. */
  lemma GetcConsumes(s: string, st: State, kind: HunkType)
    ensures var g := HunkGetc(s, st, kind); st.pos <= g.st.pos && (g.c > 0 ==> st.pos < |s| && st.pos < g.st.pos)
  {
  }

  /** hunk_next at the end of the diff. */
  lemma NextAtEnd(s: string, st: State, h: Hunk)
    requires st.pos == |s|
    ensures HunkNext(s, st, h).status == EOF
  {
  }

  /** hunk_next never goes back, and when it succeeds it has consumed something. */
  lemma {:induction false} NextConsumes(s: string, st: State, h: Hunk, firstRun: bool)
    ensures var r := NextLoop(s, st, h, firstRun); st.pos <= r.st.pos && (r.status == 0 ==> st.pos < |s| && st.pos < r.st.pos) && r.status in {0, EOF, ERR}
    decreases |s| - st.pos
  {
    hide SkipLine, ParseHeader;
    var t := Log(s, st);
    var r := if DigitCode(t.lastChar) then ParseHeader(s, t, t.lastChar - 48, h) else Read(0, h, t);
    if r.status == 0 && st.pos < |s| {
      NextConsumes(s, SkipLine(s, r.st), r.h, false);
    }
  }
}
