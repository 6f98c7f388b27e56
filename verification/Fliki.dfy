/**
 fliki: the streaming diff applier.  It reads the diff and the input a character at a time and keeps
 neither in memory.
 */
module Fliki {
  import opened Text
  import opened Decimal
  import opened Edits
  import opened NormalDiff
  import opened FlikiReader
  import opened BodyScan
  import opened DiffScan
  import opened FlikiOutput

  function CountNL(s: string): nat {
    if s == "" then 0 else (if s[0] == '\n' then 1 else 0) + CountNL(s[1..])
  }

  lemma {:induction false} CountAppend(a: string, b: string)
    ensures CountNL(a + b) == CountNL(a) + CountNL(b)
  {
    if a == "" {
      assert a + b == b;
    } else {
      assert (a + b)[1..] == a[1..] + b;
      CountAppend(a[1..], b);
    }
  }

  lemma CountOne(c: char)
    ensures CountNL([c]) == if c == '\n' then 1 else 0
  {
    assert [c][1..] == "";
  }

  lemma {:induction false} CountNone(s: string)
    requires forall i :: 0 <= i < |s| ==> s[i] != '\n'
    ensures CountNL(s) == 0
  {
    if s != "" { CountNone(s[1..]); }
  }

  /** Lines are counted by their newlines. */
  lemma {:induction false} CountFlat(ls: seq<string>)
    requires AreLines(ls)
    ensures CountNL(Flat(ls)) == |ls|
  {
    if ls != [] {
      var l := ls[0];
      CountAppend(l, Flat(ls[1..]));
      CountAppend(l[..|l| - 1], [l[|l| - 1]]);
      assert l[..|l| - 1] + [l[|l| - 1]] == l;
      CountNone(l[..|l| - 1]);
      CountOne('\n');
      CountFlat(ls[1..]);
    }
  }

  /** Before the end of the lines there are fewer newlines. */
  lemma CountBefore(ls: seq<string>, k: nat)
    requires AreLines(ls) && k < |Flat(ls)|
    ensures CountNL(Flat(ls)[..k]) < |ls| && CountNL(Flat(ls)[..k + 1]) == CountNL(Flat(ls)[..k]) + if Flat(ls)[k] == '\n' then 1 else 0
  {
    hide CountNL, Flat;
    var t := Flat(ls);
    CountFlat(ls);
    assert t[..k + 1] == t[..k] + [t[k]];
    CountAppend(t[..k], [t[k]]);
    CountOne(t[k]);
    var n := |t| - 1;
    EndsInNewline(ls);
    assert t == t[..k] + (t[k..n] + [t[n]]);
    CountAppend(t[..k], t[k..n] + [t[n]]);
    CountAppend(t[k..n], [t[n]]);
    CountOne(t[n]);
  }

  /** As long as there are fewer newlines than lines, the end of the lines lies ahead. */
  lemma CountedSoFar(ls: seq<string>, k: nat)
    requires AreLines(ls) && k <= |Flat(ls)|
    ensures k < |Flat(ls)| <==> CountNL(Flat(ls)[..k]) < |ls|
    ensures k < |Flat(ls)| ==> CountNL(Flat(ls)[..k + 1]) == CountNL(Flat(ls)[..k]) + if Flat(ls)[k] == '\n' then 1 else 0
    ensures CountNL(Flat(ls)[..k]) <= |ls|
  {
    hide CountNL, Flat;
    if k < |Flat(ls)| {
      CountBefore(ls, k);
    } else {
      CountFlat(ls);
      assert Flat(ls)[..k] == Flat(ls);
    }
  }

  lemma {:induction false} EndsInNewline(ls: seq<string>)
    requires AreLines(ls) && Flat(ls) != ""
    ensures Flat(ls)[|Flat(ls)| - 1] == '\n'
  {
    if Flat(ls[1..]) != "" { EndsInNewline(ls[1..]); }
  }

  /** One file starts with another exactly if its lines do. */
  lemma {:induction false} PrefixLines(a: seq<string>, b: seq<string>)
    requires AreLines(a) && AreLines(b)
    ensures Flat(a) <= Flat(b) <==> a <= b
  {
    if a <= b {
      FlatAppend(a, b[|a|..]);
      assert a + b[|a|..] == b;
    }
    if Flat(a) <= Flat(b) {
      var r := Flat(b)[|Flat(a)|..];
      assert Flat(b) == Flat(a) + r;
      LinesOfFlat(a);
      LinesOfFlat(b);
      LinesSplit(a, r);
    }
  }

  /** The lines of a file that starts with lines. */
  lemma {:induction false} LinesSplit(a: seq<string>, r: string)
    requires AreLines(a)
    ensures Lines(Flat(a) + r) == a + Lines(r)
  {
    hide LineLength;
    if a == [] {
      assert Flat(a) + r == r;
    } else {
      var rest := Flat(a[1..]) + r;
      assert Flat(a) + r == a[0] + rest;
      FirstLineOf(a[0], rest);
      assert (a[0] + rest)[|a[0]|..] == rest;
      LinesSplit(a[1..], r);
    }
  }

  class Applier {
    const diff: string            // the diff stream
    const input: string           // the input stream
    var dpos: nat                 // how much of each has been read
    var ipos: nat
    var out: string               // standard output
    var lastChar: int
    var errStatus: int
    var lastUsed: Fxn
    var finished: nat             // file_finished

    constructor (diff: string, input: string)
      ensures this.diff == diff && this.input == input && out == "" && ipos == 0 && Reader() == Fresh()
    {
      this.diff, this.input, dpos, ipos, out := diff, input, 0, 0, "";
      lastChar, errStatus, lastUsed, finished := 0, 0, FxnNone, 0;
    }

    /** The state of the reader. */
    ghost function Reader(): State
      reads `dpos, `lastChar, `errStatus, `lastUsed, `finished
    {
      State(dpos, lastChar, errStatus, lastUsed, finished)
    }

    // -------------------------------------------------------------- the reader

    method FgetcLogged() returns (c: int)
      modifies `dpos, `lastChar
      ensures Reader() == Log(diff, old(Reader())) && c == lastChar
    {
      c := CharAt(diff, dpos);
      if dpos < |diff| {
        dpos := dpos + 1;
      }
      lastChar := c;
    }

    method AdvanceUntil() returns (c: int)
      modifies `dpos, `lastChar
      ensures Reader() == SkipLine(diff, old(Reader())) && c == lastChar
    {
      ghost var goal := SkipLine(diff, Reader());
      c := FgetcLogged();
      while c != NL && c > 0
        invariant c == lastChar && goal == if c == NL || c <= 0 then Reader() else SkipLine(diff, Reader())
        decreases |diff| - dpos, c > 0
      {
        c := FgetcLogged();
      }
    }

    /** parseInt: digits into value. */
    method ParseInteger(acc: int) returns (value: int, c: int)
      modifies `dpos, `lastChar
      ensures IntRead(value, Reader()) == ParseInt(diff, old(Reader()), acc) && c == lastChar
    {
      ghost var goal := ParseInt(diff, Reader(), acc);
      value := acc;
      c := FgetcLogged();
      while DigitCode(c)
        invariant c == lastChar
        invariant goal == if DigitCode(c) then ParseInt(diff, Reader(), value * 10 + c - 48) else IntRead(value, Reader())
        decreases |diff| - dpos, DigitCode(c)
      {
        value := value * 10 + c - 48;
        c := FgetcLogged();
      }
    }

    method ParsePairOf(acc: int) returns (a: int, b: int, c: int)
      modifies `dpos, `lastChar
      ensures (a, b, Reader()) == ParsePair(diff, old(Reader()), acc) && c == lastChar
    {
      a, c := ParseInteger(acc);
      if c == ',' as int {
        b, c := ParseInteger(0);
      } else {
        b := a;
      }
    }

    /** parseHeader. */
    method ReadHeader(firstInt: int, h: Hunk) returns (status: int, h': Hunk)
      modifies `dpos, `lastChar
      ensures Read(status, h', Reader()) == ParseHeader(diff, old(Reader()), firstInt, h)
    {
      hide ParsePair;
      h' := h;
      var a, b, stopper := ParsePairOf(firstInt);
      var kind := TypeOf(stopper);
      if kind.NoType? {
        return if stopper == EOF then -1 else 0, h';
      }
      var c, e;
      c, e, stopper := ParsePairOf(0);
      if stopper <= 0 {
        return -1, h';
      }
      if stopper != NL {
        return 0, h';
      }
      h' := Hunk(kind, a, b, c, e);
      status := 1;
    }

    /** hunk_next. */
    method NextHunk(h: Hunk) returns (status: int, h': Hunk)
      modifies `dpos, `lastChar, `errStatus, `lastUsed, `finished
      ensures Read(status, h', Reader()) == HunkNext(diff, old(Reader()), h)
    {
      hide SkipLine, ParseHeader;
      ghost var goal := HunkNext(diff, Reader(), h);
      lastUsed := FxnNext;
      h' := h;
      var parsed, firstRun := 0, true;
      while parsed == 0
        invariant parsed in {-1, 0, 1}
        invariant parsed == 0 ==> goal == NextLoop(diff, Reader(), h', firstRun)
        invariant parsed == -1 ==> goal == Read(EOF, h', Reader().(errStatus := EOF))
        invariant parsed == 1 ==> goal == HeaderDone(h', Reader())
        decreases parsed == 0, |diff| - dpos
      {
        ghost var st := Reader();
        var c := FgetcLogged();
        if DigitCode(c) {
          parsed, h' := ReadHeader(c - 48, h');
        } else if c != '<' as int && c != '>' as int && c != '-' as int && !firstRun {
          errStatus := ERR;
          return ERR, h';
        }
        if parsed == 0 {
          var e := AdvanceUntil();
          if e < 0 {
            errStatus := EOF;
            return EOF, h';
          }
        }
        firstRun := false;
      }
      if parsed == -1 {
        errStatus := EOF;
        return EOF, h';
      }
      if h'.oldEnd != h'.oldStart && h'.kind.AppendType? {
        errStatus := ERR;
        return ERR, h';
      }
      if h'.newEnd != h'.newStart && h'.kind.DeleteType? {
        errStatus := ERR;
        return ERR, h';
      }
      finished := 0;
      errStatus := 0;
      status := 0;
    }

    /** hunk_getc. */
    method GetcHunk(kind: HunkType) returns (c: int)
      modifies `dpos, `lastChar, `errStatus, `lastUsed, `finished
      ensures Got(c, Reader()) == HunkGetc(diff, old(Reader()), kind)
    {
      if lastUsed.FxnGetc? && errStatus == ERR {
        errStatus := ERR;
        return ERR;
      }
      if lastUsed.FxnNext? && errStatus < 0 {
        errStatus := ERR;
        return ERR;
      }
      if lastUsed.FxnNone? {
        errStatus := ERR;
        return ERR;
      }
      if finished == 2 {
        errStatus := ERR;
        return ERR;
      }
      lastUsed := FxnGetc;
      var before := lastChar;
      c := FgetcLogged();
      if c < 0 {
        if before != NL {
          errStatus := ERR;
          return ERR;
        }
        finished := 2;
        errStatus := EOS;
        return EOS;
      }
      if before == NL {
        if c == '-' as int {
          if !kind.ChangeType? {
            errStatus := ERR;
            return ERR;
          }
          c := FgetcLogged();
          if c == '-' as int {
            c := FgetcLogged();
            if c == '-' as int {
              c := FgetcLogged();
              if c == NL {
                finished := 1;
                errStatus := EOS;
                return EOS;
              }
            }
          }
          errStatus := ERR;
          return ERR;
        }
        if c == '<' as int || c == '>' as int {
          if kind == (if c == '<' as int then AppendType else DeleteType) {
            errStatus := ERR;
            return ERR;
          }
          c := FgetcLogged();
          if c != ' ' as int {
            errStatus := ERR;
            return ERR;
          }
          c := FgetcLogged();
          if c < 0 {
            errStatus := ERR;
            return ERR;
          }
          errStatus := 0;
          return c;
        }
        if DigitCode(c) {
          dpos := dpos - 1;
          lastChar := NL;
          finished := 2;
          errStatus := EOS;
          return EOS;
        }
        errStatus := ERR;
        return ERR;
      }
      errStatus := 0;
    }

    // -------------------------------------------------------------- the input side

    /** The input is the file lines, read up to behind its first e lines, or to its end if it has fewer. */
    ghost predicate InputAt(lines: seq<string>, e: nat)
      reads `ipos
    {
      InputFrom(lines, e, ipos)
    }

    ghost predicate InputFrom(lines: seq<string>, e: nat, pos: nat) {
      AsciiLines(lines) && input == Flat(lines) && pos == |Flat(lines[..Cap(e, |lines|)])|
    }

    /** fgetc on the input. */
    method FgetcIn() returns (c: int)
      modifies `ipos
      ensures c == CharAt(input, old(ipos)) && ipos == if old(ipos) < |input| then old(ipos) + 1 else old(ipos)
      ensures old(ipos) >= |input| ==> c == EOF
      ensures Ascii(input) ==> c > 0 || (c == EOF && ipos >= |input|)
    {
      c := CharAt(input, ipos);
      if ipos < |input| {
        ipos := ipos + 1;
      }
    }

    /** No newline comes any more in the input. */
    ghost predicate LastPart()
      reads `ipos
    {
      Ascii(input) && ipos <= |input| && forall i :: ipos <= i < |input| ==> input[i] != '\n'
    }

    /** outUntilFound for a newline: passes the rest of a line of the input to the output.  Where no newline
        comes any more it writes what is left, and the end-of-file value as a character behind it. */
    method OutUntilFound(ghost known: bool, ghost lines: seq<string>, ghost e: nat)
      requires known ==> InputAt(lines, e) && e < |lines|
      modifies `ipos, `out, `lastChar
      ensures known ==> InputAt(lines, e + 1) && out == old(out) + lines[e] && lastChar == NL
      ensures old(LastPart()) ==> ipos == |input| && out == old(out) + input[old(ipos)..] + [OutChar(EOF)] && lastChar == EOF
      ensures Ascii(input) ==> lastChar == NL || ipos >= |input|
    {
      hide InputFrom, IsLine, Ascii, LineCopied, RestCopied, OutChar, CharAt;
      ghost var l := if known then lines[e] else "";
      ghost var last := LastPart();
      ghost var start, before := ipos, out;
      if last { RestStarts(input, ipos, out); }
      if known {
        LineAhead(lines, e);
        LineStarts(input, ipos, out, l);
      }
      while true
        invariant known ==> start <= ipos < start + |l| && LineCopied(input, start, ipos, before, out, l)
        invariant last ==> RestCopied(input, start, ipos, before, out)
        decreases |input| - ipos
      {
        if known { LineGoesOn(input, start, ipos, before, out, l); }
        if last { RestGoesOn(input, start, ipos, before, out); }
        var c := FgetcIn();
        lastChar := c;
        out := out + [OutChar(c)];
        if c == NL || c == 0 || c <= 0 {
          break;
        }
      }
      if known { LineBehind(lines, e, start); }
    }

    /** The next line of the input lies ahead. */
    lemma LineAhead(lines: seq<string>, e: nat)
      requires InputAt(lines, e) && e < |lines|
      ensures LineIn(input, ipos, lines[e]) && lines[e] != "" && InputFrom(lines, e, ipos)
    {
      assert lines == lines[..e] + [lines[e]] + lines[e + 1..];
      FlatAppend(lines[..e] + [lines[e]], lines[e + 1..]);
      FlatAppend(lines[..e], [lines[e]]);
      FlatOne(lines[e]);
      assert input == Flat(lines[..e]) + (lines[e] + Flat(lines[e + 1..]));
    }

    /** At the end of the lines there is no further one. */
    lemma InputOver(lines: seq<string>, e: nat)
      requires InputAt(lines, e) && e >= |lines|
      ensures LastPart() && ipos == |input| && input[ipos..] == "" && forall c: nat :: c >= |lines| ==> InputFrom(lines, c, |input|)
    {
      assert lines[..|lines|] == lines;
      FlatAscii(lines);
    }

    lemma LineBehind(lines: seq<string>, e: nat, start: nat)
      requires InputFrom(lines, e, start) && e < |lines| && ipos == start + |lines[e]|
      ensures InputAt(lines, e + 1)
    {
      assert lines[..e + 1] == lines[..e] + [lines[e]];
      FlatAppend(lines[..e], [lines[e]]);
      FlatOne(lines[e]);
    }

    // -------------------------------------------------------------- sections of a hunk

    /** The reader stands at the start of a section of lines ls under mark, and rest comes behind it.  When
        the copying in front of it has run past the end of the input, the last character is no newline
        any more, and the mark of the first line is taken for its text. */
    ghost predicate Section(mark: char, kind: HunkType, ls: seq<string>, over: bool, rest: string)
      reads `dpos, `lastChar, `errStatus, `lastUsed, `finished
    {
      && (over ==> ls != []) && AreLines(Shown(mark, over, ls)) && Ascii(Flat(Shown(mark, over, ls))) && Allowed(mark, kind) && Ascii(rest)
      && Pending(diff, Reader(), mark, Flat(Shown(mark, over, ls)), 0, if over then [mark, ' '] + ls[0] else "", if over then ls[1..] else ls, rest)
    }

    /** How much of the diff is left to read. */
    ghost function Left(): nat
      reads `dpos
    {
      if dpos < |diff| then |diff| - dpos else 0
    }

    /** Behind answer c and n newlines the reader is on the way to goal. */
    ghost predicate Toward(goal: Final, kind: HunkType, c: int, n: nat)
      reads `dpos, `lastChar, `errStatus, `lastUsed, `finished
    {
      goal == if c > 0 then More(Course(diff, Reader(), kind), n + if c == NL then 1 else 0) else Final(Got(c, Reader()), n)
    }

    lemma GoesToward(goal: Final, kind: HunkType, c: int, n: nat)
      requires Toward(goal, kind, c, n) && c > 0
      ensures goal == More(Course(diff, Reader(), kind), n + if c == NL then 1 else 0)
    {
    }

    lemma SectionOutcome(goal: Final, kind: HunkType, c: int, n: nat)
      requires Toward(goal, kind, c, n) && c <= 0
      ensures goal == Final(Got(c, Reader()), n)
    {
    }

    /** The next answer of hunk_getc inside a section. */
    method Checked(kind: HunkType, ghost known: bool, ghost mark: char, ghost t: string, ghost k: nat, ghost l: string, ghost ls: seq<string>, ghost rest: string, ghost goal: Final, ghost n: nat)
      returns (c: int, ghost l': string, ghost ls': seq<string>)
      requires known ==> Pending(diff, Reader(), mark, t, k, l, ls, rest) && Allowed(mark, kind) && Ascii(rest)
      modifies `dpos, `lastChar, `errStatus, `lastUsed, `finished
      ensures old(dpos) <= dpos && (c > 0 ==> old(dpos) < |diff| && old(dpos) < dpos) && (c == ERR ==> Dead(Reader()))
      ensures known ==> Answered(diff, Reader(), kind, mark, t, k, l', ls', rest, c)
      requires goal == More(Course(diff, Reader(), kind), n)
      ensures Toward(goal, kind, c, n)
    {
      hide HunkGetc, Pending, Answered, Course;
      l', ls' := l, ls;
      CourseStep(diff, Reader(), kind);
      GetcConsumes(diff, Reader(), kind);
      GetcSticks(diff, Reader(), kind);
      if known { l', ls' := GetcAnswers(diff, Reader(), kind, mark, t, k, l, ls, rest); }
      c := GetcHunk(kind);
    }

    /** A section read from state st on, with result r: unless it ends without an error and has n lines the
        result is an error, and else the reader stands where it ended. */
    ghost predicate Ends(kind: HunkType, st: State, n: int, r: int)
      reads `dpos, `lastChar, `errStatus, `lastUsed, `finished
    {
      var f := Course(diff, st, kind);
      (f.got.c == ERR || f.lines != n ==> r < 0) && (r >= 0 ==> Reader() == f.got.st)
    }

    /** deleteLines: the deletions are compared with the input and dropped.  The count of lines, or -1 if
        they differ, -2 if the hunk is malformed, -3 and -4 if there are too many or too few. */
    method DeleteLines(h: Hunk, ghost known: bool, ghost dels: seq<string>, ghost over: bool, ghost rest: string, ghost lines: seq<string>, ghost e: nat) returns (r: int)
      requires known ==> Section('<', h.kind, dels, over, rest) && InputAt(lines, e) && e <= |lines|
      requires h.oldStart <= h.oldEnd
      modifies `dpos, `lastChar, `errStatus, `lastUsed, `finished, `ipos
      ensures old(dpos) <= dpos
      ensures r in {-1, -2, -3, -4} || r == h.oldEnd - h.oldStart + 1
      ensures r == -2 ==> Dead(Reader())
      ensures known && Follows(rest, h.kind) ==> r == DeleteCode(h, Shown('<', over, dels), lines[e..])
      ensures known && !Follows(rest, h.kind) && |dels| >= h.oldEnd - h.oldStart + 1 ==> r < 0
      ensures known && Follows(rest, h.kind) && r >= 0 ==> InputAt(lines, e + |dels|) && Ended(diff, Reader(), rest)
      ensures Ends(h.kind, old(Reader()), OldCount(h), r) && (old(ipos) >= |input| ==> r < 0)
    {
      hide Within, Ended, Flat, CountNL, InputFrom, AreLines, Allowed, Follows, Matched, FirstOf, Pending, Ascii, Shown, Course, Toward, CharAt, Dead;
      ghost var on, ip0, k := known, ipos, 0;
      ghost var l, ls := if known && over then ['<', ' '] + dels[0] else "", if known && over then dels[1..] else dels;
      ghost var text := if known then Shown('<', over, dels) else [];
      var numLines := h.oldEnd - h.oldStart + 1;
      ghost var t, t1, first := Flat(text), Flat(FirstOf(text, numLines)), FirstOf(text, numLines);
      if on { ShownLength('<', over, dels); }
      var c;
      ghost var goal := Course(diff, Reader(), h.kind);
      c, l, ls := Checked(h.kind, known, '<', t, 0, l, ls, rest, goal, 0);
      if on {
        RestOfInput(lines, e, ip0);
        FirstOfFlat(text, numLines);
        MatchStart(input, ip0, t1);
        AsciiStart(t1, t);
      }
      var deleted := 0;
      assert CountNL(t1[..0]) == 0 by { CountNone(t1[..0]); }
      while c > 0
        invariant old(dpos) <= dpos && 0 <= deleted <= numLines && (c == ERR ==> Dead(Reader()))
        invariant Toward(goal, h.kind, c, deleted)
        invariant old(ipos) >= |input| ==> deleted == 0 && ipos >= |input|
        invariant on ==> known && k <= |t1| && ipos == ip0 + k && Matched(input, ip0, ipos, t1, k) && deleted == CountNL(t1[..k])
        invariant on ==> Answered(diff, Reader(), h.kind, '<', t, k, l, ls, rest, c)
        invariant known && !on ==> !Follows(rest, h.kind) && |dels| < numLines
        decreases Left(), c > 0
      {
        if on { CountedSoFar(first, k); }
        if numLines == deleted {
          if on { AllMatched(lines, e, first, ip0); }
          return -3;
        }
        if on && k == |t1| { on := false; }
        if on { MatchStep(input, ip0, ipos, t1, k); }
        GoesToward(goal, h.kind, c, deleted);
        var d := FgetcIn();
        if c != d {
          if on { Mismatch(lines, e, first, ip0, k); }
          return -1;
        }
        if c == NL {
          deleted := deleted + 1;
        }
        ghost var k' := k + 1;
        c, l, ls := Checked(h.kind, on, '<', t, k', l, ls, rest, goal, deleted);
        k := k';
      }
      SectionOutcome(goal, h.kind, c, deleted);
      if on {
        CountedSoFar(first, k);
        AllMatched(lines, e, first, ip0);
      }
      if c == ERR {
        return -2;
      }
      if numLines > deleted {
        return -4;
      }
      r := deleted;
    }

    /** appendLines: the additions are written.  Their count, or -1 if the hunk is malformed, -2 and -3 if
        there are too many or too few. */
    method AppendLines(h: Hunk, ghost known: bool, ghost adds: seq<string>, ghost over: bool, ghost rest: string) returns (r: int)
      requires known ==> Section('>', h.kind, adds, over, rest)
      requires h.newStart <= h.newEnd
      modifies `dpos, `lastChar, `errStatus, `lastUsed, `finished, `out
      ensures old(dpos) <= dpos
      ensures r in {-1, -2, -3} || r == h.newEnd - h.newStart + 1
      ensures r == -1 ==> Dead(Reader())
      ensures known && Follows(rest, h.kind) ==> r == AppendCode(h, adds) && out == old(out) + Flat(FirstOf(Shown('>', over, adds), h.newEnd - h.newStart + 1))
      ensures known && Follows(rest, h.kind) && r >= 0 ==> Ended(diff, Reader(), rest)
      ensures known && !Follows(rest, h.kind) && |adds| >= h.newEnd - h.newStart + 1 ==> r < 0
      ensures Ends(h.kind, old(Reader()), NewCount(h), r)
    {
      hide Within, Ended, Flat, CountNL, AreLines, Allowed, Follows, Pending, Ascii, OutChar, Shown, FirstOf, Taken, Course, Toward;
      ghost var on, k := known, 0;
      ghost var l, ls := if known && over then ['>', ' '] + adds[0] else "", if known && over then adds[1..] else adds;
      ghost var text := if known then Shown('>', over, adds) else [];
      var numLines := h.newEnd - h.newStart + 1;
      ghost var t, t1, first := Flat(text), Flat(FirstOf(text, numLines)), FirstOf(text, numLines);
      if on { ShownLength('>', over, adds); }
      var c;
      ghost var goal := Course(diff, Reader(), h.kind);
      c, l, ls := Checked(h.kind, known, '>', t, 0, l, ls, rest, goal, 0);
      if on { FirstOfFlat(text, numLines); }
      var appended := 0;
      TakenNone(out, t1);
      while c > 0
        invariant old(dpos) <= dpos && appended <= numLines && (c == ERR ==> Dead(Reader()))
        invariant 0 <= appended
        invariant Toward(goal, h.kind, c, appended)
        invariant on ==> known && k <= |t1| && Taken(out, old(out), t1, k, appended)
        invariant on ==> Answered(diff, Reader(), h.kind, '>', t, k, l, ls, rest, c)
        invariant known && !on ==> !Follows(rest, h.kind) && |adds| < numLines
        decreases Left(), c > 0
      {
        if on { TakenAll(out, old(out), first, k, appended); }
        if appended == numLines {
          return -2;
        }
        if on && k == |t1| { on := false; }
        if on {
          TextChar(diff, Reader(), h.kind, '>', t, k, l, ls, rest, c);
          TakenMore(out, old(out), first, k, appended, c);
        }
        GoesToward(goal, h.kind, c, appended);
        out := out + [OutChar(c)];
        if c == NL {
          appended := appended + 1;
        }
        ghost var k' := k + 1;
        c, l, ls := Checked(h.kind, on, '>', t, k', l, ls, rest, goal, appended);
        k := k';
      }
      SectionOutcome(goal, h.kind, c, appended);
      if on { TakenAll(out, old(out), first, k, appended); }
      if c == ERR {
        return -1;
      }
      if numLines != appended {
        return -3;
      }
      r := numLines;
    }

    lemma Mismatch(lines: seq<string>, e: nat, dels: seq<string>, ip0: nat, k: nat)
      requires InputFrom(lines, e, ip0) && e <= |lines| && AreLines(dels) && k < |Flat(dels)| && CharAt(input, ip0 + k) != Flat(dels)[k] as int
      requires 0 < Flat(dels)[k] as int < 128
      ensures !(dels <= lines[e..])
    {
      RestOfInput(lines, e, ip0);
      PrefixLines(dels, lines[e..]);
      var u := input[ip0..];
      assert k < |u| ==> u[k] == input[ip0 + k];
    }

    lemma AllMatched(lines: seq<string>, e: nat, dels: seq<string>, ip0: nat)
      requires InputFrom(lines, e, ip0) && e <= |lines| && AreLines(dels) && Matched(input, ip0, ipos, Flat(dels), |Flat(dels)|)
      ensures dels <= lines[e..] && InputAt(lines, e + |dels|)
    {
      var t := Flat(dels);
      RestOfInput(lines, e, ip0);
      assert t[..|t|] == t && t <= input[ip0..] by { assert input[ip0..][..|t|] == input[ip0..ip0 + |t|]; }
      PrefixLines(dels, lines[e..]);
      assert lines[..e + |dels|] == lines[..e] + dels;
      FlatAppend(lines[..e], dels);
    }

    lemma RestOfInput(lines: seq<string>, e: nat, ip0: nat)
      requires InputFrom(lines, e, ip0) && e <= |lines|
      ensures ip0 <= |input| && input[ip0..] == Flat(lines[e..]) && AreLines(lines[e..])
    {
      assert lines[..e] + lines[e..] == lines;
      FlatAppend(lines[..e], lines[e..]);
    }

    // -------------------------------------------------------------- one hunk

    /** The reader stands behind the header of hunk i of the diff. */
    ghost predicate BodyAt(d: seq<DiffHunk>, i: nat, t: string)
      reads `dpos, `lastChar, `errStatus, `lastUsed, `finished
    {
      && i < |d| && Reader() == State(dpos, NL, 0, FxnNext, 0) && dpos <= |diff|
      && diff[dpos..] == Flat(BodyLines(d[i])) + Behind(d, i + 1, t)
    }

    /** Where hunk_next has found h, the reader stands at the lines behind its header. */
    ghost predicate Stands(v: Verdict, h: Hunk, p: string)
      reads `dpos, `lastChar, `errStatus, `lastUsed, `finished
    {
      match v
      case Found(k, rest) => h == k && Reader() == State(dpos, NL, 0, FxnNext, 0) && AtLines(diff, Reader(), rest, p)
      case _ => true
    }

    /** hunk_next on the i-th hunk of the diff, or on the tail behind it. */
    method NextOf(h: Hunk, ghost known: bool, ghost d: seq<DiffHunk>, ghost i: nat, ghost t: string, ghost ls: seq<string>, ghost p: string) returns (status: int, h': Hunk)
      requires known ==> AllProper(d) && i <= |d| && dpos <= |diff| && diff[dpos..] == Onward(d, i, t) && TextIs(TailAt(d, t), ls, p)
      modifies `dpos, `lastChar, `errStatus, `lastUsed, `finished
      ensures Read(status, h', Reader()) == HunkNext(diff, old(Reader()), h)
      ensures old(dpos) <= dpos && (status == 0 ==> old(dpos) < |diff| && old(dpos) < dpos) && status in {0, EOF, ERR}
      ensures known && i == |d| ==> status == StatusOf(Scan(ls, p, true)) && Stands(Scan(ls, p, true), h', p)
      ensures known && i < |d| ==> status == 0 && h' == HunkOf(d[i]) && BodyAt(d, i, t)
    {
      hide NextLoop, Header, HunkOf, HunkNext, Scan;
      if known {
        if i < |d| {
          FlatFrom(d, i, t);
          HeaderRead(diff, Reader(), h, d[i], Flat(BodyLines(d[i])) + Behind(d, i + 1, t));
        } else {
          NextExact(diff, Reader(), h, ls, p);
        }
      }
      NextMoves(diff, Reader(), h);
      status, h' := NextHunk(h);
    }

    /** One line more is passed on, or the end-of-file value where there is none. */
    method CopyLine(ghost known: bool, ghost lines: seq<string>, ghost e: nat, ghost c: nat, ghost before: string)
      requires known ==> InputAt(lines, c) && e <= c && out == before + Copied(lines, e, c) && lastChar == CharBehind(lines, e, c)
      modifies `ipos, `out, `lastChar
      ensures known ==> InputAt(lines, c + 1) && out == before + Copied(lines, e, c + 1) && lastChar == CharBehind(lines, e, c + 1)
      ensures Ascii(input) ==> lastChar == NL || ipos >= |input|
    {
      hide InputFrom, Copied, CharAt, OutChar, LastPart, Ascii;
      if known {
        CopiedNext(before, lines, e, c);
        if c >= |lines| { InputOver(lines, c); }
      }
      OutUntilFound(known && c < |lines|, lines, c);
      if known && c >= |lines| { assert InputFrom(lines, c + 1, |input|); }
    }

    /** Lines of the input in front of a deletion or change are passed on. */
    method CopyBefore(count: int, oldStart: int, ghost known: bool, ghost lines: seq<string>, ghost e: nat, ghost at: nat) returns (count': int)
      requires known ==> InputAt(lines, e) && Counts(count, e) && e <= at && oldStart == at + 1 && lastChar == NL
      modifies `ipos, `out, `lastChar
      ensures Ascii(input) && old(lastChar) == NL ==> lastChar == NL || ipos >= |input|
      ensures known ==> count' == at + 1 && InputAt(lines, at) && out == old(out) + Copied(lines, e, at) && Reader() == old(Reader()).(lastChar := CharBehind(lines, e, at))
    {
      hide InputFrom, Copied, Ascii;
      count' := count;
      if count' == 0 {
        count' := count' + 1;
      }
      ghost var c: nat, before := e, out;
      if known { CopiedNone(out, lines, e); }
      while count' < oldStart
        invariant known ==> e <= c <= at && count' == c + 1 && InputAt(lines, c) && out == before + Copied(lines, e, c) && lastChar == CharBehind(lines, e, c)
        invariant Ascii(input) && old(lastChar) == NL ==> lastChar == NL || ipos >= |input|
      {
        count' := count' + 1;
        CopyLine(known, lines, e, c, before);
        c := c + 1;
      }
    }

    /** Lines of the input up to the one an append goes behind are passed on. */
    method CopyThrough(count: int, oldStart: int, ghost known: bool, ghost lines: seq<string>, ghost e: nat, ghost at: nat) returns (count': int)
      requires known ==> InputAt(lines, e) && Counts(count, e) && e <= at && oldStart == at && lastChar == NL
      modifies `ipos, `out, `lastChar
      ensures known ==> count' == at + 1 && InputAt(lines, at) && out == old(out) + Copied(lines, e, at) && Reader() == old(Reader()).(lastChar := CharBehind(lines, e, at))
    {
      hide InputFrom, Copied;
      count' := count;
      ghost var c: nat, before := e, out;
      if known { CopiedNone(out, lines, e); }
      while count' <= oldStart
        invariant known ==> e <= c <= at && Counts(count', c) && count' <= at + 1 && InputAt(lines, c) && out == before + Copied(lines, e, c) && lastChar == CharBehind(lines, e, c)
        decreases oldStart - count'
      {
        if oldStart == 0 {
          count' := count' + 1;
          break;
        }
        if count' == 0 {
          count' := count' + 1;
        }
        count' := count' + 1;
        CopyLine(known, lines, e, c, before);
        c := c + 1;
      }
    }

    /** The copying has run past the end of the input: what is left of the section has its first mark in
        the text. */
    lemma SectionOver(mark: char, kind: HunkType, ls: seq<string>, rest: string, st: State)
      requires st.lastChar == NL && Reader() == st.(lastChar := EOF) && ls != [] && AsciiLines(ls) && Allowed(mark, kind) && Ascii(rest) && (mark == '<' || mark == '>')
      requires Within(diff, st, mark, "", ls, rest)
      ensures Section(mark, kind, ls, true, rest)
    {
      hide Allowed;
      ShownLines(mark, ls);
      var m := Marked([mark, ' '], ls);
      FirstMarked(mark, ls, rest);
      var l := [mark, ' '] + ls[0];
      JoinMark([mark, ' '], ls[0], Flat(Marked([mark, ' '], ls[1..])), rest);
      assert Flat(Shown(mark, true, ls)) == l + Flat(ls[1..]) by { assert Shown(mark, true, ls)[1..] == ls[1..]; }
      assert Flat(Shown(mark, true, ls))[0..] == Flat(Shown(mark, true, ls));
      MarkedLine(mark, ls[0]);
      forall i | 0 <= i < |ls[1..]| ensures IsLine(ls[1..][i]) && Ascii(ls[1..][i]) { assert ls[1..][i] == ls[i + 1]; }
    }

    /** The section in front of which the lines from e to at have been passed on. */
    lemma SectionBehind(mark: char, kind: HunkType, ls: seq<string>, rest: string, st: State, lines: seq<string>, e: nat, at: nat)
      requires st.lastChar == NL && Reader() == st.(lastChar := CharBehind(lines, e, at)) && ls != [] && AsciiLines(ls) && AreLines(ls) && Ascii(Flat(ls))
      requires Allowed(mark, kind) && Ascii(rest) && (mark == '<' || mark == '>') && Within(diff, st, mark, "", ls, rest)
      ensures Section(mark, kind, ls, Overrun(|lines|, e, at) > 0, rest)
    {
      hide Within, AsciiLines, AreLines, Ascii, Allowed;
      if Overrun(|lines|, e, at) > 0 {
        SectionOver(mark, kind, ls, rest, st);
      } else {
        assert Reader() == st;
        assert "" + Flat(ls) == Flat(ls)[0..];
      }
    }

    /** The reader stands behind a header whose body is broken. */
    ghost predicate BrokenBody(h: Hunk, over: bool)
      reads `dpos, `lastChar, `errStatus, `lastUsed, `finished
    {
      Reader() == State(dpos, NL, 0, FxnNext, 0) && dpos <= |diff| && Ascii(diff[dpos..]) && BodyBroken(diff[dpos..], h, over)
    }

    /** Read from its first line, or from that of its text, such a body ends in an error. */
    lemma BodyErrs(h: Hunk, st: State)
      requires BrokenBody(h, st.lastChar != NL) && st == Reader().(lastChar := st.lastChar)
      ensures var f := Course(diff, st, h.kind);
        || f.got.c == ERR || f.lines != (if h.kind.AppendType? then NewCount(h) else OldCount(h))
        || (h.kind.ChangeType? && AddsErr(diff, f.got.st, h))
    {
      hide BodyBroken, Course, Ascii;
      BrokenErrs(diff, st, h, diff[dpos..]);
    }

    /** A deletion, or the first half of a change. */
    method HandleDelete(h: Hunk, count: int, ghost known: bool, ghost lines: seq<string>, ghost e: nat, ghost at: nat, ghost dels: seq<string>, ghost rest: string, ghost bad: bool) returns (ok: bool, count': int)
      requires bad ==> BrokenBody(h, false) && !h.kind.AppendType? && Ascii(input) && lastChar == NL
      requires known ==> InputAt(lines, e) && Counts(count, e) && e <= at && h.oldStart == at + 1 && lastChar == NL
      requires h.oldStart <= h.oldEnd
      requires known ==> SectionAhead('<', h.kind, dels, rest) && |dels| == h.oldEnd - h.oldStart + 1
      modifies `dpos, `lastChar, `errStatus, `lastUsed, `finished, `ipos, `out
      ensures old(dpos) <= dpos
      ensures known ==> ok == (at <= |lines| && dels <= lines[at..] && Follows(rest, h.kind))
      ensures known && ok ==> count' == at + |dels| + 1 && InputAt(lines, at + |dels|) && out == old(out) + Copied(lines, e, at) && Ended(diff, Reader(), rest)
      ensures bad && ok ==> h.kind.ChangeType? && AddsErr(diff, Reader(), h)
    {
      hide InputFrom, Within, Pending, Flat, Ended, Section, Copied, Follows, Ascii, AsciiLines, AreLines, BrokenBody, Course;
      ghost var st, over, a := Reader(), Overrun(|lines|, e, at) > 0, Cap(at, |lines|);
      if bad { BodyErrs(h, st); }
      count' := CopyBefore(count, h.oldStart, known, lines, e, at);
      if known {
        SectionBehind('<', h.kind, dels, rest, st, lines, e, at);
        CapInput(lines, at, ipos);
      }
      var r := DeleteLines(h, known, dels, over, rest, lines, a);
      if known { DeleteFits(h, dels, lines, e, at); }
      if r < 0 {
        return false, count';
      }
      ok, count' := true, count' + r;
    }

    /** The reader stands in front of a section, at the start of a line. */
    ghost predicate SectionAhead(mark: char, kind: HunkType, ls: seq<string>, rest: string)
      reads `dpos, `lastChar, `errStatus, `lastUsed, `finished
    {
      && lastChar == NL && ls != [] && AsciiLines(ls) && AreLines(ls) && Ascii(Flat(ls)) && Allowed(mark, kind) && Ascii(rest)
      && Within(diff, Reader(), mark, "", ls, rest)
    }

    lemma CapInput(lines: seq<string>, e: nat, pos: nat)
      requires InputFrom(lines, e, pos)
      ensures InputFrom(lines, Cap(e, |lines|), pos)
    {
    }

    // -------------------------------------------------------------- the whole run

    /** The diff is the print of d and then the text t, and the input is the file lines. */
    ghost predicate Prints(d: seq<DiffHunk>, t: string, lines: seq<string>) {
      && AllProper(d) && diff == Flat(PrintAll(d)) + t && Ascii(t) && input == Flat(lines) && AsciiLines(lines)
      && forall i :: 0 <= i < |d| ==> AsciiLines(d[i].dels) && AsciiLines(d[i].adds)
    }

    /** The first i hunks have been applied: the input is read up to the last of them, and the output so
        far is written. */
    ghost predicate Along(d: seq<DiffHunk>, lines: seq<string>, i: nat, e: nat, count: int)
      reads `ipos, `out
    {
      && i <= |d| && AllProper(d[..i]) && Ordered(d[..i]) && AllPass(d[..i], lines)
      && e == EndOf(d[..i]) && InputAt(lines, e) && Counts(count, e)
      && out == Upto(d[..i], lines)
    }

    /** The sections of hunk i. */
    lemma BodySections(d: seq<DiffHunk>, t: string, lines: seq<string>, i: nat)
      requires Prints(d, t, lines) && BodyAt(d, i, t)
      ensures lastChar == NL && Ascii(Flat(d[i].adds)) && Ascii(Behind(d, i + 1, t))
      ensures d[i].kind.Append? ==> SectionAhead('>', AppendType, d[i].adds, Behind(d, i + 1, t))
      ensures d[i].kind.Delete? ==> SectionAhead('<', DeleteType, d[i].dels, Behind(d, i + 1, t))
      ensures d[i].kind.Change? ==> SectionAhead('<', ChangeType, d[i].dels, "---\n" + (Flat(Marked("> ", d[i].adds)) + Behind(d, i + 1, t)))
    {
      hide PrintAll, Proper, EditOf, Behind, SectionAhead, Flat, Marked, Ascii, AsciiLines, BodyLines;
      var c, tail := d[i], Behind(d, i + 1, t);
      assert Proper(c);
      PrintAscii(d);
      AsciiJoin(Flat(PrintAll(d)), t);
      FlatAscii(c.dels);
      FlatAscii(c.adds);
      BodyFlat(c, tail);
      HasLines(c);
      SectionStart(c.kind, c.dels, c.adds, tail);
    }

    lemma SectionStart(kind: Kind, dels: seq<string>, adds: seq<string>, tail: string)
      requires Reader() == State(dpos, NL, 0, FxnNext, 0) && dpos <= |diff| && Ascii(diff)
      requires AsciiLines(dels) && AsciiLines(adds) && AreLines(dels) && AreLines(adds) && Ascii(Flat(dels)) && Ascii(Flat(adds))
      requires if kind.Append? then adds != [] else dels != []
      requires diff[dpos..] ==
        if kind.Append? then Flat(Marked("> ", adds)) + tail
        else if kind.Delete? then Flat(Marked("< ", dels)) + tail
        else Flat(Marked("< ", dels)) + ("---\n" + (Flat(Marked("> ", adds)) + tail))
      ensures Ascii(tail)
      ensures kind.Append? ==> SectionAhead('>', AppendType, adds, tail)
      ensures kind.Delete? ==> SectionAhead('<', DeleteType, dels, tail)
      ensures kind.Change? ==> SectionAhead('<', ChangeType, dels, "---\n" + (Flat(Marked("> ", adds)) + tail))
    {
      hide Flat, Marked;
      var m := if kind.Append? then Flat(Marked("> ", adds)) else Flat(Marked("< ", dels));
      assert "" + m == m && ['>', ' '] == "> " && ['<', ' '] == "< ";
      AsciiRest(dpos, m, if kind.Change? then "---\n" + (Flat(Marked("> ", adds)) + tail) else tail);
      if kind.Change? {
        var u := "---\n" + Flat(Marked("> ", adds));
        assert "---\n" + (Flat(Marked("> ", adds)) + tail) == u + tail;
        AsciiEnd(u, tail);
      }
    }

    lemma AsciiRest(pos: nat, m: string, rest: string)
      requires Ascii(diff) && pos <= |diff| && diff[pos..] == m + rest
      ensures Ascii(rest)
    {
      forall i | 0 <= i < |rest| ensures 0 < rest[i] as int < 128 {
        assert rest[i] == (m + rest)[|m| + i] == diff[pos + |m| + i];
      }
    }

    lemma AsciiEnd(u: string, rest: string)
      requires Ascii(u + rest)
      ensures Ascii(rest)
    {
      forall i | 0 <= i < |rest| ensures 0 < rest[i] as int < 128 { assert rest[i] == (u + rest)[|u| + i]; }
    }

    /** Behind the deletions of a change, the additions are next. */
    lemma SecondSection(adds: seq<string>, tail: string)
      requires AsciiLines(adds) && Ascii(Flat(adds)) && Ascii(tail)
      requires Ended(diff, Reader(), "---\n" + (Flat(Marked("> ", adds)) + tail))
      ensures Section('>', ChangeType, adds, false, tail)
    {
      hide Flat, Marked;
      var m := Flat(Marked("> ", adds));
      assert ("---\n" + (m + tail))[4..] == m + tail;
      assert "" + m == m && ['>', ' '] == "> ";
      assert "" + Flat(adds) == Flat(adds)[0..];
    }

    /** Behind the last section of a hunk, the next header is next, or the tail. */
    lemma NextHeader(d: seq<DiffHunk>, i: nat, t: string)
      requires i < |d| && AllProper(d) && GoesOn(d, i, t) && Ended(diff, Reader(), Behind(d, i + 1, t))
      ensures dpos <= |diff| && diff[dpos..] == Onward(d, i + 1, t)
    {
      TailFollows(d, i, t);
    }

    /** The reader stands behind the header of h, whose body is broken, and the input behind its first e
        lines. */
    ghost predicate Doomed(h: Hunk, lines: seq<string>, e: nat, count: int)
      reads `dpos, `lastChar, `errStatus, `lastUsed, `finished, `ipos
    {
      && InputAt(lines, e) && Counts(count, e) && !h.kind.NoType? && (h.kind.AppendType? ==> e <= h.oldStart)
      && BrokenBody(h, h.kind.AppendType? && Overrun(|lines|, e, h.oldStart) > 0)
    }

    lemma DoomedFacts(h: Hunk, lines: seq<string>, e: nat, count: int)
      requires Doomed(h, lines, e, count)
      ensures InputAt(lines, e) && Counts(count, e) && Ascii(input) && lastChar == NL && !h.kind.NoType?
      ensures !h.kind.AppendType? ==> BrokenBody(h, false)
      ensures h.kind.AppendType? ==> e <= h.oldStart && BrokenBody(h, CharBehind(lines, e, h.oldStart) != NL)
    {
      hide Overrun, BodyBroken;
      FlatAscii(lines);
    }

    /** One hunk of the main loop. */
    method ApplyOne(h: Hunk, count: int, ghost known: bool, ghost d: seq<DiffHunk>, ghost t: string, ghost lines: seq<string>, ghost i: nat, ghost e: nat, ghost bad: bool) returns (ok: bool, count': int)
      requires bad ==> !known && Doomed(h, lines, e, count)
      requires known ==> Prints(d, t, lines) && Along(d, lines, i, e, count) && i < |d| && h == HunkOf(d[i]) && BodyAt(d, i, t)
      requires known ==> Ordered(d[..i + 1]) && e <= Place(d[i])
      requires h.oldStart <= h.oldEnd && h.newStart <= h.newEnd
      modifies this
      ensures old(dpos) <= dpos
      ensures known ==> ok == (Passes(d[i], lines) && GoesOn(d, i, t))
      ensures known && ok ==> Along(d, lines, i + 1, EndOf(d[..i + 1]), count')
      ensures known && ok ==> dpos <= |diff| && diff[dpos..] == Onward(d, i + 1, t)
      ensures bad ==> !ok
    {
      hide BrokenBody, Course, Counts, CharBehind, Overrun, Ascii, Behind, Onward, InputFrom, Section, Ended, Prints, Along, BodyAt, Flat, PrintAll, Ordered, Fits, Follows, SectionAhead, Copied, Shown, Upto, EndOf, Within;
      ghost var c, tail, at, o := if known then d[i] else DiffHunk(Append, 0, 0, 0, 0, [], []), "", 0, out;
      ghost var over := false;
      if known {
        OneFacts(d, t, lines, i, e, count);
        BodySections(d, t, lines, i);
        PlaceIs(c);
        tail, at := Behind(d, i + 1, t), Place(c);
        over := Overrun(|lines|, e, at) > 0;
        ShownNone('>', over, c.adds);
      }
      if bad { DoomedFacts(h, lines, e, count); }
      ok, count' := true, count;
      if h.kind.DeleteType? {
        ok, count' := HandleDelete(h, count, known, lines, e, at, c.dels, tail, bad);
        if known && ok { FilledDelete(o, c, lines, e); }
      }
      if h.kind.AppendType? {
        ghost var st := Reader();
        if known { AheadFacts('>', h.kind, c.adds, tail); }
        if bad {
          at := h.oldStart;
          BodyErrs(h, st.(lastChar := CharBehind(lines, e, at)));
        }
        count' := CopyThrough(count, h.oldStart, known || bad, lines, e, at);
        if known { SectionFrom('>', h.kind, c.adds, tail, st, lines, e, at); }
        var r := AppendLines(h, known, c.adds, over, tail);
        if r < 0 {
          return false, count';
        }
        if known { FilledAppend(o, c, lines, e); }
      }
      if h.kind.ChangeType? {
        ghost var second := "---\n" + (Flat(Marked("> ", c.adds)) + tail);
        DashesFollow(Flat(Marked("> ", c.adds)) + tail);
        ok, count' := HandleDelete(h, count, known, lines, e, at, c.dels, second, bad);
        if ok {
          if known { SecondSection(c.adds, tail); }
          var r := AppendLines(h, known, c.adds, false, tail);
          if r < 0 {
            return false, count';
          }
          if known { FilledChange(o, c, lines, e); }
        }
      }
      if known {
        PassPrefix(c, lines);
        if ok {
          NextHeader(d, i, t);
          AlongNext(o, d, lines, i, e, count');
        }
      }
    }

    lemma AheadFacts(mark: char, kind: HunkType, ls: seq<string>, rest: string)
      requires SectionAhead(mark, kind, ls, rest)
      ensures lastChar == NL && ls != [] && AsciiLines(ls) && AreLines(ls) && Ascii(Flat(ls)) && Allowed(mark, kind) && Ascii(rest)
      ensures Within(diff, Reader(), mark, "", ls, rest)
    {
    }

    lemma SectionFrom(mark: char, kind: HunkType, ls: seq<string>, rest: string, st: State, lines: seq<string>, e: nat, at: nat)
      requires st.lastChar == NL && Reader() == st.(lastChar := CharBehind(lines, e, at)) && ls != [] && AsciiLines(ls) && AreLines(ls) && Ascii(Flat(ls))
      requires Allowed(mark, kind) && Ascii(rest) && (mark == '<' || mark == '>') && Within(diff, st, mark, "", ls, rest)
      ensures Section(mark, kind, ls, Overrun(|lines|, e, at) > 0, rest)
    {
      SectionBehind(mark, kind, ls, rest, st, lines, e, at);
    }

    lemma OneFacts(d: seq<DiffHunk>, t: string, lines: seq<string>, i: nat, e: nat, count: int)
      requires Prints(d, t, lines) && Along(d, lines, i, e, count) && i < |d|
      ensures AllProper(d) && Proper(d[i]) && InputAt(lines, e) && Counts(count, e) && AllProper(d[..i]) && AllPass(d[..i], lines)
      ensures AsciiLines(d[i].dels) && AsciiLines(d[i].adds) && out == Upto(d[..i], lines) && e == EndOf(d[..i])
    {
    }

    /** Hunk i has been applied behind output o. */
    lemma AlongNext(o: string, d: seq<DiffHunk>, lines: seq<string>, i: nat, e: nat, count: int)
      requires AllProper(d) && i < |d| && Ordered(d[..i + 1]) && AllPass(d[..i], lines) && Passes(d[i], lines)
      requires AllProper(d[..i]) && o == Upto(d[..i], lines) && e == EndOf(d[..i])
      requires out == o + WrittenFor(d[i], lines, e) && InputAt(lines, Place(d[i]) + |d[i].dels|) && count == Place(d[i]) + |d[i].dels| + 1
      ensures Along(d, lines, i + 1, EndOf(d[..i + 1]), count)
    {
      hide InputFrom, WrittenFor, Ordered, Flat, Passes;
      var g, c := d[..i + 1], d[..i];
      assert g[..|g| - 1] == c && g[|g| - 1] == d[i];
      assert Proper(d[i]);
      forall j | 0 <= j < |g| ensures Passes(g[j], lines) { if j < i { assert g[j] == c[j]; } }
    }

    lemma StartAlong(d: seq<DiffHunk>, t: string, lines: seq<string>)
      requires Prints(d, t, lines) && ipos == 0 && out == "" && dpos == 0
      ensures Along(d, lines, 0, 0, 0) && AllProper(d) && diff[dpos..] == Onward(d, 0, t)
    {
      assert d[..0] == [] && d[0..] == d && lines[..0] == [] && diff[0..] == diff;
      if d == [] { assert diff == "" + t == t; }
    }

    /** The test for overlap fails exactly the diffs that are not ordered. */
    lemma OrderTest(d: seq<DiffHunk>, t: string, lines: seq<string>, i: nat, e: nat, count: int)
      requires Prints(d, t, lines) && Along(d, lines, i, e, count) && i < |d|
      ensures HunkOf(d[i]).oldStart <= HunkOf(d[i]).oldEnd && HunkOf(d[i]).newStart <= HunkOf(d[i]).newEnd
      ensures i > 0 && d[i - 1].oldEnd >= d[i].oldStart ==> !Ordered(d)
      ensures i == 0 || d[i - 1].oldEnd < d[i].oldStart ==> Ordered(d[..i + 1]) && e <= Place(d[i])
    {
      hide PrintAll, Flat, Upto, InputFrom, AllPass, AsciiLines, AreLines, Ascii, Counts;
      var c, g := d[..i], d[..i + 1];
      assert Proper(d[i]);
      if i > 0 {
        assert c[|c| - 1] == d[i - 1];
        assert d[i - 1].oldEnd >= d[i].oldStart ==> !(d[i - 1].oldEnd < d[i - 1 + 1].oldStart);
      }
      if i == 0 || d[i - 1].oldEnd < d[i].oldStart {
        forall j | 0 <= j < |g| - 1 ensures g[j].oldEnd < g[j + 1].oldStart { if j + 1 < i { assert c[j].oldEnd < c[j + 1].oldStart; } }
      }
    }

    lemma AllAlong(d: seq<DiffHunk>, lines: seq<string>, i: nat, e: nat, count: int)
      requires Along(d, lines, i, e, count) && i == |d|
      ensures AllProper(d) && Ordered(d) && AllPass(d, lines) && InputAt(lines, e) && e == EndOf(d) && out == Upto(d, lines)
    {
      assert d[..i] == d;
    }

    lemma Misfit(d: seq<DiffHunk>, t: string, lines: seq<string>, i: nat)
      requires AllProper(d) && i < |d| && !(Passes(d[i], lines) && GoesOn(d, i, t))
      ensures !AllPass(d, lines) || !Accepts(d, t)
    {
      if Passes(d[i], lines) { TailFollows(d, i, t); }
    }

    lemma RestBehind(lines: seq<string>, e: nat)
      requires InputAt(lines, e)
      ensures Ascii(input) && ipos <= |input| && input[ipos..] == Flat(lines[Cap(e, |lines|)..])
    {
      CapInput(lines, e, ipos);
      RestOfInput(lines, Cap(e, |lines|), ipos);
      FlatAscii(lines);
    }

    /** The hunk found behind the print of d is doomed if its body is broken. */
    lemma TailDoomed(d: seq<DiffHunk>, lines: seq<string>, e: nat, count: int, ls: seq<string>, p: string, h: Hunk)
      requires Along(d, lines, |d|, e, count) && (d != [] ==> HunkOf(d[|d| - 1]).oldEnd < h.oldStart)
      requires (forall i :: 0 <= i < |ls| ==> ls[i] != "") && LeadsAstray(Scan(ls, p, true), p, |lines|) && Stands(Scan(ls, p, true), h, p)
      ensures Doomed(h, lines, e, count)
    {
      hide Scan, BodyBroken, Flat, Upto, AllPass, Ordered;
      ScanNat(ls, p, true);
      assert d[..|d|] == d;
      var rest := Scan(ls, p, true).rest;
      FlatAscii(rest);
      AsciiJoin(Flat(rest), p);
    }

    /** From start to end the input has been written behind before, ASCII characters all of it. */
    ghost predicate CopiedTo(start: nat, end: nat, before: string)
      reads `out
    {
      start <= end <= |input| && out == before + input[start..end] && Ascii(input[start..end])
    }

    ghost predicate StopsAt(end: nat) {
      end < |input| ==> !(0 < input[end] as int < 128)
    }

    /** The loop at the end of patch: the rest of the input, up to a byte that is no ASCII character. */
    method CopyRest() returns (ghost end: nat)
      modifies `ipos, `out
      ensures old(ipos) <= |input| ==> CopiedTo(old(ipos), end, old(out)) && StopsAt(end)
    {
      end := ipos;
      ghost var ip0 := ipos;
      var c := FgetcIn();
      while c > 0
        invariant ip0 <= |input| ==> CopiedTo(ip0, end, old(out))
        invariant c == CharAt(input, end) && ipos == if end < |input| then end + 1 else end
        decreases |input| - end
      {
        assert ip0 <= |input| ==> input[ip0..end + 1] == input[ip0..end] + [input[end]];
        out := out + [OutChar(c)];
        end := end + 1;
        c := FgetcIn();
      }
    }

    /** What is left when there is no further hunk. */
    method EndRun(ghost on: bool, ghost d: seq<DiffHunk>, ghost t: string, ghost lines: seq<string>, ghost e: nat, ghost count: int)
      requires on ==> Prints(d, t, lines) && Along(d, lines, |d|, e, count)
      modifies `ipos, `out
      ensures on ==> AllProper(d) && Ordered(d) && AllPass(d, lines) && out == Output(d, lines)
      ensures on ==> if AllFit(d, lines) then out == Flat(Splice(lines, EditsOf(d))) else !Ascii(out)
      ensures old(ipos) == 0 && old(out) == "" ==> out <= input && Ascii(out) && (out == input || !(0 < input[|out|] as int < 128))
    {
      hide CopiedTo, StopsAt, Along, Prints, AllPass, AllFit, Ordered, EditsOf, InputFrom, AllProper, Upto, EndOf, Splice, Ascii, Flat;
      if on {
        AllAlong(d, lines, |d|, e, count);
        RestBehind(lines, e);
        WhatIsOut(d, t, lines);
      }
      ghost var start, before := ipos, out;
      ghost var end := CopyRest();
      if start <= |input| { WhatIsCopied(start, end, before); }
    }

    /** patch on the print of proper hunks with any text behind it.  If that text cannot follow the last
        hunk the answer is -1.  Else, unless hunk_next finds a further hunk in it, the answer is 0 exactly
        if the hunks are in order and their deletions are the lines of the file: so hunk_next may have
        answered ERR, and the answer is 0 all the same.  Then the output is the edited file if no append
        goes behind the end of the file, and else not even text.  If the diff holds no hunk the reader can
        find, the output is the input up to the first byte that is no ASCII character, and the answer 0.  Where hunk_next
        finds a further hunk in the text behind, and its body is not what its header says, the answer is -1.
        last is the last answer of hunk_next. */
    method Patch(h0: Hunk, ghost d: seq<DiffHunk>, ghost t: string, ghost ls: seq<string>, ghost p: string, ghost lines: seq<string>) returns (rc: int, ghost last: int)
      requires Reader() == Fresh() && ipos == 0 && out == ""
      modifies this
      ensures rc in {0, -1}
      ensures Printed(d, t, ls, p, lines) && !Accepts(d, t) ==> rc == -1
      ensures Printed(d, t, ls, p, lines) && Accepts(d, t) && !Scan(ls, p, true).Found? ==> (rc == 0 <==> Ordered(d) && AllPass(d, lines))
      ensures Printed(d, t, ls, p, lines) && !Scan(ls, p, true).Found? && rc == 0 ==> out == Output(d, lines) && last == StatusOf(Scan(ls, p, true))
      ensures Printed(d, t, ls, p, lines) && !Scan(ls, p, true).Found? && rc == 0 ==> if AllFit(d, lines) then out == Flat(Splice(lines, EditsOf(d))) else !Ascii(out)
      ensures HunkNext(diff, Fresh(), h0).status < 0 ==> rc == 0 && out <= input && Ascii(out) && (out == input || !(0 < input[|out|] as int < 128))
      ensures Printed(d, t, ls, p, lines) && LeadsAstray(Scan(ls, p, true), p, |lines|) ==> rc == -1
    {
      hide CopiedTo, StopsAt, LeadsAstray, Stands, Doomed, TextIs, AsciiLines, Along, Prints, HunkNext, BodyAt, AllPass, AllFit, Ordered, EditsOf, InputFrom, Fits, EditOf, AllProper, PrintAll, Proper, Onward, Scan, Accepts, GoesOn, Upto, EndOf, Splice, Ascii, TailAt, Place, Flat, Overrun;
      ghost var known := Printed(d, t, ls, p, lines);
      if known { TextLines(TailAt(d, t), ls, p); }
      ghost var on, v := known, if known then Scan(ls, p, true) else End;
      ghost var i: nat, e: nat := 0, 0;
      var count, firstTime, prev := 0, true, h0;
      if known { StartAlong(d, t, lines); NoneAccepts(d, t); }
      if known && LeadsAstray(v, p, |lines|) { AstrayFound(v, p, |lines|); }
      var status, h := NextOf(h0, known, d, 0, t, ls, p);
      ghost var empty := status < 0;
      while status >= 0
        invariant (empty ==> status < 0 && ipos == 0 && out == "") && status in {0, EOF, ERR}
        invariant on ==> known && i <= |d| && Along(d, lines, i, e, count) && firstTime == (i == 0) && (i > 0 ==> prev == HunkOf(d[i - 1]))
        invariant on ==> if i < |d| then status == 0 && h == HunkOf(d[i]) && BodyAt(d, i, t) else Accepts(d, t) && status == StatusOf(v) && Stands(v, h, p)
        invariant known && !on ==> Accepts(d, t) && v.Found? && !LeadsAstray(v, p, |lines|)
        decreases Left(), status == 0
      {
        ghost var bad := on && i == |d| && LeadsAstray(v, p, |lines|);
        if on && i == |d| { on := false; }
        if on { OrderTest(d, t, lines, i, e, count); }
        if !firstTime && prev.oldEnd >= h.oldStart {
          return -1, status;
        }
        if h.oldEnd < h.oldStart || h.newEnd < h.newStart {
          return -1, status;
        }
        firstTime := false;
        if bad { TailDoomed(d, lines, e, count, ls, p, h); }
        var ok;
        ok, count := ApplyOne(h, count, on, d, t, lines, i, e, bad);
        if !ok {
          if on { Misfit(d, t, lines, i); }
          return -1, status;
        }
        prev := h;
        if on { e := EndOf(d[..i + 1]); LastAccepts(d, t, i); }
        i := i + 1;
        status, h := NextOf(h, on, d, i, t, ls, p);
      }
      EndRun(on, d, t, lines, e, count);
      rc, last := 0, status;
    }

    lemma WhatIsCopied(start: nat, end: nat, before: string)
      requires CopiedTo(start, end, before) && StopsAt(end)
      ensures Ascii(input) ==> out == before + input[start..]
      ensures start == 0 && before == "" ==> out == input[..end] && out <= input && Ascii(out) && (out == input || !(0 < input[|out|] as int < 128))
    {
      if start == 0 && before == "" { assert out == input[..end]; }
    }

    lemma WhatIsOut(d: seq<DiffHunk>, t: string, lines: seq<string>)
      requires Prints(d, t, lines) && Ordered(d) && AllPass(d, lines)
      ensures if AllFit(d, lines) then Output(d, lines) == Flat(Splice(lines, EditsOf(d))) else !Ascii(Output(d, lines))
    {
      hide AllPass, AllFit, Ordered, Output, Splice, EditsOf, Flat, Ascii;
      OutputEdited(d, lines);
      OutputForeign(d, lines);
    }

    /** The diff is a print and a tail; what hunk_next is to look at behind the last hunk are the lines ls
        and then p. */
    ghost predicate Printed(d: seq<DiffHunk>, t: string, ls: seq<string>, p: string, lines: seq<string>) {
      Prints(d, t, lines) && TextIs(TailAt(d, t), ls, p)
    }
  }

  /** The reader before its first call. */
  function Fresh(): State {
    State(0, 0, 0, FxnNone, 0)
  }

  /** The checks of hunk_next behind a header that has been read. */
  function HeaderDone(h: Hunk, st: State): Read {
    if (h.oldEnd != h.oldStart && h.kind.AppendType?) || (h.newEnd != h.newStart && h.kind.DeleteType?) then
      Read(ERR, h, st.(errStatus := ERR))
    else Read(0, h, st.(errStatus := 0, finished := 0))
  }

  ghost predicate LineIn(s: string, start: nat, l: string) {
    IsLine(l) && Ascii(l) && start + |l| <= |s| && s[start..start + |l|] == l
  }

  /** What has been copied of line l behind start. */
  ghost predicate LineCopied(s: string, start: nat, pos: nat, before: string, o: string, l: string) {
    LineIn(s, start, l) && start <= pos <= start + |l| && o == before + l[..pos - start]
  }

  lemma LineStarts(s: string, start: nat, o: string, l: string)
    requires LineIn(s, start, l)
    ensures LineCopied(s, start, start, o, o, l)
  {
  }

  lemma LineGoesOn(s: string, start: nat, pos: nat, before: string, o: string, l: string)
    requires LineCopied(s, start, pos, before, o, l) && pos < start + |l|
    ensures pos < |s| && CharAt(s, pos) > 0 && LineCopied(s, start, pos + 1, before, o + [OutChar(CharAt(s, pos))], l)
    ensures if pos + 1 == start + |l| then CharAt(s, pos) == NL && o + [OutChar(CharAt(s, pos))] == before + l else CharAt(s, pos) != NL
  {
    var k := pos - start;
    assert s[pos] == s[start..start + |l|][k];
    assert l[..k + 1] == l[..k] + [l[k]];
  }

  /** From start to pos the input, in which no newline comes any more, has been written behind before. */
  ghost predicate RestCopied(input: string, start: nat, pos: nat, before: string, o: string) {
    && start <= pos <= |input| && o == before + input[start..pos] && Ascii(input)
    && forall i :: start <= i < |input| ==> input[i] != '\n'
  }

  lemma RestStarts(input: string, pos: nat, o: string)
    requires Ascii(input) && pos <= |input| && forall i :: pos <= i < |input| ==> input[i] != '\n'
    ensures RestCopied(input, pos, pos, o, o)
  {
    assert o + input[pos..pos] == o;
  }

  lemma RestGoesOn(input: string, start: nat, pos: nat, before: string, o: string)
    requires RestCopied(input, start, pos, before, o)
    ensures pos < |input| ==> CharAt(input, pos) > 0 && CharAt(input, pos) != NL && RestCopied(input, start, pos + 1, before, o + [OutChar(CharAt(input, pos))])
    ensures pos >= |input| ==> pos == |input| && CharAt(input, pos) == EOF && o == before + input[start..]
  {
    if pos < |input| { assert input[start..pos + 1] == input[start..pos] + [input[pos]]; } else { assert input[start..pos] == input[start..]; }
  }

  /** The input from ip0 to pos is the first k characters of t. */
  ghost predicate Matched(input: string, ip0: nat, pos: nat, t: string, k: nat) {
    k <= |t| && pos == ip0 + k <= |input| && input[ip0..pos] == t[..k]
  }

  lemma MatchStart(input: string, ip0: nat, t: string)
    requires ip0 <= |input|
    ensures Matched(input, ip0, ip0, t, 0)
  {
  }

  lemma AsciiStart(u: string, t: string)
    requires u <= t && Ascii(t)
    ensures forall i :: 0 <= i < |u| ==> u[i] == t[i] && 0 < u[i] as int < 128
  {
  }

  lemma MatchStep(input: string, ip0: nat, pos: nat, t: string, k: nat)
    requires Matched(input, ip0, pos, t, k) && k < |t| && 0 < t[k] as int < 128
    ensures CharAt(input, pos) == t[k] as int ==> pos < |input| && Matched(input, ip0, pos + 1, t, k + 1)
  {
    if CharAt(input, pos) == t[k] as int {
      assert input[pos] as int < 128 && input[pos] == t[k];
      assert input[ip0..pos + 1] == input[ip0..pos] + [input[pos]];
      assert t[..k + 1] == t[..k] + [t[k]];
    }
  }

  /** The first k characters of text t have been written, with n line ends among them. */
  ghost predicate Taken(o: string, before: string, t: string, k: nat, n: nat) {
    k <= |t| && o == before + t[..k] && n == CountNL(t[..k])
  }

  lemma TakenNone(o: string, t: string)
    ensures Taken(o, o, t, 0, 0)
  {
    CountNone(t[..0]);
  }

  lemma TakenMore(o: string, before: string, ls: seq<string>, k: nat, n: nat, c: int)
    requires AreLines(ls) && Taken(o, before, Flat(ls), k, n) && k < |Flat(ls)| && c == Flat(ls)[k] as int && OutChar(c) == Flat(ls)[k]
    ensures Taken(o + [OutChar(c)], before, Flat(ls), k + 1, n + if c == NL then 1 else 0)
  {
    hide CountNL, OutChar, AreLines, Flat;
    CountedSoFar(ls, k);
    assert Flat(ls)[..k + 1] == Flat(ls)[..k] + [Flat(ls)[k]];
  }

  lemma TakenAll(o: string, before: string, ls: seq<string>, k: nat, n: nat)
    requires AreLines(ls) && Taken(o, before, Flat(ls), k, n)
    ensures n <= |ls| && (n == |ls| <==> k == |Flat(ls)|) && (k == |Flat(ls)| ==> o == before + Flat(ls))
  {
    hide CountNL, AreLines, Flat;
    CountedSoFar(ls, k);
  }

  lemma TextChar(s: string, st: State, kind: HunkType, mark: char, t: string, k: nat, l: string, ls: seq<string>, rest: string, c: int)
    requires Answered(s, st, kind, mark, t, k, l, ls, rest, c) && c > 0 && Ascii(t) && k < |t|
    ensures OutChar(c) == t[k] && t[..k + 1] == t[..k] + [t[k]]
  {
  }

  /** lineCount is the number of the next line of the input, or 0 before the first. */
  predicate Counts(count: int, e: nat) {
    e == if count == 0 then 0 else count - 1
  }

  /** The lines of a printed hunk behind its header. */
  function BodyLines(h: DiffHunk): seq<string> {
    Marked("< ", h.dels) + (if h.kind.Change? then ["---\n"] else []) + Marked("> ", h.adds)
  }

  // ---------------------------------------------------------------- the tail behind a printed diff

  /** The diff from its i-th hunk on: the print of d and then t. */
  function Behind(d: seq<DiffHunk>, i: nat, t: string): string
    requires i <= |d|
  {
    Flat(PrintAll(d[i..])) + t
  }

  /** Text t can stand behind the last hunk of d: it starts with a digit, or, behind a change, with the
      line that comes in front of additions. */
  predicate Accepts(d: seq<DiffHunk>, t: string) {
    d == [] || Follows(t, KindOf(d[|d| - 1].kind))
  }

  predicate GoesOn(d: seq<DiffHunk>, i: nat, t: string)
    requires i < |d|
  {
    Follows(Behind(d, i + 1, t), KindOf(d[i].kind))
  }

  /** What hunk_next gets to see of t behind the last hunk. */
  function TailAt(d: seq<DiffHunk>, t: string): string {
    if d != [] && d[|d| - 1].kind.Change? && "---\n" <= t then t[4..] else t
  }

  /** What hunk_next gets to see behind the first i hunks. */
  function Onward(d: seq<DiffHunk>, i: nat, t: string): string
    requires i <= |d|
  {
    if i < |d| then Behind(d, i, t) else TailAt(d, t)
  }

  predicate TextIs(u: string, ls: seq<string>, p: string) {
    u == Flat(ls) + p && AsciiLines(ls) && Ascii(p) && '\n' !in p
  }

  lemma TextLines(u: string, ls: seq<string>, p: string)
    requires TextIs(u, ls, p)
    ensures forall i :: 0 <= i < |ls| ==> ls[i] != ""
  {
  }

  /** A hunk found in front of a body that is broken.  Where an append goes behind the end of a file of n
      lines the first line of its body is taken for text, mark and all. */
  predicate LeadsAstray(v: Verdict, p: string, n: nat) {
    match v
    case Found(h, rest) => BodyBroken(Flat(rest) + p, h, h.kind.AppendType? && h.oldStart > n)
    case _ => false
  }

  lemma AstrayFound(v: Verdict, p: string, n: nat)
    requires LeadsAstray(v, p, n)
    ensures v.Found?
  {
  }

  lemma HeaderNat(l: string)
    ensures HeaderOf(l).IsHeader? ==> HeaderOf(l).h.oldStart >= 0 && !HeaderOf(l).h.kind.NoType?
  {
  }

  /** Numbers read are not negative. */
  lemma {:induction false} ScanNat(ls: seq<string>, p: string, first: bool)
    requires forall i :: 0 <= i < |ls| ==> ls[i] != ""
    ensures Scan(ls, p, first).Found? ==> Scan(ls, p, first).h.oldStart >= 0 && !Scan(ls, p, first).h.kind.NoType?
    decreases |ls|
  {
    hide HeaderOf, Swallows, Foreign, Forbidden;
    if ls != [] {
      HeaderNat(ls[0]);
      ScanNat(ls[1..], p, false);
      if |ls| > 1 { ScanNat(ls[2..], p, false); }
    }
  }

  function StatusOf(v: Verdict): int {
    match v case End => EOF case Broken => ERR case Found(_, _) => 0
  }

  /** A diff with nothing behind its last hunk. */
  lemma NoTail(d: seq<DiffHunk>)
    ensures Flat(PrintAll(d)) + "" == Flat(PrintAll(d)) && Ascii("")
    ensures Accepts(d, "") && TextIs(TailAt(d, ""), [], "") && Scan([], "", true) == End
  {
  }

  /** One deletion, of a line a. */
  function DeletesA(): seq<DiffHunk> {
    [DiffHunk(Delete, 1, 1, 0, 0, ["a\n"], [])]
  }

  /** A deletion that fits, and behind it a line that starts with a digit but is no header, and one that
      is foreign. */
  lemma BrokenTail()
    ensures var d, t, ls := DeletesA(), "1x\ny\n", ["1x\n", "y\n"];
      AllProper(d) && Ordered(d) && AllFit(d, ["a\n"]) && Accepts(d, t) && TextIs(TailAt(d, t), ls, "") && Scan(ls, "", true) == Broken
  {
    var ls, l := ["1x\n", "y\n"], "1x\n";
    assert ls[1..] == ["y\n"] && ["y\n"][1..] == [];
    assert Flat(ls) + "" == "1x\ny\n";
    assert Lead(l) == "1" by { assert l[1..] == "x\n" && Lead("x\n") == ""; }
    assert l[1..] == "x\n";
    assert PairOf(l).2 == "x\n";
    assert Scan(ls[1..], "", false) == Broken;
    assert ["a\n"][0..1] == ["a\n"];
  }

  /** There hunk_next answers ERR, and patch answers 0. */
  method PromiseBroken() returns (rc: int, ghost last: int)
    ensures rc == 0 && last == ERR
  {
    hide Scan, AllProper, AllFit, Ordered, Accepts, PrintAll, HunkNext, Flat;
    BrokenTail();
    var t, lines := "1x\ny\n", ["a\n"];
    ghost var d := DeletesA();
    var fliki := new Applier(Flat(PrintAll(DeletesA())) + t, Flat(lines));
    assert fliki.Printed(d, t, ["1x\n", "y\n"], "", lines);
    rc, last := fliki.Patch(Hunk(NoType, 0, 0, 0, 0), d, t, ["1x\n", "y\n"], "", lines);
  }

  /** A tab where the blank behind the mark belongs: hunk_getc answers ERR, and patch -1. */
  method TabForBlank() returns (rc: int)
    ensures rc == -1
  {
    hide AllProper, AllFit, AllPass, Ordered, Accepts, PrintAll, HunkNext, Scan, LeadsAstray, Flat;
    var ls, lines := ["1d0\n", "<\ta\n"], ["a\n"];
    TabFacts();
    var fliki := new Applier("1d0\n<\ta\n", "a\n");
    TabPrinted(fliki);
    ghost var last;
    rc, last := fliki.Patch(Hunk(NoType, 0, 0, 0, 0), [], "1d0\n<\ta\n", ls, "", lines);
  }

  lemma TabPrinted(fliki: Applier)
    requires fliki.diff == "1d0\n<\ta\n" && fliki.input == "a\n"
    ensures fliki.Printed([], "1d0\n<\ta\n", ["1d0\n", "<\ta\n"], "", ["a\n"])
  {
    hide Scan;
    var ls, t := ["1d0\n", "<\ta\n"], "1d0\n<\ta\n";
    assert ls[1..] == ["<\ta\n"] && Flat(ls[1..]) == "<\ta\n" by { assert ["<\ta\n"][1..] == []; }
    assert Flat(ls) + "" == t && "" + t == t;
    assert ["a\n"][1..] == [];
  }

  lemma TabFacts()
    ensures LeadsAstray(Scan(["1d0\n", "<\ta\n"], "", true), "", 1)
  {
    var ls, l := ["1d0\n", "<\ta\n"], "1d0\n";
    assert ls[1..] == ["<\ta\n"] && Flat(ls[1..]) == "<\ta\n" by { assert ["<\ta\n"][1..] == []; }
    assert Lead(l) == "1" by { assert l[1..] == "d0\n" && Lead("d0\n") == ""; }
    assert l[1..] == "d0\n" && "d0\n"[1..] == "0\n";
    assert Lead("0\n") == "0" by { assert "0\n"[1..] == "\n" && Lead("\n") == ""; }
    assert PairOf("0\n").2 == "\n" && PairOf(l).2 == "d0\n";
    assert Scan(ls, "", true).Found? && Scan(ls, "", true).rest == ls[1..];
    var b := "<\ta\n";
    assert Flat(ls[1..]) + "" == b;
  }

  /** One addition, of a line x behind line 5. */
  function AddsX(): seq<DiffHunk> {
    [DiffHunk(Append, 5, 5, 6, 6, [], ["x\n"])]
  }

  lemma AddsXFacts()
    ensures var d := AddsX(); AllProper(d) && Ordered(d) && AllPass(d, ["a\n"]) && !AllFit(d, ["a\n"]) && Accepts(d, "")
    ensures Output(AddsX(), ["a\n"]) == "a\n\U{00FF}\U{00FF}\U{00FF}\U{00FF}> x\n"
  {
    var d, lines := AddsX(), ["a\n"];
    assert lines[0..1] == lines && lines[1..] == [] && d[..0] == [];
    assert Flat(lines) == "a\n";
    assert ["x\n"][1..] == [] && ['>', ' '] + "x\n" == "> x\n";
    assert Shown('>', true, ["x\n"]) == ["> x\n"] + [];
    FlatOne("> x\n");
    assert Copied(lines, 0, 5) == "a\n" + Filler(4);
    assert Upto([], lines) == "";
    assert Upto(d, lines) == "" + ("a\n" + Filler(4) + "> x\n");
    assert Output(d, lines) == Upto(d, lines) + "";
    assert Filler(4) == "\U{00FF}\U{00FF}\U{00FF}\U{00FF}";
  }

  /** An append four lines behind the end of a file of one line: patch answers 0, and the output has the
      end-of-file value four times, and the mark of the added line in its text. */
  method AppendPastEnd() returns (rc: int, output: string)
    ensures rc == 0 && output == "a\n\U{00FF}\U{00FF}\U{00FF}\U{00FF}> x\n"
  {
    hide Scan, AllProper, AllFit, AllPass, Ordered, Accepts, PrintAll, HunkNext, Flat, Output;
    AddsXFacts();
    NoTail(AddsX());
    var lines := ["a\n"];
    ghost var d, last := AddsX(), 0;
    var fliki := new Applier(Flat(PrintAll(AddsX())), Flat(lines));
    assert fliki.Printed(d, "", [], "", lines);
    rc, last := fliki.Patch(Hunk(NoType, 0, 0, 0, 0), d, "", [], "", lines);
    output := fliki.out;
  }

  lemma NextMoves(s: string, st: State, h: Hunk)
    ensures var r := HunkNext(s, st, h); st.pos <= r.st.pos && (r.status == 0 ==> st.pos < |s| && st.pos < r.st.pos) && r.status in {0, EOF, ERR}
  {
    NextConsumes(s, st.(lastUsed := FxnNext), h, true);
  }

  lemma DashesFollow(u: string)
    ensures Follows("---\n" + u, ChangeType)
  {
    assert ("---\n" + u)[..4] == "---\n";
  }

  lemma NoneAccepts(d: seq<DiffHunk>, t: string)
    ensures d == [] ==> Accepts(d, t)
  {
  }

  lemma LastAccepts(d: seq<DiffHunk>, t: string, i: nat)
    requires i < |d| && AllProper(d) && GoesOn(d, i, t)
    ensures i + 1 == |d| ==> Accepts(d, t)
  {
    TailFollows(d, i, t);
  }

  /** Behind a hunk comes a header, or the tail. */
  lemma TailFollows(d: seq<DiffHunk>, i: nat, t: string)
    requires AllProper(d) && i < |d|
    ensures i + 1 < |d| ==> GoesOn(d, i, t) && !("---\n" <= Behind(d, i + 1, t))
    ensures i + 1 == |d| ==> Behind(d, i + 1, t) == t
  {
    hide Header;
    if i + 1 < |d| {
      FlatFrom(d, i + 1, t);
      PrintIsLines(d[i + 1]);
      var tail := Behind(d, i + 1, t);
      assert tail[0] == Header(d[i + 1])[0];
      assert "---\n"[0] == '-';
    } else {
      assert d[i + 1..] == [] && "" + t == t;
    }
  }

  lemma AsciiJoin(u: string, t: string)
    requires Ascii(u) && Ascii(t)
    ensures Ascii(u + t)
  {
  }

  lemma HeaderAscii(h: DiffHunk)
    ensures Ascii(Header(h))
  {
    hide Num;
    ValueOfNum(h.oldStart);
    ValueOfNum(h.oldEnd);
    ValueOfNum(h.newStart);
    ValueOfNum(h.newEnd);
  }

  lemma MarkedAscii(mark: string, ls: seq<string>)
    requires Ascii(mark) && '\n' !in mark && AsciiLines(ls)
    ensures AsciiLines(Marked(mark, ls))
  {
  }

  lemma {:induction false} PrintAscii(d: seq<DiffHunk>)
    requires AllProper(d) && forall i :: 0 <= i < |d| ==> AsciiLines(d[i].dels) && AsciiLines(d[i].adds)
    ensures Ascii(Flat(PrintAll(d)))
  {
    hide Header, Marked;
    if d != [] {
      var h := d[0];
      PrintAscii(d[1..]);
      HeaderAscii(h);
      PrintIsLines(h);
      MarkedAscii("< ", h.dels);
      MarkedAscii("> ", h.adds);
      assert AsciiLines(Print(h));
      FlatAscii(Print(h));
      FlatAppend(Print(h), PrintAll(d[1..]));
    }
  }

  lemma FlatFrom(d: seq<DiffHunk>, i: nat, t: string)
    requires i < |d|
    ensures Behind(d, i, t) == Header(d[i]) + (Flat(BodyLines(d[i])) + Behind(d, i + 1, t))
  {
    hide Header;
    var p := Print(d[i]);
    PrintFrom(d, i);
    assert p == [Header(d[i])] + BodyLines(d[i]);
    FlatAppend([Header(d[i])], BodyLines(d[i]));
    FlatOne(Header(d[i]));
    FlatAppend(p, PrintAll(d[i + 1..]));
    JoinFront(Header(d[i]), Flat(BodyLines(d[i])), Flat(PrintAll(d[i + 1..])), t);
  }

  lemma JoinFront(a: string, b: string, c: string, t: string)
    ensures a + b + c + t == a + (b + (c + t))
  {
  }

  /** The text of a hunk's body, section by section. */
  lemma BodyFlat(c: DiffHunk, tail: string)
    requires Proper(c)
    ensures Flat(BodyLines(c)) + tail ==
      if c.kind.Append? then Flat(Marked("> ", c.adds)) + tail
      else if c.kind.Delete? then Flat(Marked("< ", c.dels)) + tail
      else Flat(Marked("< ", c.dels)) + ("---\n" + (Flat(Marked("> ", c.adds)) + tail))
  {
    var m, n := Marked("< ", c.dels), Marked("> ", c.adds);
    if c.kind.Append? {
      assert m == [] && BodyLines(c) == n;
    } else if c.kind.Delete? {
      assert n == [] && BodyLines(c) == m;
    } else {
      FlatAppend(m + ["---\n"], n);
      FlatAppend(m, ["---\n"]);
      FlatOne("---\n");
      JoinThree(Flat(m), "---\n", Flat(n), tail);
    }
  }

  lemma JoinThree(a: string, b: string, c: string, d: string)
    ensures a + b + c + d == a + (b + (c + d))
  {
  }
}
