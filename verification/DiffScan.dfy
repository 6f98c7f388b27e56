/**
 What hunk_next makes of any text: the lines it passes over, and the line that decides its answer.
 */
module DiffScan {
  import opened Text
  import opened Decimal
  import opened FlikiReader

  // ---------------------------------------------------------------- headers, line by line

  /** The numbers at the start of t, one or two with a comma between them, and what comes behind; no
      digits are the number 0. */
  function PairOf(t: string): (nat, nat, string) {
    var a := Lead(t);
    var u := t[|a|..];
    if u != "" && u[0] == ',' then var b := Lead(u[1..]); (Value(a), Value(b), u[1 + |b|..]) else (Value(a), Value(a), u)
  }

  datatype LineHeader = NoHeader | IsHeader(h: Hunk)

  /** The header a line is: numbers, one of three letters, numbers, and nothing else. */
  function HeaderOf(l: string): LineHeader {
    var (a, b, u) := PairOf(l);
    if u == "" || u[0] !in {'a', 'c', 'd'} then NoHeader
    else
      var (c, e, v) := PairOf(u[1..]);
      var kind := if u[0] == 'a' then AppendType else if u[0] == 'd' then DeleteType else ChangeType;
      if v == "\n" then IsHeader(Hunk(kind, a, b, c, e)) else NoHeader
  }

  predicate IsHeaderLine(l: string)
    requires l != ""
  {
    IsDigit(l[0]) && HeaderOf(l).IsHeader?
  }

  /** Two numbers where an append or a delete names a single line. */
  predicate Forbidden(h: Hunk) {
    (h.oldEnd != h.oldStart && h.kind.AppendType?) || (h.newEnd != h.newStart && h.kind.DeleteType?)
  }

  predicate MarkChar(c: char) {
    c == '<' || c == '>' || c == '-'
  }

  /** A line of a diff starts with a digit or one of its marks. */
  predicate Foreign(l: string)
    requires l != ""
  {
    !IsDigit(l[0]) && !MarkChar(l[0])
  }

  /** A line whose newline is read before hunk_next knows that it is no header: the next line is passed
      over with it. */
  predicate Swallows(l: string)
    requires l != ""
  {
    l[0] == '\n' || (IsDigit(l[0]) && PairOf(l).2 == "\n")
  }

  /** End of file, an error, or a hunk with the lines behind its header. */
  datatype Verdict = End | Broken | Found(h: Hunk, rest: seq<string>)

  /** The answer to the lines ls and the unfinished line p behind them.  The first line may be foreign,
      the others may not; lines under marks and lines that are no header are passed over. */
  function Scan(ls: seq<string>, p: string, first: bool): Verdict
    requires forall i :: 0 <= i < |ls| ==> ls[i] != ""
  {
    if ls == [] then if first || (p != "" && !Foreign(p)) then End else Broken
    else if !first && Foreign(ls[0]) then Broken
    else if IsHeaderLine(ls[0]) then
      if Forbidden(HeaderOf(ls[0]).h) then Broken else Found(HeaderOf(ls[0]).h, ls[1..])
    else if Swallows(ls[0]) then if |ls| == 1 then End else Scan(ls[2..], p, false)
    else Scan(ls[1..], p, false)
  }

  // ---------------------------------------------------------------- the reader on a line

  /** The reader stands in front of t and rest, both ASCII. */
  ghost predicate Ahead(s: string, st: State, t: string, rest: string) {
    st.pos <= |s| && s[st.pos..] == t + rest && Ascii(t)
  }

  /** The rest of a line, with its newline. */
  predicate LineEnd(t: string) {
    Ascii(t) && t != "" && t[|t| - 1] == '\n' && forall i :: 0 <= i < |t| - 1 ==> t[i] != '\n'
  }

  lemma LogReads(s: string, st: State, t: string, rest: string)
    requires Ahead(s, st, t, rest) && t != ""
    ensures Log(s, st) == st.(pos := st.pos + 1, lastChar := t[0] as int) && Ahead(s, Log(s, st), t[1..], rest) && st.pos < |s|
  {
    CharIs(s, st.pos, t, rest);
  }

  lemma {:induction false} SkipReads(s: string, st: State, t: string, rest: string)
    requires Ahead(s, st, t, rest) && LineEnd(t)
    ensures SkipLine(s, st) == st.(pos := st.pos + |t|, lastChar := NL) && Ahead(s, SkipLine(s, st), "", rest)
    decreases |t|
  {
    LogReads(s, st, t, rest);
    if |t| > 1 { SkipReads(s, Log(s, st), t[1..], rest); }
  }

  lemma {:induction false} SkipToEnd(s: string, st: State, p: string)
    requires Ahead(s, st, p, "") && '\n' !in p
    ensures SkipLine(s, st).lastChar == EOF
    decreases |p|
  {
    assert p + "" == p;
    if p != "" {
      LogReads(s, st, p, "");
      assert '\n' !in p[1..];
      SkipToEnd(s, Log(s, st), p[1..]);
    }
  }

  lemma {:induction false} IntToEnd(s: string, st: State, acc: int, p: string) returns (q: string)
    requires Ahead(s, st, p, "") && '\n' !in p
    ensures var r := ParseInt(s, st, acc); r.st.lastChar != NL && Ahead(s, r.st, q, "") && '\n' !in q
    ensures ParseInt(s, st, acc).st.lastChar == EOF || ParseInt(s, st, acc).st.lastChar > 0
    decreases |p|
  {
    assert p + "" == p;
    q := p;
    if p != "" {
      LogReads(s, st, p, "");
      assert '\n' !in p[1..];
      q := p[1..];
      if IsDigit(p[0]) { q := IntToEnd(s, Log(s, st), acc * 10 + p[0] as int - 48, p[1..]); }
    }
  }

  lemma PairToEnd(s: string, st: State, acc: int, p: string) returns (q: string)
    requires Ahead(s, st, p, "") && '\n' !in p
    ensures var t := ParsePair(s, st, acc).2; t.lastChar != NL && Ahead(s, t, q, "") && '\n' !in q && (t.lastChar == EOF || t.lastChar > 0)
  {
    hide ParseInt;
    q := IntToEnd(s, st, acc, p);
    var t := ParseInt(s, st, acc).st;
    if t.lastChar == ',' as int { q := IntToEnd(s, t, 0, q); }
  }

  /** A header that runs into the end of the text is none. */
  lemma HeaderToEnd(s: string, st: State, firstInt: int, h: Hunk, p: string)
    requires Ahead(s, st, p, "") && '\n' !in p
    ensures var r := ParseHeader(s, st, firstInt, h); r.status == -1 || (r.status == 0 && SkipLine(s, r.st).lastChar == EOF)
  {
    hide ParsePair, SkipLine;
    var q := PairToEnd(s, st, firstInt, p);
    var t := ParsePair(s, st, firstInt).2;
    SkipToEnd(s, t, q);
    var q2 := PairToEnd(s, t, 0, q);
    SkipToEnd(s, ParsePair(s, t, 0).2, q2);
  }

  lemma LeadMore(d0: string, t: string)
    requires |d0| <= 1 && AllDigits(d0)
    ensures Lead(d0 + t) == d0 + Lead(t)
  {
    if d0 == "" { assert d0 + t == t && d0 + Lead(t) == Lead(t); } else { assert (d0 + t)[1..] == t && d0 == [d0[0]]; }
  }

  lemma DigitsBehind(d0: string, a: string)
    requires |d0| <= 1 && AllDigits(d0) && AllDigits(a)
    ensures AllDigits(d0 + a) && Num10(Num10(0, d0), a) == Value(d0 + a)
  {
    Num10Value(d0 + a);
    if d0 == "" { assert d0 + a == a; } else { assert (d0 + a)[0] == d0[0] && (d0 + a)[1..] == a && d0[1..] == ""; }
  }

  /** The digits a line starts with end in front of its end. */
  lemma LeadEnds(t: string)
    requires LineEnd(t)
    ensures |Lead(t)| < |t| && LineEnd(t[|Lead(t)|..]) && !IsDigit(t[|Lead(t)|])
  {
    hide Lead;
    assert !IsDigit(t[|t| - 1]);
  }

  lemma CutText(t: string, k: nat, rest: string)
    requires k < |t|
    ensures t + rest == t[..k] + [t[k]] + (t[k + 1..] + rest)
  {
  }

  /** parseInt behind digits d0: it reads the digits that follow and one character more. */
  lemma IntReads(s: string, st: State, d0: string, t: string, rest: string)
    requires Ahead(s, st, t, rest) && LineEnd(t) && |d0| <= 1 && AllDigits(d0)
    requires |Lead(t)| < |t| && AllDigits(d0 + Lead(t))
    ensures var a, r := Lead(t), ParseInt(s, st, Num10(0, d0));
      r.value == Value(d0 + a) && r.st == st.(pos := st.pos + |a| + 1, lastChar := t[|a|] as int) && Ahead(s, r.st, t[|a| + 1..], rest)
  {
    LeadEnds(t);
    hide Lead, ParseInt, Value, Num10, LineEnd, AllDigits, IsDigit;
    var a, x, q := Lead(t), t[|Lead(t)|], t[|Lead(t)| + 1..];
    CutText(t, |a|, rest);
    IntRead10(s, st, Num10(0, d0), a, x, q + rest);
    DigitsBehind(d0, a);
  }

  lemma PairCut(d0: string, t: string)
    requires LineEnd(t) && |d0| <= 1 && AllDigits(d0)
    ensures var a := Lead(t); |a| < |t| && AllDigits(d0 + a) && LineEnd(t[|a|..]) && t[|a|] == t[|a|..][0] && t[|a|..][1..] == t[|a| + 1..]
    ensures var a := Lead(t); var u := t[|a|..]; var b := Lead(u[1..]);
      PairOf(d0 + t) == if u[0] == ',' then (Value(d0 + a), Value(b), u[1 + |b|..]) else (Value(d0 + a), Value(d0 + a), u)
  {
    hide Value, Lead, LineEnd;
    LeadMore(d0, t);
    LeadEnds(t);
    assert (d0 + t)[|d0 + Lead(t)|..] == t[|Lead(t)|..];
  }

  /** Numbers behind digits d0 are read as the line has them, and one character more. */
  lemma PairReads(s: string, st: State, d0: string, t: string, rest: string)
    requires Ahead(s, st, t, rest) && LineEnd(t) && |d0| <= 1 && AllDigits(d0)
    ensures LineEnd(PairOf(d0 + t).2)
    ensures var (a, b, u), r := PairOf(d0 + t), ParsePair(s, st, Num10(0, d0));
      r.0 == a && r.1 == b && r.2 == st.(pos := r.2.pos, lastChar := u[0] as int) && Ahead(s, r.2, u[1..], rest)
  {
    hide ParseInt, Value, Lead, Num10, LineEnd, PairOf, Ahead;
    PairCut(d0, t);
    IntReads(s, st, d0, t, rest);
    var u := t[|Lead(t)|..];
    if u[0] == ',' {
      SecondReads(s, ParseInt(s, st, Num10(0, d0)).st, u, rest);
    }
  }

  lemma SecondReads(s: string, st: State, u: string, rest: string)
    requires LineEnd(u) && u[0] == ',' && Ahead(s, st, u[1..], rest)
    ensures var b := Lead(u[1..]);
      |b| < |u| - 1 && LineEnd(u[1 + |b|..]) && var r := ParseInt(s, st, 0);
      r.value == Value(b) && r.st == st.(pos := r.st.pos, lastChar := u[1 + |b|] as int) && Ahead(s, r.st, u[1 + |b|..][1..], rest)
  {
    hide ParseInt, Value, Lead;
    assert LineEnd(u[1..]) && Num10(0, "") == 0;
    LeadEnds(u[1..]);
    var b := Lead(u[1..]);
    assert "" + b == b && u[1 + |b|..] == u[1..][|b|..] && u[1 + |b|..][1..] == u[1..][|b| + 1..];
    IntReads(s, st, "", u[1..], rest);
  }

  /** parseHeader behind the first digit of a line. */
  lemma HeaderReads(s: string, st: State, h: Hunk, l: string, rest: string)
    requires LineEnd(l) && IsDigit(l[0]) && Ahead(s, st, l[1..], rest)
    ensures var r := ParseHeader(s, st, l[0] as int - 48, h);
      if HeaderOf(l).IsHeader? then r == Read(1, HeaderOf(l).h, st.(pos := r.st.pos, lastChar := NL)) && Ahead(s, r.st, "", rest)
      else r.status == 0 && r.h == h && (if Swallows(l) then Ahead(s, r.st, "", rest) else exists q :: LineEnd(q) && Ahead(s, r.st, q, rest))
    ensures Swallows(l) ==> HeaderOf(l).NoHeader?
  {
    hide ParsePair, PairOf;
    var d0 := [l[0]];
    assert d0[1..] == "" && Num10(0, d0) == l[0] as int - 48 && l == d0 + l[1..] && AllDigits(d0);
    PairReads(s, st, d0, l[1..], rest);
    var (a, b, u) := PairOf(l);
    var r := ParsePair(s, st, l[0] as int - 48);
    if TypeOf(u[0] as int).NoType? {
      if u[0] == '\n' {
        assert u == "\n";
      } else {
        assert LineEnd(u[1..]);
      }
    } else {
      assert "" + u[1..] == u[1..] && LineEnd(u[1..]) && u != "\n";
      PairReads(s, r.2, "", u[1..], rest);
      var v := PairOf(u[1..]).2;
      if v[0] != '\n' { assert LineEnd(v[1..]); } else { assert v == "\n"; }
    }
  }

  // ---------------------------------------------------------------- the answer

  /** hunk_next at the start of the lines ls, behind which the text ends with p. */
  ghost predicate AtLines(s: string, st: State, ls: seq<string>, p: string) {
    AsciiLines(ls) && Ascii(p) && '\n' !in p && st.pos <= |s| && s[st.pos..] == Flat(ls) + p
  }

  /** The result r of hunk_next is what the verdict says. */
  ghost predicate Rules(s: string, st: State, p: string, v: Verdict, r: Read) {
    match v
    case End => r.status == EOF
    case Broken => r.status == ERR
    case Found(h, rest) => r == Read(0, h, State(r.st.pos, NL, 0, st.lastUsed, 0)) && AtLines(s, r.st, rest, p)
  }

  lemma LoopAtEnd(s: string, st: State, h: Hunk, p: string, first: bool)
    requires AtLines(s, st, [], p)
    ensures Rules(s, st, p, Scan([], p, first), NextLoop(s, st, h, first))
  {
    hide SkipLine, ParseHeader;
    assert Flat([]) + p == p && p + "" == p;
    if p != "" {
      LogReads(s, st, p, "");
      assert '\n' !in p[1..];
      SkipToEnd(s, Log(s, st), p[1..]);
      if IsDigit(p[0]) { HeaderToEnd(s, Log(s, st), p[0] as int - 48, h, p[1..]); }
    }
  }

  /** One line: its header decides, or it is passed over. */
  lemma LoopLine(s: string, st: State, h: Hunk, l: string, rest: string, first: bool) returns (u: State)
    requires IsLine(l) && Ahead(s, st, l, rest) && (first || !Foreign(l))
    ensures IsHeaderLine(l) && Forbidden(HeaderOf(l).h) ==> NextLoop(s, st, h, first).status == ERR
    ensures IsHeaderLine(l) && !Forbidden(HeaderOf(l).h) ==>
      NextLoop(s, st, h, first) == Read(0, HeaderOf(l).h, State(u.pos, NL, 0, st.lastUsed, 0)) && Ahead(s, u, "", rest)
    ensures !IsHeaderLine(l) ==> u.lastUsed == st.lastUsed && Ahead(s, u, "", rest) && st.pos < |s|
    ensures !IsHeaderLine(l) && Swallows(l) ==>
      NextLoop(s, st, h, first) == var w := SkipLine(s, u); if w.lastChar < 0 then Read(EOF, h, w.(errStatus := EOF)) else NextLoop(s, w, h, false)
    ensures !IsHeaderLine(l) && !Swallows(l) ==> NextLoop(s, st, h, first) == NextLoop(s, u, h, false)
  {
    hide SkipLine, ParseHeader, HeaderOf, PairOf;
    LogReads(s, st, l, rest);
    var t := Log(s, st);
    if IsDigit(l[0]) {
      HeaderReads(s, t, h, l, rest);
      HeaderKeeps(s, t, l[0] as int - 48, h);
      var r := ParseHeader(s, t, l[0] as int - 48, h);
      u := r.st;
      if r.status == 0 && !Swallows(l) {
        var q :| LineEnd(q) && Ahead(s, u, q, rest);
        SkipReads(s, u, q, rest);
        u := SkipLine(s, u);
      }
    } else if l[0] == '\n' {
      assert l == "\n" && l[1..] == "";
      u := t;
    } else {
      SkipReads(s, t, l[1..], rest);
      u := SkipLine(s, t);
    }
  }

  /** On any ASCII text hunk_next answers what the lines decide: an error at the first line behind the
      first that is foreign, and at a header with a forbidden range, and also when the text ends behind
      lines passed over; a hunk at the first header; end of file else. */
  lemma {:induction false} LoopExact(s: string, st: State, h: Hunk, ls: seq<string>, p: string, first: bool)
    requires AtLines(s, st, ls, p)
    ensures Rules(s, st, p, Scan(ls, p, first), NextLoop(s, st, h, first))
    decreases |ls|
  {
    if ls == [] {
      LoopAtEnd(s, st, h, p, first);
    } else if (!first && Foreign(ls[0])) || IsHeaderLine(ls[0]) {
      LoopDecides(s, st, h, ls, p, first);
    } else {
      var u := LoopPasses(s, st, h, ls, p, first);
      hide SkipLine, NextLoop, Swallows, Scan, AtLines, Rules, Foreign, Log, HeaderOf;
      if Swallows(ls[0]) {
        if |ls| > 1 {
          LoopExact(s, SkipLine(s, u), h, ls[2..], p, false);
          RulesMove(s, SkipLine(s, u), st, p, Scan(ls[2..], p, false), NextLoop(s, SkipLine(s, u), h, false));
        }
      } else {
        LoopExact(s, u, h, ls[1..], p, false);
        RulesMove(s, u, st, p, Scan(ls[1..], p, false), NextLoop(s, u, h, false));
      }
    }
  }

  lemma RulesMove(s: string, u: State, st: State, p: string, v: Verdict, r: Read)
    requires Rules(s, u, p, v, r) && u.lastUsed == st.lastUsed
    ensures Rules(s, st, p, v, r)
  {
  }

  lemma RulesFound(s: string, st: State, u: State, p: string, h: Hunk, rest: seq<string>, r: Read)
    requires r == Read(0, h, State(u.pos, NL, 0, st.lastUsed, 0)) && Ahead(s, u, "", Flat(rest) + p)
    requires AsciiLines(rest) && Ascii(p) && '\n' !in p
    ensures Rules(s, st, p, Found(h, rest), r)
  {
    AheadLines(s, u, r.st, rest, p);
  }

  lemma RulesBroken(s: string, st: State, p: string, r: Read)
    ensures Rules(s, st, p, Broken, r) <==> r.status == ERR
  {
  }

  lemma LoopDecides(s: string, st: State, h: Hunk, ls: seq<string>, p: string, first: bool)
    requires AtLines(s, st, ls, p) && ls != [] && ((!first && Foreign(ls[0])) || IsHeaderLine(ls[0]))
    ensures Rules(s, st, p, Scan(ls, p, first), NextLoop(s, st, h, first))
  {
    hide SkipLine, ParseHeader, HeaderOf, PairOf, NextLoop, Swallows, Ahead, Forbidden, AtLines, Flat, Foreign, Scan, AsciiLines, IsLine, Ascii, Log, Rules;
    FirstAhead(s, st, ls, p);
    ScanHead(ls, p, first);
    var l, rest, k := ls[0], Flat(ls[1..]) + p, HeaderOf(ls[0]);
    if !first && Foreign(l) {
      LoopForeign(s, st, h, l, rest);
      RulesBroken(s, st, p, NextLoop(s, st, h, first));
    } else {
      var u := LoopLine(s, st, h, l, rest, first);
      if Forbidden(k.h) {
        RulesBroken(s, st, p, NextLoop(s, st, h, first));
      } else {
        RulesFound(s, st, u, p, k.h, ls[1..], NextLoop(s, st, h, first));
      }
    }
  }

  /** A line that decides nothing: the loop goes on in state u behind it. */
  lemma LoopPasses(s: string, st: State, h: Hunk, ls: seq<string>, p: string, first: bool) returns (u: State)
    requires AtLines(s, st, ls, p) && ls != [] && (first || !Foreign(ls[0])) && !IsHeaderLine(ls[0])
    ensures u.lastUsed == st.lastUsed
    ensures !Swallows(ls[0]) ==> AtLines(s, u, ls[1..], p) && NextLoop(s, st, h, first) == NextLoop(s, u, h, false) && Scan(ls, p, first) == Scan(ls[1..], p, false)
    ensures Swallows(ls[0]) && |ls| == 1 ==> Rules(s, st, p, Scan(ls, p, first), NextLoop(s, st, h, first))
    ensures Swallows(ls[0]) && |ls| > 1 ==> AtLines(s, SkipLine(s, u), ls[2..], p) && SkipLine(s, u).lastUsed == st.lastUsed
    ensures Swallows(ls[0]) && |ls| > 1 ==> NextLoop(s, st, h, first) == NextLoop(s, SkipLine(s, u), h, false) && Scan(ls, p, first) == Scan(ls[2..], p, false)
  {
    hide SkipLine, ParseHeader, HeaderOf, PairOf, NextLoop, Swallows, Ahead, Forbidden, AtLines, Flat, Foreign, Scan, AsciiLines, IsLine, Ascii, Log;
    FirstAhead(s, st, ls, p);
    ScanHead(ls, p, first);
    u := LoopLine(s, st, h, ls[0], Flat(ls[1..]) + p, first);
    if Swallows(ls[0]) { SwallowNext(s, u, ls, p); } else { AheadLines(s, u, u, ls[1..], p); }
  }

  lemma ScanHead(ls: seq<string>, p: string, first: bool)
    requires ls != [] && forall i :: 0 <= i < |ls| ==> ls[i] != ""
    ensures !first && Foreign(ls[0]) ==> Scan(ls, p, first) == Broken
    ensures (first || !Foreign(ls[0])) && IsHeaderLine(ls[0]) ==>
      Scan(ls, p, first) == if Forbidden(HeaderOf(ls[0]).h) then Broken else Found(HeaderOf(ls[0]).h, ls[1..])
    ensures (first || !Foreign(ls[0])) && !IsHeaderLine(ls[0]) ==>
      Scan(ls, p, first) == if !Swallows(ls[0]) then Scan(ls[1..], p, false) else if |ls| == 1 then End else Scan(ls[2..], p, false)
  {
  }

  lemma FirstAhead(s: string, st: State, ls: seq<string>, p: string)
    requires AtLines(s, st, ls, p) && ls != []
    ensures Ahead(s, st, ls[0], Flat(ls[1..]) + p) && IsLine(ls[0]) && AsciiLines(ls) && AsciiLines(ls[1..]) && Ascii(p) && '\n' !in p
    ensures forall i :: 0 <= i < |ls| ==> ls[i] != ""
  {
    assert Ascii(ls[0]) && Flat(ls) + p == ls[0] + (Flat(ls[1..]) + p);
  }

  lemma AheadLines(s: string, u: State, x: State, ls: seq<string>, p: string)
    requires AsciiLines(ls) && Ascii(p) && '\n' !in p && Ahead(s, u, "", Flat(ls) + p)
    requires x.pos == u.pos
    ensures AtLines(s, x, ls, p)
  {
    assert "" + (Flat(ls) + p) == Flat(ls) + p;
  }

  lemma LoopForeign(s: string, st: State, h: Hunk, l: string, rest: string)
    requires IsLine(l) && Ahead(s, st, l, rest) && Foreign(l)
    ensures NextLoop(s, st, h, false).status == ERR
  {
    hide SkipLine, ParseHeader;
    LogReads(s, st, l, rest);
  }

  /** The line behind a swallowing one is skipped; without one the text is at its end. */
  lemma SwallowNext(s: string, u: State, ls: seq<string>, p: string)
    requires ls != [] && AsciiLines(ls) && Ascii(p) && '\n' !in p && Ahead(s, u, "", Flat(ls[1..]) + p)
    ensures |ls| == 1 ==> SkipLine(s, u).lastChar == EOF
    ensures |ls| > 1 ==> SkipLine(s, u).lastChar == NL && SkipLine(s, u).lastUsed == u.lastUsed && AtLines(s, SkipLine(s, u), ls[2..], p)
  {
    hide SkipLine;
    if |ls| == 1 {
      assert ls[1..] == [] && "" + (Flat([]) + p) == p + "";
      SkipToEnd(s, u, p);
    } else {
      var rest := Flat(ls[2..]) + p;
      assert ls[1..][1..] == ls[2..] && ls[1..][0] == ls[1];
      assert "" + (Flat(ls[1..]) + p) == ls[1] + rest;
      SkipReads(s, u, ls[1], rest);
      assert "" + rest == rest;
    }
  }

  /** hunk_next, whatever was called before. */
  lemma NextExact(s: string, st: State, h: Hunk, ls: seq<string>, p: string)
    requires AtLines(s, st, ls, p)
    ensures Rules(s, st.(lastUsed := FxnNext), p, Scan(ls, p, true), HunkNext(s, st, h))
  {
    LoopExact(s, st.(lastUsed := FxnNext), h, ls, p, true);
  }

  // ---------------------------------------------------------------- where an error comes from

  /** The first k lines are passed over: none is a header, and none behind the first is foreign. */
  predicate Passed(ls: seq<string>, k: nat, first: bool)
    requires forall i :: 0 <= i < |ls| ==> ls[i] != ""
    decreases |ls|
  {
    k == 0 || (ls != [] && (first || !Foreign(ls[0])) && !IsHeaderLine(ls[0])
               && if Swallows(ls[0]) then k >= 2 && |ls| >= 2 && Passed(ls[2..], k - 2, false) else Passed(ls[1..], k - 1, false))
  }

  /** What stands behind k lines passed over is an error: a foreign line, a header with a forbidden
      range, or the end of the text. */
  predicate Breaks(ls: seq<string>, k: nat, p: string, first: bool)
    requires k <= |ls| && forall i :: 0 <= i < |ls| ==> ls[i] != ""
  {
    if k == |ls| then !(first && k == 0) && (p == "" || Foreign(p))
    else (!(first && k == 0) && Foreign(ls[k])) || (IsHeaderLine(ls[k]) && Forbidden(HeaderOf(ls[k]).h))
  }

  lemma {:induction false} BrokenExactly(ls: seq<string>, p: string, first: bool)
    requires forall i :: 0 <= i < |ls| ==> ls[i] != ""
    ensures Scan(ls, p, first) == Broken <==> exists k: nat :: k <= |ls| && Passed(ls, k, first) && Breaks(ls, k, p, first)
    decreases |ls|
  {
    hide HeaderOf, PairOf, Forbidden, Swallows, Foreign;
    if ls == [] || (!first && Foreign(ls[0])) || IsHeaderLine(ls[0]) {
      assert Passed(ls, 0, first) && (Scan(ls, p, first) == Broken <==> Breaks(ls, 0, p, first));
      assert forall k: nat :: k > 0 ==> !Passed(ls, k, first);
    } else if Swallows(ls[0]) && |ls| == 1 {
      assert forall k: nat :: k > 0 ==> !Passed(ls, k, first);
      assert !Breaks(ls, 0, p, first);
    } else {
      var n := if Swallows(ls[0]) then 2 else 1;
      BrokenBehind(ls, p, first, n);
    }
  }

  lemma {:induction false} BrokenBehind(ls: seq<string>, p: string, first: bool, n: nat)
    requires forall i :: 0 <= i < |ls| ==> ls[i] != ""
    requires ls != [] && (first || !Foreign(ls[0])) && !IsHeaderLine(ls[0]) && n == (if Swallows(ls[0]) then 2 else 1) <= |ls|
    ensures Scan(ls, p, first) == Broken <==> exists k: nat :: k <= |ls| && Passed(ls, k, first) && Breaks(ls, k, p, first)
    decreases |ls|, 0
  {
    hide HeaderOf, PairOf, Forbidden, Swallows, Foreign;
    BrokenExactly(ls[n..], p, false);
    if Scan(ls, p, first) == Broken {
      var k: nat :| k <= |ls[n..]| && Passed(ls[n..], k, false) && Breaks(ls[n..], k, p, false);
      assert Passed(ls, k + n, first) && Breaks(ls, k + n, p, first);
    }
    forall k: nat | k <= |ls| && Passed(ls, k, first) && Breaks(ls, k, p, first)
      ensures Scan(ls, p, first) == Broken
    {
      assert k >= n;
      assert Passed(ls[n..], k - n, false) && Breaks(ls[n..], k - n, p, false);
    }
  }

  /** For example: a foreign second line. */
  lemma GarbageIsError(s: string, st: State, h: Hunk)
    requires s == "x\ny\n" && st.pos == 0
    ensures HunkNext(s, st, h).status == ERR
  {
    var ls := ["x\n", "y\n"];
    assert Flat(ls) + "" == s by { assert ls[1..] == ["y\n"] && ["y\n"][1..] == []; }
    assert s[0..] == s;
    NextExact(s, st, h, ls, "");
    assert Scan(ls[1..], "", false) == Broken;
  }
}
