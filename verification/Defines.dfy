/**
 The -D switch: output with conditionals, and what a preprocessor reads out of it with the symbol
 undefined and defined.
 */
module Defines {
  import opened Hunk
  import opened Sealing
  import opened Merging

  /** The directive lines -D makes for a symbol. */
  function DirectivesFor(symbol: string): Directives {
    On("#ifdef " + symbol + "\n", "#ifndef " + symbol + " \n", "#else\n", "#endif " + symbol + "\n")
  }

  predicate Distinct(d: Directives) {
    d.On? && d.ifdef != d.ifndef && d.ifdef != d.els && d.ifdef != d.end
    && d.ifndef != d.els && d.ifndef != d.end && d.els != d.end
  }

  lemma DirectivesDiffer(symbol: string)
    ensures Distinct(DirectivesFor(symbol))
  {
    var d := DirectivesFor(symbol);
    assert d.ifdef[3] == 'd' && d.ifndef[3] == 'n' && d.els[1] == 'e' && d.els[2] == 'l';
    assert d.end[1] == 'e' && d.end[2] == 'n' && d.ifdef[1] == 'i' && d.ifndef[1] == 'i';
  }

  /** Where the preprocessor is: outside, or inside a conditional whose current branch is live or
      not, before or after its #else; or lost. */
  datatype Mode = Top | Branch(live: bool, alt: bool) | Lost

  predicate Plain(l: string, d: Directives)
    requires d.On?
  {
    l != d.ifdef && l != d.ifndef && l != d.els && l != d.end
  }

  predicate AllPlain(ls: seq<string>, d: Directives)
    requires d.On?
  {
    forall i :: 0 <= i < |ls| ==> Plain(ls[i], d)
  }

  function Next(l: string, d: Directives, defined: bool, m: Mode): Mode
    requires d.On?
  {
    if Plain(l, d) || m.Lost? then m
    else if m.Top? then
      if l == d.ifdef then Branch(defined, false) else if l == d.ifndef then Branch(!defined, false) else Lost
    else if l == d.end then Top
    else if l == d.els && !m.alt then Branch(!m.live, true)
    else Lost
  }

  predicate Seen(l: string, d: Directives, m: Mode)
    requires d.On?
  {
    Plain(l, d) && (m.Top? || (m.Branch? && m.live))
  }

  /** The lines the preprocessor lets through. */
  function Read(ls: seq<string>, d: Directives, defined: bool, m: Mode): seq<string>
    requires d.On?
  {
    if ls == [] then []
    else (if Seen(ls[0], d, m) then [ls[0]] else []) + Read(ls[1..], d, defined, Next(ls[0], d, defined, m))
  }

  /** Where the preprocessor is after the lines. */
  function After(ls: seq<string>, d: Directives, defined: bool, m: Mode): Mode
    requires d.On?
  {
    if ls == [] then m else After(ls[1..], d, defined, Next(ls[0], d, defined, m))
  }

  lemma {:induction false} ReadAppend(a: seq<string>, b: seq<string>, d: Directives, defined: bool, m: Mode)
    requires d.On?
    ensures Read(a + b, d, defined, m) == Read(a, d, defined, m) + Read(b, d, defined, After(a, d, defined, m))
    ensures After(a + b, d, defined, m) == After(b, d, defined, After(a, d, defined, m))
  {
    if a == [] {
      assert a + b == b;
    } else {
      assert (a + b)[1..] == a[1..] + b;
      ReadAppend(a[1..], b, d, defined, Next(a[0], d, defined, m));
      Assoc(if Seen(a[0], d, m) then [a[0]] else [], Read(a[1..], d, defined, Next(a[0], d, defined, m)),
            Read(b, d, defined, After(a, d, defined, m)));
    }
  }

  lemma {:induction false} ReadPlain(ls: seq<string>, d: Directives, defined: bool, m: Mode)
    requires d.On? && AllPlain(ls, d)
    ensures After(ls, d, defined, m) == m
    ensures Read(ls, d, defined, m) == if m.Top? || (m.Branch? && m.live) then ls else []
  {
    if ls != [] {
      ReadPlain(ls[1..], d, defined, m);
      assert ls == [ls[0]] + ls[1..];
    }
  }

  // ---------------------------------------------------------------- hunks whose conditionals come out right

  predicate Only(c: seq<Cell>, ch: char) {
    forall i :: 0 <= i < |c| ==> c[i].ch == ch
  }

  /** Removed lines here, added lines there, and then the same number of context lines in both and
      nothing else. */
  predicate Closing(o: seq<Cell>, n: seq<Cell>) {
    var a, b := Run(o, '-'), Run(n, '+');
    Only(o[a..], ' ') && Only(n[b..], ' ') && |o| - a == |n| - b
  }

  /** Context and changed runs in step, and then at most one group of removed and added lines, with only
      context behind it. */
  predicate Clean(o: seq<Cell>, n: seq<Cell>)
    decreases |o|
  {
    if o == [] || o[0].ch == '-' || n == [] || n[0].ch == '+' then Closing(o, n)
    else o[0].ch == n[0].ch && if o[0].ch == '!' then Clean(o[Run(o, '!')..], n[Run(n, '!')..]) else Clean(o[1..], n[1..])
  }

  lemma OnlyClosing(o: seq<Cell>, n: seq<Cell>)
    requires Only(o, '-') && Only(n, '+')
    ensures Closing(o, n) && Clean(o, n)
  {
    RunAll(o, '-');
    RunAll(n, '+');
  }

  /** The second half of a group. */
  function Tail(news: seq<string>, d: Directives): seq<string>
    requires d.On?
  {
    if news == [] then [] else [d.els] + news
  }

  /** Context at the end is kept, behind the end of an open conditional. */
  lemma {:induction false} ContextWalk(o: seq<Cell>, n: seq<Cell>, win: seq<string>, def: int, d: Directives, pend: seq<string>)
    requires d.On? && Only(o, ' ') && Only(n, ' ') && |o| == |n| == |win|
    ensures Patchwork(o, n, win, def, d, pend) == Outcome(true, Close(d, def), pend + win, [])
    decreases |o|
  {
    if o == [] {
      assert pend + win == pend;
    } else {
      ContextWalk(o[1..], n[1..], win[1..], def, d, pend + [win[0]]);
      Assoc(pend, [win[0]], win[1..]);
    }
  }

  /** Added lines and then context, in an open conditional that needs no further mark. */
  lemma {:induction false} PlusWalk(o: seq<Cell>, n: seq<Cell>, win: seq<string>, def: int, d: Directives)
    requires d.On? && |win| == |o| && Only(o, ' ') && Closing(o, n) && def in {1, 2}
    ensures Patchwork(o, n, win, def, d, []) == Outcome(true, Texts(n[..Run(n, '+')]) + [d.end], win, [])
    decreases |n|
  {
    var b := Run(n, '+');
    if b == 0 {
      ContextWalk(o, n, win, def, d, []);
      assert [] + win == win && [] + [d.end] == [d.end] && n[..0] == [];
    } else if o == [] {
      assert [] + [] + Texts(n[..b]) + [d.end] == Texts(n[..b]) + [d.end] && n[b..] == [];
    } else {
      assert n[1..][..b - 1] == n[..b][1..] && n[1..][b - 1..] == n[b..];
      PlusWalk(o, n[1..], win, def, d);
      assert [] + [] + [n[0].text] == [n[0].text];
      Assoc([n[0].text], Texts(n[..b][1..]), [d.end]);
    }
  }

  /** The same behind removed lines, where #else comes first. */
  lemma ElseWalk(o: seq<Cell>, n: seq<Cell>, win: seq<string>, d: Directives)
    requires d.On? && |win| == |o| && Only(o, ' ') && Closing(o, n)
    ensures Patchwork(o, n, win, -1, d, []) == Outcome(true, Tail(Texts(n[..Run(n, '+')]), d) + [d.end], win, [])
  {
    var b := Run(n, '+');
    if b == 0 {
      ContextWalk(o, n, win, -1, d, []);
      assert [] + win == win && [] + [d.end] == [d.end] && n[..0] == [];
    } else if o == [] {
      assert [] + [d.els] + Texts(n[..b]) + [d.end] == [d.els] + Texts(n[..b]) + [d.end] && n[b..] == [];
    } else {
      assert n[1..][..b - 1] == n[..b][1..] && n[1..][b - 1..] == n[b..];
      PlusWalk(o, n[1..], win, 2, d);
      assert [] + [d.els] + [n[0].text] == [d.els] + [n[0].text];
      PushElse([d.els], [n[0].text], Texts(n[..b][1..]), [d.end]);
    }
  }

  /** What is written for removed and added lines and context behind them once the conditional has been
      opened for the removed ones. */
  lemma {:induction false} OpenGroup(o: seq<Cell>, n: seq<Cell>, win: seq<string>, d: Directives)
    requires d.On? && |win| == |o| && Closing(o, n)
    ensures var a, b := Run(o, '-'), Run(n, '+');
      Patchwork(o, n, win, -1, d, []) == Outcome(true, Texts(o[..a]) + Tail(Texts(n[..b]), d) + [d.end], win[a..], [])
    decreases |o|
  {
    var a, b := Run(o, '-'), Run(n, '+');
    if a == 0 {
      ElseWalk(o, n, win, d);
      assert [] + Tail(Texts(n[..b]), d) == Tail(Texts(n[..b]), d) && o[..0] == [] && win[0..] == win && o[0..] == o;
    } else {
      assert o[1..][..a - 1] == o[..a][1..] && o[1..][a - 1..] == o[a..] && win[1..][a - 1..] == win[a..];
      OpenGroup(o[1..], n, win[1..], d);
      assert o[..1][1..] == [];
      assert Texts(o[..1]) == [o[0].text];
      assert [] + MinusMark(d, -1) + Echo(d, o[..1]) == [o[0].text];
      PushFront([o[0].text], Texts(o[..a][1..]), Tail(Texts(n[..b]), d), [d.end]);
    }
  }

  lemma PushFront(x: seq<string>, y: seq<string>, t: seq<string>, e: seq<string>)
    ensures x + (y + t + e) == x + y + t + e
  {
  }

  lemma PushElse(m: seq<string>, x: seq<string>, t: seq<string>, e: seq<string>)
    ensures m + x + (t + e) == m + (x + t) + e
  {
  }

  lemma {:induction false} RunAll(c: seq<Cell>, ch: char)
    requires Only(c, ch)
    ensures Run(c, ch) == |c|
  {
    if c != [] { RunAll(c[1..], ch); }
  }

  /** The conditional text of one group. */
  function Group(olds: seq<string>, news: seq<string>, d: Directives): seq<string>
    requires d.On?
  {
    if olds == [] && news == [] then []
    else if olds == [] then [d.ifdef] + news + [d.end]
    else if news == [] then [d.ifndef] + olds + [d.end]
    else [d.ifndef] + olds + [d.els] + news + [d.end]
  }

  lemma ReadGroup(olds: seq<string>, news: seq<string>, d: Directives, defined: bool)
    requires Distinct(d) && AllPlain(olds, d) && AllPlain(news, d)
    ensures After(Group(olds, news, d), d, defined, Top) == Top
    ensures Read(Group(olds, news, d), d, defined, Top) == if defined then news else olds
  {
    if olds == [] && news != [] {
      ReadBranch([d.ifdef], news, d, defined, Top, Branch(defined, false));
      ReadEnd([d.ifdef] + news, d, defined, Branch(defined, false));
    } else if olds != [] && news == [] {
      ReadBranch([d.ifndef], olds, d, defined, Top, Branch(!defined, false));
      ReadEnd([d.ifndef] + olds, d, defined, Branch(!defined, false));
    } else if olds != [] && news != [] {
      ReadBranch([d.ifndef], olds, d, defined, Top, Branch(!defined, false));
      ReadAppend([d.ifndef] + olds, [d.els], d, defined, Top);
      ReadOne(d.els, d, defined, Branch(!defined, false));
      ReadBranch([d.ifndef] + olds + [d.els], news, d, defined, Top, Branch(defined, true));
      ReadEnd([d.ifndef] + olds + [d.els] + news, d, defined, Branch(defined, true));
    }
  }

  lemma ReadOne(l: string, d: Directives, defined: bool, m: Mode)
    requires d.On?
    ensures After([l], d, defined, m) == Next(l, d, defined, m)
    ensures Read([l], d, defined, m) == if Seen(l, d, m) then [l] else []
  {
    assert [l][1..] == [];
  }

  lemma ReadBranch(a: seq<string>, ls: seq<string>, d: Directives, defined: bool, m: Mode, b: Mode)
    requires d.On? && AllPlain(ls, d) && b.Branch? && (After(a, d, defined, m) == b || (|a| == 1 && Next(a[0], d, defined, m) == b))
    ensures After(a + ls, d, defined, m) == b
    ensures Read(a + ls, d, defined, m) == Read(a, d, defined, m) + if b.live then ls else []
  {
    ReadAppend(a, ls, d, defined, m);
    if |a| == 1 {
      assert a == [a[0]];
      ReadOne(a[0], d, defined, m);
    }
    ReadPlain(ls, d, defined, b);
  }

  lemma ReadEnd(a: seq<string>, d: Directives, defined: bool, b: Mode)
    requires Distinct(d) && b.Branch? && After(a, d, defined, Top) == b
    ensures After(a + [d.end], d, defined, Top) == Top
    ensures Read(a + [d.end], d, defined, Top) == Read(a, d, defined, Top)
  {
    ReadAppend(a, [d.end], d, defined, Top);
    ReadOne(d.end, d, defined, b);
  }

  // ---------------------------------------------------------------- both ways

  /** What a hunk leaves, read from outside any conditional, is pend and one side of the hunk, and
      every conditional is closed. */
  ghost predicate ReadsAs(r: Outcome, d: Directives, defined: bool, pend: seq<string>, side: seq<string>)
    requires d.On?
  {
    forall k {:trigger Open(k)} :: Open(k) ==>
      && r.ok && r.rest == []
      && After(r.out + r.pend, d, defined, Top) == Top
      && Read(r.out + r.pend, d, defined, Top) == pend + side
  }

  function Side(o: seq<Cell>, n: seq<Cell>, win: seq<string>, defined: bool): seq<string>
    requires |win| == |o|
  {
    Fill(if defined then n else o, Kept(o, win))
  }

  predicate PlainCells(c: seq<Cell>, d: Directives)
    requires d.On?
  {
    forall i :: 0 <= i < |c| ==> Plain(c[i].text, d)
  }

  lemma {:induction false} PlainTexts(c: seq<Cell>, d: Directives)
    requires d.On? && PlainCells(c, d)
    ensures AllPlain(Texts(c), d)
  {
    if c != [] { PlainTexts(c[1..], d); }
  }

  lemma GroupTail(olds: seq<string>, news: seq<string>, d: Directives)
    requires d.On? && olds != []
    ensures Group(olds, news, d) == [d.ifndef] + olds + Tail(news, d) + [d.end]
  {
    Assoc([d.ifndef] + olds, [d.els], news);
    assert [d.ifndef] + olds + [] == [d.ifndef] + olds;
  }

  lemma GroupStart(o: seq<Cell>, n: seq<Cell>, win: seq<string>, d: Directives, pend: seq<string>)
    requires d.On? && |win| == |o| && Run(o, '-') > 0 && Closing(o, n)
    ensures var a, b := Run(o, '-'), Run(n, '+');
      Patchwork(o, n, win, 0, d, pend) ==
        Outcome(true, pend + [d.ifndef] + [o[0].text] + (Texts(o[..a][1..]) + Tail(Texts(n[..b]), d) + [d.end]), win[a..], [])
  {
    var a := Run(o, '-');
    assert o[1..][..a - 1] == o[..a][1..] && o[1..][a - 1..] == o[a..] && win[1..][a - 1..] == win[a..];
    OpenGroup(o[1..], n, win[1..], d);
    assert o[..1][1..] == [];
    assert Texts(o[..1]) == [o[0].text];
  }

  lemma PushIf(p: seq<string>, i: seq<string>, x: seq<string>, t: seq<string>, e: seq<string>)
    ensures p + i + x + (t + e) == p + (i + (x + t) + e)
  {
  }

  lemma AddStart(o: seq<Cell>, n: seq<Cell>, win: seq<string>, d: Directives, pend: seq<string>)
    requires d.On? && |win| == |o| && Run(o, '-') == 0 && Run(n, '+') > 0 && Closing(o, n)
    ensures Patchwork(o, n, win, 0, d, pend) == Outcome(true, pend + ([d.ifdef] + Texts(n[..Run(n, '+')]) + [d.end]), win, [])
  {
    var b := Run(n, '+');
    assert o[0..] == o;
    if o == [] {
      assert n[b..] == [];
      PushIf(pend, [d.ifdef], [], Texts(n[..b]), [d.end]);
      assert pend + [d.ifdef] + [] == pend + [d.ifdef] && [] + Texts(n[..b]) == Texts(n[..b]);
      Assoc(pend + [d.ifdef], Texts(n[..b]), [d.end]);
    } else {
      assert n[1..][..b - 1] == n[..b][1..] && n[1..][b - 1..] == n[b..];
      PlusWalk(o, n[1..], win, 1, d);
      var t := Texts(n[..b][1..]);
      PushIf(pend, [d.ifdef], [n[0].text], t, [d.end]);
    }
  }

  lemma GroupWalk(o: seq<Cell>, n: seq<Cell>, win: seq<string>, d: Directives, pend: seq<string>)
    requires d.On? && |win| == |o| && Closing(o, n)
    ensures var r, a, b := Patchwork(o, n, win, 0, d, pend), Run(o, '-'), Run(n, '+');
      r.ok && r.rest == [] && r.out + r.pend == pend + Group(Texts(o[..a]), Texts(n[..b]), d) + win[a..]
  {
    hide Patchwork;
    var a, b := Run(o, '-'), Run(n, '+');
    TextsLength(o[..a]);
    TextsLength(n[..b]);
    if a > 0 {
      GroupStart(o, n, win, d, pend);
      GroupTail(Texts(o[..a]), Texts(n[..b]), d);
      Reassociate(pend, [d.ifndef], [o[0].text], Texts(o[..a][1..]), Tail(Texts(n[..b]), d), [d.end]);
    } else if b > 0 {
      AddStart(o, n, win, d, pend);
      assert win[0..] == win;
    } else {
      assert o[0..] == o && n[0..] == n && win[0..] == win;
      ContextWalk(o, n, win, 0, d, pend);
      assert [] + (pend + win) == pend + [] + win;
    }
  }

  lemma Reassociate(p: seq<string>, i: seq<string>, x: seq<string>, y: seq<string>, t: seq<string>, e: seq<string>)
    ensures p + i + x + (y + t + e) == p + (i + (x + y) + t + e)
  {
  }

  lemma {:induction false} KeptContext(o: seq<Cell>, win: seq<string>)
    requires |win| == |o| && Only(o, ' ')
    ensures Kept(o, win) == win
  {
    if o != [] { KeptContext(o[1..], win[1..]); }
  }

  lemma {:induction false} FillContext(c: seq<Cell>, ks: seq<string>)
    requires |ks| == |c| && Only(c, ' ')
    ensures Fill(c, ks) == ks
  {
    if c != [] { FillContext(c[1..], ks[1..]); }
  }

  /** The sides of a group with context behind it. */
  lemma ClosingSide(o: seq<Cell>, n: seq<Cell>, win: seq<string>, defined: bool)
    requires |win| == |o| && Closing(o, n)
    ensures var a, b := Run(o, '-'), Run(n, '+');
      Side(o, n, win, defined) == (if defined then Texts(n[..b]) else Texts(o[..a])) + win[a..]
  {
    var a, b := Run(o, '-'), Run(n, '+');
    KeptRun(o, a, win);
    KeptContext(o[a..], win[a..]);
    FillRun(o, a, win[a..]);
    FillRun(n, b, win[a..]);
    FillContext(o[a..], win[a..]);
    FillContext(n[b..], win[a..]);
  }

  lemma ReadGroupWalk(o: seq<Cell>, n: seq<Cell>, win: seq<string>, d: Directives, pend: seq<string>, defined: bool)
    requires Distinct(d) && |win| == |o| && Closing(o, n)
    requires PlainCells(o, d) && PlainCells(n, d) && AllPlain(pend, d) && AllPlain(win, d)
    ensures ReadsAs(Patchwork(o, n, win, 0, d, pend), d, defined, pend, Side(o, n, win, defined))
  {
    hide Patchwork, Side, Group, Closing;
    var a, b := Run(o, '-'), Run(n, '+');
    GroupWalk(o, n, win, d, pend);
    ClosingSide(o, n, win, defined);
    PlainTexts(o[..a], d);
    PlainTexts(n[..b], d);
    ReadPut(Texts(o[..a]), Texts(n[..b]), d, pend, defined);
    ReadPlain(win[a..], d, defined, Top);
    ReadAppend(pend + Group(Texts(o[..a]), Texts(n[..b]), d), win[a..], d, defined, Top);
    Assoc(pend, if defined then Texts(n[..b]) else Texts(o[..a]), win[a..]);
  }

  lemma ChangeIsGroup(o: seq<Cell>, n: seq<Cell>, win: seq<string>, d: Directives, pend: seq<string>)
    requires d.On? && |win| == |o| > 0 && n != [] && o[0].ch == '!' == n[0].ch
    ensures var a, b := Run(o, '!'), Run(n, '!');
      Patchwork(o, n, win, 0, d, pend) == Prefix(pend + Group(Texts(o[..a]), Texts(n[..b]), d), Patchwork(o[a..], n[b..], win[a..], 0, d, []))
  {
    TextsLength(o[..Run(o, '!')]);
    TextsLength(n[..Run(n, '!')]);
  }

  lemma SideRun(o: seq<Cell>, n: seq<Cell>, win: seq<string>, defined: bool)
    requires |win| == |o| > 0 && n != [] && o[0].ch == '!' == n[0].ch
    ensures var a, b := Run(o, '!'), Run(n, '!');
      Side(o, n, win, defined) == (if defined then Texts(n[..b]) else Texts(o[..a])) + Side(o[a..], n[b..], win[a..], defined)
  {
    KeptRun(o, Run(o, '!'), win);
    FillRun(o, Run(o, '!'), Kept(o, win));
    FillRun(n, Run(n, '!'), Kept(o, win));
  }

  lemma ReadPut(olds: seq<string>, news: seq<string>, d: Directives, pend: seq<string>, defined: bool)
    requires Distinct(d) && AllPlain(olds, d) && AllPlain(news, d) && AllPlain(pend, d)
    ensures After(pend + Group(olds, news, d), d, defined, Top) == Top
    ensures Read(pend + Group(olds, news, d), d, defined, Top) == pend + if defined then news else olds
  {
    ReadGroup(olds, news, d, defined);
    ReadPlain(pend, d, defined, Top);
    ReadAppend(pend, Group(olds, news, d), d, defined, Top);
  }

  lemma ReadBehind(olds: seq<string>, news: seq<string>, d: Directives, pend: seq<string>, defined: bool, r: Outcome, rest: seq<string>)
    requires Distinct(d) && AllPlain(olds, d) && AllPlain(news, d) && AllPlain(pend, d) && ReadsAs(r, d, defined, [], rest)
    ensures ReadsAs(Prefix(pend + Group(olds, news, d), r), d, defined, pend, (if defined then news else olds) + rest)
  {
    assert Open(0);
    var first := pend + Group(olds, news, d);
    ReadPut(olds, news, d, pend, defined);
    ReadAppend(first, r.out + r.pend, d, defined, Top);
    Assoc(first, r.out, r.pend);
    Assoc(pend, if defined then news else olds, rest);
    assert [] + rest == rest;
  }

  lemma PlainPart(c: seq<Cell>, k: nat, d: Directives)
    requires d.On? && PlainCells(c, d) && k <= |c|
    ensures AllPlain(Texts(c[..k]), d)
  {
    hide Plain;
    PlainTexts(c[..k], d);
  }

  /** A changed run reads as its old and its new lines, in front of what comes behind it. */
  lemma ReadChangeWalk(o: seq<Cell>, n: seq<Cell>, win: seq<string>, d: Directives, pend: seq<string>, defined: bool)
    requires Distinct(d) && |win| == |o| > 0 && n != [] && o[0].ch == '!' == n[0].ch
    requires PlainCells(o, d) && PlainCells(n, d) && AllPlain(pend, d)
    requires var a, b := Run(o, '!'), Run(n, '!');
      ReadsAs(Patchwork(o[a..], n[b..], win[a..], 0, d, []), d, defined, [], Side(o[a..], n[b..], win[a..], defined))
    ensures ReadsAs(Patchwork(o, n, win, 0, d, pend), d, defined, pend, Side(o, n, win, defined))
  {
    hide Patchwork, Side, ReadsAs, Group, PlainCells, AllPlain, Run, Texts, Prefix;
    var a, b := Run(o, '!'), Run(n, '!');
    PlainPart(o, a, d);
    PlainPart(n, b, d);
    ReadBehind(Texts(o[..a]), Texts(n[..b]), d, pend, defined, Patchwork(o[a..], n[b..], win[a..], 0, d, []), Side(o[a..], n[b..], win[a..], defined));
    ChangeIsGroup(o, n, win, d, pend);
    SideRun(o, n, win, defined);
  }

  /** A context line goes in front of both readings of what comes behind it. */
  lemma ReadContextWalk(o: seq<Cell>, n: seq<Cell>, win: seq<string>, d: Directives, pend: seq<string>, defined: bool)
    requires d.On? && |win| == |o| > 0 && n != [] && o[0].ch == ' ' == n[0].ch
    requires ReadsAs(Patchwork(o[1..], n[1..], win[1..], 0, d, pend + [win[0]]), d, defined, pend + [win[0]], Side(o[1..], n[1..], win[1..], defined))
    ensures ReadsAs(Patchwork(o, n, win, 0, d, pend), d, defined, pend, Side(o, n, win, defined))
  {
    hide Read, After;
    assert Open(0);
    Assoc(pend, [win[0]], Side(o[1..], n[1..], win[1..], defined));
    assert Kept(o, win)[1..] == Kept(o[1..], win[1..]);
  }

  /** -D projects both ways: the output of a clean hunk, read with the symbol undefined, is the old
      side, and read with it defined the new side. */
  lemma {:induction false} BothWays(o: seq<Cell>, n: seq<Cell>, win: seq<string>, d: Directives, pend: seq<string>, defined: bool)
    requires Distinct(d) && |win| == |o| && OldChars(o) && NewChars(n) && Clean(o, n)
    requires PlainCells(o, d) && PlainCells(n, d) && AllPlain(pend, d) && AllPlain(win, d)
    ensures ReadsAs(Patchwork(o, n, win, 0, d, pend), d, defined, pend, Side(o, n, win, defined))
    decreases |o|
  {
    hide Patchwork, Side, ReadsAs, Closing, Plain;
    if o == [] || o[0].ch == '-' || n == [] || n[0].ch == '+' {
      ReadGroupWalk(o, n, win, d, pend, defined);
    } else if o[0].ch == '!' {
      var a, b := Run(o, '!'), Run(n, '!');
      BothWays(o[a..], n[b..], win[a..], d, [], defined);
      ReadChangeWalk(o, n, win, d, pend, defined);
    } else {
      BothWays(o[1..], n[1..], win[1..], d, pend + [win[0]], defined);
      ReadContextWalk(o, n, win, d, pend, defined);
    }
  }

  /** The halves of a clean hunk have one shape. */
  lemma {:induction false} CleanInStep(o: seq<Cell>, n: seq<Cell>)
    requires OldChars(o) && NewChars(n) && Clean(o, n)
    ensures Shape(o, false) == Shape(n, false)
    decreases |o|
  {
    if o == [] || o[0].ch == '-' || n == [] || n[0].ch == '+' {
      ClosingShape(o, n);
    } else if o[0].ch == '!' {
      CleanInStep(o[Run(o, '!')..], n[Run(n, '!')..]);
    } else {
      CleanInStep(o[1..], n[1..]);
    }
  }

  lemma {:induction false} ClosingShape(o: seq<Cell>, n: seq<Cell>)
    requires Closing(o, n)
    ensures Shape(o, false) == Shape(n, false)
    decreases |o| + |n|
  {
    var a, b := Run(o, '-'), Run(n, '+');
    if a > 0 {
      assert o[1..][a - 1..] == o[a..];
      ClosingShape(o[1..], n);
    } else if b > 0 {
      assert n[1..][b - 1..] == n[b..];
      ClosingShape(o, n[1..]);
    } else if o != [] {
      assert o[0..] == o && n[0..] == n;
      OnlyContext(o);
      OnlyContext(n);
      ClosingShape(o[1..], n[1..]);
    }
  }

  lemma OnlyContext(c: seq<Cell>)
    requires c != [] && Only(c, ' ')
    ensures c[0].ch == ' ' && Only(c[1..], ' ') && Run(c[1..], '-') == 0 && Run(c[1..], '+') == 0 && c[1..][0..] == c[1..]
  {
    if |c| > 1 { assert c[1..][0] == c[1]; }
  }

  /** Why clean: a context line between two removed ones is swallowed by the open conditional, so reading
      with the symbol defined loses it. */
  lemma ContextSwallowed(a: string, b: string, d: Directives)
    requires Distinct(d) && Plain(a, d) && Plain(b, d)
    ensures var o, n := [Cell('-', a, |a|), Cell(' ', b, |b|), Cell('-', a, |a|)], [Cell(' ', b, |b|)];
      var r := Patchwork(o, n, [a, b, a], 0, d, []);
      !Clean(o, n) && Shape(o, true) == Shape(n, true) && r == Outcome(true, [d.ifndef, a, b, a, d.end], [], [])
      && Read(r.out, d, true, Top) == [] != Side(o, n, [a, b, a], true)
  {
    var c, k := Cell('-', a, |a|), Cell(' ', b, |b|);
    SwallowedWalk(c, k, d);
    SwallowedRead(a, b, d);
    SwallowedShape(c, k);
    SwallowedSide(c, k, a, b);
  }

  lemma SwallowedWalk(c: Cell, k: Cell, d: Directives)
    requires d.On? && c.ch == '-' && k.ch == ' '
    ensures Patchwork([c, k, c], [k], [c.text, k.text, c.text], 0, d, []) == Outcome(true, [d.ifndef, c.text, k.text, c.text, d.end], [], [])
  {
    var a, b := c.text, k.text;
    assert [c][1..] == [] && [a][1..] == [] && [c][..1] == [c];
    assert Texts([c]) == [a];
    assert Patchwork([], [], [], -1, d, []) == Outcome(true, [d.end], [], []);
    var r2 := Patchwork([c], [], [a], -1, d, [b]);
    assert r2.out == [b] + [] + [a] + [d.end];
    assert [k, c][1..] == [c] && [b, a][1..] == [a] && [k][1..] == [] && [] + [b] == [b];
    assert Patchwork([k, c], [k], [b, a], -1, d, []) == r2;
    assert [c, k, c][1..] == [k, c] && [a, b, a][1..] == [b, a] && [c, k, c][..1] == [c];
  }

  lemma SwallowedShape(c: Cell, k: Cell)
    requires c.ch == '-' && k.ch == ' '
    ensures !Clean([c, k, c], [k]) && Shape([c, k, c], true) == Shape([k], true)
  {
    assert [c][1..] == [] && [k][1..] == [] && [k, c][1..] == [c] && [c, k, c][1..] == [k, c];
    assert [c, k, c][1] == k;
    assert Shape([c], true) == [];
  }

  lemma SwallowedSide(c: Cell, k: Cell, a: string, b: string)
    requires c.ch == '-' && k.ch == ' '
    ensures Side([c, k, c], [k], [a, b, a], true) != []
  {
  }

  lemma SwallowedRead(a: string, b: string, d: Directives)
    requires Distinct(d) && Plain(a, d) && Plain(b, d)
    ensures Read([d.ifndef, a, b, a, d.end], d, true, Top) == []
  {
    ReadBranch([d.ifndef], [a, b, a], d, true, Top, Branch(false, false));
    ReadOne(d.ifndef, d, true, Top);
    ReadEnd([d.ifndef] + [a, b, a], d, true, Branch(false, false));
    assert [d.ifndef] + [a, b, a] + [d.end] == [d.ifndef, a, b, a, d.end];
  }
}
