/**
 The edit a hunk makes when it is applied at a place, and how hunks applied one behind the other add up.
 */
module Effects {
  import opened Text
  import opened Hunk
  import opened Merging
  import opened Defines
  import opened Edits
  import opened Sealing

  /** The walk with nothing kept in front and no -D. */
  function Bare(o: seq<Cell>, n: seq<Cell>, win: seq<string>): Outcome
    requires |win| == |o|
  {
    Patchwork(o, n, win, 0, Off, [])
  }

  /** A walk that writes nothing and keeps every line. */
  predicate Idle(r: Outcome, total: nat) {
    r.out == [] && |r.pend| == total
  }

  lemma PrefixTwice(a: seq<string>, b: seq<string>, r: Outcome)
    ensures Prefix(a, Prefix(b, r)) == Prefix(a + b, r)
  {
    Assoc(a, b, r.out);
  }

  lemma PrefixNone(r: Outcome)
    ensures Prefix([], r) == r
  {
    assert [] + r.out == r.out;
  }

  /** Lines kept in front of a hunk go out before all else, unless the hunk changes nothing. */
  lemma {:induction false} KeptInFront(o: seq<Cell>, n: seq<Cell>, win: seq<string>, pend: seq<string>)
    requires |win| == |o| && Bare(o, n, win).ok
    ensures var r := Bare(o, n, win);
      Patchwork(o, n, win, 0, Off, pend) == if Idle(r, |o|) then Outcome(true, [], pend + r.pend, r.rest) else Prefix(pend, r)
    decreases |o| + |n|
  {
    if o == [] {
      InFrontOfRest(n, pend);
    } else if o[0].ch == '-' {
      InFrontOfOld(o, n, win, pend);
    } else if n != [] && n[0].ch == '+' {
      InFrontOfNew(o, n, win, pend);
    } else if n[0].ch == '!' {
      InFrontOfChange(o, n, win, pend);
    } else {
      KeptInFrontContext(o, n, win, pend);
    }
  }

  lemma InFrontOfRest(n: seq<Cell>, pend: seq<string>)
    ensures var r := Bare([], n, []);
      Patchwork([], n, [], 0, Off, pend) == if Idle(r, 0) then Outcome(true, [], pend + r.pend, r.rest) else Prefix(pend, r)
  {
    assert pend + [] == pend;
    if n != [] && n[0].ch == '+' {
      var t := Texts(n[..Run(n, '+')]);
      assert |t| == Run(n, '+') > 0 by { TextsLength(n[..Run(n, '+')]); }
      assert pend + PlusMark(Off, 0) + t + Close(Off, 0) == pend + t;
      assert [] + PlusMark(Off, 0) + t + Close(Off, 0) == t;
    }
  }

  lemma InFrontOfOld(o: seq<Cell>, n: seq<Cell>, win: seq<string>, pend: seq<string>)
    requires |win| == |o| > 0 && o[0].ch == '-' && Bare(o, n, win).ok
    ensures !Idle(Bare(o, n, win), |o|) && Patchwork(o, n, win, 0, Off, pend) == Prefix(pend, Bare(o, n, win))
  {
    var q := Bare(o[1..], n, win[1..]);
    assert pend + MinusMark(Off, 0) + Echo(Off, o[..1]) == pend;
    assert [] + MinusMark(Off, 0) + Echo(Off, o[..1]) == [];
    PrefixNone(q);
    PendShort(o[1..], n, win[1..]);
  }

  lemma InFrontOfNew(o: seq<Cell>, n: seq<Cell>, win: seq<string>, pend: seq<string>)
    requires |win| == |o| > 0 && o[0].ch != '-' && n != [] && n[0].ch == '+' && Bare(o, n, win).ok
    ensures !Idle(Bare(o, n, win), |o|) && Patchwork(o, n, win, 0, Off, pend) == Prefix(pend, Bare(o, n, win))
  {
    var q := Bare(o, n[1..], win);
    assert pend + PlusMark(Off, 0) + [n[0].text] == pend + [n[0].text];
    assert [] + PlusMark(Off, 0) + [n[0].text] == [n[0].text];
    PrefixTwice(pend, [n[0].text], q);
  }

  lemma InFrontOfChange(o: seq<Cell>, n: seq<Cell>, win: seq<string>, pend: seq<string>)
    requires |win| == |o| > 0 && n != [] && o[0].ch == '!' == n[0].ch && Bare(o, n, win).ok
    ensures !Idle(Bare(o, n, win), |o|) && Patchwork(o, n, win, 0, Off, pend) == Prefix(pend, Bare(o, n, win))
  {
    var a, b := Run(o, '!'), Run(n, '!');
    var q := Bare(o[a..], n[b..], win[a..]);
    assert [] + Texts(n[..b]) == Texts(n[..b]);
    PrefixTwice(pend, Texts(n[..b]), q);
    PendShort(o[a..], n[b..], win[a..]);
  }

  lemma {:induction false} KeptInFrontContext(o: seq<Cell>, n: seq<Cell>, win: seq<string>, pend: seq<string>)
    requires |win| == |o| > 0 && n != [] && n[0].ch == o[0].ch && o[0].ch != '-' && o[0].ch != '!' && n[0].ch != '+' && Bare(o, n, win).ok
    ensures var r := Bare(o, n, win);
      Patchwork(o, n, win, 0, Off, pend) == if Idle(r, |o|) then Outcome(true, [], pend + r.pend, r.rest) else Prefix(pend, r)
    decreases |o| + |n|, 0
  {
    var q := Bare(o[1..], n[1..], win[1..]);
    assert [] + [win[0]] == [win[0]];
    assert Bare(o, n, win) == Patchwork(o[1..], n[1..], win[1..], 0, Off, [win[0]]);
    OkPend(o[1..], n[1..], win[1..], [win[0]], []);
    KeptInFront(o[1..], n[1..], win[1..], [win[0]]);
    KeptInFront(o[1..], n[1..], win[1..], pend + [win[0]]);
    Assoc(pend, [win[0]], q.pend);
    PrefixTwice(pend, [win[0]], q);
    PendShort(o[1..], n[1..], win[1..]);
  }

  /** What is kept at the start does not change whether the halves stay in step. */
  lemma {:induction false} OkPend(o: seq<Cell>, n: seq<Cell>, win: seq<string>, p: seq<string>, q: seq<string>)
    requires |win| == |o|
    ensures Patchwork(o, n, win, 0, Off, p).ok == Patchwork(o, n, win, 0, Off, q).ok
    decreases |o| + |n|
  {
    if o == [] || o[0].ch == '-' || (n != [] && n[0].ch == '+') || n == [] || n[0].ch != o[0].ch || n[0].ch == '!' {
    } else {
      OkPend(o[1..], n[1..], win[1..], p + [win[0]], q + [win[0]]);
    }
  }

  /** The kept lines at the end are the last lines of the window. */
  lemma {:induction false} PendSuffix(o: seq<Cell>, n: seq<Cell>, win: seq<string>, pend: seq<string>)
    requires |win| == |o| && Patchwork(o, n, win, 0, Off, pend).ok
    ensures var r := Patchwork(o, n, win, 0, Off, pend); |r.pend| <= |pend + win| && r.pend == (pend + win)[|pend + win| - |r.pend|..]
    decreases |o| + |n|
  {
    if o == [] {
      assert pend + win == pend;
    } else if o[0].ch == '-' {
      PendSuffix(o[1..], n, win[1..], []);
      Suffix(pend, win, 1, Patchwork(o, n, win, 0, Off, pend).pend);
    } else if n != [] && n[0].ch == '+' {
      PendSuffix(o, n[1..], win, []);
      Suffix(pend, win, 0, Patchwork(o, n, win, 0, Off, pend).pend);
    } else if n[0].ch == '!' {
      var a, b := Run(o, '!'), Run(n, '!');
      PendSuffix(o[a..], n[b..], win[a..], []);
      Suffix(pend, win, a, Patchwork(o, n, win, 0, Off, pend).pend);
    } else {
      PendSuffix(o[1..], n[1..], win[1..], pend + [win[0]]);
      assert pend + [win[0]] + win[1..] == pend + win;
    }
  }

  lemma Suffix(pend: seq<string>, win: seq<string>, k: nat, s: seq<string>)
    requires k <= |win| && |s| <= |win| - k && s == ([] + win[k..])[|win| - k - |s|..]
    ensures s == (pend + win)[|pend + win| - |s|..]
  {
    assert [] + win[k..] == win[k..];
    var u := (pend + win)[|pend + win| - |s|..];
    assert |u| == |s|;
    forall i | 0 <= i < |s| ensures u[i] == s[i] { assert u[i] == win[|win| - |s| + i] == win[k..][|win| - k - |s| + i]; }
  }

  lemma PendShort(o: seq<Cell>, n: seq<Cell>, win: seq<string>)
    requires |win| == |o| && Bare(o, n, win).ok
    ensures |Bare(o, n, win).pend| <= |o| && Bare(o, n, win).pend == win[|win| - |Bare(o, n, win).pend|..]
  {
    PendSuffix(o, n, win, []);
    assert [] + win == win;
  }

  // ---------------------------------------------------------------- -D and no -D

  /** -D changes what is written, not how far the walk gets or what it keeps. */
  lemma {:induction false} SameKept(o: seq<Cell>, n: seq<Cell>, win: seq<string>, def: int, d: Directives, pend: seq<string>)
    requires |win| == |o|
    ensures var r, q := Patchwork(o, n, win, def, d, pend), Patchwork(o, n, win, 0, Off, pend); r.ok == q.ok && r.pend == q.pend && r.rest == q.rest
    decreases |o| + |n|
  {
    if o == [] {
    } else if o[0].ch == '-' {
      SameKept(o[1..], n, win[1..], MinusDef(d, def), d, []);
    } else if n != [] && n[0].ch == '+' {
      SameKept(o, n[1..], win, PlusDef(d, def), d, []);
    } else if n == [] || n[0].ch != o[0].ch {
    } else if n[0].ch == '!' {
      var a, b := Run(o, '!'), Run(n, '!');
      SameKept(o[a..], n[b..], win[a..], if d.Off? then def else 0, d, []);
    } else {
      SameKept(o[1..], n[1..], win[1..], def, d, pend + [win[0]]);
    }
  }

  // ---------------------------------------------------------------- the edit of a hunk

  /** The edit hunk h makes behind the first w lines: up to its last change, without the context
      behind it.  A hunk that changes nothing makes none. */
  function Effect(h: HunkVal, lines: seq<string>, w: nat): seq<Edit<string>>
    requires w + |h.olds| <= |lines| && Bare(h.olds, h.news, lines[w..w + |h.olds|]).ok
  {
    var r := Bare(h.olds, h.news, lines[w..w + |h.olds|]);
    PendShort(h.olds, h.news, lines[w..w + |h.olds|]);
    if Idle(r, |h.olds|) then [] else [Edit(w, |h.olds| - |r.pend|, r.out)]
  }

  /** What an edit means: the lines it covers, and those up to the end of the hunk's place, become the
      hunk's new side, with the file's own lines as context. */
  lemma EffectMeans(h: HunkVal, lines: seq<string>, w: nat)
    requires WellFormed(h) && w + |h.olds| <= |lines| && Shape(h.olds, false) == Shape(h.news, false)
    ensures Bare(h.olds, h.news, lines[w..w + |h.olds|]).ok
    ensures var es, side := Effect(h, lines, w), Fill(h.news, Kept(h.olds, lines[w..w + |h.olds|]));
      if es == [] then side == lines[w..w + |h.olds|]
      else es[0].at == w && w + es[0].drop <= w + |h.olds| && es[0].put + lines[w + es[0].drop..w + |h.olds|] == side
  {
    hide Bare, Shape, Fill, Kept, Texts;
    var win := lines[w..w + |h.olds|];
    BareText(h.olds, h.news, win);
    TailOf(lines, w, w + |h.olds|, |Bare(h.olds, h.news, win).pend|);
  }

  /** What a hunk alone writes and keeps is its new side; what it keeps are the last lines of its place. */
  lemma BareText(o: seq<Cell>, n: seq<Cell>, win: seq<string>)
    requires |win| == |o| && OldChars(o) && NewChars(n) && Shape(o, false) == Shape(n, false)
    ensures var r := Bare(o, n, win);
      r.ok && |r.pend| <= |win| && r.pend == win[|win| - |r.pend|..] && r.out + r.pend == Fill(n, Kept(o, win))
  {
    hide Patchwork, Shape, Fill, Kept, OldChars, NewChars;
    PatchedText(o, n, win, []);
    PendShort(o, n, win);
    assert [] + Fill(n, Kept(o, win)) == Fill(n, Kept(o, win));
  }

  lemma TailOf(lines: seq<string>, w: nat, e: nat, k: nat)
    requires w <= e <= |lines| && k <= e - w
    ensures lines[w..e][e - w - k..] == lines[e - k..e]
  {
  }

  // ---------------------------------------------------------------- from the first change on

  /** The hunk without its leading context. */
  function Stripped(h: HunkVal): HunkVal {
    var k := Lead(h.olds, h.news); h.(olds := h.olds[k..], news := h.news[k..])
  }

  lemma StrippedWellFormed(h: HunkVal)
    requires WellFormed(h)
    ensures WellFormed(Stripped(h))
  {
    var s, k := Stripped(h), Lead(h.olds, h.news);
    forall i | 0 <= i < |s.olds| ensures s.olds[i].ch in {' ', '-', '!'} && IsText(s.olds[i]) { assert s.olds[i] == h.olds[i + k]; }
    forall i | 0 <= i < |s.news| ensures s.news[i].ch in {' ', '+', '!'} && IsText(s.news[i]) { assert s.news[i] == h.news[i + k]; }
  }

  /** The edit made from the first change on, between the leading context and that at the end, puts the
      hunk's new side in place. */
  lemma StrippedMeans(h: HunkVal, lines: seq<string>, w: nat)
    requires WellFormed(h) && w + |h.olds| <= |lines| && Shape(h.olds, false) == Shape(h.news, false)
    ensures var s, k := Stripped(h), Lead(h.olds, h.news); Bare(s.olds, s.news, lines[w + k..w + |h.olds|]).ok
    ensures var e, k := w + |h.olds|, Lead(h.olds, h.news); var es, side := Effect(Stripped(h), lines, w + k), Fill(h.news, Kept(h.olds, lines[w..e]));
      if es == [] then side == lines[w..e]
      else es[0].at == w + k && w + k + es[0].drop <= e && lines[w..w + k] + es[0].put + lines[w + k + es[0].drop..e] == side
  {
    hide Patchwork, Shape, Fill, Kept, Lead, Idle;
    var k, e := Lead(h.olds, h.news), w + |h.olds|;
    StrippedWellFormed(h);
    LeadShape(h.olds, h.news, false);
    EffectMeans(Stripped(h), lines, w + k);
    LeadFill(h.olds, h.news, lines[w..e]);
    assert lines[w..e][k..] == lines[w + k..e] && lines[w..e][..k] == lines[w..w + k];
    assert lines[w..w + k] + lines[w + k..e] == lines[w..e];
  }

  /** The leading context of a side are the file's own lines. */
  lemma LeadFill(o: seq<Cell>, n: seq<Cell>, win: seq<string>)
    requires |win| == |o|
    ensures var k := Lead(o, n); Fill(n, Kept(o, win)) == win[..k] + Fill(n[k..], Kept(o[k..], win[k..]))
  {
    hide Lead, Fill, Kept;
    LeadFillUpTo(o, n, win, Lead(o, n));
  }

  lemma FillFirst(o: seq<Cell>, n: seq<Cell>, win: seq<string>)
    requires |win| == |o| > 0 && n != [] && o[0].ch == ' ' == n[0].ch
    ensures Fill(n, Kept(o, win)) == [win[0]] + Fill(n[1..], Kept(o[1..], win[1..]))
  {
    assert Kept(o, win)[1..] == Kept(o[1..], win[1..]);
  }

  lemma {:induction false} LeadFillUpTo(o: seq<Cell>, n: seq<Cell>, win: seq<string>, k: nat)
    requires |win| == |o| && k <= |o| && k <= |n| && forall i :: 0 <= i < k ==> o[i].ch == ' ' == n[i].ch
    ensures Fill(n, Kept(o, win)) == win[..k] + Fill(n[k..], Kept(o[k..], win[k..]))
  {
    hide Fill, Kept;
    if k == 0 {
      assert o[0..] == o && n[0..] == n && win[0..] == win;
    } else {
      FillFirst(o, n, win);
      LeadFillUpTo(o[1..], n[1..], win[1..], k - 1);
      assert o[1..][k - 1..] == o[k..] && n[1..][k - 1..] == n[k..] && win[1..][k - 1..] == win[k..];
      assert [win[0]] + win[1..][..k - 1] == win[..k];
    }
  }

  /** A hunk without context is its own stripped form. */
  lemma NoLead(h: HunkVal)
    requires Only(h.olds, '-') && Only(h.news, '+')
    ensures Lead(h.olds, h.news) == 0 && Stripped(h) == h
  {
    assert h.olds[0..] == h.olds && h.news[0..] == h.news;
  }

  /** A hunk without context makes the edit that drops its old lines and puts its new ones. */
  lemma PlainEffect(h: HunkVal, lines: seq<string>, w: nat)
    requires WellFormed(h) && w + |h.olds| <= |lines| && Only(h.olds, '-') && Only(h.news, '+') && (h.olds != [] || h.news != [])
    ensures Bare(h.olds, h.news, lines[w..w + |h.olds|]).ok
    ensures Effect(h, lines, w) == [Edit(w, |h.olds|, Texts(h.news))]
  {
    hide Patchwork, Texts, Only;
    PlainWalk(h.olds, h.news, lines[w..w + |h.olds|]);
    TextsLength(h.news);
  }

  lemma {:induction false} PlainWalk(o: seq<Cell>, n: seq<Cell>, win: seq<string>)
    requires |win| == |o| && Only(o, '-') && Only(n, '+')
    ensures Bare(o, n, win) == Outcome(true, Texts(n), [], [])
    decreases |o|
  {
    if o == [] {
      RunAll(n, '+');
      assert n[..|n|] == n && n[|n|..] == [];
      assert [] + PlusMark(Off, 0) + Texts(n) + Close(Off, 0) == Texts(n);
    } else {
      PlainWalk(o[1..], n, win[1..]);
      assert [] + MinusMark(Off, 0) + Echo(Off, o[..1]) == [];
      PrefixNone(Bare(o[1..], n, win[1..]));
    }
  }

  // ---------------------------------------------------------------- what is written are lines

  predicate LineDirectives(d: Directives) {
    d.On? ==> IsLine(d.ifdef) && IsLine(d.ifndef) && IsLine(d.els) && IsLine(d.end)
  }

  predicate AllTexts(c: seq<Cell>) {
    forall i :: 0 <= i < |c| ==> IsText(c[i])
  }

  lemma {:induction false} TextsAreLines(c: seq<Cell>)
    requires AllTexts(c)
    ensures AreLines(Texts(c))
  {
    if c != [] {
      hide IsLine;
      TextsAreLines(c[1..]);
    }
  }

  lemma OldIsWritten(o: seq<Cell>, def: int, d: Directives, pend: seq<string>)
    requires o != [] && AllTexts(o) && AreLines(pend) && LineDirectives(d)
    ensures AreLines(pend + MinusMark(d, def) + Echo(d, o[..1]))
  {
    hide IsLine, Texts;
    TextsAreLines(o[..1]);
  }

  lemma NewIsWritten(n: seq<Cell>, def: int, d: Directives, pend: seq<string>)
    requires n != [] && AllTexts(n) && AreLines(pend) && LineDirectives(d)
    ensures AreLines(pend + PlusMark(d, def) + [n[0].text])
  {
    hide IsLine;
  }

  lemma ChangeIsWritten(olds: seq<Cell>, news: seq<Cell>, d: Directives, pend: seq<string>)
    requires AllTexts(olds) && AllTexts(news) && AreLines(pend) && LineDirectives(d)
    ensures AreLines(pend + Change(d, olds, news))
  {
    hide IsLine, Texts;
    TextsAreLines(olds);
    TextsAreLines(news);
  }

  lemma EndIsWritten(news: seq<Cell>, def: int, d: Directives, pend: seq<string>)
    requires AllTexts(news) && AreLines(pend) && LineDirectives(d)
    ensures AreLines(pend + PlusMark(d, def) + Texts(news) + Close(d, PlusDef(d, def))) && AreLines(Close(d, def))
  {
    hide IsLine, Texts;
    TextsAreLines(news);
  }

  lemma {:induction false} WalkWritesLines(o: seq<Cell>, n: seq<Cell>, win: seq<string>, def: int, d: Directives, pend: seq<string>)
    requires |win| == |o| && AllTexts(o) && AllTexts(n) && AreLines(win) && AreLines(pend) && LineDirectives(d)
    ensures AreLines(Patchwork(o, n, win, def, d, pend).out)
    decreases |o| + |n|
  {
    hide IsLine, IsText, Texts, Run, LineDirectives, MinusMark, PlusMark, MinusDef, PlusDef, Echo, Change, Close;
    if o == [] {
      EndIsWritten(n[..Run(n, '+')], def, d, pend);
    } else if o[0].ch == '-' {
      OldIsWritten(o, def, d, pend);
      WalkWritesLines(o[1..], n, win[1..], MinusDef(d, def), d, []);
    } else if n != [] && n[0].ch == '+' {
      NewIsWritten(n, def, d, pend);
      WalkWritesLines(o, n[1..], win, PlusDef(d, def), d, []);
    } else if n == [] || n[0].ch != o[0].ch {
    } else if n[0].ch == '!' {
      var a, b := Run(o, '!'), Run(n, '!');
      ChangeIsWritten(o[..a], n[..b], d, pend);
      WalkWritesLines(o[a..], n[b..], win[a..], if d.Off? then def else 0, d, []);
    } else {
      WalkWritesLines(o[1..], n[1..], win[1..], def, d, pend + [win[0]]);
    }
  }

  // ---------------------------------------------------------------- hunks one behind the other

  /** A hunk whose -D output reads both ways: clean, matching the file word for word, and without
      lines that look like the directives. */
  ghost predicate Tidy(h: HunkVal, lines: seq<string>, w: nat, d: Directives)
    requires w + |h.olds| <= |lines|
  {
    && Distinct(d) && WellFormed(h) && Clean(h.olds, h.news) && PlainCells(h.olds, d) && PlainCells(h.news, d)
    && AllPlain(lines, d) && lines[w..w + |h.olds|] == Texts(h.olds)
  }

  /** After the edits done, the file is copied up to frozen; the output so far is the edited file so
      far.  Under -D it is what the output reads as with the symbol defined, and the original is what
      it reads as with the symbol undefined. */
  ghost predicate Agrees(lines: seq<string>, done: seq<Edit<string>>, frozen: nat, outs: seq<string>, d: Directives, tidy: bool) {
    && InOrder(done, |lines|) && EditEnd(done) == frozen <= |lines|
    && (d.Off? ==> outs == SpliceUpTo(lines, done))
    && (d.On? && tidy ==> Reads(outs, d, true, SpliceUpTo(lines, done)) && Reads(outs, d, false, lines[..frozen]))
    && (AreLines(lines) && LineDirectives(d) ==> AreLines(outs))
  }

  predicate Reads(outs: seq<string>, d: Directives, defined: bool, text: seq<string>)
    requires d.On?
  {
    After(outs, d, defined, Top) == Top && Read(outs, d, defined, Top) == text
  }

  lemma ReadsMore(a: seq<string>, b: seq<string>, d: Directives, defined: bool, s: seq<string>, t: seq<string>)
    requires d.On? && Reads(a, d, defined, s) && Reads(b, d, defined, t)
    ensures Reads(a + b, d, defined, s + t)
  {
    ReadAppend(a, b, d, defined, Top);
  }

  /** What is left of a reading when plain lines at the end are left out. */
  lemma ReadsLess(a: seq<string>, p: seq<string>, d: Directives, defined: bool, s: seq<string>)
    requires d.On? && AllPlain(p, d) && Reads(a + p, d, defined, s + p)
    ensures Reads(a, d, defined, s)
  {
    ReadAppend(a, p, d, defined, Top);
    ReadPlain(p, d, defined, After(a, d, defined, Top));
    var x := Read(a, d, defined, Top);
    assert (x + p)[..|x|] == x && (s + p)[..|s|] == s;
  }

  /** How far the file is edited and copied with one more hunk. */
  lemma FrozenDone(lines: seq<string>, done: seq<Edit<string>>, f: nat, d: Directives, h: HunkVal, w: nat, f': nat, r: Outcome)
    requires InOrder(done, |lines|) && EditEnd(done) == f <= w && w + |h.olds| <= |lines|
    requires r == Patchwork(h.olds, h.news, lines[w..w + |h.olds|], 0, d, lines[f..w]) && r.ok
    requires f' <= w + |h.olds| && lines[f'..w + |h.olds|] == r.pend
    ensures Bare(h.olds, h.news, lines[w..w + |h.olds|]).ok && f' <= |lines|
    ensures var es := done + Effect(h, lines, w);
      InOrder(es, |lines|) && EditEnd(es) == f' && SpliceUpTo(lines, es) == SpliceUpTo(lines, done) + Written(h, lines, f, w)
  {
    hide Patchwork, InOrder, SpliceUpTo, Written, Cut;
    var o, n, win, pend := h.olds, h.news, lines[w..w + |h.olds|], lines[f..w];
    SameKept(o, n, win, 0, d, pend);
    OkPend(o, n, win, pend, []);
    KeptInFront(o, n, win, pend);
    PendShort(o, n, win);
    EffectDone(lines, done, f, h, w);
  }

  lemma LinesDone(lines: seq<string>, f: nat, outs: seq<string>, d: Directives, h: HunkVal, w: nat, r: Outcome)
    requires f <= w && w + |h.olds| <= |lines| && WellFormed(h)
    requires r == Patchwork(h.olds, h.news, lines[w..w + |h.olds|], 0, d, lines[f..w])
    ensures AreLines(lines) && LineDirectives(d) && AreLines(outs) ==> AreLines(outs + r.out)
  {
    CellsAreTexts(h);
    hide Patchwork, IsLine, AllTexts, LineDirectives, WellFormed;
    if AreLines(lines) && LineDirectives(d) {
      WalkWritesLines(h.olds, h.news, lines[w..w + |h.olds|], 0, d, lines[f..w]);
    }
  }

  /** One more hunk, behind the lines frozen so far. */
  lemma HunkDone(lines: seq<string>, done: seq<Edit<string>>, f: nat, outs: seq<string>, d: Directives, tidy: bool, h: HunkVal, w: nat, f': nat, r: Outcome)
    requires Agrees(lines, done, f, outs, d, tidy) && f <= w && w + |h.olds| <= |lines| && WellFormed(h)
    requires r == Patchwork(h.olds, h.news, lines[w..w + |h.olds|], 0, d, lines[f..w]) && r.ok
    requires f' <= w + |h.olds| && lines[f'..w + |h.olds|] == r.pend
    ensures Bare(h.olds, h.news, lines[w..w + |h.olds|]).ok
    ensures Agrees(lines, done + Effect(h, lines, w), f', outs + r.out, d, tidy && Tidy(h, lines, w, d))
  {
    hide Patchwork, Read, After, Clean, WellFormed, PlainCells, Texts, InOrder, SpliceUpTo, Tidy, Reads, Bare, AreLines, LineDirectives, Effect, Written, EditEnd;
    LinesDone(lines, f, outs, d, h, w, r);
    FrozenDone(lines, done, f, d, h, w, f', r);
    if d.On? && tidy && Tidy(h, lines, w, d) {
      TidyDone(lines, done, f, outs, d, h, w, f', r);
    }
    if d.Off? { OffDone(lines, done, f, outs, h, w, r); }
  }

  lemma CellsAreTexts(h: HunkVal)
    requires WellFormed(h)
    ensures AllTexts(h.olds) && AllTexts(h.news)
  {
  }

  /** Lines kept and lines written for a hunk, as a continuation of the edited file. */
  function Written(h: HunkVal, lines: seq<string>, f: nat, w: nat): seq<string>
    requires f <= w && w + |h.olds| <= |lines|
  {
    var r := Bare(h.olds, h.news, lines[w..w + |h.olds|]);
    if Idle(r, |h.olds|) then [] else lines[f..w] + r.out
  }

  lemma EffectDone(lines: seq<string>, done: seq<Edit<string>>, f: nat, h: HunkVal, w: nat)
    requires InOrder(done, |lines|) && EditEnd(done) == f <= w && w + |h.olds| <= |lines|
    requires Bare(h.olds, h.news, lines[w..w + |h.olds|]).ok
    ensures var es := done + Effect(h, lines, w); var r := Bare(h.olds, h.news, lines[w..w + |h.olds|]);
      InOrder(es, |lines|) && SpliceUpTo(lines, es) == SpliceUpTo(lines, done) + Written(h, lines, f, w)
      && EditEnd(es) == if Idle(r, |h.olds|) then f else w + |h.olds| - |r.pend|
  {
    hide Patchwork, InOrder, SpliceUpTo;
    var r := Bare(h.olds, h.news, lines[w..w + |h.olds|]);
    PendShort(h.olds, h.news, lines[w..w + |h.olds|]);
    if Idle(r, |h.olds|) {
      assert done + [] == done && SpliceUpTo(lines, done) + [] == SpliceUpTo(lines, done);
    } else {
      SpliceMore(lines, done, Edit(w, |h.olds| - |r.pend|, r.out));
      Assoc(SpliceUpTo(lines, done), lines[f..w], r.out);
    }
  }

  lemma OffDone(lines: seq<string>, done: seq<Edit<string>>, f: nat, outs: seq<string>, h: HunkVal, w: nat, r: Outcome)
    requires f <= w && w + |h.olds| <= |lines| && Bare(h.olds, h.news, lines[w..w + |h.olds|]).ok
    requires r == Patchwork(h.olds, h.news, lines[w..w + |h.olds|], 0, Off, lines[f..w])
    ensures r.out == Written(h, lines, f, w)
  {
    hide Patchwork;
    KeptInFront(h.olds, h.news, lines[w..w + |h.olds|], lines[f..w]);
  }

  lemma TidyDone(lines: seq<string>, done: seq<Edit<string>>, f: nat, outs: seq<string>, d: Directives, h: HunkVal, w: nat, f': nat, r: Outcome)
    requires Agrees(lines, done, f, outs, d, true) && f <= w && w + |h.olds| <= |lines| && d.On? && Tidy(h, lines, w, d)
    requires r == Patchwork(h.olds, h.news, lines[w..w + |h.olds|], 0, d, lines[f..w])
    requires f' <= w + |h.olds| && lines[f'..w + |h.olds|] == r.pend
    ensures Bare(h.olds, h.news, lines[w..w + |h.olds|]).ok && f <= f'
    ensures Reads(outs + r.out, d, true, SpliceUpTo(lines, done) + Written(h, lines, f, w))
    ensures Reads(outs + r.out, d, false, lines[..f'])
  {
    hide Patchwork, Read, After, Clean, WellFormed, PlainCells, Texts, InOrder, SpliceUpTo;
    var win, e := lines[w..w + |h.olds|], w + |h.olds|;
    TidySides(lines, d, h, w, f, r);
    assert lines[f'..e] == r.pend;
    assert f <= f' && lines[f..e] == lines[f..f'] + r.pend;
    ReadsLess(r.out, r.pend, d, false, lines[f..f']);
    ReadsLess(r.out, r.pend, d, true, Written(h, lines, f, w));
    ReadsMore(outs, r.out, d, false, lines[..f], lines[f..f']);
    ReadsMore(outs, r.out, d, true, SpliceUpTo(lines, done), Written(h, lines, f, w));
    assert lines[..f] + lines[f..f'] == lines[..f'];
  }

  lemma Glue(lines: seq<string>, f: nat, w: nat, e: nat)
    requires f <= w <= e <= |lines|
    ensures lines[f..w] + lines[w..e] == lines[f..e]
  {
  }

  lemma TidySides(lines: seq<string>, d: Directives, h: HunkVal, w: nat, f: nat, r: Outcome)
    requires f <= w && w + |h.olds| <= |lines| && d.On? && Tidy(h, lines, w, d)
    requires r == Patchwork(h.olds, h.news, lines[w..w + |h.olds|], 0, d, lines[f..w])
    ensures Bare(h.olds, h.news, lines[w..w + |h.olds|]).ok && AllPlain(r.pend, d)
    ensures Reads(r.out + r.pend, d, false, lines[f..w + |h.olds|])
    ensures Reads(r.out + r.pend, d, true, Written(h, lines, f, w) + r.pend)
    ensures |r.pend| <= w + |h.olds| - f
  {
    hide Patchwork, Read, After, Clean, PlainCells, Texts, Fill, Kept, Shape;
    var o, n, win, pend := h.olds, h.news, lines[w..w + |h.olds|], lines[f..w];
    var e, q := w + |h.olds|, Bare(h.olds, h.news, lines[w..w + |h.olds|]);
    CleanInStep(o, n);
    PatchedText(o, n, win, []);
    SameKept(o, n, win, 0, d, pend);
    KeptInFront(o, n, win, pend);
    PendSuffix(o, n, win, pend);
    Glue(lines, f, w, e);
    BothWaysOpen(o, n, win, d, pend, false);
    BothWaysOpen(o, n, win, d, pend, true);
    OldSide(o, n, win);
    SideIsEdit(h, lines, f, w, r.pend);
  }

  /** With a word-for-word match, the old side is the file's own text. */
  lemma OldSide(o: seq<Cell>, n: seq<Cell>, win: seq<string>)
    requires |win| == |o| && win == Texts(o)
    ensures Side(o, n, win, false) == win
  {
    KeptOwn(o, win);
    FillOwn(o);
  }

  lemma SideIsEdit(h: HunkVal, lines: seq<string>, f: nat, w: nat, kept: seq<string>)
    requires f <= w && w + |h.olds| <= |lines| && Leaves(Bare(h.olds, h.news, lines[w..w + |h.olds|]), [], Fill(h.news, Kept(h.olds, lines[w..w + |h.olds|])))
    requires var q := Bare(h.olds, h.news, lines[w..w + |h.olds|]); kept == if Idle(q, |h.olds|) then lines[f..w] + q.pend else q.pend
    ensures lines[f..w] + Side(h.olds, h.news, lines[w..w + |h.olds|], true) == Written(h, lines, f, w) + kept
  {
    hide Patchwork, Fill, Kept;
    var q, side := Bare(h.olds, h.news, lines[w..w + |h.olds|]), Fill(h.news, Kept(h.olds, lines[w..w + |h.olds|]));
    assert [] + side == side;
    assert q.out + q.pend == side;
    if Idle(q, |h.olds|) {
      assert q.pend == side && [] + kept == kept;
    } else {
      Assoc(lines[f..w], q.out, q.pend);
    }
  }

  lemma BothWaysOpen(o: seq<Cell>, n: seq<Cell>, win: seq<string>, d: Directives, pend: seq<string>, defined: bool)
    requires Distinct(d) && |win| == |o| && OldChars(o) && NewChars(n) && Clean(o, n)
    requires PlainCells(o, d) && PlainCells(n, d) && AllPlain(pend, d) && AllPlain(win, d)
    ensures var r := Patchwork(o, n, win, 0, d, pend); Reads(r.out + r.pend, d, defined, pend + Side(o, n, win, defined))
  {
    hide Patchwork, Read, After;
    BothWays(o, n, win, d, pend, defined);
    assert Open(0);
  }

  /** The rest of the file copied, the output is the edited file; under -D it reads both ways. */
  lemma AllDone(lines: seq<string>, done: seq<Edit<string>>, frozen: nat, outs: seq<string>, d: Directives, tidy: bool)
    requires Agrees(lines, done, frozen, outs, d, tidy) && (d.On? && tidy ==> AllPlain(lines, d))
    ensures d.Off? ==> outs + lines[frozen..] == Splice(lines, done)
    ensures d.On? && tidy ==> Reads(outs + lines[frozen..], d, true, Splice(lines, done)) && Reads(outs + lines[frozen..], d, false, lines)
    ensures AreLines(lines) && LineDirectives(d) ==> AreLines(outs + lines[frozen..])
  {
    hide Read, After, SpliceUpTo, InOrder, IsLine;
    if d.On? && tidy {
      ReadPlain(lines[frozen..], d, true, Top);
      ReadPlain(lines[frozen..], d, false, Top);
      ReadsMore(outs, lines[frozen..], d, true, SpliceUpTo(lines, done), lines[frozen..]);
      ReadsMore(outs, lines[frozen..], d, false, lines[..frozen], lines[frozen..]);
      assert lines[..frozen] + lines[frozen..] == lines;
    }
  }
}
