/**
 What apply_hunk writes for one hunk, as a function of the old and new cells, and what that means.
 */
module Merging {
  import opened Hunk
  import opened LooseMatch

  /** The -D switch: off, or the four directive lines. */
  datatype Directives = Off | On(ifdef: string, ifndef: string, els: string, end: string)

  /** ok: old and new part stayed in step; out: lines written; pend: lines kept but not copied yet;
      rest: new cells left over. */
  datatype Outcome = Outcome(ok: bool, out: seq<string>, pend: seq<string>, rest: seq<Cell>)

  function Prefix(ls: seq<string>, r: Outcome): Outcome {
    Outcome(r.ok, ls + r.out, r.pend, r.rest)
  }

  function Texts(cs: seq<Cell>): seq<string> {
    if cs == [] then [] else [cs[0].text] + Texts(cs[1..])
  }

  /** Length of the run of cells marked ch at the front. */
  function Run(cs: seq<Cell>, ch: char): (k: nat)
    ensures k <= |cs| && forall i :: 0 <= i < k ==> cs[i].ch == ch
    ensures k < |cs| ==> cs[k].ch != ch
  {
    if cs == [] || cs[0].ch != ch then 0 else 1 + Run(cs[1..], ch)
  }

  // ---------------------------------------------------------------- conditionals of -D

  function MinusMark(d: Directives, def: int): seq<string> {
    match d
    case Off => []
    case On(_, ifndef, els, _) => if def == 0 then [ifndef] else if def == 1 then [els] else []
  }

  function MinusDef(d: Directives, def: int): int {
    if d.Off? then def else if def == 0 then -1 else if def == 1 then 2 else def
  }

  function PlusMark(d: Directives, def: int): seq<string> {
    match d
    case Off => []
    case On(ifdef, _, els, _) => if def == -1 then [els] else if def == 0 then [ifdef] else []
  }

  function PlusDef(d: Directives, def: int): int {
    if d.Off? then def else if def == -1 then 2 else if def == 0 then 1 else def
  }

  function Echo(d: Directives, olds: seq<Cell>): seq<string> {
    if d.Off? then [] else Texts(olds)
  }

  function Change(d: Directives, olds: seq<Cell>, news: seq<Cell>): seq<string> {
    match d
    case Off => Texts(news)
    case On(_, ifndef, els, end) => [ifndef] + Texts(olds) + [els] + Texts(news) + [end]
  }

  function Close(d: Directives, def: int): seq<string> {
    if d.On? && def != 0 then [d.end] else []
  }

  // ---------------------------------------------------------------- the walk

  /** The walk of apply_hunk over the rest o of the old cells and n of the new ones.  win holds the
      lines of the file facing o, def is the state of the conditional, and pend the kept lines that
      copy_till has yet to copy. */
  function Patchwork(o: seq<Cell>, n: seq<Cell>, win: seq<string>, def: int, d: Directives, pend: seq<string>): Outcome
    requires |win| == |o|
    decreases |o| + |n|
  {
    if o == [] then
      if n != [] && n[0].ch == '+' then
        var k := Run(n, '+');
        Outcome(true, pend + PlusMark(d, def) + Texts(n[..k]) + Close(d, PlusDef(d, def)), [], n[k..])
      else Outcome(true, Close(d, def), pend, n)
    else if o[0].ch == '-' then
      Prefix(pend + MinusMark(d, def) + Echo(d, o[..1]), Patchwork(o[1..], n, win[1..], MinusDef(d, def), d, []))
    else if n != [] && n[0].ch == '+' then
      Prefix(pend + PlusMark(d, def) + [n[0].text], Patchwork(o, n[1..], win, PlusDef(d, def), d, []))
    else if n == [] || n[0].ch != o[0].ch then
      Outcome(false, [], pend, n)
    else if n[0].ch == '!' then
      var a, b := Run(o, '!'), Run(n, '!');
      Prefix(pend + Change(d, o[..a], n[..b]), Patchwork(o[a..], n[b..], win[a..], if d.Off? then def else 0, d, []))
    else
      Patchwork(o[1..], n[1..], win[1..], def, d, pend + [win[0]])
  }

  predicate OldChars(o: seq<Cell>) {
    forall i :: 0 <= i < |o| ==> o[i].ch in {' ', '-', '!'}
  }

  predicate NewChars(n: seq<Cell>) {
    forall i :: 0 <= i < |n| ==> n[i].ch in {' ', '+', '!'}
  }

  // ---------------------------------------------------------------- staying in step

  /** What the two halves of a hunk must share: context lines, and runs of changed lines, in order.
      With texts the context lines count by their text, without by their place only. */
  datatype Item = Keep(text: string) | Bang

  function Shape(c: seq<Cell>, texts: bool): seq<Item>
    decreases |c|
  {
    if c == [] then []
    else if c[0].ch == '!' then [Bang] + Shape(c[Run(c, '!')..], texts)
    else if c[0].ch == ' ' then [Keep(if texts then c[0].text else "")] + Shape(c[1..], texts)
    else Shape(c[1..], texts)
  }

  lemma {:induction false} ShapePlus(n: seq<Cell>, texts: bool)
    requires NewChars(n)
    ensures Shape(n, texts) == [] <==> Run(n, '+') == |n|
    decreases |n|
  {
    if n != [] && n[0].ch == '+' { ShapePlus(n[1..], texts); }
  }

  /** The walk stays in step to the end of both halves exactly when their shapes are equal; the
      "Out-of-sync patch" exit and silently dropped new lines are the other cases. */
  lemma {:induction false} InStep(o: seq<Cell>, n: seq<Cell>, win: seq<string>, def: int, d: Directives, pend: seq<string>)
    requires |win| == |o| && OldChars(o) && NewChars(n)
    ensures var r := Patchwork(o, n, win, def, d, pend);
      r.ok && r.rest == [] <==> Shape(o, false) == Shape(n, false)
    decreases |o| + |n|
  {
    if o == [] {
      ShapePlus(n, false);
    } else if o[0].ch == '-' {
      InStep(o[1..], n, win[1..], MinusDef(d, def), d, []);
    } else if n != [] && n[0].ch == '+' {
      InStep(o, n[1..], win, PlusDef(d, def), d, []);
    } else if n == [] {
      assert Shape(o, false) != [];
    } else if n[0].ch != o[0].ch {
      assert Shape(o, false)[0] != Shape(n, false)[0];
    } else if n[0].ch == '!' {
      var a, b := Run(o, '!'), Run(n, '!');
      InStep(o[a..], n[b..], win[a..], if d.Off? then def else 0, d, []);
      ConsEqual(Bang, Shape(o[a..], false), Shape(n[b..], false));
    } else {
      InStep(o[1..], n[1..], win[1..], def, d, pend + [win[0]]);
      ConsEqual(Keep(""), Shape(o[1..], false), Shape(n[1..], false));
    }
  }

  lemma ConsEqual(x: Item, s: seq<Item>, t: seq<Item>)
    ensures [x] + s == [x] + t <==> s == t
  {
    if [x] + s == [x] + t { assert s == ([x] + s)[1..] && t == ([x] + t)[1..]; }
  }

  // ---------------------------------------------------------------- the first change

  /** How many context lines both halves start with. */
  function Lead(o: seq<Cell>, n: seq<Cell>): (k: nat)
    ensures k <= |o| && k <= |n| && forall i :: 0 <= i < k ==> o[i].ch == ' ' && n[i].ch == ' '
    ensures k < |o| && k < |n| ==> o[k].ch != ' ' || n[k].ch != ' '
  {
    if o == [] || n == [] || o[0].ch != ' ' || n[0].ch != ' ' then 0 else 1 + Lead(o[1..], n[1..])
  }

  /** Behind that, something is removed, added or changed; if not, nothing is written for the hunk. */
  predicate Changes(o: seq<Cell>, n: seq<Cell>) {
    var k := Lead(o, n);
    (k < |o| && o[k].ch == '-') || (k < |n| && n[k].ch == '+') || (k < |o| && k < |n| && o[k].ch == '!' == n[k].ch)
  }

  lemma {:induction false} LeadShape(o: seq<Cell>, n: seq<Cell>, texts: bool)
    requires Shape(o, texts) == Shape(n, texts)
    ensures Shape(o[Lead(o, n)..], texts) == Shape(n[Lead(o, n)..], texts)
    decreases |o|
  {
    var k := Lead(o, n);
    if k > 0 {
      assert Shape(o, texts)[1..] == Shape(o[1..], texts) && Shape(n, texts)[1..] == Shape(n[1..], texts);
      LeadShape(o[1..], n[1..], texts);
      assert o[1..][k - 1..] == o[k..] && n[1..][k - 1..] == n[k..];
    } else {
      assert o[0..] == o && n[0..] == n;
    }
  }

  lemma KeepOne(o: seq<Cell>, n: seq<Cell>, win: seq<string>, def: int, d: Directives, pend: seq<string>)
    requires |win| == |o| > 0 && n != [] && o[0].ch == ' ' == n[0].ch
    ensures Patchwork(o, n, win, def, d, pend) == Patchwork(o[1..], n[1..], win[1..], def, d, pend + [win[0]])
  {
  }

  lemma DropBoth<T>(s: seq<T>, k: nat)
    requires 0 < k <= |s|
    ensures s[1..][k - 1..] == s[k..]
  {
  }

  lemma TakeBoth(pend: seq<string>, win: seq<string>, k: nat)
    requires 0 < k <= |win|
    ensures pend + [win[0]] + win[1..][..k - 1] == pend + win[..k]
  {
    assert win[..k] == [win[0]] + win[1..][..k - 1];
  }

  lemma LeadOne(o: seq<Cell>, n: seq<Cell>)
    requires Lead(o, n) > 0
    ensures o != [] && n != [] && Lead(o, n) == 1 + Lead(o[1..], n[1..])
  {
  }

  /** The walk keeps the leading context and goes on behind it. */
  lemma {:induction false} LeadWalk(o: seq<Cell>, n: seq<Cell>, win: seq<string>, def: int, d: Directives, pend: seq<string>)
    requires |win| == |o|
    ensures var k := Lead(o, n); Patchwork(o, n, win, def, d, pend) == Patchwork(o[k..], n[k..], win[k..], def, d, pend + win[..k])
    decreases |o|
  {
    hide Patchwork, Lead;
    if Lead(o, n) > 0 {
      LeadOne(o, n);
      DropBoth(o, Lead(o, n));
      DropBoth(n, Lead(o, n));
      DropBoth(win, Lead(o, n));
      TakeBoth(pend, win, Lead(o, n));
      KeepOne(o, n, win, def, d, pend);
      LeadWalk(o[1..], n[1..], win[1..], def, d, pend + [win[0]]);
    } else {
      assert o[0..] == o && n[0..] == n && win[0..] == win && pend + win[..0] == pend;
    }
  }

  /** Without a change the walk behind the leading context writes nothing, and stays in step only at the
      end of the old lines. */
  lemma NoChange(o: seq<Cell>, n: seq<Cell>, win: seq<string>, d: Directives, pend: seq<string>)
    requires |win| == |o| && OldChars(o) && NewChars(n) && !Changes(o, n)
    ensures var k := Lead(o, n); Patchwork(o[k..], n[k..], win[k..], 0, d, pend) == Outcome(k == |o|, [], pend, n[k..])
  {
    var k := Lead(o, n);
    if k < |o| { assert o[k..][0] == o[k]; }
    if k < |n| { assert n[k..][0] == n[k]; }
  }

  // ---------------------------------------------------------------- the patched text

  lemma Assoc(a: seq<string>, b: seq<string>, c: seq<string>)
    ensures a + (b + c) == a + b + c
  {
  }

  lemma {:induction false} TextsSplit(c: seq<Cell>, k: nat)
    requires k <= |c|
    ensures Texts(c) == Texts(c[..k]) + Texts(c[k..])
  {
    if k > 0 {
      TextsSplit(c[1..], k - 1);
      assert c[..k][1..] == c[1..][..k - 1] && c[k..] == c[1..][k - 1..];
      Assoc([c[0].text], Texts(c[1..][..k - 1]), Texts(c[k..]));
    } else {
      assert c[0..] == c;
    }
  }

  /** The lines of the file that face context lines. */
  function Kept(o: seq<Cell>, win: seq<string>): seq<string>
    requires |win| == |o|
  {
    if o == [] then [] else (if o[0].ch == ' ' then [win[0]] else []) + Kept(o[1..], win[1..])
  }

  function Context(c: seq<Cell>): seq<string> {
    if c == [] then [] else (if c[0].ch == ' ' then [c[0].text] else []) + Context(c[1..])
  }

  /** One side of a hunk, with the lines ks in place of its context. */
  function Fill(c: seq<Cell>, ks: seq<string>): seq<string> {
    if c == [] then []
    else if c[0].ch == ' ' && ks != [] then [ks[0]] + Fill(c[1..], ks[1..])
    else [c[0].text] + Fill(c[1..], ks)
  }

  lemma {:induction false} FillRun(c: seq<Cell>, k: nat, ks: seq<string>)
    requires k <= |c| && forall i :: 0 <= i < k ==> c[i].ch != ' '
    ensures Fill(c, ks) == Texts(c[..k]) + Fill(c[k..], ks)
  {
    if k > 0 {
      FillRun(c[1..], k - 1, ks);
      assert c[..k][1..] == c[1..][..k - 1] && c[k..] == c[1..][k - 1..];
      Assoc([c[0].text], Texts(c[1..][..k - 1]), Fill(c[k..], ks));
    } else {
      assert c[0..] == c;
    }
  }

  lemma {:induction false} KeptRun(o: seq<Cell>, k: nat, win: seq<string>)
    requires |win| == |o| && k <= |o| && forall i :: 0 <= i < k ==> o[i].ch != ' '
    ensures Kept(o, win) == Kept(o[k..], win[k..])
  {
    if k > 0 {
      KeptRun(o[1..], k - 1, win[1..]);
      assert o[k..] == o[1..][k - 1..] && win[k..] == win[1..][k - 1..];
    } else {
      assert o[0..] == o && win[0..] == win;
    }
  }

  /** The walk ends in step and leaves the lines t behind pend: written, or still to be copied. */
  predicate Leaves(r: Outcome, pend: seq<string>, t: seq<string>) {
    r.ok && r.rest == [] && r.out + r.pend == pend + t
  }

  lemma Put(pend: seq<string>, put: seq<string>, r: Outcome, t: seq<string>)
    requires Leaves(r, [], t)
    ensures Leaves(Prefix(pend + put, r), pend, put + t)
  {
    assert [] + t == t;
    Assoc(pend + put, r.out, r.pend);
    Assoc(pend, put, t);
  }

  lemma WriteOld(o: seq<Cell>, n: seq<Cell>, win: seq<string>, pend: seq<string>, t: seq<string>)
    requires |win| == |o| > 0 && o[0].ch == '-' && Leaves(Patchwork(o[1..], n, win[1..], 0, Off, []), [], t)
    ensures Leaves(Patchwork(o, n, win, 0, Off, pend), pend, t)
  {
    assert pend + MinusMark(Off, 0) + Echo(Off, o[..1]) == pend + [];
    Put(pend, [], Patchwork(o[1..], n, win[1..], 0, Off, []), t);
    assert [] + t == t;
  }

  lemma WriteNew(o: seq<Cell>, n: seq<Cell>, win: seq<string>, pend: seq<string>, t: seq<string>)
    requires |win| == |o| > 0 && o[0].ch != '-' && n != [] && n[0].ch == '+'
    requires Leaves(Patchwork(o, n[1..], win, 0, Off, []), [], t)
    ensures Leaves(Patchwork(o, n, win, 0, Off, pend), pend, [n[0].text] + t)
  {
    assert pend + PlusMark(Off, 0) + [n[0].text] == pend + [n[0].text];
    Put(pend, [n[0].text], Patchwork(o, n[1..], win, 0, Off, []), t);
  }

  lemma WriteRest(n: seq<Cell>, pend: seq<string>)
    requires NewChars(n) && Shape(n, false) == []
    ensures Leaves(Patchwork([], n, [], 0, Off, pend), pend, Fill(n, []))
  {
    ShapePlus(n, false);
    FillRun(n, |n|, []);
    assert n[..|n|] == n && n[|n|..] == [];
    assert Fill(n, []) == Texts(n);
    if n != [] {
      assert pend + PlusMark(Off, 0) + Texts(n) + Close(Off, 0) == pend + Texts(n);
    }
  }

  lemma WriteChange(o: seq<Cell>, n: seq<Cell>, win: seq<string>, pend: seq<string>)
    requires |win| == |o| > 0 && n != [] && o[0].ch == '!' == n[0].ch
    requires var a, b := Run(o, '!'), Run(n, '!'); Leaves(Patchwork(o[a..], n[b..], win[a..], 0, Off, []), [], Fill(n[b..], Kept(o[a..], win[a..])))
    ensures Leaves(Patchwork(o, n, win, 0, Off, pend), pend, Fill(n, Kept(o, win)))
  {
    var a, b := Run(o, '!'), Run(n, '!');
    KeptRun(o, a, win);
    FillRun(n, b, Kept(o, win));
    Put(pend, Texts(n[..b]), Patchwork(o[a..], n[b..], win[a..], 0, Off, []), Fill(n[b..], Kept(o[a..], win[a..])));
  }

  /** A hunk whose halves have one shape, put where the lines win stand, leaves its new lines, with
      the file's own lines as context: all that is written and still to be copied. */
  lemma {:induction false} PatchedText(o: seq<Cell>, n: seq<Cell>, win: seq<string>, pend: seq<string>)
    requires OldChars(o) && NewChars(n) && Shape(o, false) == Shape(n, false) && |win| == |o|
    ensures Leaves(Patchwork(o, n, win, 0, Off, pend), pend, Fill(n, Kept(o, win)))
    decreases |o| + |n|
  {
    if o == [] {
      WriteRest(n, pend);
    } else if o[0].ch == '-' {
      PatchedText(o[1..], n, win[1..], []);
      WriteOld(o, n, win, pend, Fill(n, Kept(o[1..], win[1..])));
      assert Kept(o, win) == Kept(o[1..], win[1..]);
    } else if n != [] && n[0].ch == '+' {
      PatchedText(o, n[1..], win, []);
      WriteNew(o, n, win, pend, Fill(n[1..], Kept(o, win)));
    } else if n == [] {
      assert false;
    } else if n[0].ch == '!' && o[0].ch == '!' {
      ConsEqual(Bang, Shape(o[Run(o, '!')..], false), Shape(n[Run(n, '!')..], false));
      PatchedText(o[Run(o, '!')..], n[Run(n, '!')..], win[Run(o, '!')..], []);
      WriteChange(o, n, win, pend);
    } else {
      assert Shape(o, false)[0] == Shape(n, false)[0];
      ConsEqual(Keep(""), Shape(o[1..], false), Shape(n[1..], false));
      PatchedText(o[1..], n[1..], win[1..], pend + [win[0]]);
      Assoc(pend, [win[0]], Fill(n[1..], Kept(o[1..], win[1..])));
      assert Kept(o, win)[1..] == Kept(o[1..], win[1..]);
    }
  }

  // ---------------------------------------------------------------- exact and loose matches

  function Keeps(s: seq<Item>): seq<string> {
    if s == [] then [] else (if s[0].Keep? then [s[0].text] else []) + Keeps(s[1..])
  }

  lemma {:induction false} ContextIsShape(c: seq<Cell>)
    requires forall i :: 0 <= i < |c| ==> c[i].ch in {' ', '-', '+', '!'}
    ensures Context(c) == Keeps(Shape(c, true))
    decreases |c|
  {
    if c != [] {
      if c[0].ch == '!' {
        var k := Run(c, '!');
        ContextIsShape(c[k..]);
        ContextRun(c, k);
        assert Shape(c, true)[1..] == Shape(c[k..], true);
      } else {
        ContextIsShape(c[1..]);
        if c[0].ch == ' ' { assert Shape(c, true)[1..] == Shape(c[1..], true); }
      }
    }
  }

  lemma {:induction false} ContextRun(c: seq<Cell>, k: nat)
    requires k <= |c| && forall i :: 0 <= i < k ==> c[i].ch != ' '
    ensures Context(c) == Context(c[k..])
  {
    if k > 0 {
      ContextRun(c[1..], k - 1);
      assert c[k..] == c[1..][k - 1..];
    } else {
      assert c[0..] == c;
    }
  }

  lemma {:induction false} FillOwn(c: seq<Cell>)
    ensures Fill(c, Context(c)) == Texts(c)
  {
    if c != [] {
      FillOwn(c[1..]);
      if c[0].ch == ' ' {
        assert Context(c)[1..] == Context(c[1..]);
      } else {
        assert Context(c) == Context(c[1..]);
      }
    }
  }

  lemma {:induction false} KeptOwn(o: seq<Cell>, win: seq<string>)
    requires |win| == |o| && win == Texts(o)
    ensures Kept(o, win) == Context(o)
  {
    if o != [] { KeptOwn(o[1..], win[1..]); }
  }

  /** Where the old lines stand word for word, a hunk whose halves agree on the context leaves exactly
      its new lines. */
  lemma ExactText(o: seq<Cell>, n: seq<Cell>, win: seq<string>)
    requires OldChars(o) && NewChars(n) && Shape(o, true) == Shape(n, true) && |win| == |o| && win == Texts(o)
    ensures Fill(n, Kept(o, win)) == Texts(n) && Fill(o, Kept(o, win)) == win
  {
    KeptOwn(o, win);
    ContextIsShape(o);
    ContextIsShape(n);
    FillOwn(n);
    FillOwn(o);
  }

  predicate PairwiseAlike(a: seq<string>, b: seq<string>) {
    |a| == |b| && forall i :: 0 <= i < |a| ==> Alike(a[i], b[i])
  }

  lemma {:induction false} KeptAlike(o: seq<Cell>, win: seq<string>)
    requires |win| == |o| == |Texts(o)| && PairwiseAlike(win, Texts(o))
    ensures PairwiseAlike(Kept(o, win), Context(o))
  {
    if o != [] {
      forall i | 0 <= i < |win[1..]| ensures Alike(win[1..][i], Texts(o[1..])[i]) { assert Alike(win[i + 1], Texts(o)[i + 1]); }
      KeptAlike(o[1..], win[1..]);
      assert Alike(win[0], Texts(o)[0]);
    }
  }

  lemma {:induction false} FillAlike(c: seq<Cell>, ks: seq<string>)
    requires PairwiseAlike(ks, Context(c))
    ensures PairwiseAlike(Fill(c, ks), Texts(c)) && |Fill(c, ks)| == |c|
    ensures forall i :: 0 <= i < |c| && c[i].ch != ' ' ==> Fill(c, ks)[i] == c[i].text
    decreases |c|
  {
    if c != [] {
      if c[0].ch == ' ' {
        assert Context(c)[1..] == Context(c[1..]);
        forall i | 0 <= i < |ks[1..]| ensures Alike(ks[1..][i], Context(c[1..])[i]) { assert Alike(ks[i + 1], Context(c)[i + 1]); }
        FillAlike(c[1..], ks[1..]);
        assert Alike(ks[0], Context(c)[0]);
      } else {
        FillAlike(c[1..], ks);
      }
      TextsLength(c);
    }
  }

  /** Where the old lines stand up to whitespace, the lines left are the new lines up to whitespace,
      and every added or changed line is exactly the hunk's. */
  lemma LooseText(o: seq<Cell>, n: seq<Cell>, win: seq<string>)
    requires OldChars(o) && NewChars(n) && Shape(o, true) == Shape(n, true) && |win| == |o| && PairwiseAlike(win, Texts(o))
    ensures PairwiseAlike(Fill(n, Kept(o, win)), Texts(n)) && |Fill(n, Kept(o, win))| == |n|
    ensures forall i :: 0 <= i < |n| && n[i].ch != ' ' ==> Fill(n, Kept(o, win))[i] == n[i].text
  {
    KeptAlike(o, win);
    ContextIsShape(o);
    ContextIsShape(n);
    FillAlike(n, Kept(o, win));
  }

  /** Halves that agree on the context have one shape. */
  lemma {:induction false} ShapeForgets(o: seq<Cell>, n: seq<Cell>)
    requires Shape(o, true) == Shape(n, true)
    ensures Shape(o, false) == Shape(n, false)
  {
    ShapeBlank(o);
    ShapeBlank(n);
  }

  function Blank(s: seq<Item>): seq<Item> {
    if s == [] then [] else [if s[0].Keep? then Keep("") else Bang] + Blank(s[1..])
  }

  lemma {:induction false} ShapeBlank(c: seq<Cell>)
    ensures Shape(c, false) == Blank(Shape(c, true))
    decreases |c|
  {
    if c != [] {
      if c[0].ch == '!' {
        ShapeBlank(c[Run(c, '!')..]);
        assert Shape(c, true)[1..] == Shape(c[Run(c, '!')..], true);
      } else {
        ShapeBlank(c[1..]);
        if c[0].ch == ' ' { assert Shape(c, true)[1..] == Shape(c[1..], true); }
      }
    }
  }

  lemma {:induction false} TextsLength(c: seq<Cell>)
    ensures |Texts(c)| == |c|
  {
    if c != [] { TextsLength(c[1..]); }
  }
}
