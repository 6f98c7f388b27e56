/**
 One pass over a hunk, step by step: how each turn of apply_hunk's loop moves along the walk that
 Merging.Patchwork describes.
 */
module Walking {
  import opened Hunk
  import opened Merging
  import opened Sealing

  /** The lines written since the output was start, and the walk over what is left of the hunk, make
      up the whole walk r. */
  ghost predicate Sofar(start: seq<string>, outs: seq<string>, o: seq<Cell>, n: seq<Cell>, win: seq<string>, def: int, d: Directives, pend: seq<string>, r: Outcome) {
    forall k {:trigger Open(k)} :: Open(k) ==>
      |win| == |o| && start <= outs && Prefix(outs[|start|..], Patchwork(o, n, win, def, d, pend)) == r
  }

  lemma Begin(start: seq<string>, o: seq<Cell>, n: seq<Cell>, win: seq<string>, d: Directives, pend: seq<string>)
    requires |win| == |o|
    ensures Sofar(start, start, o, n, win, 0, d, pend, Patchwork(o, n, win, 0, d, pend))
  {
    var r := Patchwork(o, n, win, 0, d, pend);
    assert start[|start|..] == [];
    assert [] + r.out == r.out;
  }

  /** Lines put have been written and the walk p goes on as q behind them. */
  lemma Advance(start: seq<string>, outs: seq<string>, put: seq<string>, p: Outcome, q: Outcome, r: Outcome)
    requires start <= outs && Prefix(outs[|start|..], p) == r && p == Prefix(put, q)
    ensures start <= outs + put && Prefix((outs + put)[|start|..], q) == r
  {
    assert (outs + put)[|start|..] == outs[|start|..] + put;
    Assoc(outs[|start|..], put, q.out);
  }

  lemma StepMinus(start: seq<string>, outs: seq<string>, o: seq<Cell>, n: seq<Cell>, win: seq<string>, def: int, d: Directives, pend: seq<string>, r: Outcome)
    requires Sofar(start, outs, o, n, win, def, d, pend, r) && |win| == |o| > 0 && o[0].ch == '-'
    ensures Sofar(start, outs + (pend + MinusMark(d, def) + Echo(d, o[..1])), o[1..], n, win[1..], MinusDef(d, def), d, [], r)
  {
    assert Open(0);
    Advance(start, outs, pend + MinusMark(d, def) + Echo(d, o[..1]), Patchwork(o, n, win, def, d, pend),
            Patchwork(o[1..], n, win[1..], MinusDef(d, def), d, []), r);
  }

  lemma StepPlus(start: seq<string>, outs: seq<string>, o: seq<Cell>, n: seq<Cell>, win: seq<string>, def: int, d: Directives, pend: seq<string>, r: Outcome)
    requires Sofar(start, outs, o, n, win, def, d, pend, r) && |win| == |o| > 0 && o[0].ch != '-' && n != [] && n[0].ch == '+'
    ensures Sofar(start, outs + (pend + PlusMark(d, def) + [n[0].text]), o, n[1..], win, PlusDef(d, def), d, [], r)
  {
    assert Open(0);
    Advance(start, outs, pend + PlusMark(d, def) + [n[0].text], Patchwork(o, n, win, def, d, pend),
            Patchwork(o, n[1..], win, PlusDef(d, def), d, []), r);
  }

  lemma StepLost(start: seq<string>, outs: seq<string>, o: seq<Cell>, n: seq<Cell>, win: seq<string>, def: int, d: Directives, pend: seq<string>, r: Outcome)
    requires Sofar(start, outs, o, n, win, def, d, pend, r) && |win| == |o| > 0 && o[0].ch != '-'
    requires n == [] || (n[0].ch != '+' && n[0].ch != o[0].ch)
    ensures !r.ok
  {
    assert Open(0);
  }

  lemma StepBang(start: seq<string>, outs: seq<string>, o: seq<Cell>, n: seq<Cell>, win: seq<string>, def: int, d: Directives, pend: seq<string>, r: Outcome)
    requires Sofar(start, outs, o, n, win, def, d, pend, r) && |win| == |o| > 0 && o[0].ch == '!' && n != [] && n[0].ch == '!'
    ensures var a, b := Run(o, '!'), Run(n, '!');
      Sofar(start, outs + (pend + Change(d, o[..a], n[..b])), o[a..], n[b..], win[a..], if d.Off? then def else 0, d, [], r)
  {
    assert Open(0);
    var a, b := Run(o, '!'), Run(n, '!');
    Advance(start, outs, pend + Change(d, o[..a], n[..b]), Patchwork(o, n, win, def, d, pend),
            Patchwork(o[a..], n[b..], win[a..], if d.Off? then def else 0, d, []), r);
  }

  lemma StepContext(start: seq<string>, outs: seq<string>, o: seq<Cell>, n: seq<Cell>, win: seq<string>, def: int, d: Directives, pend: seq<string>, r: Outcome)
    requires Sofar(start, outs, o, n, win, def, d, pend, r) && |win| == |o| > 0 && n != [] && o[0].ch == n[0].ch == ' '
    ensures Sofar(start, outs, o[1..], n[1..], win[1..], def, d, pend + [win[0]], r)
  {
    assert Open(0);
  }

  /** The end: trailing new lines, and the close of an open conditional. */
  lemma Finish(start: seq<string>, outs: seq<string>, n: seq<Cell>, def: int, d: Directives, pend: seq<string>, r: Outcome)
    requires Sofar(start, outs, [], n, [], def, d, pend, r)
    ensures r.ok && start <= outs
    ensures if n != [] && n[0].ch == '+' then
              r.pend == [] && start + r.out == outs + (pend + PlusMark(d, def) + Texts(n[..Run(n, '+')]) + Close(d, PlusDef(d, def)))
            else r.pend == pend && start + r.out == outs + Close(d, def)
  {
    assert Open(0);
    assert outs == start + outs[|start|..];
    var q := Patchwork([], n, [], def, d, pend);
    Assoc(start, outs[|start|..], q.out);
  }

  // ---------------------------------------------------------------- positions in file and hunk

  /** Old line oi and new line ni are next, for a hunk behind the first w lines; the file has been
      copied up to line f. */
  ghost predicate Position(start: seq<string>, outs: seq<string>, olds: seq<Cell>, oi: nat, news: seq<Cell>, ni: nat, lines: seq<string>, w: nat, f: nat, def: int, d: Directives, r: Outcome) {
    && oi <= |olds| && ni <= |news| && f <= w + oi && w + |olds| <= |lines|
    && forall k {:trigger Open(k)} :: Open(k) ==>
         Sofar(start, outs, olds[oi..], news[ni..], lines[w + oi..w + |olds|], def, d, lines[f..w + oi], r)
  }

  /** At the start, with the first k lines of both halves passed over as context. */
  lemma BeginAt(start: seq<string>, olds: seq<Cell>, news: seq<Cell>, k: nat, lines: seq<string>, w: nat, f: nat, d: Directives)
    requires k <= |olds| && k <= |news| && f <= w + k && w + |olds| <= |lines|
    ensures Position(start, start, olds, k, news, k, lines, w, f, 0, d,
                     Patchwork(olds[k..], news[k..], lines[w + k..w + |olds|], 0, d, lines[f..w + k]))
  {
    Begin(start, olds[k..], news[k..], lines[w + k..w + |olds|], d, lines[f..w + k]);
  }

  lemma Slices<T>(s: seq<T>, i: nat, e: nat, k: nat)
    requires i + k <= e <= |s|
    ensures s[i..e][k..] == s[i + k..e] && s[i..e][..k] == s[i..i + k]
  {
  }

  lemma Assoc4(a: seq<string>, b: seq<string>, c: seq<string>, e: seq<string>)
    ensures a + (b + c + e) == a + b + c + e
  {
  }

  lemma MinusAt(start: seq<string>, outs: seq<string>, olds: seq<Cell>, oi: nat, news: seq<Cell>, ni: nat, lines: seq<string>, w: nat, f: nat, def: int, d: Directives, r: Outcome)
    requires Position(start, outs, olds, oi, news, ni, lines, w, f, def, d, r) && oi < |olds| && olds[oi].ch == '-'
    ensures Position(start, outs + lines[f..w + oi] + MinusMark(d, def) + (if d.On? then [olds[oi].text] else []),
                     olds, oi + 1, news, ni, lines, w, w + oi + 1, MinusDef(d, def), d, r)
  {
    assert Open(0);
    var o, win := olds[oi..], lines[w + oi..w + |olds|];
    StepMinus(start, outs, o, news[ni..], win, def, d, lines[f..w + oi], r);
    Slices(olds, oi, |olds|, 1);
    Slices(lines, w + oi, w + |olds|, 1);
    EchoOne(d, olds, oi);
    Assoc4(outs, lines[f..w + oi], MinusMark(d, def), Echo(d, o[..1]));
    assert lines[w + oi + 1..w + oi + 1] == [];
  }

  lemma PlusAt(start: seq<string>, outs: seq<string>, olds: seq<Cell>, oi: nat, news: seq<Cell>, ni: nat, lines: seq<string>, w: nat, f: nat, def: int, d: Directives, r: Outcome)
    requires Position(start, outs, olds, oi, news, ni, lines, w, f, def, d, r)
    requires oi < |olds| && olds[oi].ch != '-' && ni < |news| && news[ni].ch == '+'
    ensures Position(start, outs + lines[f..w + oi] + PlusMark(d, def) + [news[ni].text],
                     olds, oi, news, ni + 1, lines, w, w + oi, PlusDef(d, def), d, r)
  {
    assert Open(0);
    var n := news[ni..];
    StepPlus(start, outs, olds[oi..], n, lines[w + oi..w + |olds|], def, d, lines[f..w + oi], r);
    Slices(news, ni, |news|, 1);
    Assoc4(outs, lines[f..w + oi], PlusMark(d, def), [news[ni].text]);
    assert lines[w + oi..w + oi] == [];
  }

  lemma BangAt(start: seq<string>, outs: seq<string>, olds: seq<Cell>, oi: nat, news: seq<Cell>, ni: nat, lines: seq<string>, w: nat, f: nat, def: int, d: Directives, r: Outcome)
    requires Position(start, outs, olds, oi, news, ni, lines, w, f, def, d, r)
    requires oi < |olds| && olds[oi].ch == '!' && ni < |news| && news[ni].ch == '!'
    ensures var a, b := Run(olds[oi..], '!'), Run(news[ni..], '!');
      Position(start, outs + lines[f..w + oi] + Change(d, olds[oi..][..a], news[ni..][..b]),
               olds, oi + a, news, ni + b, lines, w, w + oi + a, if d.Off? then def else 0, d, r)
  {
    hide Sofar, Change, Run;
    assert Open(0);
    var o, n, win := olds[oi..], news[ni..], lines[w + oi..w + |olds|];
    var a, b := Run(o, '!'), Run(n, '!');
    StepBang(start, outs, o, n, win, def, d, lines[f..w + oi], r);
    Slices(olds, oi, |olds|, a);
    Slices(news, ni, |news|, b);
    Slices(lines, w + oi, w + |olds|, a);
    Assoc(outs, lines[f..w + oi], Change(d, o[..a], n[..b]));
    assert lines[w + oi + a..w + oi + a] == [];
  }

  lemma ContextAt(start: seq<string>, outs: seq<string>, olds: seq<Cell>, oi: nat, news: seq<Cell>, ni: nat, lines: seq<string>, w: nat, f: nat, def: int, d: Directives, r: Outcome)
    requires Position(start, outs, olds, oi, news, ni, lines, w, f, def, d, r)
    requires oi < |olds| && olds[oi].ch == ' ' && ni < |news| && news[ni].ch == ' '
    ensures Position(start, outs, olds, oi + 1, news, ni + 1, lines, w, f, def, d, r)
  {
    assert Open(0);
    StepContext(start, outs, olds[oi..], news[ni..], lines[w + oi..w + |olds|], def, d, lines[f..w + oi], r);
    Slices(olds, oi, |olds|, 1);
    Slices(news, ni, |news|, 1);
    Slices(lines, w + oi, w + |olds|, 1);
    assert lines[f..w + oi + 1] == lines[f..w + oi] + [lines[w + oi]];
  }

  lemma LostAt(start: seq<string>, outs: seq<string>, olds: seq<Cell>, oi: nat, news: seq<Cell>, ni: nat, lines: seq<string>, w: nat, f: nat, def: int, d: Directives, r: Outcome)
    requires Position(start, outs, olds, oi, news, ni, lines, w, f, def, d, r)
    requires oi < |olds| && olds[oi].ch != '-' && (ni == |news| || (news[ni].ch != '+' && news[ni].ch != olds[oi].ch))
    ensures !r.ok
  {
    assert Open(0);
    StepLost(start, outs, olds[oi..], news[ni..], lines[w + oi..w + |olds|], def, d, lines[f..w + oi], r);
  }

  lemma FinishAt(start: seq<string>, outs: seq<string>, olds: seq<Cell>, news: seq<Cell>, ni: nat, lines: seq<string>, w: nat, f: nat, def: int, d: Directives, r: Outcome)
    requires Position(start, outs, olds, |olds|, news, ni, lines, w, f, def, d, r)
    ensures r.ok
    ensures if ni < |news| && news[ni].ch == '+' then
              r.pend == [] && start + r.out ==
                outs + lines[f..w + |olds|] + PlusMark(d, def) + Texts(news[ni..][..Run(news[ni..], '+')]) + Close(d, PlusDef(d, def))
            else r.pend == lines[f..w + |olds|] && start + r.out == outs + Close(d, def)
  {
    assert Open(0);
    var e, n := w + |olds|, news[ni..];
    assert olds[|olds|..] == [] && lines[e..e] == [];
    Finish(start, outs, n, def, d, lines[f..e], r);
    Assoc(outs, lines[f..e] + PlusMark(d, def) + Texts(n[..Run(n, '+')]), Close(d, PlusDef(d, def)));
    Assoc4(outs, lines[f..e], PlusMark(d, def), Texts(n[..Run(n, '+')]));
  }

  lemma EchoOne(d: Directives, olds: seq<Cell>, oi: nat)
    requires oi < |olds|
    ensures Echo(d, olds[oi..][..1]) == if d.On? then [olds[oi].text] else []
  {
    var c := olds[oi..][..1];
    assert c[0] == olds[oi] && c[1..] == [];
    assert Texts(c) == [c[0].text] + Texts(c[1..]);
    assert [c[0].text] + [] == [c[0].text];
  }

  lemma {:induction false} RunIs(c: seq<Cell>, ch: char, k: nat)
    requires k <= |c| && (forall i :: 0 <= i < k ==> c[i].ch == ch) && (k < |c| ==> c[k].ch != ch)
    ensures Run(c, ch) == k
  {
    if k > 0 { RunIs(c[1..], ch, k - 1); }
  }

  lemma TextsMore(c: seq<Cell>, k: nat)
    requires k < |c|
    ensures Texts(c[..k + 1]) == Texts(c[..k]) + [c[k].text]
  {
    TextsSplit(c[..k + 1], k);
    assert c[..k + 1][..k] == c[..k] && c[..k + 1][k..] == [c[k]];
    assert [c[k]][1..] == [];
    assert Texts([c[k]]) == [c[k].text];
  }
}
