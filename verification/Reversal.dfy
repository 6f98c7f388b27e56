/**
 Reversal: the swapped hunk, applied where the hunk was applied, takes the patch back.
 */
module Reversal {
  import opened Hunk
  import opened Merging

  lemma FlipParts(c: seq<Cell>, a: char, b: char, k: nat)
    requires c != [] && k <= |c|
    ensures var f := FlipAll(c, a, b); |f| == |c| && f[0] == Flip(c[0], a, b) && f[1..] == FlipAll(c[1..], a, b) && f[k..] == FlipAll(c[k..], a, b)
  {
  }

  lemma {:induction false} FlipShape(c: seq<Cell>, a: char, b: char, texts: bool)
    requires a in {'-', '+'} && b in {'-', '+'}
    ensures Shape(FlipAll(c, a, b), texts) == Shape(c, texts)
    decreases |c|
  {
    hide FlipAll, Run;
    if c == [] {
      assert FlipAll(c, a, b) == [] by { FlipNone(a, b); }
    } else {
      var k := Run(c, '!');
      FlipRun(c, a, b);
      FlipParts(c, a, b, k);
      if k > 0 { FlipShape(c[k..], a, b, texts); } else { FlipShape(c[1..], a, b, texts); }
    }
  }

  lemma FlipNone(a: char, b: char)
    ensures FlipAll([], a, b) == []
  {
  }

  lemma {:induction false} FlipRun(c: seq<Cell>, a: char, b: char)
    requires a in {'-', '+'} && b in {'-', '+'}
    ensures Run(FlipAll(c, a, b), '!') == Run(c, '!')
  {
    if c != [] && c[0].ch == '!' {
      assert FlipAll(c, a, b)[1..] == FlipAll(c[1..], a, b);
      FlipRun(c[1..], a, b);
    }
  }

  lemma {:induction false} FlipFill(c: seq<Cell>, a: char, b: char, ks: seq<string>)
    requires a in {'-', '+'} && b in {'-', '+'}
    ensures Fill(FlipAll(c, a, b), ks) == Fill(c, ks)
    decreases |c|
  {
    if c != [] {
      assert FlipAll(c, a, b)[1..] == FlipAll(c[1..], a, b);
      FlipFill(c[1..], a, b, ks);
      if ks != [] { FlipFill(c[1..], a, b, ks[1..]); }
    }
  }

  lemma {:induction false} FlipKept(c: seq<Cell>, a: char, b: char, win: seq<string>)
    requires a in {'-', '+'} && b in {'-', '+'} && |win| == |c|
    ensures Kept(FlipAll(c, a, b), win) == Kept(c, win)
    decreases |c|
  {
    if c != [] {
      assert FlipAll(c, a, b)[1..] == FlipAll(c[1..], a, b);
      FlipKept(c[1..], a, b, win[1..]);
    }
  }

  lemma {:induction false} FlipTexts(c: seq<Cell>, a: char, b: char)
    ensures Texts(FlipAll(c, a, b)) == Texts(c)
  {
    if c != [] {
      assert FlipAll(c, a, b)[1..] == FlipAll(c[1..], a, b);
      FlipTexts(c[1..], a, b);
    }
  }

  /** Number of context lines. */
  function Kepts(c: seq<Cell>): nat {
    if c == [] then 0 else (if c[0].ch == ' ' then 1 else 0) + Kepts(c[1..])
  }

  lemma {:induction false} KeptCount(c: seq<Cell>, win: seq<string>)
    requires |win| == |c|
    ensures |Kept(c, win)| == Kepts(c)
  {
    if c != [] { KeptCount(c[1..], win[1..]); }
  }

  lemma {:induction false} ShapeCount(c: seq<Cell>)
    ensures |Keeps(Shape(c, false))| == Kepts(c)
    decreases |c|
  {
    if c != [] {
      if c[0].ch == '!' {
        var k := Run(c, '!');
        ShapeCount(c[k..]);
        KeptsRun(c, k);
        assert Shape(c, false)[1..] == Shape(c[k..], false);
      } else {
        ShapeCount(c[1..]);
        if c[0].ch == ' ' { assert Shape(c, false)[1..] == Shape(c[1..], false); }
      }
    }
  }

  lemma {:induction false} KeptsRun(c: seq<Cell>, k: nat)
    requires k <= |c| && forall i :: 0 <= i < k ==> c[i].ch != ' '
    ensures Kepts(c) == Kepts(c[k..])
  {
    if k > 0 {
      KeptsRun(c[1..], k - 1);
      assert c[k..] == c[1..][k - 1..];
    } else {
      assert c[0..] == c;
    }
  }

  /** The lines filled in can be read off again. */
  lemma {:induction false} KeptOfFill(c: seq<Cell>, ks: seq<string>)
    requires |ks| == Kepts(c)
    ensures |Fill(c, ks)| == |c| && Kept(c, Fill(c, ks)) == ks
    decreases |c|
  {
    if c != [] {
      if c[0].ch == ' ' {
        KeptOfFill(c[1..], ks[1..]);
        assert Fill(c, ks)[1..] == Fill(c[1..], ks[1..]);
      } else {
        KeptOfFill(c[1..], ks);
        assert Fill(c, ks)[1..] == Fill(c[1..], ks);
      }
    }
  }

  /** The new side of hunk h at the lines win of the file. */
  function NewSide(h: HunkVal, win: seq<string>): seq<string>
    requires |win| == |h.olds|
  {
    Fill(h.news, Kept(h.olds, win))
  }

  /** Where h has been applied, its swapped form fits in place and leaves the old lines again: the
      hunk's own text for removed and changed lines, the file's for context. */
  lemma SwapReverts(h: HunkVal, win: seq<string>)
    requires WellFormed(h) && |win| == |h.olds| && Shape(h.olds, false) == Shape(h.news, false)
    ensures |NewSide(h, win)| == |Swap(h).olds| && Shape(Swap(h).olds, false) == Shape(Swap(h).news, false)
    ensures NewSide(Swap(h), NewSide(h, win)) == Fill(h.olds, Kept(h.olds, win))
  {
    var s, ks := Swap(h), Kept(h.olds, win);
    FlipShape(h.olds, '-', '+', false);
    FlipShape(h.news, '+', '-', false);
    KeptCount(h.olds, win);
    ShapeCount(h.olds);
    ShapeCount(h.news);
    KeptOfFill(h.news, ks);
    FlipKept(h.news, '+', '-', Fill(h.news, ks));
    FlipFill(h.olds, '-', '+', ks);
  }

  /** For a hunk that matches word for word, in a whole file: the swapped hunk matches the patched file
      at the same place, and applied there gives back the original file. */
  lemma SwapRestores(h: HunkVal, lines: seq<string>, w: nat)
    requires WellFormed(h) && Shape(h.olds, true) == Shape(h.news, true)
    requires w + |h.olds| <= |lines| && lines[w..w + |h.olds|] == Texts(h.olds)
    ensures var patched := lines[..w] + Texts(h.news) + lines[w + |h.olds|..]; var s := Swap(h);
      && w + |s.olds| <= |patched| && patched[w..w + |s.olds|] == Texts(s.olds) && Shape(s.olds, true) == Shape(s.news, true)
      && patched[..w] + NewSide(s, patched[w..w + |s.olds|]) + patched[w + |s.olds|..] == lines
  {
    hide FlipAll, Shape, Texts, Fill, Kept, WellFormed;
    SwapSides(h);
    TextsLength(h.news);
    TextsLength(h.olds);
    SpliceBack(lines, w, |h.olds|, Texts(h.news));
    ExactText(Swap(h).olds, Swap(h).news, Texts(h.news));
  }

  /** The halves of the swapped hunk have the texts and the shapes of the other halves. */
  lemma SwapSides(h: HunkVal)
    requires WellFormed(h)
    ensures var s := Swap(h); |s.olds| == |h.news| && |s.news| == |h.olds| && Texts(s.olds) == Texts(h.news) && Texts(s.news) == Texts(h.olds)
    ensures var s := Swap(h); OldChars(s.olds) && NewChars(s.news) && Shape(s.olds, true) == Shape(h.news, true) && Shape(s.news, true) == Shape(h.olds, true)
  {
    hide Shape, Texts;
    FlipTexts(h.news, '+', '-');
    FlipTexts(h.olds, '-', '+');
    FlipShape(h.olds, '-', '+', true);
    FlipShape(h.news, '+', '-', true);
  }

  lemma SpliceBack(lines: seq<string>, w: nat, n: nat, put: seq<string>)
    requires w + n <= |lines|
    ensures var p := lines[..w] + put + lines[w + n..];
      p[w..w + |put|] == put && p[..w] + lines[w..w + n] + p[w + |put|..] == lines
  {
    var p := lines[..w] + put + lines[w + n..];
    assert p[w + |put|..] == lines[w + n..] && p[..w] == lines[..w];
  }
}
