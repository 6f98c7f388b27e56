/**
 A hunk: its layout in the cells of the patch buffer, its well-formedness, and its reversal in place.
 */
module Hunk {
  import opened Text

  const MAX_HUNK_SIZE: nat := 500

  /** One entry of p_char, p_line and p_len. */
  datatype Cell = Cell(ch: char, text: string, len: nat)

  /** A hunk as pch_swap and apply_hunk see it: old lines, an optional blank line, new lines, and the
      two header cells in front of them. */
  datatype HunkVal = HunkVal(first: int, newfirst: int, head: Cell, olds: seq<Cell>, blank: seq<Cell>, mid: Cell, news: seq<Cell>)

  function Size(h: HunkVal): nat {
    2 + |h.olds| + |h.blank| + |h.news|
  }

  /** Where the parts of a hunk sit: first header, old lines, blank line, second header, new lines. */
  function CellAt(h: HunkVal, k: nat): Cell
    requires k < Size(h)
  {
    var p, b := |h.olds|, |h.blank|;
    if k == 0 then h.head
    else if k <= p then h.olds[k - 1]
    else if k <= p + b then h.blank[k - 1 - p]
    else if k == p + b + 1 then h.mid
    else h.news[k - 2 - p - b]
  }

  predicate IsText(c: Cell) {
    IsLine(c.text) && c.len == |c.text|
  }

  predicate WellFormed(h: HunkVal) {
    && h.head.ch == '*' && h.mid.ch == '=' && |h.blank| <= 1 && Size(h) < MAX_HUNK_SIZE
    && (forall i :: 0 <= i < |h.olds| ==> h.olds[i].ch in {' ', '-', '!'} && IsText(h.olds[i]))
    && (forall i :: 0 <= i < |h.news| ==> h.news[i].ch in {' ', '+', '!'} && IsText(h.news[i]))
    && (forall i :: 0 <= i < |h.blank| ==> h.blank[i].ch == '\n')
  }

  // ---------------------------------------------------------------- reversal

  function Replace(s: string, a: char, b: char): string {
    seq(|s|, i requires 0 <= i < |s| => if s[i] == a then b else s[i])
  }

  function Flip(c: Cell, a: char, b: char): Cell {
    if c.ch == a then c.(ch := b) else c
  }

  function FlipAll(cs: seq<Cell>, a: char, b: char): seq<Cell> {
    seq(|cs|, i requires 0 <= i < |cs| => Flip(cs[i], a, b))
  }

  /** The reversed hunk: new and old change places, + and - change places, and so do the header texts. */
  function Swap(h: HunkVal): HunkVal {
    HunkVal(h.newfirst, h.first,
            Cell('*', Replace(h.mid.text, '-', '*'), h.mid.len), FlipAll(h.news, '+', '-'), h.blank,
            Cell('=', Replace(h.head.text, '*', '-'), h.head.len), FlipAll(h.olds, '-', '+'))
  }

  lemma SwapWellFormed(h: HunkVal)
    requires WellFormed(h)
    ensures WellFormed(Swap(h)) && Size(Swap(h)) == Size(h)
  {
  }

  /** Swapping twice gives back a well-formed hunk exactly when no '-' stands in its first and no '*' in
      its second header text; with the headers diff writes, that is always so. */
  lemma SwapTwice(h: HunkVal)
    requires WellFormed(h)
    ensures Swap(Swap(h)) == h <==> '-' !in h.head.text && '*' !in h.mid.text
    ensures Swap(Swap(h)).(head := h.head, mid := h.mid) == h
  {
    var s := Swap(Swap(h));
    assert s.olds == h.olds && s.news == h.news;
    ReplaceTwice(h.head.text, '*', '-');
    ReplaceTwice(h.mid.text, '-', '*');
  }

  lemma ReplaceTwice(s: string, a: char, b: char)
    requires a != b
    ensures Replace(Replace(s, a, b), b, a) == s <==> b !in s
  {
    var r := Replace(Replace(s, a, b), b, a);
    if b in s {
      var i :| 0 <= i < |s| && s[i] == b;
      assert r[i] == a;
    }
  }

  class HunkBuffer {
    const cells: array<Cell>      // p_char, p_line and p_len, entry by entry
    var first: int                // p_first
    var newfirst: int             // p_newfirst
    var ptrnLines: nat            // p_ptrn_lines
    var replLines: nat            // p_repl_lines
    var end: int                  // p_end
    var context: int              // p_context

    /** The buffer holds hunk h. */
    ghost predicate Has(h: HunkVal)
      reads this, cells
    {
      && cells.Length == MAX_HUNK_SIZE && end == Size(h) - 1 && Size(h) < MAX_HUNK_SIZE
      && (forall k :: 0 <= k < Size(h) ==> cells[k] == CellAt(h, k))
      && first == h.first && newfirst == h.newfirst && ptrnLines == |h.olds| && replLines == |h.news|
    }

    constructor ()
      ensures fresh(cells) && cells.Length == MAX_HUNK_SIZE && end == -1
    {
      cells := new Cell[MAX_HUNK_SIZE](i => Cell('\0', "", 0));
      first, newfirst, ptrnLines, replLines, end, context := 0, 0, 0, 0, -1, 3;
    }

    /** The entry behind the hunk, where later loops look once, is taken not to be a mark left over
        from an earlier hunk. */
    method ClearBehind()
      requires 0 <= end + 1 < cells.Length
      modifies cells
      ensures cells[end + 1].ch == '\0' && forall k :: 0 <= k < cells.Length && k != end + 1 ==> cells[k] == old(cells[k])
    {
      cells[end + 1] := Cell('\0', "", 0);
    }

    /** Puts hunk h into the buffer, entry by entry, as another_hunk leaves it. */
    method Load(h: HunkVal)
      requires cells.Length == MAX_HUNK_SIZE && WellFormed(h)
      modifies this, cells
      ensures Has(h)
    {
      first, newfirst, ptrnLines, replLines, end := h.first, h.newfirst, |h.olds|, |h.news|, Size(h) - 1;
      for k := 0 to Size(h)
        invariant forall j :: 0 <= j < k ==> cells[j] == CellAt(h, j)
        modifies cells
      {
        cells[k] := CellAt(h, k);
      }
    }

    /** The copying loops of pch_swap: the cells of src into the buffer from n on, with one character changed. */
    method PutFlipped(src: seq<Cell>, n: nat, a: char, b: char)
      requires n + |src| <= cells.Length
      modifies cells
      ensures forall k :: 0 <= k < n || n + |src| <= k < cells.Length ==> cells[k] == old(cells[k])
      ensures forall k :: n <= k < n + |src| ==> cells[k] == Flip(src[k - n], a, b)
    {
      for k := 0 to |src|
        invariant forall j :: 0 <= j < n || n + |src| <= j < cells.Length ==> cells[j] == old(cells[j])
        invariant forall j :: n <= j < n + k ==> cells[j] == Flip(src[j - n], a, b)
      {
        cells[n + k] := if src[k].ch == a then src[k].(ch := b) else src[k];
      }
    }

    /** pch_swap up to the old part: the new lines, then the blank line, move to the front. */
    method NewIntoOld(tp: seq<Cell>, ghost h: HunkVal) returns (n: nat)
      requires cells.Length == MAX_HUNK_SIZE && WellFormed(h) && ptrnLines == |h.olds|
      requires |tp| == Size(h) && forall k :: 0 <= k < |tp| ==> tp[k] == CellAt(h, k)
      requires cells[0] == tp[0]
      modifies cells
      ensures n == 1 + |h.news| + |h.blank|
      ensures forall k :: 0 <= k < n ==> cells[k] == CellAt(Swap(h), k)
      ensures forall k :: |tp| <= k < cells.Length ==> cells[k] == old(cells[k])
    {
      SwapWellFormed(h);
      var blankline := tp[ptrnLines + 1].ch == '\n';
      var i := if blankline then ptrnLines + 2 else ptrnLines + 1;
      n := |tp| - i;
      assert i == 1 + |h.olds| + |h.blank| && tp[i] == h.mid;
      PutFlipped(tp[i..], 0, '+', '-');
      if blankline {
        cells[n] := tp[ptrnLines + 1];
        n := n + 1;
      }
      cells[0] := Cell('*', Replace(cells[0].text, '-', '*'), cells[0].len);
    }

    /** pch_swap from the old part on: header and old lines follow as the new part. */
    method OldIntoNew(tp: seq<Cell>, n: nat, ghost h: HunkVal)
      requires cells.Length == MAX_HUNK_SIZE && WellFormed(h) && n == 1 + |h.news| + |h.blank|
      requires |tp| == 1 + |h.olds| && tp[0] == h.head && forall k :: 0 <= k < |h.olds| ==> tp[k + 1] == h.olds[k]
      requires forall k :: 0 <= k < n ==> cells[k] == CellAt(Swap(h), k)
      modifies cells
      ensures forall k :: 0 <= k < Size(Swap(h)) ==> cells[k] == CellAt(Swap(h), k)
      ensures forall k :: Size(h) <= k < cells.Length ==> cells[k] == old(cells[k])
    {
      SwapWellFormed(h);
      var back := tp[0 := Cell('=', Replace(tp[0].text, '*', '-'), tp[0].len)];
      PutFlipped(back, n, '-', '+');
      forall k | n <= k < Size(h) ensures cells[k] == CellAt(Swap(h), k) {
        assert cells[k] == Flip(back[k - n], '-', '+');
        if k > n { assert back[k - n] == tp[k - n - 1 + 1] == h.olds[k - n - 1]; }
      }
    }

    /** pch_swap: the new lines become the old ones and the old ones the new, in place, by way of a
        scratch copy. */
    method PchSwap(ghost h: HunkVal)
      requires Has(h) && WellFormed(h)
      modifies `first, `newfirst, `ptrnLines, `replLines, cells
      ensures Has(Swap(h)) && forall k :: end < k < cells.Length ==> cells[k] == old(cells[k])
    {
      first, newfirst := newfirst, first;
      var tp := cells[..end + 1];
      var n := NewIntoOld(tp, h);
      OldIntoNew(tp[..ptrnLines + 1], n, h);
      ptrnLines, replLines := replLines, ptrnLines;
    }
  }
}
