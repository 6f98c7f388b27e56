/**
 Rejected hunks: what abort_hunk prints.
 */
module Rejects {
  import opened Hunk
  import opened Decimal

  /** Header lines of a rejected hunk, with the last offset added in. */
  function OldHeader(h: HunkVal, offset: int): string {
    "*** " + Dec(h.first + offset) + "," + Dec(h.first + offset + |h.olds| - 1) + "\n"
  }

  function NewHeader(h: HunkVal, offset: int): string {
    "--- " + Dec(h.newfirst + offset) + "," + Dec(h.newfirst + offset + |h.news| - 1) + " -----\n"
  }

  function MidIndex(h: HunkVal): nat {
    1 + |h.olds| + |h.blank|
  }

  /** What entry k of a rejected hunk is printed as. */
  function RejectLine(h: HunkVal, offset: int, k: nat): string
    requires k < Size(h)
  {
    var c := CellAt(h, k);
    if k == 0 then OldHeader(h, offset)
    else if k == MidIndex(h) then NewHeader(h, offset)
    else if c.ch == '\n' then c.text
    else [c.ch] + " " + c.text
  }

  const SEPARATOR: string := "***************\n"

  function RejectLines(h: HunkVal, offset: int): seq<string> {
    [SEPARATOR] + seq(Size(h), k requires 0 <= k < Size(h) => RejectLine(h, offset, k))
  }

  /** What is printed of a hunk: stars, the line numbers of its old side and its old lines, the blank line if
      it has one, the line numbers of its new side and its new lines. */
  lemma RejectText(h: HunkVal, offset: int)
    requires WellFormed(h)
    ensures var f, g := h.first + offset, h.newfirst + offset;
      RejectLines(h, offset) ==
      ["***************\n", "*** " + Dec(f) + "," + Dec(f + |h.olds| - 1) + "\n"]
      + seq(|h.olds|, k requires 0 <= k < |h.olds| => [h.olds[k].ch] + " " + h.olds[k].text)
      + seq(|h.blank|, k requires 0 <= k < |h.blank| => h.blank[k].text)
      + ["--- " + Dec(g) + "," + Dec(g + |h.news| - 1) + " -----\n"]
      + seq(|h.news|, k requires 0 <= k < |h.news| => [h.news[k].ch] + " " + h.news[k].text)
  {
    hide Dec;
  }

  class RejectFile {
    const hunk: HunkBuffer
    var rejfp: seq<string>        // what has been printed, line by line

    constructor (hunk: HunkBuffer)
      ensures this.hunk == hunk && rejfp == []
    {
      this.hunk, rejfp := hunk, [];
    }

    /** abort_hunk: the hunk in the buffer goes to the reject file as a context diff. */
    method AbortHunk(lastOffset: int, ghost h: HunkVal)
      requires hunk.Has(h) && WellFormed(h)
      modifies `rejfp
      ensures rejfp == old(rejfp) + RejectLines(h, lastOffset)
    {
      hide Dec, WellFormed, RejectLine, RejectLines, CellAt;
      var patEnd := hunk.end;
      var oldfirst, newfirst := hunk.first + lastOffset, hunk.newfirst + lastOffset;
      var oldlast, newlast := oldfirst + hunk.ptrnLines - 1, newfirst + hunk.replLines - 1;
      ghost var before := rejfp;
      PrintedSoFar(h, lastOffset, 0);
      rejfp := rejfp + [SEPARATOR];
      var i := 0;
      while i <= patEnd
        invariant 0 <= i <= patEnd + 1 && i + 1 <= |RejectLines(h, lastOffset)|
        invariant rejfp == before + RejectLines(h, lastOffset)[..i + 1]
      {
        assert hunk.cells[i] == CellAt(h, i);
        var ch, text := hunk.cells[i].ch, hunk.cells[i].text;
        PrintedEntry(h, lastOffset, i);
        PrintedSoFar(h, lastOffset, i);
        if ch == '*' {
          rejfp := rejfp + ["*** " + Dec(oldfirst) + "," + Dec(oldlast) + "\n"];
        } else if ch == '=' {
          rejfp := rejfp + ["--- " + Dec(newfirst) + "," + Dec(newlast) + " -----\n"];
        } else if ch == '\n' {
          rejfp := rejfp + [text];
        } else {
          rejfp := rejfp + [[ch] + " " + text];
        }
        i := i + 1;
      }
      PrintedSoFar(h, lastOffset, 0);
      assert RejectLines(h, lastOffset)[..i + 1] == RejectLines(h, lastOffset);
    }
  }

  /** The mark of an entry says which kind of line it is. */
  lemma PrintedEntry(h: HunkVal, offset: int, k: nat)
    requires WellFormed(h) && k < Size(h)
    ensures var c, l := CellAt(h, k), RejectLine(h, offset, k);
      if c.ch == '*' then l == OldHeader(h, offset)
      else if c.ch == '=' then l == NewHeader(h, offset)
      else l == if c.ch == '\n' then c.text else [c.ch] + " " + c.text
  {
    hide OldHeader, NewHeader;
    assert CellAt(h, k).ch in {'*', '=', '\n', ' ', '-', '+', '!'};
  }

  lemma PrintedSoFar(h: HunkVal, offset: int, k: nat)
    requires k < Size(h)
    ensures var ls := RejectLines(h, offset); |ls| == Size(h) + 1 && ls[..1] == [SEPARATOR] && ls[..k + 2] == ls[..k + 1] + [RejectLine(h, offset, k)]
  {
    hide RejectLine;
  }
}
