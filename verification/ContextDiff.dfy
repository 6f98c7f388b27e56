/**
 Reading a hunk of a context diff: the context branch of another_hunk, and what it makes of a hunk that
 abort_hunk printed.
 */
module ContextDiff {
  import opened Hunk
  import opened LooseMatch
  import opened Decimal
  import opened PatchFile
  import opened Rejects

  /** s from its first digit on. */
  function ToDigit(s: string): (r: string)
    ensures r != "" ==> IsDigit(r[0])
  {
    if s == "" || IsDigit(s[0]) then s else ToDigit(s[1..])
  }

  lemma {:induction false} ToDigitPast(p: string, rest: string)
    requires forall i :: 0 <= i < |p| ==> !IsDigit(p[i])
    ensures ToDigit(p + rest) == ToDigit(rest)
  {
    if p == "" {
      assert p + rest == rest;
    } else {
      assert (p + rest)[1..] == p[1..] + rest;
      ToDigitPast(p[1..], rest);
    }
  }

  lemma FirstNumber(p: string, n: nat, rest: string)
    requires (forall i :: 0 <= i < |p| ==> !IsDigit(p[i])) && (rest != "" ==> !IsDigit(rest[0]))
    ensures Atol(ToDigit(p + (Num(n) + rest))) == n && PastDigits(ToDigit(p + (Num(n) + rest))) == rest
  {
    hide Num, Atol, PastDigits;
    ToDigitPast(p, Num(n) + rest);
    LeadOfNum(n, rest);
    AtolOfNum(n, rest);
  }

  /** Hunks whose reject can be read back: an old part, line numbers that are positive, and nothing but
      a newline in the blank entry. */
  predicate Rejectable(h: HunkVal, offset: int) {
    && WellFormed(h) && h.olds != [] && h.first + offset >= 1 && h.newfirst + offset >= 1
    && (h.blank != [] ==> h.blank[0] == Cell('\n', "\n", 1))
  }

  predicate RejectedAt(ls: seq<string>, a: nat, h: HunkVal, offset: int) {
    a + 1 + Size(h) <= |ls| && ls[a..a + 1 + Size(h)] == RejectLines(h, offset)
  }

  lemma RejectedLine(ls: seq<string>, a: nat, h: HunkVal, offset: int, k: nat)
    requires RejectedAt(ls, a, h, offset) && k < Size(h)
    ensures ls[a] == SEPARATOR && ls[a + 1 + k] == RejectLine(h, offset, k)
  {
    var s := ls[a..a + 1 + Size(h)];
    assert s[0] == ls[a] && s[1 + k] == ls[a + 1 + k];
  }

  /** The hunk that comes back: same marks, texts and counts, first lines moved by the offset, and the
      headers as printed. */
  function Reread(h: HunkVal, offset: int): HunkVal {
    var o, n := OldHeader(h, offset), NewHeader(h, offset);
    h.(first := h.first + offset, newfirst := h.newfirst + offset, head := Cell('*', o, |o|), mid := Cell('=', n, |n|))
  }

  /** The two numbers of a header line. */
  lemma HeaderNumbers(h: HunkVal, offset: int)
    requires Rejectable(h, offset)
    ensures var s := ToDigit(OldHeader(h, offset)); Atol(s) == h.first + offset && Atol(ToDigit(PastDigits(s))) == h.first + offset + |h.olds| - 1
    ensures var s := ToDigit(NewHeader(h, offset)); Atol(s) == h.newfirst + offset && Atol(ToDigit(PastDigits(s))) == h.newfirst + offset + |h.news| - 1
  {
    hide Num, Atol, PastDigits, ToDigit;
    var a, b := h.first + offset, h.first + offset + |h.olds| - 1;
    var c, d := h.newfirst + offset, h.newfirst + offset + |h.news| - 1;
    assert OldHeader(h, offset) == "*** " + (Num(a) + ("," + (Num(b) + "\n")));
    FirstNumber("*** ", a, "," + (Num(b) + "\n"));
    FirstNumber(",", b, "\n");
    assert NewHeader(h, offset) == "--- " + (Num(c) + ("," + (Num(d) + " -----\n")));
    FirstNumber("--- ", c, "," + (Num(d) + " -----\n"));
    FirstNumber(",", d, " -----\n");
  }

  /** What a printed entry looks like to the reader, by its first characters. */
  lemma RejectLooks(h: HunkVal, offset: int, k: nat)
    requires Rejectable(h, offset) && k < Size(h)
    ensures var l, c := RejectLine(h, offset, k), CellAt(h, k);
      && |l| >= 1 && !("********" <= l)
      && (l[0] == '*' <==> k == 0) && (l[0] == '-' && |l| > 1 && l[1] == '-' <==> k == MidIndex(h))
      && (l[0] == '\n' <==> c.ch == '\n')
      && (k != 0 && k != MidIndex(h) ==> l[0] == c.ch)
      && (k != 0 && k != MidIndex(h) && c.ch != '\n' ==> Entry(l, c.ch) == c)
      && (c.ch == '\n' ==> l == c.text && c == Cell('\n', l, |l|) && k == |h.olds| + 1)
  {
    hide Num, Dec;
    PrintedEntry(h, offset, k);
    var l, c := RejectLine(h, offset, k), CellAt(h, k);
    if k == 0 {
      assert l[..4] == "*** ";
      assert l[3] == ' ' && "********"[3] == '*';
    } else if k == MidIndex(h) {
      assert l[..4] == "--- ";
      assert l[0] == '-' && "********"[0] == '*';
    } else if c.ch != '\n' {
      CutMark([c.ch] + " ", c.text, c.ch);
      assert l[1] == ' ';
    }
  }

  class ContextReader {
    const reader: HunkReader
    const hunk: HunkBuffer

    constructor (reader: HunkReader)
      ensures this.reader == reader && hunk == reader.hunk
    {
      this.reader, hunk := reader, reader.hunk;
    }

    method FindDigit(s: string, i: nat) returns (j: nat)
      requires i <= |s|
      ensures i <= j <= |s| && s[j..] == ToDigit(s[i..])
    {
      j := i;
      while j < |s| && !IsDigit(s[j])
        invariant i <= j <= |s| && ToDigit(s[j..]) == ToDigit(s[i..])
      {
        assert s[j..][1..] == s[j + 1..];
        j := j + 1;
      }
    }

    /** The two numbers of a header line of a context diff. */
    method TwoNumbers(buf: string) returns (a: int, b: int)
      ensures a == Atol(ToDigit(buf)) && b == Atol(ToDigit(PastDigits(ToDigit(buf))))
    {
      hide Atol, PastDigits, ToDigit;
      assert buf[0..] == buf;
      var s := FindDigit(buf, 0);
      a := Atol(buf[s..]);
      s := reader.SkipDigits(buf, s);
      s := FindDigit(buf, s);
      b := Atol(buf[s..]);
    }

    /** The first k entries of hunk h have been read back. */
    ghost predicate Halfway(h: HunkVal, offset: int, k: nat, max: int, ptrn: int, replBeginning: int)
      reads hunk, hunk.cells
    {
      && hunk.cells.Length == MAX_HUNK_SIZE && k <= Size(h) && hunk.end == k - 1 && Size(h) < MAX_HUNK_SIZE
      && (forall j :: 0 <= j < k ==> hunk.cells[j] == CellAt(Reread(h, offset), j))
      && (k > 0 ==> ptrn == |h.olds| && hunk.first == h.first + offset)
      && (if k <= MidIndex(h) then max == MAX_HUNK_SIZE
          else max == Size(h) - 1 && hunk.newfirst == h.newfirst + offset && replBeginning == MidIndex(h))
    }

    /** The loop of another_hunk turns once: line buf becomes an entry. */
    method ContextLine(buf: string, max: int, ptrn: int, context: int, replBeginning: int, ghost known: bool, ghost h: HunkVal, ghost offset: int)
      returns (ok: bool, max': int, ptrn': int, context': int, replBeginning': int)
      requires hunk.cells.Length == MAX_HUNK_SIZE && -1 <= hunk.end < MAX_HUNK_SIZE - 1 && buf != ""
      requires known ==> Rejectable(h, offset) && hunk.end + 1 < Size(h) && buf == RejectLine(h, offset, hunk.end + 1)
      requires known ==> Halfway(h, offset, hunk.end + 1, max, ptrn, replBeginning)
      modifies hunk, hunk.cells
      ensures hunk.end == old(hunk.end) + 1 && (replBeginning' == replBeginning || replBeginning' == hunk.end)
      ensures known ==> ok && Halfway(h, offset, hunk.end + 1, max', ptrn', replBeginning')
    {
      hide ToDigit, OldHeader, NewHeader, RejectLine, Atol, PastDigits, Rejectable, CellAt, Reread;
      if known {
        RejectLooks(h, offset, hunk.end + 1);
        HeaderNumbers(h, offset);
        RereadEntry(h, offset, hunk.end + 1);
      }
      ok, max', ptrn', context', replBeginning' := true, max, ptrn, context, replBeginning;
      hunk.end := hunk.end + 1;
      var end, c := hunk.end, buf[0];
      if c == '*' {
        if end != 0 {
          return false, max', ptrn', context', replBeginning';
        }
        context' := 0;
        hunk.cells[end] := Cell(c, buf, |buf|);
        var a, b := TwoNumbers(buf);
        hunk.first, ptrn' := a, b - a + 1;
      } else if c == '-' && At(buf, 1) == '-' {
        if end != ptrn + 1 && end != ptrn + 2 {
          return false, max', ptrn', context', replBeginning';
        }
        replBeginning', context' := end, 0;
        hunk.cells[end] := Cell('=', buf, |buf|);
        var a, b := TwoNumbers(buf);
        hunk.newfirst, max' := a, b - a + 1 + end;
      } else if c == '-' || c == '+' || c == '!' {
        if context > 0 {
          if context < hunk.context {
            hunk.context := context;
          }
          context' := -100;
        }
        hunk.cells[end] := Entry(buf, c);
      } else if c == '\t' || c == '\n' {
        var ch := c;
        if end != ptrn + 1 {
          context' := context + 1;
          ch := ' ';
        }
        hunk.cells[end] := Cell(ch, buf, |buf|);
      } else if c == ' ' {
        context' := context + 1;
        hunk.cells[end] := Entry(buf, c);
      } else {
        return false, max', ptrn', context', replBeginning';
      }
    }

    lemma HalfwayStarts(h: HunkVal, offset: int, ptrn: int)
      requires hunk.cells.Length == MAX_HUNK_SIZE && hunk.end == -1 && Rejectable(h, offset)
      ensures Halfway(h, offset, 0, MAX_HUNK_SIZE, ptrn, 0)
    {
    }

    lemma HalfwayOn(h: HunkVal, offset: int, k: nat, max: int, ptrn: int, replBeginning: int)
      requires Halfway(h, offset, k, max, ptrn, replBeginning)
      ensures k <= Size(h) < MAX_HUNK_SIZE && hunk.end == k - 1 && (k - 1 < max ==> k < Size(h))
    {
    }

    lemma HalfwayDone(h: HunkVal, offset: int, k: nat, max: int, ptrn: int, replBeginning: int)
      requires Halfway(h, offset, k, max, ptrn, replBeginning) && k - 1 >= max
      ensures k == Size(h) && hunk.end >= 0 && ptrn == |h.olds| && hunk.end - replBeginning == |h.news|
    {
    }

    /** One round of the loop of another_hunk; r tells whether it goes on. */
    method NextEntry(max: int, ptrn: int, context: int, replBeginning: int, ghost known: bool, ghost h: HunkVal, ghost offset: int, ghost a: nat)
      returns (r: Parse, max': int, ptrn': int, context': int, replBeginning': int)
      requires hunk == reader.hunk && hunk.cells.Length == MAX_HUNK_SIZE && reader.at <= |reader.patch| && -1 <= hunk.end < MAX_HUNK_SIZE && hunk.end < max
      requires forall i :: 0 <= i < |reader.patch| ==> reader.patch[i] != ""
      requires known ==> Rejectable(h, offset) && RejectedAt(reader.patch, a, h, offset)
      requires known ==> reader.at == a + 1 + hunk.end + 1 && Halfway(h, offset, hunk.end + 1, max, ptrn, replBeginning)
      modifies reader`at, hunk, hunk.cells
      ensures old(reader.at) <= reader.at <= |reader.patch| && !r.NoHunk?
      ensures r.Hunk? ==> hunk.end == old(hunk.end) + 1 < MAX_HUNK_SIZE && (replBeginning' == replBeginning || replBeginning' == hunk.end)
      ensures known ==> r.Hunk? && reader.at == a + 1 + hunk.end + 1 && Halfway(h, offset, hunk.end + 1, max', ptrn', replBeginning')
    {
      hide Rejectable, RejectedAt, RejectLine, Halfway, Size;
      max', ptrn', context', replBeginning' := max, ptrn, context, replBeginning;
      var eof, buf := reader.Pgets();
      if known {
        HalfwayOn(h, offset, hunk.end + 1, max, ptrn, replBeginning);
        RejectFits(reader.patch, a, h, offset);
        RejectedLine(reader.patch, a, h, offset, hunk.end + 1);
        RejectLooks(h, offset, hunk.end + 1);
      }
      if eof {
        if max - hunk.end >= 4 {
          return Fatal, max', ptrn', context', replBeginning';
        }
        buf := "  \n";
      }
      if "********" <= buf {
        return Fatal, max', ptrn', context', replBeginning';
      }
      if hunk.end + 1 == MAX_HUNK_SIZE {
        return TooBig, max', ptrn', context', replBeginning';
      }
      var ok;
      ok, max', ptrn', context', replBeginning' := ContextLine(buf, max, ptrn, context, replBeginning, known, h, offset);
      r := if ok then Hunk else Fatal;
    }

    /** The counts of the hunk that has been read. */
    method SetCounts(max: int, ptrn: nat, replBeginning: int, ghost known: bool, ghost h: HunkVal, ghost offset: int)
      requires replBeginning <= hunk.end && (known ==> hunk.end >= 0 && hunk.end >= max && Halfway(h, offset, hunk.end + 1, max, ptrn, replBeginning))
      modifies hunk`ptrnLines, hunk`replLines
      ensures known ==> hunk.Has(Reread(h, offset))
    {
      hide CellAt, OldHeader, NewHeader;
      hunk.ptrnLines, hunk.replLines := ptrn, hunk.end - replBeginning;
    }

    /** another_hunk on a context diff, before a reversal.  A hunk that abort_hunk printed is read back:
        same marks, texts and counts, and first lines moved by the offset. */
    method ContextHunkNext(ghost h: HunkVal, ghost offset: int) returns (r: Parse)
      requires hunk == reader.hunk && hunk.cells.Length == MAX_HUNK_SIZE && reader.at <= |reader.patch|
      requires forall i :: 0 <= i < |reader.patch| ==> reader.patch[i] != ""
      modifies reader`at, hunk, hunk.cells
      ensures old(reader.at) <= reader.at <= |reader.patch| && (r.NoHunk? ==> reader.at == old(reader.at))
      ensures r.NoHunk? <==> old(reader.at) == |reader.patch| || !("********" <= reader.patch[old(reader.at)])
      ensures Rejectable(h, offset) && RejectedAt(reader.patch, old(reader.at), h, offset) ==> r.Hunk? && hunk.Has(Reread(h, offset)) && reader.at == old(reader.at) + 1 + Size(h)
    {
      hide Rejectable, RejectedAt, RejectLine, Halfway, hunk.Has, Size;
      hunk.end := -1;
      ghost var a := reader.at;
      ghost var known := Rejectable(h, offset) && RejectedAt(reader.patch, a, h, offset);
      if known { RejectFits(reader.patch, a, h, offset); }
      var eof, buf := reader.Pgets();
      if eof {
        return NoHunk;
      }
      if !("********" <= buf) {
        reader.at := reader.at - 1;
        return NoHunk;
      }
      hunk.context := 100;
      var max, ptrn, context, replBeginning := MAX_HUNK_SIZE as int, hunk.ptrnLines as int, 0, 0;
      if known { HalfwayStarts(h, offset, ptrn); }
      while hunk.end < max
        invariant -1 <= hunk.end < MAX_HUNK_SIZE && a + 1 <= reader.at <= |reader.patch| && (0 <= replBeginning <= hunk.end || replBeginning == 0)
        invariant known ==> reader.at == a + 1 + hunk.end + 1 && Halfway(h, offset, hunk.end + 1, max, ptrn, replBeginning)
        decreases MAX_HUNK_SIZE - hunk.end
      {
        r, max, ptrn, context, replBeginning := NextEntry(max, ptrn, context, replBeginning, known, h, offset, a);
        if !r.Hunk? {
          return;
        }
      }
      if known { HalfwayDone(h, offset, hunk.end + 1, max, ptrn, replBeginning); }
      if hunk.end >= 0 && ptrn == 0 {
        return Fatal;
      }
      if ptrn < 0 || hunk.end < replBeginning {
        return TooBig;
      }
      SetCounts(max, ptrn, replBeginning, known, h, offset);
      r := Hunk;
    }
  }

  lemma RejectFits(ls: seq<string>, a: nat, h: HunkVal, offset: int)
    requires Rejectable(h, offset) && RejectedAt(ls, a, h, offset)
    ensures a + 1 + Size(h) <= |ls| && Size(h) < MAX_HUNK_SIZE && h.olds != []
    ensures ls[a] == SEPARATOR && "********" <= ls[a]
  {
    RejectedLine(ls, a, h, offset, 0);
    assert SEPARATOR[..8] == "********";
  }

  /** Reading back changes nothing but the headers. */
  lemma RereadEntry(h: HunkVal, offset: int, k: nat)
    requires k < Size(h) && Rejectable(h, offset)
    ensures var c, d := CellAt(h, k), CellAt(Reread(h, offset), k);
      && (k == 0 ==> d == Cell('*', RejectLine(h, offset, k), |RejectLine(h, offset, k)|))
      && (k == MidIndex(h) ==> d == Cell('=', RejectLine(h, offset, k), |RejectLine(h, offset, k)|))
      && (k != 0 && k != MidIndex(h) ==> d == c && c.ch in {' ', '-', '+', '!', '\n'})
    ensures k == 0 ==> RejectLine(h, offset, k) == OldHeader(h, offset)
    ensures k == MidIndex(h) ==> RejectLine(h, offset, k) == NewHeader(h, offset)
    ensures Size(Reread(h, offset)) == Size(h) < MAX_HUNK_SIZE && |h.olds| > 0
    ensures |h.blank| <= 1
  {
    hide OldHeader, NewHeader;
  }

  /** Writing a hunk to a reject file and reading the file as a patch gives the hunk back. */
  method RejectRoundTrip(hunk: HunkBuffer, offset: int, ghost h: HunkVal) returns (again: HunkBuffer, r: Parse)
    requires hunk.Has(h) && Rejectable(h, offset)
    ensures r.Hunk? && again.Has(Reread(h, offset))
  {
    hide RejectLine, Rejectable;
    RejectableFits(h, offset);
    var rejects := new RejectFile(hunk);
    rejects.AbortHunk(offset, h);
    var ls := rejects.rejfp;
    forall i | 0 <= i < |ls| ensures ls[i] != "" {
      if i > 0 { RejectLooks(h, offset, i - 1); }
    }
    again := new HunkBuffer();
    var reader := new HunkReader(again, ls);
    var context := new ContextReader(reader);
    assert ls[0..1 + Size(h)] == ls;
    r := context.ContextHunkNext(h, offset);
  }

  lemma RejectableFits(h: HunkVal, offset: int)
    requires Rejectable(h, offset)
    ensures WellFormed(h)
  {
  }
}
