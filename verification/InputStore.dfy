/**
 The input file with indexable lines: plan a keeps it in memory behind a table of line pointers,
 plan b keeps it in a temporary file of fixed-length records and reads it through two buffers.
 */
module InputStore {
  import opened Text
  import opened Sealing

  const BUFFER_SIZE: nat := 1024
  const MAX_CHUNK: nat := BUFFER_SIZE - 1

  function Min(a: nat, b: nat): nat {
    if a < b then a else b
  }

  /** Characters fgets reads from s into a buffer that has room for max of them. */
  function ChunkLength(s: string, max: nat): (n: nat)
    requires max > 0
    ensures n <= |s| && n <= max && (s != "" ==> n > 0)
  {
    Min(LineLength(s), max)
  }

  /** What successive calls of fgets return: lines, or pieces of lines longer than max. */
  function Chunks(s: string, max: nat): seq<string>
    requires max > 0
    decreases |s|
  {
    if s == "" then [] else [s[..ChunkLength(s, max)]] + Chunks(s[ChunkLength(s, max)..], max)
  }

  /** s without its first k lines. */
  function AfterLines(s: string, k: nat): string {
    if k == 0 then s else AfterLines(s[LineLength(s)..], k - 1)
  }

  lemma {:induction false} AfterLinesStep(s: string, k: nat)
    ensures AfterLines(s, k + 1) == AfterLines(s, k)[LineLength(AfterLines(s, k))..]
  {
    if k > 0 { AfterLinesStep(s[LineLength(s)..], k - 1); }
  }

  lemma {:induction false} AfterLinesLines(s: string, k: nat)
    requires k <= |Lines(s)|
    ensures Lines(AfterLines(s, k)) == Lines(s)[k..]
    ensures AfterLines(s, k) == "" <==> k == |Lines(s)|
  {
    if k > 0 {
      AfterLinesLines(s[LineLength(s)..], k - 1);
      assert Lines(s)[1..][k - 1..] == Lines(s)[k..];
    }
  }

  lemma {:induction false} ChunksAreShort(s: string, max: nat)
    requires max > 0
    ensures forall i :: 0 <= i < |Chunks(s, max)| ==> 0 < |Chunks(s, max)[i]| <= max
    decreases |s|
  {
    if s != "" { ChunksAreShort(s[ChunkLength(s, max)..], max); }
  }

  ghost predicate NoneLonger(ls: seq<string>, max: nat) {
    forall i :: 0 <= i < |ls| ==> |ls[i]| <= max
  }

  /** Lines that fit are read whole; one that does not is split. */
  lemma {:induction false} ChunksAreLines(s: string, max: nat)
    requires max > 0
    ensures Chunks(s, max) == Lines(s) <==> NoneLonger(Lines(s), max)
    decreases |s|
  {
    if s != "" {
      var t := s[LineLength(s)..];
      var c := s[ChunkLength(s, max)..];
      if LineLength(s) <= max {
        ChunksAreLines(t, max);
        assert Lines(s)[1..] == Lines(t) && Chunks(s, max)[1..] == Chunks(t, max);
        if NoneLonger(Lines(t), max) {
          forall i | 0 <= i < |Lines(s)| ensures |Lines(s)[i]| <= max {
            if i > 0 { assert Lines(s)[i] == Lines(t)[i - 1]; }
          }
        }
        if NoneLonger(Lines(s), max) {
          forall i | 0 <= i < |Lines(t)| ensures |Lines(t)[i]| <= max { assert Lines(s)[i + 1] == Lines(t)[i]; }
        }
      } else {
        assert |Lines(s)[0]| > max && |Chunks(s, max)[0]| <= max;
      }
    }
  }

  /** Reading again with room for the longest piece gives the same pieces. */
  lemma {:induction false} SameChunks(s: string, max: nat, longest: nat)
    requires 0 < longest <= max && NoneLonger(Chunks(s, max), longest)
    ensures Chunks(s, longest) == Chunks(s, max)
    decreases |s|
  {
    hide LineLength;
    if s != "" {
      var n := ChunkLength(s, max);
      assert |Chunks(s, max)[0]| == n <= longest;
      forall i | 0 <= i < |Chunks(s[n..], max)| ensures |Chunks(s[n..], max)[i]| <= longest {
        assert Chunks(s, max)[i + 1] == Chunks(s[n..], max)[i];
      }
      SameChunks(s[n..], max, longest);
    }
  }

  /** The text plan a keeps: a missing last newline is supplied. */
  function Terminated(s: string): string {
    if s != "" && s[|s| - 1] != '\n' then s + "\n" else s
  }

  /** When the two plans hold the same lines of a file without NUL, at which plan a would stop: the
      file ends with a newline and no line is longer than fgets can take at once. */
  lemma StoresAgree(s: string)
    requires s != "" && '\0' !in s
    ensures Chunks(s, MAX_CHUNK) == Lines(Terminated(s)) <==> s[|s| - 1] == '\n' && forall i :: 0 <= i < |Lines(s)| ==> |Lines(s)[i]| <= 1023
  {
    if s[|s| - 1] == '\n' {
      ChunksAreLines(s, MAX_CHUNK);
    } else {
      FlatOfLines(Terminated(s));
      FlatOfChunks(s, MAX_CHUNK);
    }
  }

  lemma {:induction false} FlatOfChunks(s: string, max: nat)
    requires max > 0
    ensures Flat(Chunks(s, max)) == s
    decreases |s|
  {
    if s != "" {
      var n := ChunkLength(s, max);
      FlatOfChunks(s[n..], max);
      assert Chunks(s, max)[1..] == Chunks(s[n..], max);
      assert s == s[..n] + s[n..];
    }
  }

  // ---------------------------------------------------------------- record arithmetic

  lemma NextSlot(i: nat, l: nat)
    requires i > 0 && l > 0
    ensures i % l == 0 ==> i / l == (i - 1) / l + 1 && (i - 1) % l == l - 1
    ensures i % l != 0 ==> i / l == (i - 1) / l && i % l == (i - 1) % l + 1
  {
    var q, o := (i - 1) / l, (i - 1) % l;
    assert i - 1 == q * l + o;
    if o == l - 1 {
      assert i == (q + 1) * l by { assert (q + 1) * l == q * l + l; }
      DivModIs(i, l, q + 1, 0);
    } else {
      DivModIs(i, l, q, o + 1);
    }
  }

  lemma DivModIs(i: nat, l: nat, q: nat, o: nat)
    requires l > 0 && o < l && i == q * l + o
    ensures i / l == q && i % l == o
  {
    var q', o' := i / l, i % l;
    assert i == q' * l + o';
    assert (q - q') * l == q * l - q' * l && (q' - q) * l == q' * l - q * l;
    BelowOne(q - q', l);
    BelowOne(q' - q, l);
  }

  /** A multiple of l below l is a multiple by at most zero. */
  lemma BelowOne(d: int, l: nat)
    requires d * l < l
    ensures d <= 0
  {
    assert d >= 1 ==> d * l == l + (d - 1) * l && (d - 1) * l >= 0;
  }

  lemma {:induction false} MulMonotone(a: nat, b: nat, l: nat)
    requires a <= b
    ensures a * l <= b * l
  {
    assert (b - a) * l >= 0;
    assert b * l == a * l + (b - a) * l;
  }

  /** Slot o of a block of l records of r characters ends inside the buffer. */
  lemma SlotFits(r: nat, l: nat, o: nat)
    requires 0 < r <= BUFFER_SIZE && l == BUFFER_SIZE / r && o < l
    ensures r * o + r <= r * l <= BUFFER_SIZE
  {
    MulMonotone(o + 1, l, r);
    assert (o + 1) * r == r * o + r && l * r == r * l;
    assert r * (BUFFER_SIZE / r) <= BUFFER_SIZE;
  }

  /** Different slots do not overlap. */
  lemma SlotsApart(r: nat, o: nat, p: nat)
    requires o < p
    ensures r * o + r <= r * p
  {
    MulMonotone(o + 1, p, r);
    assert (o + 1) * r == r * o + r && p * r == r * p;
  }

  lemma QuotientBelow(t: nat, i: nat, l: nat)
    requires t <= i && l > 0
    ensures t / l <= i / l
  {
    var d := t / l - i / l;
    assert t == (t / l) * l + t % l && i == (i / l) * l + i % l;
    assert d * l == (t / l) * l - (i / l) * l;
    BelowOne(d, l);
  }

  lemma SameBlock(t: nat, i: nat, l: nat)
    requires l > 0 && t < i && t / l == i / l
    ensures t % l < i % l
  {
    assert t == (t / l) * l + t % l && i == (i / l) * l + i % l;
  }

  // ---------------------------------------------------------------- the store

  /** The block holds rec from offset off on. */
  ghost predicate SlotHolds(block: seq<char>, off: nat, rec: string) {
    off + |rec| <= |block| && block[off..off + |rec|] == rec
  }

  /** Record t sits in block t / l at slot t % l, for every line number t. */
  ghost predicate TapeHolds(tape: seq<string>, recs: seq<string>, r: nat, l: nat)
    requires l > 0
  {
    forall t :: 1 <= t <= |recs| ==> Filed(tape, recs, r, l, t)
  }

  ghost predicate Filed(tape: seq<string>, recs: seq<string>, r: nat, l: nat, t: nat)
    requires l > 0 && 1 <= t <= |recs|
  {
    t / l < |tape| && |tape[t / l]| == BUFFER_SIZE && SlotHolds(tape[t / l], r * (t % l), recs[t - 1])
  }

  /** The counting loop of plan_a; it would end at a NUL. */
  method CountLines(s: string) returns (n: nat)
    requires s != "" && '\0' !in s && s[|s| - 1] == '\n'
    ensures n == |Lines(s)|
  {
    hide Lines, Counted;
    n := 0;
    ghost var start := 0;
    CountedStep(s, 0, 0, 0);
    for i := 0 to |s|
      invariant Counted(s, start, i, n)
    {
      CountedStep(s, start, i, n);
      if s[i] == '\n' {
        n := n + 1;
        start := i + 1;
      }
    }
    CountedStep(s, start, |s|, n);
  }

  /** n lines end before start, and none between start and i. */
  ghost predicate Counted(s: string, start: nat, i: nat, n: nat) {
    forall k {:trigger Open(k)} :: Open(k) ==> NoneSince(s, start, i) && n + LinesFrom(s, start) == |Lines(s)|
  }

  lemma CountedStep(s: string, start: nat, i: nat, n: nat)
    requires i == start == n == 0 || Counted(s, start, i, n)
    ensures i == start == n == 0 ==> Counted(s, start, i, n)
    ensures i < |s| && s[i] == '\n' ==> Counted(s, i + 1, i + 1, n + 1)
    ensures i < |s| && s[i] != '\n' ==> Counted(s, start, i + 1, n)
    ensures i == |s| && s != "" && s[|s| - 1] == '\n' ==> n == |Lines(s)|
  {
    assert Open(0) && s[0..] == s;
    if i < |s| && s[i] == '\n' { LineEnd(s, start, i); }
    if i == |s| && s != "" && s[|s| - 1] == '\n' {
      assert start == |s| && s[start..] == "";
    }
  }

  /** The scan of plan_a that fills the pointer table, entry 0 unused. */
  method BuildTable(w: string, n: nat) returns (ptr: array<nat>)
    requires w != "" && '\0' !in w && w[|w| - 1] == '\n' && n == |Lines(w)|
    ensures fresh(ptr) && ptr.Length == n + 2
    ensures forall k :: 1 <= k <= n ==> StartsLine(w, ptr[k], k)
  {
    ptr := new nat[n + 2];
    ptr[1] := 0;
    var iline := 1;
    ghost var table: seq<nat> := [0];
    ScanStart(w, n);
    for s := 0 to |w|
      invariant 1 <= iline == |table| <= n + 1 && ptr.Length == n + 2
      invariant ptr[1..iline + 1] == table && Scanned(w, table, s, n)
    {
      ScanStep(w, table, s, n);
      if w[s] == '\n' {
        iline := iline + 1;
        ptr[iline] := s + 1;
        assert ptr[1..iline + 1] == ptr[1..iline] + [s + 1];
        table := table + [s + 1];
      }
    }
    ScanEnd(w, table, n);
    forall k | 1 <= k <= n ensures StartsLine(w, ptr[k], k) {
      assert ptr[k] == ptr[1..iline + 1][k - 1] == table[k - 1];
    }
  }

  /** The scan has reached position s and found the line starts in table. */
  ghost predicate Scan(w: string, table: seq<nat>, s: nat, n: nat) {
    && 0 < |table| <= n + 1 && (forall k :: 0 <= k < |table| ==> StartsLine(w, table[k], k + 1))
    && NoneSince(w, table[|table| - 1], s) && (|table| == n + 1 <==> table[|table| - 1] == |w|)
  }

  ghost predicate Scanned(w: string, table: seq<nat>, s: nat, n: nat) {
    forall k {:trigger Open(k)} :: Open(k) ==> Scan(w, table, s, n)
  }

  lemma ScanStart(w: string, n: nat)
    requires w != "" && n == |Lines(w)|
    ensures Scanned(w, [0], 0, n)
  {
    assert w[0..] == w;
  }

  lemma ScanStep(w: string, table: seq<nat>, s: nat, n: nat)
    requires Scanned(w, table, s, n) && s < |w| && n == |Lines(w)|
    ensures 0 < |table| <= n
    ensures w[s] == '\n' ==> Scanned(w, table + [s + 1], s + 1, n)
    ensures w[s] != '\n' ==> Scanned(w, table, s + 1, n)
  {
    assert Open(0);
    if w[s] == '\n' { ScanNewline(w, table, s, n); } else { ScanOther(w, table, s, n); }
  }

  lemma ScanOther(w: string, table: seq<nat>, s: nat, n: nat)
    requires Scan(w, table, s, n) && s < |w| && w[s] != '\n'
    ensures Scan(w, table, s + 1, n)
  {
  }

  lemma ScanNewline(w: string, table: seq<nat>, s: nat, n: nat)
    requires Scan(w, table, s, n) && s < |w| && n == |Lines(w)| && w[s] == '\n'
    ensures Scan(w, table + [s + 1], s + 1, n)
  {
    var k, t := |table| - 1, table + [s + 1];
    assert StartsLine(w, table[k], k + 1);
    NextLine(w, table[k], s, k + 1);
    Extends(w, table, s + 1);
  }

  lemma Extends(w: string, table: seq<nat>, p: nat)
    requires forall k :: 0 <= k < |table| ==> StartsLine(w, table[k], k + 1)
    requires StartsLine(w, p, |table| + 1)
    ensures forall k :: 0 <= k < |table + [p]| ==> StartsLine(w, (table + [p])[k], k + 1)
  {
    forall k | 0 <= k < |table + [p]| ensures StartsLine(w, (table + [p])[k], k + 1) {
      if k < |table| { assert StartsLine(w, table[k], k + 1); }
    }
  }

  lemma ScanEnd(w: string, table: seq<nat>, n: nat)
    requires Scanned(w, table, |w|, n) && w != "" && w[|w| - 1] == '\n'
    ensures |table| == n + 1
    ensures forall k :: 0 <= k < |table| ==> StartsLine(w, table[k], k + 1)
  {
    assert Open(0);
  }

  ghost function LinesFrom(s: string, i: nat): nat
    requires i <= |s|
  {
    |Lines(s[i..])|
  }

  /** Line k of w starts at position p. */
  ghost predicate StartsLine(w: string, p: nat, k: nat) {
    k > 0 && p <= |w| && w[p..] == AfterLines(w, k - 1)
  }

  /** No newline between the start of a line and position s. */
  ghost predicate NoneSince(w: string, start: nat, s: nat) {
    start <= s <= |w| && forall i :: start <= i < s ==> w[i] != '\n'
  }

  class Input {
    var planA: bool             // using_plan_a
    var womp: string            // i_womp: the whole file
    var ptr: array<nat>         // i_ptr: where in i_womp each line starts, from 1
    var inputLines: nat         // input_lines
    var tape: seq<string>       // blocks of the temporary file
    var linesPerBuf: nat        // lines_per_buf
    var recLen: nat             // tireclen
    const tibuf0: array<char>   // tibuf[0]
    const tibuf1: array<char>   // tibuf[1]
    var tiline0: int            // tiline[0]: first line of the block in tibuf[0], or -1
    var tiline1: int            // tiline[1]
    ghost var lines: seq<string>

    /** Buffer content agrees with the block its tiline entry names. */
    ghost predicate Cached(base: int, buf: array<char>)
      reads this, buf
    {
      linesPerBuf > 0 && buf.Length == BUFFER_SIZE + 1 && (base != -1 ==>
        base >= 0 && base % linesPerBuf == 0 && base / linesPerBuf < |tape| && buf[..BUFFER_SIZE] == tape[base / linesPerBuf])
    }

    ghost predicate Valid()
      reads this, ptr, tibuf0, tibuf1
    {
      && tibuf0 != tibuf1 && inputLines == |lines|
      && (planA ==> lines == Lines(womp) && ptr.Length > inputLines)
      && (planA ==> forall k :: 1 <= k <= inputLines ==> StartsLine(womp, ptr[k], k))
      && (!planA ==> 0 < recLen <= MAX_CHUNK && linesPerBuf == BUFFER_SIZE / recLen)
      && (!planA ==> TapeHolds(tape, lines, recLen, linesPerBuf) && Cached(tiline0, tibuf0) && Cached(tiline1, tibuf1))
    }

    constructor ()
      ensures fresh(tibuf0) && fresh(tibuf1) && tibuf0 != tibuf1
      ensures tibuf0.Length == tibuf1.Length == BUFFER_SIZE + 1 && tiline0 == tiline1 == -1
    {
      planA, womp, inputLines, tape, linesPerBuf, recLen, lines := true, "", 0, [], 1, 0, [];
      ptr := new nat[1];
      tibuf0 := new char[BUFFER_SIZE + 1];
      tibuf1 := new char[BUFFER_SIZE + 1];
      tiline0, tiline1 := -1, -1;
    }

    /** plan_a: the whole file in memory, and a scan for the starts of its lines; the scan ends at a
        NUL, so the file must hold none. */
    method PlanA(text: string)
      requires text != "" && '\0' !in text && tibuf0 != tibuf1
      modifies this
      ensures Valid() && planA && womp == Terminated(text) && lines == Lines(Terminated(text)) && fresh(ptr)
    {
      planA := true;
      womp := Terminated(text);
      var n := CountLines(womp);
      ptr := BuildTable(womp, n);
      inputLines := n;
      lines := Lines(womp);
    }

    /** plan_b: one pass for the longest line, one pass that writes the records out. */
    method PlanB(text: string)
      requires text != "" && tibuf0 != tibuf1 && tibuf0.Length == tibuf1.Length == BUFFER_SIZE + 1
      requires tiline0 == tiline1 == -1
      modifies this, tibuf0
      ensures Valid() && !planA && lines == Chunks(text, MAX_CHUNK)
    {
      planA := false;
      var maxlen := Longest(text);
      SameChunks(text, MAX_CHUNK, maxlen);
      linesPerBuf := BUFFER_SIZE / maxlen;
      recLen := maxlen;
      AtLeastOne(maxlen);
      tape, inputLines := WriteRecords(text, maxlen, linesPerBuf, tibuf0);
      lines := Chunks(text, maxlen);
    }

    /** ifetch: the text at a line, newline terminated but going on behind it; "" outside the file. */
    method Ifetch(line: int, whichbuf: nat) returns (r: string)
      requires Valid() && whichbuf < 2
      modifies `tiline0, `tiline1, tibuf0, tibuf1
      ensures Valid()
      ensures line < 1 || line > inputLines ==> r == ""
      ensures 1 <= line <= inputLines ==> lines[line - 1] <= r
    {
      if line < 1 || line > inputLines {
        return "";
      }
      if planA {
        AfterLinesLines(womp, line - 1);
        assert Lines(AfterLines(womp, line - 1))[0] == lines[line - 1];
        return womp[ptr[line]..];
      }
      r := FetchB(line, whichbuf);
    }

    /** ifetch under plan b. */
    method FetchB(line: nat, whichbuf: nat) returns (r: string)
      requires Valid() && !planA && 1 <= line <= inputLines && whichbuf < 2
      modifies `tiline0, `tiline1, tibuf0, tibuf1
      ensures Valid() && lines[line - 1] <= r
    {
      var offline := line % linesPerBuf;
      var baseline := line - offline;
      BlockStart(line, linesPerBuf);
      assert Filed(tape, lines, recLen, linesPerBuf, line);
      var which := whichbuf;
      if tiline0 == baseline {
        which := 0;
      } else if tiline1 == baseline {
        which := 1;
      } else {
        ReadBlock(baseline, which);
      }
      SlotFits(recLen, linesPerBuf, offline);
      if which == 0 {
        PrefixOfSlot(tibuf0[..], recLen * offline, lines[line - 1]);
        return tibuf0[recLen * offline..];
      } else {
        PrefixOfSlot(tibuf1[..], recLen * offline, lines[line - 1]);
        return tibuf1[recLen * offline..];
      }
    }

    /** Seek and read of one block into the chosen buffer. */
    method ReadBlock(baseline: nat, which: nat)
      requires Valid() && !planA && which < 2
      requires baseline % linesPerBuf == 0 && baseline / linesPerBuf < |tape| && |tape[baseline / linesPerBuf]| == BUFFER_SIZE
      modifies `tiline0, `tiline1, tibuf0, tibuf1
      ensures Valid()
      ensures if which == 0 then tiline0 == baseline else tiline1 == baseline
    {
      var block := tape[baseline / linesPerBuf];
      if which == 0 {
        tiline0 := baseline;
        forall i | 0 <= i < BUFFER_SIZE { tibuf0[i] := block[i]; }
        assert tibuf0[..BUFFER_SIZE] == block;
      } else {
        tiline1 := baseline;
        forall i | 0 <= i < BUFFER_SIZE { tibuf1[i] := block[i]; }
        assert tibuf1[..BUFFER_SIZE] == block;
      }
    }
  }

  lemma PrefixOfSlot(buf: seq<char>, off: nat, rec: string)
    requires BUFFER_SIZE <= |buf| && off <= BUFFER_SIZE && SlotHolds(buf[..BUFFER_SIZE], off, rec)
    ensures rec <= buf[off..]
  {
    assert buf[..BUFFER_SIZE][off..off + |rec|] == buf[off..][..|rec|];
  }

  lemma BlockStart(line: nat, l: nat)
    requires l > 0
    ensures (line - line % l) >= 0 && (line - line % l) % l == 0 && (line - line % l) / l == line / l
  {
    assert line == (line / l) * l + line % l;
    DivModIs(line - line % l, l, line / l, 0);
  }

  /** A line that starts at i and has its newline at e. */
  lemma {:induction false} LineEnd(s: string, i: nat, e: nat)
    requires i <= e < |s| && s[e] == '\n' && forall k :: i <= k < e ==> s[k] != '\n'
    ensures LineLength(s[i..]) == e + 1 - i && s[i..][LineLength(s[i..])..] == s[e + 1..]
    ensures LinesFrom(s, i) == 1 + LinesFrom(s, e + 1)
  {
    var l := s[i..e + 1];
    assert s[i..] == l + s[e + 1..];
    FirstLineOf(l, s[e + 1..]);
  }

  lemma {:induction false} NextLine(s: string, i: nat, e: nat, k: nat)
    requires e < |s| && s[e] == '\n' && NoneSince(s, i, e)
    requires 1 <= k <= |Lines(s)| + 1 && StartsLine(s, i, k)
    ensures k <= |Lines(s)| && StartsLine(s, e + 1, k + 1)
    ensures k == |Lines(s)| <==> e + 1 == |s|
  {
    LineEnd(s, i, e);
    AfterLinesStep(s, k - 1);
    AfterLinesLines(s, k - 1);
    if k <= |Lines(s)| { AfterLinesLines(s, k); }
  }

  // ---------------------------------------------------------------- plan b, writing

  lemma AtLeastOne(r: nat)
    requires 0 < r <= MAX_CHUNK
    ensures BUFFER_SIZE / r > 0
  {
    assert BUFFER_SIZE == (BUFFER_SIZE / r) * r + BUFFER_SIZE % r;
  }

  /** The first pass of plan_b. */
  method Longest(text: string) returns (maxlen: nat)
    ensures 0 < maxlen <= MAX_CHUNK && NoneLonger(Chunks(text, MAX_CHUNK), maxlen)
  {
    maxlen := 1;
    var rest := text;
    ghost var seen := [];
    while rest != ""
      invariant 0 < maxlen <= MAX_CHUNK && NoneLonger(seen, maxlen) && seen + Chunks(rest, MAX_CHUNK) == Chunks(text, MAX_CHUNK)
      decreases |rest|
    {
      var i := ChunkLength(rest, MAX_CHUNK);
      if i > maxlen {
        maxlen := i;
      }
      seen := seen + [rest[..i]];
      rest := rest[i..];
    }
    assert seen == Chunks(text, MAX_CHUNK);
  }

  /** One record into the buffer: the characters fgets read, and its NUL. */
  method WriteRecord(buf: array<char>, off: nat, rec: string)
    requires off + |rec| < buf.Length
    modifies buf
    ensures buf[off..off + |rec|] == rec
    ensures forall i :: 0 <= i < off ==> buf[i] == old(buf[i])
  {
    for i := 0 to |rec|
      invariant forall k :: 0 <= k < i ==> buf[off + k] == rec[k]
      invariant forall k :: 0 <= k < off ==> buf[k] == old(buf[k])
    {
      buf[off + i] := rec[i];
    }
    buf[off + |rec|] := '\0';
  }

  /** Before record i is read: the records before it sit on the tape, the latest ones still in the buffer. */
  ghost predicate Taped(tape: seq<string>, buf: seq<char>, recs: seq<string>, r: nat, l: nat, i: nat) {
    && l > 0 && 1 <= i <= |recs| + 1 && |buf| == BUFFER_SIZE && |tape| == (i - 1) / l
    && forall t :: 1 <= t < i ==> TapedAt(tape, buf, recs, r, l, t)
  }

  ghost predicate TapedAt(tape: seq<string>, buf: seq<char>, recs: seq<string>, r: nat, l: nat, t: nat)
    requires l > 0 && 1 <= t <= |recs|
  {
    && (t / l < |tape| ==> Filed(tape, recs, r, l, t))
    && (t / l >= |tape| ==> SlotHolds(buf, r * (t % l), recs[t - 1]))
  }

  /** Writing the buffer out as the next block moves its records to the tape. */
  lemma BlockWritten(tape: seq<string>, buf: seq<char>, recs: seq<string>, r: nat, l: nat, i: nat)
    requires Taped(tape, buf, recs, r, l, i)
    ensures forall t :: 1 <= t < i ==> Filed(tape + [buf], recs, r, l, t)
  {
    forall t | 1 <= t < i ensures Filed(tape + [buf], recs, r, l, t) {
      assert TapedAt(tape, buf, recs, r, l, t);
      QuotientBelow(t, i - 1, l);
    }
  }

  /** Writing record i into slot i % l of the buffer, its block being the next one of the tape. */
  lemma RecordWritten(tape: seq<string>, buf: seq<char>, buf': seq<char>, recs: seq<string>, r: nat, l: nat, i: nat, off: nat)
    requires l > 0 && 0 < r && 1 <= i <= |recs| && |buf| == |buf'| == BUFFER_SIZE && |tape| == i / l && off == r * (i % l)
    requires forall t :: 1 <= t < i ==> TapedAt(tape, buf, recs, r, l, t)
    requires forall t :: 0 <= t < i ==> |recs[t]| <= r
    requires SlotHolds(buf', off, recs[i - 1]) && forall k :: 0 <= k < off && k < BUFFER_SIZE ==> buf'[k] == buf[k]
    ensures Taped(tape, buf', recs, r, l, i + 1)
  {
    forall t | 1 <= t < i + 1 ensures TapedAt(tape, buf', recs, r, l, t) {
      if t < i {
        assert TapedAt(tape, buf, recs, r, l, t);
        QuotientBelow(t, i, l);
        if t / l >= |tape| {
          SameBlock(t, i, l);
          SlotsApart(r, t % l, i % l);
        }
      }
    }
  }

  /** The second pass of plan_b. */
  method WriteRecords(text: string, maxlen: nat, l: nat, buf: array<char>) returns (tape: seq<string>, n: nat)
    requires 0 < maxlen <= MAX_CHUNK && l == BUFFER_SIZE / maxlen && l > 0 && buf.Length == BUFFER_SIZE + 1
    modifies buf
    ensures n == |Chunks(text, maxlen)| && TapeHolds(tape, Chunks(text, maxlen), maxlen, l)
  {
    ghost var recs := Chunks(text, maxlen);
    ChunksAreShort(text, maxlen);
    tape, n := [], 0;
    var i, rest := 1, text;
    while true
      invariant 1 <= i <= |recs| + 1 && Chunks(rest, maxlen) == recs[i - 1..] && Taped(tape, buf[..BUFFER_SIZE], recs, maxlen, l, i)
      decreases |rest|
    {
      NextSlot(i, l);
      BlockWritten(tape, buf[..BUFFER_SIZE], recs, maxlen, l, i);
      if i % l == 0 {
        tape := tape + [buf[..BUFFER_SIZE]];
      }
      if rest == "" {
        n := i - 1;
        if i % l != 0 {
          tape := tape + [buf[..BUFFER_SIZE]];
        }
        break;
      }
      var size := ChunkLength(rest, maxlen);
      PutRecord(tape, buf, recs, maxlen, l, i, rest[..size]);
      rest := rest[size..];
      i := i + 1;
    }
  }

  /** fgets into slot i % l of the buffer. */
  method PutRecord(ghost tape: seq<string>, buf: array<char>, ghost recs: seq<string>, r: nat, l: nat, i: nat, rec: string)
    requires 0 < r <= MAX_CHUNK && l == BUFFER_SIZE / r && l > 0 && buf.Length == BUFFER_SIZE + 1
    requires 1 <= i <= |recs| && rec == recs[i - 1] && |tape| == i / l
    requires forall t :: 0 <= t < |recs| ==> |recs[t]| <= r
    requires forall t :: 1 <= t < i ==> TapedAt(tape, buf[..BUFFER_SIZE], recs, r, l, t)
    modifies buf
    ensures Taped(tape, buf[..BUFFER_SIZE], recs, r, l, i + 1)
  {
    SlotFits(r, l, i % l);
    ghost var before := buf[..BUFFER_SIZE];
    WriteRecord(buf, r * (i % l), rec);
    assert buf[..BUFFER_SIZE][r * (i % l)..r * (i % l) + |rec|] == buf[r * (i % l)..r * (i % l) + |rec|];
    RecordWritten(tape, before, buf[..BUFFER_SIZE], recs, r, l, i, r * (i % l));
  }
}
