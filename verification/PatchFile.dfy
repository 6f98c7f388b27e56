/**
 Reading the next hunk of a patch file into the hunk buffer: another_hunk.
 */
module PatchFile {
  import opened Text
  import opened Hunk
  import opened LooseMatch
  import opened Decimal
  import opened NormalDiff

  /** What another_hunk comes back with: a hunk; no hunk, with the line put back; an exit with a
      message; or counts that the buffer has no room for, where the original runs over it. */
  datatype Parse = Hunk | NoHunk | Fatal | TooBig

  // ---------------------------------------------------------------- header lines of a normal diff

  /** atol. */
  function Atol(s: string): int {
    var t := SkipSpace(s);
    if t != "" && t[0] == '-' then 0 - Value(Lead(t[1..]))
    else if t != "" && t[0] == '+' then Value(Lead(t[1..]))
    else Value(Lead(t))
  }

  /** Numbers of a header line: first line and count of the pattern, the letter, first and last new line. */
  datatype Head = Head(first: int, ptrn: int, kind: char, min: int, max: int)

  /** Behind the digits s starts with. */
  function PastDigits(s: string): string {
    s[|Lead(s)|..]
  }

  function Past(s: string): string {
    if s == "" then "" else s[1..]
  }

  function ReadHead(s: string): Head {
    var a, t := Atol(s), PastDigits(s);
    var comma := At(t, 0) == ',';
    var u := if comma then PastDigits(Past(t)) else t;
    var kind, v := At(u, 0), Past(u);
    var min, w := Atol(v), PastDigits(v);
    Head(if kind == 'a' then a + 1 else a,
         if comma then Atol(Past(t)) - a + 1 else if kind == 'a' then 0 else 1,
         kind,
         if kind == 'd' then min + 1 else min,
         if At(w, 0) == ',' then Atol(Past(w)) else min)
  }

  lemma AtolDigits(s: string)
    requires s != "" && IsDigit(s[0])
    ensures Atol(s) == Value(Lead(s))
  {
    hide Lead, Value;
  }

  lemma AtolOfNum(n: nat, rest: string)
    requires rest != "" ==> !IsDigit(rest[0])
    ensures Atol(Num(n) + rest) == n && PastDigits(Num(n) + rest) == rest
  {
    hide Num, Lead, Value, Atol, IsDigit;
    LeadOfNum(n, rest);
    AtolDigits(Num(n) + rest);
  }

  lemma ReadRange(a: nat, b: nat, rest: string)
    requires rest != "" && !IsDigit(rest[0]) && rest[0] != ','
    ensures var s := Range(a, b) + rest; var t := PastDigits(s);
      Atol(s) == a && (At(t, 0) == ',' <==> a != b) && (a == b ==> t == rest)
      && (a != b ==> Atol(Past(t)) == b && PastDigits(Past(t)) == rest)
  {
    hide Num, Atol, PastDigits, Lead, Value;
    if a == b {
      AtolOfNum(a, rest);
    } else {
      assert Range(a, b) + rest == Num(a) + ("," + Num(b) + rest);
      AtolOfNum(a, "," + Num(b) + rest);
      assert Past("," + Num(b) + rest) == Num(b) + rest;
      AtolOfNum(b, rest);
    }
  }

  lemma AtolOfDigits(d: string, rest: string)
    requires d != "" && AllDigits(d) && (rest != "" ==> !IsDigit(rest[0]))
    ensures Atol(d + rest) == Value(d) && PastDigits(d + rest) == rest
  {
    hide Lead, Value, Atol;
    LeadOf(d, rest);
    AtolDigits(d + rest);
  }

  /** One or two numbers at the start of a text. */
  lemma ReadNumbers(a: string, two: bool, b: string, rest: string)
    requires a != "" && b != "" && AllDigits(a) && AllDigits(b) && (rest != "" ==> !IsDigit(rest[0]) && (!two ==> rest[0] != ','))
    ensures var s := a + (if two then "," + b else "") + rest; var t := PastDigits(s);
      Atol(s) == Value(a) && (At(t, 0) == ',' <==> two) && (!two ==> t == rest) && (two ==> Atol(Past(t)) == Value(b) && PastDigits(Past(t)) == rest)
  {
    hide Atol, PastDigits, Lead, Value, AllDigits, IsDigit;
    var s := a + (if two then "," + b else "") + rest;
    if two {
      assert s == a + ("," + b + rest);
      CommaNoDigit();
      AtolOfDigits(a, "," + b + rest);
      assert Past("," + b + rest) == b + rest;
      AtolOfDigits(b, rest);
    } else {
      assert s == a + rest;
      AtolOfDigits(a, rest);
    }
  }

  lemma CommaNoDigit()
    ensures !IsDigit(',')
  {
  }

  /** Any header line, told by its parts: one or two old line numbers a and b, a letter, one or two new line
      numbers c and e, and whatever comes behind them. */
  lemma HeadExactly(a: string, twoOld: bool, b: string, letter: char, c: string, twoNew: bool, e: string, rest: string)
    requires a != "" && b != "" && c != "" && e != "" && AllDigits(a) && AllDigits(b) && AllDigits(c) && AllDigits(e)
    requires !IsDigit(letter) && letter != ',' && (rest != "" ==> !IsDigit(rest[0]) && (!twoNew ==> rest[0] != ','))
    ensures var hd := ReadHead(a + (if twoOld then "," + b else "") + [letter] + c + (if twoNew then "," + e else "") + rest);
      && hd.first == (if letter == 'a' then Value(a) + 1 else Value(a))
      && hd.ptrn == (if twoOld then Value(b) - Value(a) + 1 else if letter == 'a' then 0 else 1)
      && hd.kind == letter
      && hd.min == (if letter == 'd' then Value(c) + 1 else Value(c))
      && hd.max == (if twoNew then Value(e) else Value(c))
  {
    hide Atol, PastDigits, Lead, Value, AllDigits, IsDigit;
    var o, n := if twoOld then "," + b else "", if twoNew then "," + e else "";
    HeadParts(a + o, letter, c + n + rest, c, n, rest);
    ReadNumbers(a, twoOld, b, [letter] + (c + n + rest));
    ReadNumbers(c, twoNew, e, rest);
  }

  lemma HeadParts(old': string, letter: char, v: string, c: string, n: string, rest: string)
    requires v == c + n + rest
    ensures old' + [letter] + c + n + rest == old' + ([letter] + v) && Past([letter] + v) == v && At([letter] + v, 0) == letter
  {
  }

  /** Reading a printed header gives the hunk's numbers; an append moves behind its line, and a delete
      ends up with an empty new range. */
  lemma ReadHeader(d: DiffHunk)
    requires Proper(d)
    ensures ReadHead(Header(d)) == Head(EditOf(d).at + 1, |d.dels|, Letter(d.kind), d.newStart + (if d.kind.Delete? then 1 else 0), d.newEnd)
  {
    hide Num, Atol, PastDigits, Lead, Value, Range;
    var tail := [Letter(d.kind)] + (Range(d.newStart, d.newEnd) + "\n");
    assert Header(d) == Range(d.oldStart, d.oldEnd) + tail;
    ReadRange(d.oldStart, d.oldEnd, tail);
    assert Past(tail) == Range(d.newStart, d.newEnd) + "\n";
    ReadRange(d.newStart, d.newEnd, "\n");
  }

  // ---------------------------------------------------------------- the hunk of a normal diff

  /** Index of the first added line behind the header, and number of lines in all. */
  function AddsFrom(hd: Head): int {
    1 + hd.ptrn + if hd.kind == 'c' then 1 else 0
  }

  function LinesOf(hd: Head): int {
    AddsFrom(hd) + hd.max - hd.min + 1
  }

  predicate Roomy(hd: Head) {
    hd.ptrn >= 0 && hd.max - hd.min + 1 >= 0 && hd.ptrn + hd.max - hd.min + 3 < MAX_HUNK_SIZE
  }

  predicate Starts(ls: seq<string>, j: int, mark: char) {
    0 <= j < |ls| && ls[j] != "" && ls[j][0] == mark
  }

  /** A body line as an entry: the two mark characters are cut off. */
  function Entry(l: string, ch: char): Cell {
    if |l| < 2 then Cell(ch, "", 0) else Cell(ch, l[2..], |l| - 2)
  }

  /** The lines behind a header at line a carry the marks it calls for. */
  predicate BodyMarks(ls: seq<string>, a: nat, hd: Head)
    requires Roomy(hd)
  {
    && (forall j :: a + 1 <= j < a + 1 + hd.ptrn ==> Starts(ls, j, '<'))
    && (hd.kind == 'c' ==> Starts(ls, a + 1 + hd.ptrn, '-'))
    && (forall j :: a + AddsFrom(hd) <= j < a + LinesOf(hd) ==> Starts(ls, j, '>'))
  }

  /** Entry k of the hunk that the lines at a, with header hd, stand for; headers keep their old length. */
  function NormalCell(ls: seq<string>, a: nat, hd: Head, k: nat, len: nat): Cell
    requires Roomy(hd) && BodyMarks(ls, a, hd) && k < hd.ptrn + hd.max - hd.min + 3
  {
    if k == 0 then Cell('*', "*** " + Dec(hd.first) + "," + Dec(hd.first + hd.ptrn - 1) + "\n", len)
    else if k <= hd.ptrn then assert Starts(ls, a + k, '<'); Entry(ls[a + k], '-')
    else if k == hd.ptrn + 1 then Cell('=', "--- " + Dec(hd.min) + "," + Dec(hd.max) + "\n", len)
    else var j := a + AddsFrom(hd) + k - hd.ptrn - 2; assert Starts(ls, j, '>'); Entry(ls[j], '+')
  }

  function NormalHunk(ls: seq<string>, a: nat, hd: Head, len0: nat, len1: nat): HunkVal
    requires Roomy(hd) && BodyMarks(ls, a, hd)
  {
    var p, q := hd.ptrn, hd.max - hd.min + 1;
    HunkVal(hd.first, hd.min, NormalCell(ls, a, hd, 0, len0),
            seq(p, i requires 0 <= i < p => NormalCell(ls, a, hd, i + 1, 0)), [],
            NormalCell(ls, a, hd, p + 1, len1),
            seq(q, i requires 0 <= i < q => NormalCell(ls, a, hd, p + 2 + i, 0)))
  }

  lemma NormalHunkCells(ls: seq<string>, a: nat, hd: Head, len0: nat, len1: nat, k: nat, len: nat)
    requires Roomy(hd) && BodyMarks(ls, a, hd) && k < Size(NormalHunk(ls, a, hd, len0, len1))
    requires (k == 0 ==> len == len0) && (k == hd.ptrn + 1 ==> len == len1)
    ensures Size(NormalHunk(ls, a, hd, len0, len1)) == hd.ptrn + hd.max - hd.min + 3
    ensures CellAt(NormalHunk(ls, a, hd, len0, len1), k) == NormalCell(ls, a, hd, k, len)
  {
    hide Dec, Entry;
    var h, i := NormalHunk(ls, a, hd, len0, len1), k - hd.ptrn - 2;
    if i >= 0 {
      assert CellAt(h, k) == h.news[i] == NormalCell(ls, a, hd, hd.ptrn + 2 + i, 0);
      assert hd.ptrn + 2 + i == k;
    }
  }

  class HunkReader {
    const hunk: HunkBuffer
    const patch: seq<string>      // pfp, line by line
    var at: nat                   // ftell(pfp), in lines

    constructor (hunk: HunkBuffer, patch: seq<string>)
      ensures this.hunk == hunk && this.patch == patch && at == 0
    {
      this.hunk, this.patch, at := hunk, patch, 0;
    }

    /** pgets: the next line, or end of file. */
    method Pgets() returns (eof: bool, buf: string)
      requires at <= |patch|
      modifies `at
      ensures eof <==> old(at) == |patch|
      ensures if eof then at == old(at) else at == old(at) + 1 && buf == patch[old(at)]
    {
      eof := at == |patch|;
      buf := "";
      if !eof {
        buf := patch[at];
        at := at + 1;
      }
    }

    /** Moves over digits. */
    method SkipDigits(s: string, i: nat) returns (j: nat)
      requires i <= |s|
      ensures i <= j <= |s| && s[j..] == PastDigits(s[i..])
    {
      j := i;
      ghost var rest := s[i..];
      while j < |s| && IsDigit(s[j])
        invariant i <= j <= |s| && PastDigits(s[j..]) == PastDigits(s[i..])
      {
        PastOne(s[j..]);
        assert s[j..][1..] == s[j + 1..];
        j := j + 1;
      }
      assert Lead(s[j..]) == "";
    }

    /** The header line of a normal diff hunk. */
    method ParseHead(buf: string) returns (hd: Head)
      requires IsLine(buf)
      ensures hd == ReadHead(buf)
    {
      hide Atol, PastDigits;
      assert buf[0..] == buf;
      var first, ptrn := Atol(buf), 0;
      var s := SkipDigits(buf, 0);
      ghost var t := buf[s..];
      var comma := At(buf[s..], 0) == ',';
      if comma {
        s := s + 1;
        assert buf[s..] == Past(t);
        ptrn := Atol(buf[s..]) - first + 1;
        s := SkipDigits(buf, s);
      } else {
        ptrn := if At(buf[s..], 0) == 'a' then 0 else 1;
      }
      ghost var u := buf[s..];
      var kind := At(buf[s..], 0);
      if kind == 'a' {
        first := first + 1;
      }
      if s < |buf| {
        s := s + 1;
      }
      ghost var v := buf[s..];
      assert v == Past(u);
      var min := Atol(buf[s..]);
      s := SkipDigits(buf, s);
      ghost var w := buf[s..];
      var max := min;
      if At(buf[s..], 0) == ',' {
        s := s + 1;
        assert buf[s..] == Past(w);
        max := Atol(buf[s..]);
      }
      if kind == 'd' {
        min := min + 1;
      }
      hd := Head(first, ptrn, kind, min, max);
    }

    /** One body loop: lines up to entry last go into the buffer, as long as they carry the mark. */
    method ReadBody(from: nat, last: int, mark: char, ch: char) returns (ok: bool)
      requires hunk.cells.Length == MAX_HUNK_SIZE && last < MAX_HUNK_SIZE && from <= last + 1 && at <= |patch|
      requires AreLines(patch) && mark != '\n'
      modifies `at, hunk.cells
      ensures old(at) <= at <= |patch|
      ensures ok <==> forall j :: old(at) <= j < old(at) + last + 1 - from ==> Starts(patch, j, mark)
      ensures ok ==> at == old(at) + last + 1 - from
      ensures ok ==> forall k :: from <= k <= last ==> hunk.cells[k] == Entry(patch[old(at) + k - from], ch)
      ensures forall k :: 0 <= k < MAX_HUNK_SIZE && !(from <= k <= last) ==> hunk.cells[k] == old(hunk.cells[k])
    {
      var i := from;
      while i <= last
        invariant from <= i <= last + 1 && at == old(at) + i - from <= |patch|
        invariant forall j :: old(at) <= j < at ==> Starts(patch, j, mark)
        invariant forall k :: from <= k < i ==> hunk.cells[k] == Entry(patch[old(at) + k - from], ch)
        invariant forall k :: 0 <= k < MAX_HUNK_SIZE && !(from <= k <= last) ==> hunk.cells[k] == old(hunk.cells[k])
      {
        var eof, buf := Pgets();
        if eof || buf[0] != mark {
          assert !Starts(patch, old(at) + i - from, mark);
          return false;
        }
        hunk.cells[i] := Entry(buf, ch);
        i := i + 1;
      }
      ok := true;
    }

    /** another_hunk on a normal diff, before a reversal: header and body become a hunk without context. */
    method NormalHunkNext() returns (r: Parse, ghost h: HunkVal)
      requires hunk.cells.Length == MAX_HUNK_SIZE && AreLines(patch) && at <= |patch|
      modifies `at, hunk, hunk.cells
      ensures old(at) <= at <= |patch| && Parsed(patch, old(at), r, h)
      ensures r.Hunk? ==> hunk.Has(h) && at == old(at) + LinesOf(ReadHead(patch[old(at)]))
      ensures r.NoHunk? ==> at == old(at)
    {
      hide ReadHead, NormalCell, NormalHunk, hunk.Has, BodyMarks;
      hunk.end := -1;
      hunk.context := 0;
      ghost var a := at;
      h := HunkVal(0, 0, hunk.cells[0], [], [], hunk.cells[0], []);
      var eof, buf := Pgets();
      if eof {
        return NoHunk, h;
      }
      if !IsDigit(buf[0]) {
        at := at - 1;
        return NoHunk, h;
      }
      var hd := ParseHead(buf);
      if !Roomy(hd) {
        return TooBig, h;
      }
      hunk.first, hunk.ptrnLines, hunk.newfirst, hunk.replLines := hd.first, hd.ptrn, hd.min, hd.max - hd.min + 1;
      hunk.end := hd.ptrn + 1 + hd.max - hd.min + 1;
      var ok := ReadEntries(hd);
      if !ok {
        return Fatal, h;
      }
      r, h := Hunk, HasNormal(a, hd);
    }

    /** The buffer now holds the hunk the lines spell out. */
    ghost function HasNormal(a: nat, hd: Head): (h: HunkVal)
      reads hunk, hunk.cells
      requires hunk.cells.Length == MAX_HUNK_SIZE && Roomy(hd) && BodyMarks(patch, a, hd)
      requires hunk.first == hd.first && hunk.ptrnLines == hd.ptrn && hunk.newfirst == hd.min && hunk.replLines == hd.max - hd.min + 1
      requires hunk.end == hd.ptrn + 1 + hd.max - hd.min + 1
      requires forall k :: 0 <= k < hd.ptrn + hd.max - hd.min + 3 ==> hunk.cells[k] == NormalCell(patch, a, hd, k, hunk.cells[k].len)
      ensures hunk.Has(h) && h == NormalHunk(patch, a, hd, hunk.cells[0].len, hunk.cells[hd.ptrn + 1].len)
    {
      var l0, l1 := hunk.cells[0].len, hunk.cells[hd.ptrn + 1].len;
      var h := NormalHunk(patch, a, hd, l0, l1);
      assert forall k :: 0 <= k < Size(h) ==> hunk.cells[k] == CellAt(h, k) by {
        forall k | 0 <= k < Size(h) ensures hunk.cells[k] == CellAt(h, k) {
          NormalHunkCells(patch, a, hd, l0, l1, k, hunk.cells[k].len);
        }
      }
      h
    }

    /** The entries of a normal hunk, behind its header line. */
    method ReadEntries(hd: Head) returns (ok: bool)
      requires hunk.cells.Length == MAX_HUNK_SIZE && AreLines(patch) && 1 <= at <= |patch| && Roomy(hd)
      modifies `at, hunk.cells
      ensures old(at) <= at <= |patch|
      ensures ok <==> BodyMarks(patch, old(at) - 1, hd)
      ensures ok ==> at == old(at) - 1 + LinesOf(hd)
      ensures ok ==> forall k :: 0 <= k < hd.ptrn + hd.max - hd.min + 3 ==> hunk.cells[k] == NormalCell(patch, old(at) - 1, hd, k, hunk.cells[k].len)
    {
      hide Dec, Entry;
      hunk.cells[0] := Cell('*', "*** " + Dec(hd.first) + "," + Dec(hd.first + hd.ptrn - 1) + "\n", hunk.cells[0].len);
      ok := ReadBody(1, hd.ptrn, '<', '-');
      if !ok {
        return;
      }
      if hd.kind == 'c' {
        var eof, buf := Pgets();
        if eof || buf[0] != '-' {
          return false;
        }
      }
      hunk.cells[hd.ptrn + 1] := Cell('=', "--- " + Dec(hd.min) + "," + Dec(hd.max) + "\n", hunk.cells[hd.ptrn + 1].len);
      ok := ReadBody(hd.ptrn + 2, hd.ptrn + 1 + hd.max - hd.min + 1, '>', '+');
    }
  }

  /** What reading a hunk off the lines from a on comes to: no hunk if they do not start with a digit, a
      fatal exit exactly if the body does not follow the header, else the hunk they spell out. */
  ghost predicate Parsed(ls: seq<string>, a: nat, r: Parse, h: HunkVal)
    requires AreLines(ls) && a <= |ls|
  {
    if a == |ls| || !IsDigit(ls[a][0]) then r.NoHunk?
    else
      var hd := ReadHead(ls[a]);
      if !Roomy(hd) then r.TooBig?
      else if !BodyMarks(ls, a, hd) then r.Fatal?
      else r.Hunk? && exists len0: nat, len1: nat :: h == NormalHunk(ls, a, hd, len0, len1)
  }

  /** Where the added lines of a hunk start, behind a header at line a. */
  function BodyAdds(hd: Head, a: nat): int {
    a + 1 + hd.ptrn + if hd.kind == 'c' then 1 else 0
  }

  /** The same, line by line.  A line that starts with no digit is no hunk; counts can be too large; and a
      hunk is read exactly if the lines its header counts are there, each with its mark, else the program
      exits. */
  lemma ParsedExactly(ls: seq<string>, a: nat, r: Parse, h: HunkVal, hd: Head)
    requires AreLines(ls) && a <= |ls| && Parsed(ls, a, r, h) && (a < |ls| ==> hd == ReadHead(ls[a]))
    ensures r.NoHunk? <==> a == |ls| || !('0' <= ls[a][0] <= '9')
    ensures !r.NoHunk? ==> (r.TooBig? <==> hd.ptrn < 0 || hd.max < hd.min - 1 || hd.ptrn + hd.max - hd.min + 3 >= 500)
    ensures r.Hunk? ==> BodyAdds(hd, a) + hd.max - hd.min < |ls| && (forall j :: a + 1 <= j < a + 1 + hd.ptrn ==> ls[j][0] == '<')
    ensures r.Hunk? ==> (hd.kind == 'c' ==> ls[a + 1 + hd.ptrn][0] == '-') && (forall j :: BodyAdds(hd, a) <= j <= BodyAdds(hd, a) + hd.max - hd.min ==> ls[j][0] == '>')
    ensures r.Fatal? ==> BodyAdds(hd, a) + hd.max - hd.min < |ls| ==>
      || (exists j :: a + 1 <= j < a + 1 + hd.ptrn && ls[j][0] != '<')
      || (hd.kind == 'c' && ls[a + 1 + hd.ptrn][0] != '-')
      || (exists j :: BodyAdds(hd, a) <= j <= BodyAdds(hd, a) + hd.max - hd.min && ls[j][0] != '>')
  {
    hide ReadHead, NormalHunk;
    if r.Hunk? {
      forall j | a + 1 <= j < a + 1 + hd.ptrn ensures j < |ls| && ls[j][0] == '<' { assert Starts(ls, j, '<'); }
      forall j | BodyAdds(hd, a) <= j <= BodyAdds(hd, a) + hd.max - hd.min ensures j < |ls| && ls[j][0] == '>' { assert Starts(ls, j, '>'); }
      BodyFits(ls, a, hd);
    }
    if r.Fatal? && BodyAdds(hd, a) + hd.max - hd.min < |ls| {
      if j :| a + 1 <= j < a + 1 + hd.ptrn && !Starts(ls, j, '<') {
        assert ls[j][0] != '<';
      } else if j :| a + AddsFrom(hd) <= j < a + LinesOf(hd) && !Starts(ls, j, '>') {
        assert ls[j][0] != '>';
      } else {
        assert hd.kind == 'c' && !Starts(ls, a + 1 + hd.ptrn, '-');
      }
    }
  }

  lemma BodyFits(ls: seq<string>, a: nat, hd: Head)
    requires a < |ls| && Roomy(hd) && BodyMarks(ls, a, hd)
    ensures BodyAdds(hd, a) + hd.max - hd.min < |ls|
  {
    if hd.ptrn > 0 { assert Starts(ls, a + hd.ptrn, '<'); }
    if hd.max >= hd.min { assert Starts(ls, BodyAdds(hd, a) + hd.max - hd.min, '>'); }
  }

  /** The hunk read: the numbers of its header, and the lines behind it without their first two characters. */
  lemma HunkExactly(ls: seq<string>, a: nat, h: HunkVal, hd: Head, b: int)
    requires AreLines(ls) && a < |ls| && Parsed(ls, a, Hunk, h) && hd == ReadHead(ls[a]) && b == BodyAdds(hd, a)
    ensures h.first == hd.first && h.newfirst == hd.min && h.blank == [] && |h.olds| == hd.ptrn && |h.news| == hd.max - hd.min + 1
    ensures b + |h.news| <= |ls| && a < b && a + |h.olds| < b
    ensures forall j :: a + 1 <= j <= a + |h.olds| || b <= j < b + |h.news| ==> |ls[j]| >= 2
    ensures forall i :: 0 <= i < |h.olds| ==> h.olds[i].ch == '-' && h.olds[i].text == ls[a + 1 + i][2..]
    ensures forall i :: 0 <= i < |h.news| ==> h.news[i].ch == '+' && h.news[i].text == ls[b + i][2..]
  {
    hide ReadHead, Dec;
    BodyFits(ls, a, hd);
    forall j | a + 1 <= j <= a + |h.olds| || b <= j < b + |h.news| ensures |ls[j]| >= 2 {
      if j <= a + |h.olds| { assert Starts(ls, j, '<'); } else { assert Starts(ls, j, '>'); }
    }
    forall i | 0 <= i < |h.olds| ensures h.olds[i] == Cell('-', ls[a + 1 + i][2..], |ls[a + 1 + i]| - 2) {
      assert h.olds[i] == NormalCell(ls, a, hd, i + 1, 0);
    }
    forall i | 0 <= i < |h.news| ensures h.news[i] == Cell('+', ls[b + i][2..], |ls[b + i]| - 2) {
      assert h.news[i] == NormalCell(ls, a, hd, hd.ptrn + 2 + i, 0);
    }
  }

  // ---------------------------------------------------------------- reading what diff printed

  function TextCells(ls: seq<string>, ch: char): seq<Cell> {
    seq(|ls|, i requires 0 <= i < |ls| => Cell(ch, ls[i], |ls[i]|))
  }

  /** h is the hunk for a printed hunk d. */
  predicate Stands(h: HunkVal, d: DiffHunk)
    requires Proper(d)
  {
    && WellFormed(h) && h.first == EditOf(d).at + 1 && h.newfirst == d.newStart + (if d.kind.Delete? then 1 else 0) && h.blank == []
    && h.olds == TextCells(d.dels, '-') && h.news == TextCells(d.adds, '+')
  }

  predicate PrintedAt(ls: seq<string>, a: nat, d: DiffHunk) {
    a + |Print(d)| <= |ls| && forall i :: 0 <= i < |Print(d)| ==> ls[a + i] == Print(d)[i]
  }

  lemma PrintedMarks(ls: seq<string>, a: nat, d: DiffHunk)
    requires Proper(d) && PrintedAt(ls, a, d) && Roomy(ReadHead(ls[a]))
    ensures LinesOf(ReadHead(ls[a])) == |Print(d)| && BodyMarks(ls, a, ReadHead(ls[a]))
  {
    hide Header, ReadHead, Num;
    ReadHeader(d);
    var p, hd := Print(d), ReadHead(Header(d));
    assert ls[a + 0] == p[0];
    forall j | a + 1 <= j < a + 1 + hd.ptrn ensures Starts(ls, j, '<') { assert ls[a + (j - a)] == p[j - a] == "< " + d.dels[j - a - 1]; }
    if d.kind.Change? { assert ls[a + (1 + hd.ptrn)] == p[1 + hd.ptrn] == "---\n"; }
    forall j | a + AddsFrom(hd) <= j < a + LinesOf(hd) ensures Starts(ls, j, '>') {
      assert ls[a + (j - a)] == p[j - a] == "> " + d.adds[j - a - AddsFrom(hd)];
    }
  }

  lemma PrintedOld(ls: seq<string>, a: nat, d: DiffHunk, len: nat, i: nat)
    requires Proper(d) && PrintedAt(ls, a, d) && Roomy(ReadHead(ls[a])) && BodyMarks(ls, a, ReadHead(ls[a])) && i < |d.dels|
    ensures ReadHead(ls[a]).ptrn == |d.dels| && NormalCell(ls, a, ReadHead(ls[a]), i + 1, len) == Cell('-', d.dels[i], |d.dels[i]|)
  {
    hide Header, ReadHead, Num, Dec, Entry, BodyMarks;
    ReadHeader(d);
    assert ls[a + 0] == Print(d)[0];
    assert ls[a + (i + 1)] == Print(d)[i + 1] == "< " + d.dels[i];
    CutMark("< ", d.dels[i], '-');
  }

  lemma PrintedNew(ls: seq<string>, a: nat, d: DiffHunk, len: nat, i: nat)
    requires Proper(d) && PrintedAt(ls, a, d) && Roomy(ReadHead(ls[a])) && BodyMarks(ls, a, ReadHead(ls[a])) && i < |d.adds|
    ensures ReadHead(ls[a]).max - ReadHead(ls[a]).min + 1 == |d.adds|
    ensures NormalCell(ls, a, ReadHead(ls[a]), ReadHead(ls[a]).ptrn + 2 + i, len) == Cell('+', d.adds[i], |d.adds[i]|)
  {
    hide Header, ReadHead, Num, Dec, Entry, BodyMarks;
    ReadHeader(d);
    assert ls[a + 0] == Print(d)[0];
    var j := AddsFrom(ReadHead(ls[a])) + i;
    assert ls[a + j] == Print(d)[j] == "> " + d.adds[i];
    CutMark("> ", d.adds[i], '+');
  }

  /** Reading a printed hunk gives the hunk it stands for. */
  lemma PrintedParses(ls: seq<string>, a: nat, d: DiffHunk, r: Parse, h: HunkVal)
    requires AreLines(ls) && Proper(d) && PrintedAt(ls, a, d) && |d.dels| + |d.adds| + 2 < MAX_HUNK_SIZE && Parsed(ls, a, r, h)
    ensures r.Hunk? && LinesOf(ReadHead(ls[a])) == |Print(d)| && Stands(h, d)
  {
    hide Header, ReadHead, Num, Dec, Atol, IsLine, Entry, NormalCell, Print, BodyMarks;
    ReadHeader(d);
    PrintIsLines(d);
    assert ls[a + 0] == Print(d)[0] == Header(d);
    PrintedMarks(ls, a, d);
    var hd := ReadHead(ls[a]);
    var len0: nat, len1: nat :| h == NormalHunk(ls, a, hd, len0, len1);
    forall i | 0 <= i < |d.dels| ensures h.olds[i] == Cell('-', d.dels[i], |d.dels[i]|) { PrintedOld(ls, a, d, 0, i); }
    forall i | 0 <= i < |d.adds| ensures h.news[i] == Cell('+', d.adds[i], |d.adds[i]|) { PrintedNew(ls, a, d, 0, i); }
    assert h.olds == TextCells(d.dels, '-') && h.news == TextCells(d.adds, '+');
    HeaderMarks(ls, a, hd, len0, len1);
  }

  lemma HeaderMarks(ls: seq<string>, a: nat, hd: Head, len0: nat, len1: nat)
    requires Roomy(hd) && BodyMarks(ls, a, hd)
    ensures NormalHunk(ls, a, hd, len0, len1).head.ch == '*' && NormalHunk(ls, a, hd, len0, len1).mid.ch == '='
  {
  }

  lemma CutMark(mark: string, l: string, ch: char)
    requires |mark| == 2
    ensures Entry(mark + l, ch) == Cell(ch, l, |l|)
  {
    assert (mark + l)[2..] == l;
  }

  lemma PastOne(s: string)
    requires s != "" && IsDigit(s[0])
    ensures PastDigits(s) == PastDigits(s[1..])
  {
  }
}
