/**
 What fliki's patch writes: lines copied and added, and what comes of an append behind the end of the
 file.
 */
module FlikiOutput {
  import opened Text
  import opened Edits
  import opened NormalDiff
  import opened FlikiReader

  function OutChar(c: int): char {
    if 0 <= c < 128 then c as char else (c % 256) as char
  }

  /** The first n lines, or all of them. */
  function FirstOf(ls: seq<string>, n: int): (r: seq<string>)
    requires n >= 0
  {
    if n < |ls| then ls[..n] else ls
  }

  /** What deleteLines answers to deletions in front of lines: -1 if those that count differ, else -3 if
      there are more of them than the header says, -4 if fewer. */
  function DeleteCode(h: Hunk, dels: seq<string>, lines: seq<string>): int
    requires h.oldStart <= h.oldEnd
  {
    var n := h.oldEnd - h.oldStart + 1;
    if !(FirstOf(dels, n) <= lines) then -1 else if |dels| > n then -3 else if |dels| < n then -4 else n
  }

  function AppendCode(h: Hunk, adds: seq<string>): int
    requires h.newStart <= h.newEnd
  {
    var n := h.newEnd - h.newStart + 1;
    if |adds| > n then -2 else if |adds| < n then -3 else n
  }

  lemma FirstOfFlat(ls: seq<string>, n: int)
    requires n >= 0 && AreLines(ls)
    ensures var f := FirstOf(ls, n);
      AreLines(f) && |f| <= n && Flat(f) <= Flat(ls) && (|Flat(f)| == |Flat(ls)| <==> |ls| <= n) && (|ls| <= n ==> f == ls) && (|ls| > n ==> |f| == n)
  {
    if n < |ls| {
      assert ls == ls[..n] + ls[n..];
      FlatAppend(ls[..n], ls[n..]);
      assert Flat(ls[n..]) == ls[n] + Flat(ls[n + 1..]);
    }
  }

  lemma {:induction false} FlatAscii(ls: seq<string>)
    requires AsciiLines(ls)
    ensures Ascii(Flat(ls)) && AreLines(ls)
  {
    if ls != [] {
      FlatAscii(ls[1..]);
      assert Ascii(ls[0]);
    }
  }

  lemma SpliceIs(lines: seq<string>, es: seq<Edit<string>>)
    requires EditEnd(es) <= |lines|
    ensures Splice(lines, es) == SpliceUpTo(lines, es) + lines[EditEnd(es)..]
  {
  }

  lemma EditParts(c: DiffHunk)
    requires Proper(c)
    ensures EditOf(c).drop == |c.dels| && EditOf(c).put == c.adds
  {
  }

  /** The deletions fit exactly if the file goes on with them. */
  lemma FitsPrefix(c: DiffHunk, lines: seq<string>)
    requires Proper(c) && EditOf(c).at <= |lines|
    ensures Fits(c, lines) <==> c.dels <= lines[EditOf(c).at..]
  {
    var at, n := EditOf(c).at, |c.dels|;
    if at + n <= |lines| { assert lines[at..][..n] == lines[at..at + n]; }
  }

  // ---------------------------------------------------------------- the output

  function Cap(e: nat, n: nat): nat {
    if e <= n then e else n
  }

  /** How many lines are asked for behind the end of a file of n lines, on the way from e to at. */
  function Overrun(n: nat, e: nat, at: nat): nat {
    if at <= n || at <= e then 0 else at - if e > n then e else n
  }

  /** The end-of-file value, k times. */
  function Filler(k: nat): string {
    seq(k, i => OutChar(EOF))
  }

  /** What copying from line e to line at writes: the lines, and the end-of-file value for each that the
      file does not have. */
  function Copied(lines: seq<string>, e: nat, at: nat): string
    requires e <= at
  {
    Flat(lines[Cap(e, |lines|)..Cap(at, |lines|)]) + Filler(Overrun(|lines|, e, at))
  }

  /** The last character behind that. */
  function CharBehind(lines: seq<string>, e: nat, at: nat): int {
    if Overrun(|lines|, e, at) > 0 then EOF else NL
  }

  lemma CopiedNone(o: string, lines: seq<string>, e: nat)
    ensures o == o + Copied(lines, e, e) && CharBehind(lines, e, e) == NL
  {
    var n := Cap(e, |lines|);
    assert lines[n..n] == [];
    assert Filler(0) == "" && "" + "" == "" && o + "" == o;
  }

  lemma CopiedLine(o: string, lines: seq<string>, e: nat, c: nat)
    requires e <= c < |lines|
    ensures o + Copied(lines, e, c + 1) == o + Copied(lines, e, c) + lines[c] && CharBehind(lines, e, c + 1) == NL
  {
    hide Flat, IsLine;
    assert lines[e..c + 1] == lines[e..c] + [lines[c]];
    FlatAppend(lines[e..c], [lines[c]]);
    FlatOne(lines[c]);
    assert Filler(0) == "";
    assert Copied(lines, e, c) == Flat(lines[e..c]) && Copied(lines, e, c + 1) == Flat(lines[e..c]) + lines[c];
  }

  lemma CopiedEnd(o: string, lines: seq<string>, e: nat, c: nat)
    requires e <= c && |lines| <= c
    ensures o + Copied(lines, e, c + 1) == o + Copied(lines, e, c) + [OutChar(EOF)] && CharBehind(lines, e, c + 1) == EOF
  {
    hide Flat, OutChar;
    var k := Overrun(|lines|, e, c);
    assert Filler(k + 1) == Filler(k) + [OutChar(EOF)];
  }

  lemma CopiedNext(o: string, lines: seq<string>, e: nat, c: nat)
    requires e <= c
    ensures o + Copied(lines, e, c + 1) == o + Copied(lines, e, c) + if c < |lines| then lines[c] else [OutChar(EOF)]
    ensures CharBehind(lines, e, c + 1) == if c < |lines| then NL else EOF
  {
    hide Copied, CharBehind, OutChar;
    if c < |lines| { CopiedLine(o, lines, e, c); } else { CopiedEnd(o, lines, e, c); }
  }

  /** The text of a section: with the first mark in it when the copying has run past the end. */
  function Shown(mark: char, over: bool, ls: seq<string>): seq<string> {
    if over && ls != [] then [[mark, ' '] + ls[0]] + ls[1..] else ls
  }

  lemma ShownLength(mark: char, over: bool, ls: seq<string>)
    ensures |Shown(mark, over, ls)| == |ls|
  {
  }

  lemma ShownNone(mark: char, over: bool, ls: seq<string>)
    ensures !over ==> Shown(mark, over, ls) == ls
    ensures |Shown(mark, over, ls)| == |ls|
  {
  }

  lemma MarkedLine(mark: char, l: string)
    requires IsLine(l) && Ascii(l) && (mark == '<' || mark == '>')
    ensures IsLine([mark, ' '] + l) && Ascii([mark, ' '] + l) && LineRest([mark, ' '] + l) && [mark, ' '] + l != ""
  {
  }

  lemma ShownLines(mark: char, ls: seq<string>)
    requires AsciiLines(ls) && (mark == '<' || mark == '>')
    ensures AreLines(Shown(mark, true, ls)) && Ascii(Flat(Shown(mark, true, ls)))
  {
    var t := Shown(mark, true, ls);
    forall i | 0 <= i < |t| ensures IsLine(t[i]) && Ascii(t[i]) {
      if i == 0 { MarkedLine(mark, ls[0]); } else { assert t[i] == ls[i]; }
    }
    FlatAscii(t);
  }

  lemma JoinMark(m: string, l: string, f: string, rest: string)
    ensures m + (l + (f + rest)) == (m + l) + f + rest
  {
  }

  /** The number of lines of the file in front of a hunk. */
  function Place(h: DiffHunk): nat {
    if h.kind.Append? || h.oldStart == 0 then h.oldStart else h.oldStart - 1
  }

  /** Where the last hunk ends. */
  function EndOf(d: seq<DiffHunk>): nat {
    if d == [] then 0 else d[|d| - 1].oldEnd
  }

  /** What patch lets pass: deletions must be the lines of the file, additions may go anywhere. */
  predicate Passes(h: DiffHunk, lines: seq<string>)
    requires Proper(h)
  {
    h.kind.Append? || Fits(h, lines)
  }

  predicate AllPass(d: seq<DiffHunk>, lines: seq<string>)
    requires AllProper(d)
  {
    forall i :: 0 <= i < |d| ==> Passes(d[i], lines)
  }

  /** Which hunks pass: each starts behind the end of the one before, and what it deletes are the lines of
      the file with the numbers in its header. */
  lemma PassExactly(d: seq<DiffHunk>, lines: seq<string>)
    requires AllProper(d)
    ensures Ordered(d) && AllPass(d, lines) <==>
      && (forall i :: 0 <= i < |d| - 1 ==> d[i].oldEnd < d[i + 1].oldStart)
      && (forall i :: 0 <= i < |d| && !d[i].kind.Append? ==> d[i].oldEnd <= |lines| && lines[d[i].oldStart - 1..d[i].oldEnd] == d[i].dels)
  {
    forall i | 0 <= i < |d|
      ensures Passes(d[i], lines) <==> d[i].kind.Append? || (d[i].oldEnd <= |lines| && lines[d[i].oldStart - 1..d[i].oldEnd] == d[i].dels)
    {
      assert Proper(d[i]);
    }
  }

  /** What patch writes for a hunk when the input has been read up to line e. */
  function WrittenFor(h: DiffHunk, lines: seq<string>, e: nat): string {
    if e > Place(h) then ""
    else Copied(lines, e, Place(h)) + Flat(Shown('>', Overrun(|lines|, e, Place(h)) > 0, h.adds))
  }

  function Upto(d: seq<DiffHunk>, lines: seq<string>): string {
    if d == [] then "" else Upto(d[..|d| - 1], lines) + WrittenFor(d[|d| - 1], lines, EndOf(d[..|d| - 1]))
  }

  /** What patch writes when it answers 0. */
  function Output(d: seq<DiffHunk>, lines: seq<string>): string {
    Upto(d, lines) + Flat(lines[Cap(EndOf(d), |lines|)..])
  }

  lemma PlaceIs(h: DiffHunk)
    requires Proper(h)
    ensures Place(h) == EditOf(h).at && HunkOf(h).oldStart == Place(h) + (if h.kind.Append? then 0 else 1) && Place(h) + |h.dels| == h.oldEnd
  {
  }

  lemma HasLines(h: DiffHunk)
    requires Proper(h)
    ensures (if h.kind.Append? then h.adds != [] else h.dels != []) && AreLines(h.dels) && AreLines(h.adds)
  {
  }

  lemma DeleteFits(h: Hunk, dels: seq<string>, lines: seq<string>, e: nat, at: nat)
    requires h.oldStart <= h.oldEnd && |dels| == h.oldEnd - h.oldStart + 1 && e <= at
    ensures DeleteCode(h, Shown('<', Overrun(|lines|, e, at) > 0, dels), lines[Cap(at, |lines|)..]) ==
      if at <= |lines| && dels <= lines[at..] then |dels| else -1
  {
    if at > |lines| { assert lines[|lines|..] == []; }
  }

  lemma FilledDelete(o: string, c: DiffHunk, lines: seq<string>, e: nat)
    requires Proper(c) && c.kind.Delete? && e <= Place(c)
    ensures o + Copied(lines, e, Place(c)) == o + WrittenFor(c, lines, e)
  {
    assert Copied(lines, e, Place(c)) + "" == Copied(lines, e, Place(c));
  }

  lemma FilledAppend(o: string, c: DiffHunk, lines: seq<string>, e: nat)
    requires Proper(c) && c.kind.Append? && e <= Place(c)
    ensures var t := Shown('>', Overrun(|lines|, e, Place(c)) > 0, c.adds); o + Copied(lines, e, Place(c)) + Flat(FirstOf(t, c.newEnd - c.newStart + 1)) == o + WrittenFor(c, lines, e)
  {
    ShownLength('>', Overrun(|lines|, e, Place(c)) > 0, c.adds);
  }

  lemma FilledChange(o: string, c: DiffHunk, lines: seq<string>, e: nat)
    requires Proper(c) && c.kind.Change? && e <= Place(c) <= |lines|
    ensures o + Copied(lines, e, Place(c)) + Flat(FirstOf(Shown('>', false, c.adds), c.newEnd - c.newStart + 1)) == o + WrittenFor(c, lines, e)
  {
  }

  lemma PassPrefix(c: DiffHunk, lines: seq<string>)
    requires Proper(c)
    ensures !c.kind.Append? ==> (Passes(c, lines) <==> Place(c) <= |lines| && c.dels <= lines[Place(c)..])
    ensures c.kind.Append? ==> Passes(c, lines)
  {
    PlaceIs(c);
    if !c.kind.Append? && Place(c) <= |lines| { FitsPrefix(c, lines); }
  }

  /** If every hunk fits, the output is the edited file. */
  lemma OutputEdited(d: seq<DiffHunk>, lines: seq<string>)
    requires AllProper(d) && Ordered(d)
    ensures AllFit(d, lines) ==> Output(d, lines) == Flat(Splice(lines, EditsOf(d)))
  {
    if AllFit(d, lines) {
      hide Upto, SpliceUpTo, Flat, InOrder, Fits, Proper, EditOf, EditsOf, Ordered;
      OrderedInOrder(d, lines);
      UptoSpliced(d, lines);
      EndWithin(d, lines);
      FlatAppend(SpliceUpTo(lines, EditsOf(d)), lines[EndOf(d)..]);
      SpliceIs(lines, EditsOf(d));
    }
  }

  lemma EndWithin(d: seq<DiffHunk>, lines: seq<string>)
    requires AllProper(d) && Ordered(d) && AllFit(d, lines)
    ensures EditEnd(EditsOf(d)) == EndOf(d) <= |lines|
  {
    OrderedInOrder(d, lines);
  }

  lemma {:induction false} UptoSpliced(d: seq<DiffHunk>, lines: seq<string>)
    requires AllProper(d) && Ordered(d) && AllFit(d, lines)
    ensures Upto(d, lines) == Flat(SpliceUpTo(lines, EditsOf(d)))
  {
    if d != [] {
      hide SpliceUpTo, Flat, InOrder, WrittenFor, Proper, EditOf, Fits;
      var i, h := d[..|d| - 1], d[|d| - 1];
      UptoSpliced(i, lines);
      OrderedInOrder(i, lines);
      EndWithin(i, lines);
      LastBehind(d);
      FitsPlace(h, lines);
      PlaceIs(h);
      SpliceMore(lines, EditsOf(i), EditOf(h));
      WrittenSpliced(h, lines, EndOf(i));
      var u, k, put := SpliceUpTo(lines, EditsOf(i)), lines[EndOf(i)..Place(h)], h.adds;
      FlatAppend(u, k);
      FlatAppend(u + k, put);
      EditParts(h);
      JoinText(Flat(u), Flat(k), Flat(put));
    } else {
      assert Flat([]) == "";
    }
  }

  lemma JoinText(a: string, b: string, c: string)
    ensures a + (b + c) == a + b + c
  {
  }

  lemma LastBehind(d: seq<DiffHunk>)
    requires d != [] && AllProper(d) && Ordered(d)
    ensures EndOf(d[..|d| - 1]) <= Place(d[|d| - 1]) && Ordered(d[..|d| - 1])
    ensures d[|d| - 1].kind.Append? && |d| > 1 ==> EndOf(d[..|d| - 1]) < Place(d[|d| - 1])
  {
    var n := |d| - 1;
    assert Proper(d[n]);
    if n > 0 { assert d[n - 1].oldEnd < d[n - 1 + 1].oldStart && d[..n][n - 1] == d[n - 1]; }
    forall j | 0 <= j < n - 1 ensures d[..n][j].oldEnd < d[..n][j + 1].oldStart { assert d[j].oldEnd < d[j + 1].oldStart; }
  }

  lemma FitsPlace(h: DiffHunk, lines: seq<string>)
    requires Proper(h) && Fits(h, lines)
    ensures Place(h) <= |lines|
  {
    PlaceIs(h);
  }

  lemma WrittenSpliced(h: DiffHunk, lines: seq<string>, e: nat)
    requires e <= Place(h) <= |lines|
    ensures WrittenFor(h, lines, e) == Flat(lines[e..Place(h)]) + Flat(h.adds)
  {
    assert Filler(0) == "";
    assert Flat(lines[e..Place(h)]) + "" == Flat(lines[e..Place(h)]);
  }

  lemma ForeignText(a: string, b: string)
    requires OutChar(EOF) in a
    ensures !Ascii(a + b)
  {
    var i :| 0 <= i < |a| && a[i] == OutChar(EOF);
    assert (a + b)[i] == OutChar(EOF);
  }

  /** If all hunks pass but one does not fit, it is an append behind the end of the file, and the output is
      not even text. */
  lemma OutputForeign(d: seq<DiffHunk>, lines: seq<string>)
    requires AllProper(d) && Ordered(d) && AllPass(d, lines)
    ensures !AllFit(d, lines) ==> !Ascii(Output(d, lines))
  {
    hide Upto, Flat, Proper, AllFit, AllPass, Ordered, OutChar, Ascii;
    if !AllFit(d, lines) {
      UptoForeign(d, lines);
      ForeignText(Upto(d, lines), Flat(lines[Cap(EndOf(d), |lines|)..]));
    }
  }

  lemma {:induction false} UptoForeign(d: seq<DiffHunk>, lines: seq<string>)
    requires AllProper(d) && Ordered(d) && AllPass(d, lines) && !AllFit(d, lines)
    ensures OutChar(EOF) in Upto(d, lines)
  {
    hide Flat, Proper, Fits, OutChar;
    var c, h := d[..|d| - 1], d[|d| - 1];
    LastBehind(d);
    LastFits(d, lines);
    if AllFit(c, lines) {
      assert Passes(h, lines);
      AppendBeyond(h, lines);
      FirstHunk(d);
      var k := Overrun(|lines|, EndOf(c), Place(h));
      assert k > 0 && Filler(k)[0] == OutChar(EOF);
      assert OutChar(EOF) in Copied(lines, EndOf(c), Place(h));
    } else {
      assert forall j :: 0 <= j < |c| ==> d[j] == c[j];
      UptoForeign(c, lines);
    }
  }

  lemma LastFits(d: seq<DiffHunk>, lines: seq<string>)
    requires d != [] && AllProper(d)
    ensures AllProper(d[..|d| - 1]) && (AllFit(d, lines) <==> AllFit(d[..|d| - 1], lines) && Fits(d[|d| - 1], lines))
  {
    var c := d[..|d| - 1];
    assert d == c + [d[|d| - 1]];
  }

  lemma AppendBeyond(h: DiffHunk, lines: seq<string>)
    requires Proper(h) && Passes(h, lines) && !Fits(h, lines)
    ensures h.kind.Append? && Place(h) > |lines|
  {
    var a := Cap(Place(h), |lines|);
    assert lines[a..a + 0] == [];
  }

  lemma FirstHunk(d: seq<DiffHunk>)
    requires d != []
    ensures |d| == 1 ==> EndOf(d[..|d| - 1]) == 0
  {
  }
}
