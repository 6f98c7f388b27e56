/**
 The default output format of diff: hunks, how they are printed, and the edits they stand for.
 */
module NormalDiff {
  import opened Text
  import opened Decimal
  import opened Edits

  datatype Kind = Append | Delete | Change

  /** A hunk of a diff: old and new line ranges, deleted and added lines. */
  datatype DiffHunk = DiffHunk(kind: Kind, oldStart: nat, oldEnd: nat, newStart: nat, newEnd: nat, dels: seq<string>, adds: seq<string>)

  function Letter(k: Kind): char {
    match k case Append => 'a' case Delete => 'd' case Change => 'c'
  }

  /** Line counts agree with the ranges; an append names the line before it, a delete the new line before it. */
  predicate Proper(h: DiffHunk) {
    && AreLines(h.dels) && AreLines(h.adds)
    && (if h.kind.Append? then h.dels == [] && h.oldEnd == h.oldStart
        else h.dels != [] && h.oldStart >= 1 && h.oldEnd == h.oldStart + |h.dels| - 1)
    && (if h.kind.Delete? then h.adds == [] && h.newEnd == h.newStart
        else h.adds != [] && h.newStart >= 1 && h.newEnd == h.newStart + |h.adds| - 1)
  }

  predicate AllProper(d: seq<DiffHunk>) {
    forall i :: 0 <= i < |d| ==> Proper(d[i])
  }

  function Range(a: nat, b: nat): string {
    if a == b then Num(a) else Num(a) + "," + Num(b)
  }

  function Header(h: DiffHunk): string {
    Range(h.oldStart, h.oldEnd) + [Letter(h.kind)] + Range(h.newStart, h.newEnd) + "\n"
  }

  function Marked(mark: string, ls: seq<string>): seq<string> {
    seq(|ls|, i requires 0 <= i < |ls| => mark + ls[i])
  }

  /** The lines of a printed hunk. */
  function Print(h: DiffHunk): (r: seq<string>)
    ensures r != [] && r[0] == Header(h)
  {
    [Header(h)] + Marked("< ", h.dels) + (if h.kind.Change? then ["---\n"] else []) + Marked("> ", h.adds)
  }

  function PrintAll(d: seq<DiffHunk>): seq<string> {
    if d == [] then [] else Print(d[0]) + PrintAll(d[1..])
  }

  // ---------------------------------------------------------------- what a diff means

  function EditOf(h: DiffHunk): Edit<string>
    requires Proper(h)
  {
    Edit(if h.kind.Append? then h.oldStart else h.oldStart - 1, |h.dels|, h.adds)
  }

  function EditsOf(d: seq<DiffHunk>): (es: seq<Edit<string>>)
    requires AllProper(d)
    ensures |es| == |d|
  {
    if d == [] then [] else EditsOf(d[..|d| - 1]) + [EditOf(d[|d| - 1])]
  }

  /** Every hunk starts behind the end of the one before. */
  predicate Ordered(d: seq<DiffHunk>) {
    forall i :: 0 <= i < |d| - 1 ==> d[i].oldEnd < d[i + 1].oldStart
  }

  /** The lines to delete are the lines of the file. */
  predicate Fits(h: DiffHunk, lines: seq<string>)
    requires Proper(h)
  {
    var e := EditOf(h);
    e.at + e.drop <= |lines| && lines[e.at..e.at + e.drop] == h.dels
  }

  predicate AllFit(d: seq<DiffHunk>, lines: seq<string>)
    requires AllProper(d)
  {
    forall i :: 0 <= i < |d| ==> Fits(d[i], lines)
  }

  /** The edits of an ordered diff that fits are in order. */
  lemma {:induction false} OrderedInOrder(d: seq<DiffHunk>, lines: seq<string>)
    requires AllProper(d) && Ordered(d) && AllFit(d, lines)
    ensures InOrder(EditsOf(d), |lines|)
    ensures EditEnd(EditsOf(d)) == if d == [] then 0 else d[|d| - 1].oldEnd
  {
    if d != [] {
      var i, h := d[..|d| - 1], d[|d| - 1];
      OrderedInOrder(i, lines);
      Snoc(EditsOf(i), EditOf(h));
      if i != [] { assert d[|d| - 2].oldEnd < d[|d| - 2 + 1].oldStart; }
    }
  }

  lemma PrintFrom(d: seq<DiffHunk>, k: nat)
    requires k < |d|
    ensures PrintAll(d[k..]) == Print(d[k]) + PrintAll(d[k + 1..])
  {
    assert d[k..][1..] == d[k + 1..];
  }

  lemma HeaderIsLine(h: DiffHunk)
    ensures IsLine(Header(h)) && Header(h) != "" && IsDigit(Header(h)[0])
  {
    hide Range;
    var a, b := Range(h.oldStart, h.oldEnd), Range(h.newStart, h.newEnd);
    RangeChars(h.oldStart, h.oldEnd);
    RangeChars(h.newStart, h.newEnd);
    assert Header(h) == a + [Letter(h.kind)] + b + "\n" && |Header(h)| == |a| + 1 + |b| + 1;
    assert Header(h)[0] == a[0];
  }

  lemma MarkedIsLines(mark: string, ls: seq<string>)
    requires AreLines(ls) && (mark == "< " || mark == "> ")
    ensures AreLines(Marked(mark, ls))
  {
    forall i | 0 <= i < |ls| ensures IsLine(mark + ls[i]) { assert IsLine(ls[i]); }
  }

  lemma DashesIsLine()
    ensures IsLine("---\n")
  {
  }

  /** A header line is a line, and so are all the lines printed. */
  lemma PrintIsLines(h: DiffHunk)
    requires Proper(h)
    ensures AreLines(Print(h)) && Header(h) != "" && IsDigit(Header(h)[0])
  {
    hide Header, IsLine;
    HeaderIsLine(h);
    MarkedIsLines("< ", h.dels);
    MarkedIsLines("> ", h.adds);
    assert IsLine("---\n") by { DashesIsLine(); }
  }

  lemma RangeChars(a: nat, b: nat)
    ensures Range(a, b) != "" && IsDigit(Range(a, b)[0])
    ensures forall i :: 0 <= i < |Range(a, b)| ==> Range(a, b)[i] != '\n' && Range(a, b)[i] != '\0'
  {
    ValueOfNum(a);
    ValueOfNum(b);
  }

  lemma {:induction false} PrintAllIsLines(d: seq<DiffHunk>)
    requires AllProper(d)
    ensures AreLines(PrintAll(d))
  {
    if d != [] {
      PrintIsLines(d[0]);
      PrintAllIsLines(d[1..]);
    }
  }
}
