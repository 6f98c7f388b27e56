/**
 The reverse of a diff: old and new change places in every hunk.
 */
module UndoDiff {
  import opened Edits
  import opened NormalDiff

  function Rev(h: DiffHunk): DiffHunk {
    DiffHunk(match h.kind case Append => Delete case Delete => Append case Change => Change,
             h.newStart, h.newEnd, h.oldStart, h.oldEnd, h.adds, h.dels)
  }

  function RevAll(d: seq<DiffHunk>): seq<DiffHunk> {
    seq(|d|, i requires 0 <= i < |d| => Rev(d[i]))
  }

  /** The new line numbers are those of the edited file. */
  predicate NumberedAt(d: seq<DiffHunk>, i: nat, lines: seq<string>)
    requires AllProper(d) && i < |d|
  {
    var before := d[..i];
    EditOf(Rev(d[i])).at == |SpliceUpTo(lines, EditsOf(before)) + Cut(lines, EditEnd(EditsOf(before)), EditOf(d[i]).at)|
  }

  predicate Numbered(d: seq<DiffHunk>, lines: seq<string>)
    requires AllProper(d)
  {
    forall i :: 0 <= i < |d| ==> NumberedAt(d, i, lines)
  }

  lemma RevProper(d: seq<DiffHunk>)
    requires AllProper(d)
    ensures AllProper(RevAll(d)) && |RevAll(d)| == |d|
  {
    forall i | 0 <= i < |d| ensures Proper(RevAll(d)[i]) { assert Proper(d[i]); }
  }

  lemma EditsSnoc(d: seq<DiffHunk>, i: nat)
    requires AllProper(d) && i < |d|
    ensures AllProper(d[..i]) && AllProper(d[..i + 1]) && EditsOf(d[..i + 1]) == EditsOf(d[..i]) + [EditOf(d[i])]
  {
    hide Proper, EditOf;
    var g := d[..i + 1];
    assert g[..i] == d[..i] && g[i] == d[i];
  }

  lemma UndoSnoc(lines: seq<string>, es: seq<Edit<string>>, e: Edit<string>)
    ensures Undo(lines, es + [e]) ==
            Undo(lines, es) + [Edit(|SpliceUpTo(lines, es) + Cut(lines, EditEnd(es), e.at)|, |e.put|, Cut(lines, e.at, e.at + e.drop))]
  {
    hide SpliceUpTo, EditEnd, Cut, Init, Last;
    var g := es + [e];
    Snoc(es, e);
    assert g != [] && Init(g) == es && Last(g) == e;
  }

  /** The reverse of a numbered hunk that fits is the edit that undoes it. */
  lemma RevEdit(d: seq<DiffHunk>, lines: seq<string>, i: nat)
    requires AllProper(d) && i < |d| && Fits(d[i], lines) && NumberedAt(d, i, lines) && AllProper(d[..i]) && Proper(Rev(d[i]))
    ensures var es, e := EditsOf(d[..i]), EditOf(d[i]);
      EditOf(Rev(d[i])) == Edit(|SpliceUpTo(lines, es) + Cut(lines, EditEnd(es), e.at)|, |e.put|, Cut(lines, e.at, e.at + e.drop))
  {
    hide SpliceUpTo, EditEnd, EditsOf;
    RevParts(d[i]);
  }

  /** Reading a numbered diff backwards gives the edits that undo its edits. */
  lemma {:induction false} RevUndoes(d: seq<DiffHunk>, lines: seq<string>, i: nat)
    requires AllProper(d) && AllFit(d, lines) && Numbered(d, lines) && i <= |d|
    ensures AllProper(d[..i]) && AllProper(RevAll(d)[..i]) && EditsOf(RevAll(d)[..i]) == Undo(lines, EditsOf(d[..i]))
  {
    RevProper(d);
    if i > 0 {
      hide SpliceUpTo, EditEnd, Proper, EditsOf, Undo, EditOf, NumberedAt, Fits;
      RevUndoes(d, lines, i - 1);
      EditsSnoc(d, i - 1);
      EditsSnoc(RevAll(d), i - 1);
      UndoSnoc(lines, EditsOf(d[..i - 1]), EditOf(d[i - 1]));
      assert RevAll(d)[i - 1] == Rev(d[i - 1]);
      RevEdit(d, lines, i - 1);
    }
  }

  lemma RevParts(h: DiffHunk)
    requires Proper(h)
    ensures Proper(Rev(h)) && EditOf(Rev(h)).drop == |EditOf(h).put| && EditOf(Rev(h)).put == h.dels && EditOf(h).drop == |h.dels| && EditOf(h).put == h.adds
  {
  }

  /** The reverse diff fits the edited file, and takes it back. */
  lemma RevFits(d: seq<DiffHunk>, lines: seq<string>)
    requires AllProper(d) && AllFit(d, lines) && InOrder(EditsOf(d), |lines|) && Numbered(d, lines)
    ensures AllProper(RevAll(d))
    ensures var w := Splice(lines, EditsOf(d)); AllFit(RevAll(d), w) && InOrder(EditsOf(RevAll(d)), |w|) && Splice(w, EditsOf(RevAll(d))) == lines
  {
    hide SpliceUpTo, InOrder, Undo, EditOf, Proper;
    RevProper(d);
    RevUndoes(d, lines, |d|);
    assert d[..|d|] == d && RevAll(d)[..|d|] == RevAll(d);
    UndoRestores(lines, EditsOf(d));
    var w := Splice(lines, EditsOf(d));
    assert Reaches(d, lines, w, |d|);
    forall j | 0 <= j < |d| ensures Fits(RevAll(d)[j], w) { RevFitsUpTo(d, lines, w, |d|, j); }
  }

  /** The file w starts with the lines edited by the first i hunks. */
  ghost predicate Reaches(d: seq<DiffHunk>, lines: seq<string>, w: seq<string>, i: nat) {
    i <= |d| && AllProper(d[..i]) && SpliceUpTo(lines, EditsOf(d[..i])) <= w
  }

  lemma RevFitsLast(d: seq<DiffHunk>, lines: seq<string>, w: seq<string>, i: nat)
    requires AllProper(d) && i < |d| && Fits(d[i], lines) && NumberedAt(d, i, lines) && Reaches(d, lines, w, i + 1)
    ensures Reaches(d, lines, w, i) && Proper(Rev(d[i])) && Fits(Rev(d[i]), w)
  {
    hide Proper, EditOf, EditsOf, SpliceUpTo, EditEnd, NumberedAt, Fits, Cut, InOrder, Rev;
    EditsSnoc(d, i);
    RevParts(d[i]);
    var es, e := EditsOf(d[..i]), EditOf(d[i]);
    SpliceMore(lines, es, e);
    PrefixShorter(w, SpliceUpTo(lines, es), Cut(lines, EditEnd(es), e.at), e.put);
    RevEdit(d, lines, i);
    RevFitsAt(d[i], w, SpliceUpTo(lines, es) + Cut(lines, EditEnd(es), e.at));
  }

  lemma {:induction false} RevFitsUpTo(d: seq<DiffHunk>, lines: seq<string>, w: seq<string>, i: nat, j: nat)
    requires AllProper(d) && AllFit(d, lines) && Numbered(d, lines) && Reaches(d, lines, w, i) && j < i
    ensures Proper(Rev(d[j])) && Fits(Rev(d[j]), w)
    decreases i
  {
    hide Proper, Reaches, Fits, Rev, NumberedAt;
    ReachesWithin(d, lines, w, i);
    RevFitsLast(d, lines, w, i - 1);
    if j < i - 1 { RevFitsUpTo(d, lines, w, i - 1, j); }
  }

  lemma ReachesWithin(d: seq<DiffHunk>, lines: seq<string>, w: seq<string>, i: nat)
    requires Reaches(d, lines, w, i)
    ensures i <= |d|
  {
  }

  lemma RevFitsAt(h: DiffHunk, w: seq<string>, before: seq<string>)
    requires Proper(h) && Proper(Rev(h)) && before + EditOf(h).put <= w && EditOf(Rev(h)).at == |before|
    ensures Fits(Rev(h), w)
  {
    RevParts(h);
    PutFound(w, before, h.adds);
  }

  lemma PrefixShorter(w: seq<string>, a: seq<string>, b: seq<string>, c: seq<string>)
    requires a + b + c <= w
    ensures a <= w
  {
    Pieces(w, a, b, c);
  }

  lemma PutFound(w: seq<string>, a: seq<string>, b: seq<string>)
    requires a + b <= w
    ensures |a| + |b| <= |w| && w[|a|..|a| + |b|] == b
  {
    assert w[..|a + b|] == a + b;
    assert w[|a|..|a| + |b|] == (a + b)[|a|..];
  }
}
