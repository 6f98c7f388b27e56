/**
 Editing a list of lines: what applying a diff to a file means, independent of any program.
 */
module Edits {

  /** Replace drop lines behind the first at lines by put. */
  datatype Edit<T> = Edit(at: nat, drop: nat, put: seq<T>)

  function Init<T>(s: seq<T>): seq<T>
    requires s != []
  {
    s[..|s| - 1]
  }

  function Last<T>(s: seq<T>): T
    requires s != []
  {
    s[|s| - 1]
  }

  /** The line of the original behind the last edit. */
  function EditEnd<T>(es: seq<Edit<T>>): nat {
    if es == [] then 0 else Last(es).at + Last(es).drop
  }

  /** The edits concern disjoint stretches of a file of total lines, in order. */
  predicate InOrder<T>(es: seq<Edit<T>>, total: nat) {
    es != [] ==> InOrder(Init(es), total) && EditEnd(Init(es)) <= Last(es).at && EditEnd(es) <= total
  }

  /** Lines a to b of a file, as far as they exist. */
  function Cut<T>(ls: seq<T>, a: nat, b: nat): seq<T> {
    if a <= b <= |ls| then ls[a..b] else []
  }

  /** The edited file up to the end of the last edit. */
  function SpliceUpTo<T>(ls: seq<T>, es: seq<Edit<T>>): seq<T> {
    if es == [] then []
    else SpliceUpTo(ls, Init(es)) + Cut(ls, EditEnd(Init(es)), Last(es).at) + Last(es).put
  }

  /** The edited file. */
  function Splice<T>(ls: seq<T>, es: seq<Edit<T>>): seq<T> {
    SpliceUpTo(ls, es) + Cut(ls, EditEnd(es), |ls|)
  }

  lemma Snoc<T>(es: seq<Edit<T>>, e: Edit<T>)
    ensures Init(es + [e]) == es && Last(es + [e]) == e
  {
  }

  /** One more edit behind the others. */
  lemma SpliceMore<T>(ls: seq<T>, es: seq<Edit<T>>, e: Edit<T>)
    ensures SpliceUpTo(ls, es + [e]) == SpliceUpTo(ls, es) + Cut(ls, EditEnd(es), e.at) + e.put
    ensures EditEnd(es + [e]) == e.at + e.drop
    ensures InOrder(es, |ls|) && EditEnd(es) <= e.at && e.at + e.drop <= |ls| ==> InOrder(es + [e], |ls|)
  {
    Snoc(es, e);
  }

  // ---------------------------------------------------------------- reversal

  /** The edits that take the edited file back. */
  function Undo<T>(ls: seq<T>, es: seq<Edit<T>>): (us: seq<Edit<T>>)
    ensures |us| == |es|
  {
    if es == [] then []
    else
      var e, before := Last(es), SpliceUpTo(ls, Init(es)) + Cut(ls, EditEnd(Init(es)), Last(es).at);
      Undo(ls, Init(es)) + [Edit(|before|, |e.put|, Cut(ls, e.at, e.at + e.drop))]
  }

  lemma Pieces<T>(w: seq<T>, a: seq<T>, b: seq<T>, c: seq<T>)
    requires a + b + c <= w
    ensures a <= w && Cut(w, |a|, |a + b|) == b && |a + b + c| <= |w|
  {
    assert w[..|a + b + c|] == a + b + c;
    assert w[..|a|] == (a + b + c)[..|a|] == a;
  }

  lemma Rejoin<T>(ls: seq<T>, a: nat, b: nat, c: nat)
    requires a <= b <= c <= |ls|
    ensures ls[..a] + Cut(ls, a, b) + Cut(ls, b, c) == ls[..c]
  {
  }

  lemma {:induction false} UndoneUpTo<T>(ls: seq<T>, es: seq<Edit<T>>, w: seq<T>)
    requires InOrder(es, |ls|) && SpliceUpTo(ls, es) <= w
    ensures EditEnd(es) <= |ls| && EditEnd(Undo(ls, es)) == |SpliceUpTo(ls, es)| <= |w|
    ensures InOrder(Undo(ls, es), |w|)
    ensures SpliceUpTo(w, Undo(ls, es)) == ls[..EditEnd(es)]
  {
    if es != [] {
      hide Init, Last;
      var i, e := Init(es), Last(es);
      var keep := Cut(ls, EditEnd(i), e.at);
      Pieces(w, SpliceUpTo(ls, i), keep, e.put);
      UndoneUpTo(ls, i, w);
      var u := Edit(|SpliceUpTo(ls, i) + keep|, |e.put|, Cut(ls, e.at, e.at + e.drop));
      SpliceMore(w, Undo(ls, i), u);
      Rejoin(ls, EditEnd(i), e.at, e.at + e.drop);
    }
  }

  /** Undoing restores the file: the edited file, edited by the reverse edits, is the original. */
  lemma UndoRestores<T>(ls: seq<T>, es: seq<Edit<T>>)
    requires InOrder(es, |ls|)
    ensures InOrder(Undo(ls, es), |Splice(ls, es)|)
    ensures Splice(Splice(ls, es), Undo(ls, es)) == ls
  {
    hide SpliceUpTo, InOrder, Undo, EditEnd;
    var w, n := Splice(ls, es), |SpliceUpTo(ls, es)|;
    UndoneUpTo(ls, es, w);
    assert Cut(w, n, |w|) == Cut(ls, EditEnd(es), |ls|);
    assert ls[..EditEnd(es)] + ls[EditEnd(es)..] == ls;
  }
}
