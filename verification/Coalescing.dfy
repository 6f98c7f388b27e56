/**
 The steps of coalesce: what one forward and one backward merge do to a block in hand.
 */
module Coalescing {
  import opened Rows
  import opened Rings
  import opened Tiling
  import opened HeapOps
  import opened ListOps
  import opened Adjacency

  /** From (m0, v0) with block b in hand, coalescing has reached (m, v) with block a in hand: a is
      b and free blocks around it, and everything outside the span of a is as it was. */
  ghost predicate Absorbed(m0: Mem, v0: View, b: nat, m: Mem, v: View, a: nat) {
    && |m| == |m0| && v.E == v0.E && v.ql == v0.ql && v.qf == v0.qf && v.live == v0.live
    && b in v0.S && a in v.S && a in v0.S && a <= b < |m0| && b + m0[b].size <= a + m[a].size
    && (forall x :: x in v.S <==> x in v0.S && !(a < x < a + m[a].size))
    && (forall x :: x in v0.S && a <= x < a + m[a].size && x != b && x < |m| ==> !m0[x].alc)
    && (forall x :: x in v.S && x != a && x < |m| ==> SameKind(m0[x], m[x]))
  }

  lemma PayloadChain(m0: Mem, m1: Mem, m2: Mem, live: map<nat, nat>)
    requires PayloadKept(m0, m1, live) && PayloadKept(m1, m2, live) && |m0| == |m1| == |m2|
    ensures PayloadKept(m0, m2, live)
  {
  }

  // ---------------------------------------------------------------- forward

  ghost predicate CanForward(m: Mem, a: nat, c: nat) {
    && Node(m, c) && Node(m, m[c + 1].size) && Node(m, m[c + 2].size) && Apart(m[c + 2].size, c)
    && a < |m| && Unlink(m, c)[a] == m[a] && Unlink(m, c)[c] == m[c]
    && 0 < a + m[a].size + m[c].size <= |m|
  }

  /** The rows after one round of the forward loop: successor c unlinked, then one header and footer
      over both blocks, with the flags of a. */
  function ForwardMem(m: Mem, a: nat, c: nat): Mem
    requires CanForward(m, a, c)
  {
    var m1 := Unlink(m, c);
    HeaderFooter(m1, a, m1[a].(size := m1[a].size + m1[c].size))
  }

  lemma ForwardCan(m: Mem, v: View, a: nat, c: nat, j: nat, k: nat)
    requires Inv(m, v, {a}) && a in v.S && c in v.S && a < |m| && c == Nx(m, a)
    requires j < FREE_LISTS && 1 <= k < |v.fl[j]| && v.fl[j][k] == c
    ensures CanForward(m, a, c) && Node(m, c) && Node(m, m[c + 1].size) && Node(m, m[c + 2].size)
    ensures ForwardMem(m, a, c) == HeaderFooter(Unlink(m, c), a, m[a].(size := m[a].size + m[c].size))
    ensures Inv(Unlink(m, c), Unfiled(v, j, k), {a, c}) && PayloadKept(m, Unlink(m, c), v.live)
    ensures forall x :: x in v.S ==> Unlink(m, c)[x] == m[x]
  {
    hide FreeIndex, QuickIndexed, Tags, Lives, PayloadKept;
    UnlinkInv(m, v, {a}, j, k);
    assert {a} + {c} == {a, c};
  }

  /** Blocks a and c, with c taken out of list j at position k, have become the one block a. */
  ghost predicate Joined(m: Mem, v: View, m2: Mem, a: nat, c: nat, j: nat, k: nat)
    requires j < |v.fl| && k < |v.fl[j]|
  {
    && a < |m| && c < |m| && |m2| == |m|
    && Inv(m2, Unfiled(v, j, k).(S := v.S - {c} + {a}), {a})
    && PayloadKept(m, m2, v.live)
    && m2[a] == m[a].(size := m[a].size + m[c].size)
    && forall x :: x in v.S && x != a && x != c && x < |m| ==> m2[x] == m[x]
  }

  lemma ForwardInv(m: Mem, v: View, a: nat, c: nat, j: nat, k: nat)
    requires Inv(m, v, {a}) && a in v.S && c in v.S && a < |m| && c == Nx(m, a)
    requires j < FREE_LISTS && 1 <= k < |v.fl[j]| && v.fl[j][k] == c
    ensures CanForward(m, a, c)
    ensures Joined(m, v, ForwardMem(m, a, c), a, c, j, k)
  {
    ForwardCan(m, v, a, c, j, k);
    ForwardMerge(m, Unlink(m, c), v, a, c, j, k, m[a].(size := m[a].size + m[c].size));
  }

  lemma ForwardMerge(m: Mem, m1: Mem, v: View, a: nat, c: nat, j: nat, k: nat, r: Row)
    requires j < |v.fl| && k < |v.fl[j]|
    requires Inv(m1, Unfiled(v, j, k), {a, c}) && |m1| == |m| && a < |m| && c < |m| && Nx(m, a) == c
    requires PayloadKept(m, m1, v.live) && a in v.S && c in v.S
    requires forall x :: x in v.S && x < |m| ==> m1[x] == m[x]
    requires r == m[a].(size := m[a].size + m[c].size)
    ensures a + r.size <= |m| && Joined(m, v, HeaderFooter(m1, a, r), a, c, j, k)
  {
    var v1 := Unfiled(v, j, k);
    MergeInv(m1, v1, {a, c}, a, c, r);
    assert {a, c} - {c} == {a};
    assert v.S - {c} + {a} == v.S - {c};
    ForwardRows(m1, v1, a, c, r);
    PayloadChain(m, m1, HeaderFooter(m1, a, r), v.live);
  }

  lemma ForwardRows(m: Mem, v: View, a: nat, c: nat, r: Row)
    requires Tiles(m, v.S, v.E) && Fences(m, v.E) && a in v.S && c in v.S && Nx(m, a) == c && a != BASE
    requires r.size == m[a].size + m[c].size
    ensures a + r.size <= |m| && HeaderFooter(m, a, r)[a] == r
    ensures forall x :: x in v.S && x != a && x != c ==> HeaderFooter(m, a, r)[x] == m[x]
  {
    MergeTiles(m, HeaderFooter(m, a, r), v.S, v.E, a, c, r);
  }

  lemma ForwardAbsorbed(m0: Mem, v0: View, b: nat, m: Mem, v: View, a: nat, c: nat, m2: Mem, v2: View)
    requires Absorbed(m0, v0, b, m, v, a) && Tiles(m, v.S, v.E) && c == Nx(m, a) && c in v.S && !m[c].alc
    requires |m2| == |m| && v2.S == v.S - {c} && v2 == v.(S := v2.S, fl := v2.fl)
    requires m2[a] == m[a].(size := m[a].size + m[c].size)
    requires forall x :: x in v.S && x != a && x != c && x < |m| ==> m2[x] == m[x]
    ensures Absorbed(m0, v0, b, m2, v2, a)
  {
    assert SameKind(m0[c], m[c]);
    forall x | x in v0.S && c <= x < c + m[c].size ensures x == c {
      assert x in v.S;
    }
  }

  lemma ForwardNoAdjacent(m: Mem, v: View, a: nat, c: nat, m2: Mem)
    requires Tiles(m, v.S, v.E) && Fences(m, v.E) && NoAdjacent(m, v.S, v.E, {a})
    requires a in v.S && c == Nx(m, a) && c in v.S && !m[c].alc
    requires Tiles(m2, v.S - {c}, v.E) && Fences(m2, v.E)
    requires forall x :: x in v.S && x != a && x != c ==> m2[x] == m[x]
    ensures NoAdjacent(m2, v.S - {c}, v.E, {a})
  {
    assert NoAdjacent(m, v.S, v.E, {a, c});
    MergeNoAdjacent(m, m2, v.S, v.E, {a, c}, a, c);
    assert {a, c} - {c} == {a};
  }

  // ---------------------------------------------------------------- backward

  /** The links of u avoid the header row p and the footer row e - 1 of the span [p, e). */
  predicate OffTags(u: nat, p: nat, e: nat) {
    !(u + 1 <= p <= u + 2) && !(u + 2 <= e <= u + 3)
  }

  /** Writing the merged header first and unlinking afterwards gives the same rows. */
  lemma BackwardOrder(m: Mem, p: nat, r: Row)
    requires Node(m, p) && Node(m, m[p + 1].size) && Node(m, m[p + 2].size)
    requires p + MIN_ROWS <= p + r.size <= |m|
    requires OffTags(m[p + 1].size, p, p + r.size) && OffTags(m[p + 2].size, p, p + r.size)
    ensures var m1 := HeaderFooter(m, p, r);
      && Node(m1, p) && m1[p + 1] == m[p + 1] && m1[p + 2] == m[p + 2]
      && Unlink(m1, p) == HeaderFooter(Unlink(m, p), p, r)
  {
    assert HeaderFooter(m, p, r)[p + 1] == m[p + 1] && HeaderFooter(m, p, r)[p + 2] == m[p + 2];
    var n, q := m[p + 1].size, m[p + 2].size;
    var x, y := Unlink(HeaderFooter(m, p, r), p), HeaderFooter(Unlink(m, p), p, r);
    assert |x| == |y|;
    forall i | 0 <= i < |x| ensures x[i] == y[i] {}
  }

  ghost predicate CanBackward(m: Mem, p: nat, a: nat) {
    && a < |m| && p < |m| && 0 < p + m[p].size + m[a].size <= |m|
    && var m1 := HeaderFooter(m, p, m[p].(size := m[p].size + m[a].size));
       Node(m1, p) && Node(m1, m1[p + 1].size) && Node(m1, m1[p + 2].size) && Apart(m1[p + 2].size, p)
  }

  /** The rows after one round of the backward loop: one header and footer over the predecessor p and
      the block a, with the flags of p, then p unlinked. */
  function BackwardMem(m: Mem, p: nat, a: nat): Mem
    requires CanBackward(m, p, a)
  {
    Unlink(HeaderFooter(m, p, m[p].(size := m[p].size + m[a].size)), p)
  }

  lemma BackwardInv(m: Mem, v: View, a: nat, p: nat, j: nat, k: nat)
    requires Inv(m, v, {a}) && a in v.S && p in v.S && p < |m| && Nx(m, p) == a && p != BASE
    requires j < FREE_LISTS && 1 <= k < |v.fl[j]| && v.fl[j][k] == p
    ensures CanBackward(m, p, a)
    ensures Joined(m, v, BackwardMem(m, p, a), p, a, j, k)
  {
    var r := m[p].(size := m[p].size + m[a].size);
    BackwardCan(m, v, a, p, j, k);
    ForwardMerge(m, Unlink(m, p), v, p, a, j, k, r);
  }

  lemma BackwardCan(m: Mem, v: View, a: nat, p: nat, j: nat, k: nat)
    requires Inv(m, v, {a}) && a in v.S && p in v.S && p < |m| && Nx(m, p) == a && p != BASE
    requires j < FREE_LISTS && 1 <= k < |v.fl[j]| && v.fl[j][k] == p
    ensures CanBackward(m, p, a) && Node(m, p) && Node(m, m[p + 1].size) && Node(m, m[p + 2].size)
    ensures BackwardMem(m, p, a) == HeaderFooter(Unlink(m, p), p, m[p].(size := m[p].size + m[a].size))
    ensures Inv(Unlink(m, p), Unfiled(v, j, k), {p, a}) && PayloadKept(m, Unlink(m, p), v.live)
    ensures forall x :: x in v.S ==> Unlink(m, p)[x] == m[x]
  {
    hide FreeIndex, QuickIndexed, Tags, Lives, PayloadKept;
    UnlinkInv(m, v, {a}, j, k);
    assert {a} + {p} == {p, a};
    BackwardNodes(m, v, {a}, j, k, p, a);
    BackwardOrder(m, p, m[p].(size := m[p].size + m[a].size));
  }

  lemma BackwardNodes(m: Mem, v: View, X: set<nat>, j: nat, k: nat, p: nat, a: nat)
    requires Tiles(m, v.S, v.E) && FreeIndex(m, v.S, v.fl, X) && j < FREE_LISTS && 1 <= k < |v.fl[j]|
    requires p == v.fl[j][k] && p in v.S && a in v.S && Nx(m, p) == a && a in X
    ensures OffTags(m[p + 1].size, p, p + m[p].size + m[a].size)
    ensures OffTags(m[p + 2].size, p, p + m[p].size + m[a].size)
  {
    UnlinkNodes(m, v, X, j, k);
    BackwardNode(m, v, X, j, p, a, m[p + 1].size);
    BackwardNode(m, v, X, j, p, a, m[p + 2].size);
  }

  lemma BackwardNode(m: Mem, v: View, X: set<nat>, j: nat, p: nat, a: nat, u: nat)
    requires Tiles(m, v.S, v.E) && FreeIndex(m, v.S, v.fl, X) && j < FREE_LISTS
    requires p in v.S && a in v.S && Nx(m, p) == a && a in X && u in v.fl[j]
    ensures OffTags(u, p, p + m[p].size + m[a].size)
  {
    ListNode(m, v, X, j, u);
    if u != Sent(j) {
      assert IsFree(m, v.S, X, u) && u != a;
      if u < p { } else if u == p { } else { assert a < u; }
    }
  }

  lemma BackwardAbsorbed(m0: Mem, v0: View, b: nat, m: Mem, v: View, a: nat, p: nat, m2: Mem, v2: View)
    requires Absorbed(m0, v0, b, m, v, a) && Tiles(m, v.S, v.E) && p in v.S && Nx(m, p) == a && !m[p].alc
    requires |m2| == |m| && v2.S == v.S - {a} && v2 == v.(S := v2.S, fl := v2.fl)
    requires m2[p] == m[p].(size := m[p].size + m[a].size)
    requires forall x :: x in v.S && x != a && x != p && x < |m| ==> m2[x] == m[x]
    ensures Absorbed(m0, v0, b, m2, v2, p)
  {
    assert SameKind(m0[p], m[p]);
    forall x | x in v0.S && p <= x < a ensures x == p {
      assert x in v.S;
    }
  }

  lemma BackwardNoAdjacent(m: Mem, v: View, a: nat, p: nat, m2: Mem)
    requires Tiles(m, v.S, v.E) && Fences(m, v.E) && NoAdjacent(m, v.S, v.E, {a})
    requires p in v.S && a in v.S && Nx(m, p) == a && !m[p].alc
    requires Tiles(m2, v.S - {a}, v.E) && Fences(m2, v.E)
    requires forall x :: x in v.S && x != a && x != p ==> m2[x] == m[x]
    ensures NoAdjacent(m2, v.S - {a}, v.E, {p})
  {
    assert NoAdjacent(m, v.S, v.E, {p, a});
    MergeNoAdjacent(m, m2, v.S, v.E, {p, a}, p, a);
    assert {p, a} - {a} == {p};
  }

  // ---------------------------------------------------------------- whole rounds

  /** Coalescing of b, begun in (m0, v0), stands at (m, v) with block a in hand. */
  ghost predicate InHand(m0: Mem, v0: View, b: nat, m: Mem, v: View, a: nat) {
    && Inv(m, v, {a}) && Absorbed(m0, v0, b, m, v, a) && PayloadKept(m0, m, v.live)
    && (Tiles(m0, v0.S, v0.E) && NoAdjacent(m0, v0.S, v0.E, {b}) ==> NoAdjacent(m, v.S, v.E, {a}))
  }

  lemma ForwardRound(m0: Mem, v0: View, b: nat, m: Mem, v: View, a: nat, c: nat, j: nat, k: nat)
    requires InHand(m0, v0, b, m, v, a) && a < |m| && c == Nx(m, a) && c in v.S && !m[c].alc
    requires j < FREE_LISTS && 1 <= k < |v.fl[j]| && v.fl[j][k] == c
    ensures CanForward(m, a, c)
    ensures InHand(m0, v0, b, ForwardMem(m, a, c), Unfiled(v, j, k).(S := v.S - {c}), a)
    ensures ForwardMem(m, a, c)[a] == m[a].(size := m[a].size + m[c].size)
  {
    ForwardInv(m, v, a, c, j, k);
    RoundDone(m0, v0, b, m, v, a, a, c, j, k, ForwardMem(m, a, c), Unfiled(v, j, k).(S := v.S - {c}));
  }

  lemma BackwardRound(m0: Mem, v0: View, b: nat, m: Mem, v: View, a: nat, p: nat, j: nat, k: nat)
    requires InHand(m0, v0, b, m, v, a) && p < |m| && p in v.S && Nx(m, p) == a && !m[p].alc && p != BASE
    requires j < FREE_LISTS && 1 <= k < |v.fl[j]| && v.fl[j][k] == p
    ensures CanBackward(m, p, a)
    ensures InHand(m0, v0, b, BackwardMem(m, p, a), Unfiled(v, j, k).(S := v.S - {a}), p)
    ensures BackwardMem(m, p, a)[p] == m[p].(size := m[p].size + m[a].size)
  {
    BackwardInv(m, v, a, p, j, k);
    RoundDone(m0, v0, b, m, v, a, p, a, j, k, BackwardMem(m, p, a), Unfiled(v, j, k).(S := v.S - {a}));
  }

  /** The block in hand a has been joined with a free neighbour; lo is the lower and hi the upper
      of the two. */
  lemma RoundDone(m0: Mem, v0: View, b: nat, m: Mem, v: View, a: nat, lo: nat, hi: nat, j: nat, k: nat, m2: Mem, v2: View)
    requires InHand(m0, v0, b, m, v, a) && j < |v.fl| && k < |v.fl[j]|
    requires lo < |m| && hi < |m| && lo in v.S && hi in v.S && Nx(m, lo) == hi
    requires (lo == a && !m[hi].alc) || (hi == a && !m[lo].alc)
    requires Joined(m, v, m2, lo, hi, j, k) && v2 == Unfiled(v, j, k).(S := v.S - {hi})
    ensures InHand(m0, v0, b, m2, v2, lo)
  {
    hide Fences, FreeIndex, QuickIndexed, Tags, Lives, NoAdjacent, PayloadKept;
    assert v.S - {hi} + {lo} == v.S - {hi};
    PayloadChain(m0, m, m2, v.live);
    if lo == a {
      ForwardAbsorbed(m0, v0, b, m, v, a, hi, m2, v2);
    } else {
      BackwardAbsorbed(m0, v0, b, m, v, a, lo, m2, v2);
    }
    if Tiles(m0, v0.S, v0.E) && NoAdjacent(m0, v0.S, v0.E, {b}) {
      if lo == a { ForwardNoAdjacent(m, v, a, hi, m2); } else { BackwardNoAdjacent(m, v, a, lo, m2); }
    }
  }

  /** The block coalesce leaves behind: the maximal free run around b, filed at the front of its list. */
  ghost predicate Coalesced(m0: Mem, v0: View, b: nat, m: Mem, v: View, a: nat) {
    && Inv(m, v, {}) && Absorbed(m0, v0, b, m, v, a) && PayloadKept(m0, m, v.live)
    && !m[a].alc && !m[a].inq && m[a].prv && m[Nx(m, a)].alc
    && |v.fl[Class(m[a].size)]| > 1 && v.fl[Class(m[a].size)][1] == a
    && (Tiles(m0, v0.S, v0.E) && NoAdjacent(m0, v0.S, v0.E, {b}) ==> NoAdjacent(m, v.S, v.E, {}))
  }

  lemma DoneAbsorbed(m0: Mem, v0: View, b: nat, m: Mem, v: View, a: nat, m': Mem, v': View)
    requires Absorbed(m0, v0, b, m, v, a) && |m'| == |m| && m'[a].size == m[a].size
    requires v' == v.(fl := v'.fl)
    requires forall x :: x in v.S && x != a && x < |m| ==> SameKind(m[x], m'[x])
    ensures Absorbed(m0, v0, b, m', v', a)
  {
  }

  lemma DoneNoAdjacent(m: Mem, m': Mem, S: set<nat>, E: nat, a: nat)
    requires Tiles(m, S, E) && Tiles(m', S, E) && Tags(m', S, E, {}) && Fences(m, E) && Fences(m', E)
    requires NoAdjacent(m, S, E, {a}) && a in S && a < |m'| && m'[a].prv && Nx(m', a) < |m'| && m'[Nx(m', a)].alc
    requires forall x :: x in S && x != a ==> SameKind(m[x], m'[x])
    ensures NoAdjacent(m', S, E, {})
  {
    KeepNoAdjacent(m, m', S, E, {a});
    SettleNoAdjacent(m', S, E, a);
  }

  lemma DoneNext(m: Mem, v: View, a: nat, m': Mem)
    requires Tiles(m, v.S, v.E) && Fences(m, v.E) && Fences(m', v.E) && a in v.S && |m'| == |m|
    requires m'[a].size == m[a].size && m[Nx(m, a)].alc
    requires forall x :: x in v.S && x != a ==> SameKind(m[x], m'[x])
    ensures Nx(m', a) < |m'| && m'[Nx(m', a)].alc
  {
    assert Nx(m', a) == Nx(m, a);
    assert Nx(m, a) == v.E || Nx(m, a) in v.S;
  }

  lemma CoalesceDone(m0: Mem, v0: View, b: nat, m: Mem, v: View, a: nat, m': Mem)
    requires InHand(m0, v0, b, m, v, a) && m[a].prv && m[Nx(m, a)].alc
    requires FiledDone(m, m', v, {a}, a)
    ensures Coalesced(m0, v0, b, m', Filed(v, Class(m[a].size), a), a)
  {
    var v' := Filed(v, Class(m[a].size), a);
    assert {a} - {a} == {};
    PayloadChain(m0, m, m', v.live);
    DoneAbsorbed(m0, v0, b, m, v, a, m', v');
    DoneNext(m, v, a, m');
    if Tiles(m0, v0.S, v0.E) && NoAdjacent(m0, v0.S, v0.E, {b}) {
      DoneNoAdjacent(m, m', v.S, v.E, a);
    }
  }
}
