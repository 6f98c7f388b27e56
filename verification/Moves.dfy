/**
 The moves of the allocator in sealed form: what each operation needs and what it leaves, stated
 without unfolding the invariants, for use by the methods of the heap.
 */
module Moves {
  import opened Rows
  import opened Rings
  import opened Tiling
  import opened HeapOps
  import opened ListOps
  import opened Adjacency
  import opened Coalescing
  import opened Sealing

  // ---------------------------------------------------------------- sealed statements

  /** Sealed says the same as Inv and NoAdjacent, Held the same as InHand; the methods carry them
      along without unfolding them. */
  ghost predicate Sealed(m: Mem, v: View, X: set<nat>, Y: set<nat>) {
    forall k {:trigger Open(k)} :: Open(k) ==> Inv(m, v, X) && NoAdjacent(m, v.S, v.E, Y)
  }

  ghost predicate Held(m0: Mem, v0: View, b: nat, m: Mem, v: View, a: nat) {
    forall k {:trigger Open(k)} :: Open(k) ==>
      InHand(m0, v0, b, m, v, a) && Tiles(m0, v0.S, v0.E) && NoAdjacent(m0, v0.S, v0.E, {b})
  }

  /** What the loops of coalesce look at: the block in hand and its physical successor. */
  ghost predicate InBounds(m: Mem, v: View, a: nat) {
    && v.E < |m| && a in v.S && BASE < a < v.E && MIN_ROWS <= m[a].size && a + m[a].size <= v.E
    && (a + m[a].size == v.E || a + m[a].size in v.S)
    && (m[v.E].alc)
  }

  lemma HeldStart(m: Mem, v: View, b: nat)
    requires Sealed(m, v, {b}, {b}) && b in v.S
    ensures Held(m, v, b, m, v, b) && InBounds(m, v, b)
  {
    assert Open(0);
    assert Nx(m, b) == v.E || Nx(m, b) in v.S;
  }

  lemma HeldNext(m0: Mem, v0: View, b: nat, m: Mem, v: View, a: nat, c: nat) returns (v2: View)
    requires Held(m0, v0, b, m, v, a) && InBounds(m, v, a) && c == a + m[a].size && !m[c].alc
    ensures CanForward(m, a, c)
    ensures Held(m0, v0, b, ForwardMem(m, a, c), v2, a) && InBounds(ForwardMem(m, a, c), v2, a) && v2.E == v.E
    ensures ForwardMem(m, a, c)[a].size == m[a].size + m[c].size && m[c].size > 0
  {
    assert Open(0);
    var j := Class(m[c].size);
    var k := FindFree(m, v, {a}, c);
    assert c == Nx(m, a);
    ForwardRound(m0, v0, b, m, v, a, c, j, k);
    v2 := Unfiled(v, j, k).(S := v.S - {c});
    HeldBounds(m0, v0, b, ForwardMem(m, a, c), v2, a);
  }

  lemma HeldBounds(m0: Mem, v0: View, b: nat, m: Mem, v: View, a: nat)
    requires InHand(m0, v0, b, m, v, a) && Tiles(m0, v0.S, v0.E) && NoAdjacent(m0, v0.S, v0.E, {b})
    ensures Held(m0, v0, b, m, v, a) && InBounds(m, v, a)
  {
    assert Nx(m, a) == v.E || Nx(m, a) in v.S;
  }

  /** The predecessor the backward loop finds through the footer, and the state after merging it. */
  lemma HeldPrev(m0: Mem, v0: View, b: nat, m: Mem, v: View, a: nat) returns (p: nat, v2: View)
    requires Held(m0, v0, b, m, v, a) && InBounds(m, v, a) && !m[a].prv
    ensures BASE < p < a && p == a - m[a - 1].size && m[a - 1] == m[p] && !m[p].alc
    ensures CanBackward(m, p, a)
    ensures Held(m0, v0, b, BackwardMem(m, p, a), v2, p) && InBounds(BackwardMem(m, p, a), v2, p) && v2.E == v.E
    ensures BackwardMem(m, p, a)[p].size == m[p].size + m[a].size
    ensures BackwardMem(m, p, a)[a + m[a].size].alc == m[a + m[a].size].alc
  {
    assert Open(0);
    p := PeerBack(m, v.S, v.E, {a}, a);
    var j := Class(m[p].size);
    var k := FindFree(m, v, {a}, p);
    BackwardRound(m0, v0, b, m, v, a, p, j, k);
    v2 := Unfiled(v, j, k).(S := v.S - {a});
    HeldBounds(m0, v0, b, BackwardMem(m, p, a), v2, p);
    SuccessorKept(m0, v0, b, m, v, a, BackwardMem(m, p, a), v2, p);
  }

  /** Backward rounds leave the alloc bit behind the block in hand alone. */
  lemma SuccessorKept(m0: Mem, v0: View, b: nat, m: Mem, v: View, a: nat, m2: Mem, v2: View, p: nat)
    requires Absorbed(m0, v0, b, m, v, a) && Absorbed(m0, v0, b, m2, v2, p) && Fences(m, v.E) && Fences(m2, v2.E)
    requires InBounds(m, v, a) && InBounds(m2, v2, p) && p + m2[p].size == a + m[a].size
    ensures m2[a + m[a].size].alc == m[a + m[a].size].alc
  {
    var c := a + m[a].size;
    if c != v.E {
      assert SameKind(m0[c], m[c]) && SameKind(m0[c], m2[c]);
    }
  }

  /** Coalesced without the unfolded invariant. */
  ghost predicate Gathered(m0: Mem, v0: View, b: nat, m: Mem, v: View, a: nat) {
    forall k {:trigger Open(k)} :: Open(k) ==> Coalesced(m0, v0, b, m, v, a)
  }

  lemma GatheredDone(m0: Mem, v0: View, b: nat, m: Mem, v: View, a: nat)
    requires Coalesced(m0, v0, b, m, v, a) && NoAdjacent(m, v.S, v.E, {})
    ensures Sealed(m, v, {}, {}) && Gathered(m0, v0, b, m, v, a) && InBounds(m, v, a)
  {
    BoundsOf(m, v, a);
  }

  lemma BoundsOf(m: Mem, v: View, a: nat)
    requires Tiles(m, v.S, v.E) && Fences(m, v.E) && a in v.S && !m[a].alc
    ensures InBounds(m, v, a)
  {
    assert a + m[a].size == Nx(m, a);
  }

  lemma HeldDone(m0: Mem, v0: View, b: nat, m: Mem, v: View, a: nat)
    requires Held(m0, v0, b, m, v, a) && InBounds(m, v, a) && m[a].prv && m[a + m[a].size].alc
    ensures CanAddFree(m, a, v.E) && |v.fl| == FREE_LISTS && |v.fl[Class(m[a].size)]| > 0
    ensures var m', v' := AddFreeMem(m, a, v.E), Filed(v, Class(m[a].size), a);
      Sealed(m', v', {}, {}) && Gathered(m0, v0, b, m', v', a) && InBounds(m', v', a)
  {
    assert InHand(m0, v0, b, m, v, a) && Tiles(m0, v0.S, v0.E) && NoAdjacent(m0, v0.S, v0.E, {b}) by { assert Open(0); }
    HeldDoneAt(m0, v0, b, m, v, a);
  }

  lemma HeldDoneAt(m0: Mem, v0: View, b: nat, m: Mem, v: View, a: nat)
    requires InHand(m0, v0, b, m, v, a) && m[a].prv && m[Nx(m, a)].alc
    requires Tiles(m0, v0.S, v0.E) && NoAdjacent(m0, v0.S, v0.E, {b})
    ensures CanAddFree(m, a, v.E) && |v.fl| == FREE_LISTS && |v.fl[Class(m[a].size)]| > 0
    ensures var m', v' := AddFreeMem(m, a, v.E), Filed(v, Class(m[a].size), a);
      Sealed(m', v', {}, {}) && Gathered(m0, v0, b, m', v', a) && InBounds(m', v', a)
  {
    AddFreeInv(m, v, {a}, a);
    CoalesceDone(m0, v0, b, m, v, a, AddFreeMem(m, a, v.E));
    GatheredDone(m0, v0, b, AddFreeMem(m, a, v.E), Filed(v, Class(m[a].size), a), a);
  }

  // ---------------------------------------------------------------- what a coalesced block covers

  /** Row x lies inside a free block. */
  ghost predicate Covered(m: Mem, S: set<nat>, x: nat) {
    exists a :: a in S && a < |m| && !m[a].alc && a <= x && x < a + m[a].size
  }

  lemma CoveredGrows(m0: Mem, v0: View, b: nat, m: Mem, v: View, a: nat, x: nat)
    requires Absorbed(m0, v0, b, m, v, a) && Tiles(m0, v0.S, v0.E) && Tiles(m, v.S, v.E) && !m[a].alc
    requires Covered(m0, v0.S, x)
    ensures Covered(m, v.S, x)
  {
    var c :| c in v0.S && c < |m0| && !m0[c].alc && c <= x && x < c + m0[c].size;
    var e := a + m[a].size;
    assert e == Nx(m, a) && (e == v.E || e in v.S);
    if c in v.S && c != a {
      assert SameKind(m0[c], m[c]);
    } else {
      assert a <= c < e;
      assert e == v0.E || e in v0.S;
      assert c + m0[c].size <= e;
      assert a <= x < a + m[a].size;
    }
  }

  lemma GatheredFacts(m0: Mem, v0: View, b: nat, m: Mem, v: View, a: nat)
    requires Gathered(m0, v0, b, m, v, a) && Sealed(m0, v0, {b}, {b})
    ensures |m| == |m0| && v.E == v0.E && v.ql == v0.ql && v.qf == v0.qf && v.live == v0.live
    ensures PayloadKept(m0, m, v.live)
    ensures Covered(m, v.S, b)
    ensures forall x :: Covered(m0, v0.S, x) ==> Covered(m, v.S, x)
  {
    assert Open(0);
    forall x: nat | Covered(m0, v0.S, x) ensures Covered(m, v.S, x) {
      CoveredGrows(m0, v0, b, m, v, a, x);
    }
    assert a <= b < a + m[a].size;
  }

  // ---------------------------------------------------------------- quick lists

  lemma PayloadSame(m: Mem, live: map<nat, nat>)
    ensures PayloadKept(m, m, live)
  {
  }

  lemma PayloadLess(m: Mem, m': Mem, live: map<nat, nat>, less: map<nat, nat>)
    requires PayloadKept(m, m', live) && forall b :: b in less ==> b in live && less[b] == live[b]
    ensures PayloadKept(m, m', less)
  {
  }

  /** Live blocks keep their lengths as long as the live map says so. */
  lemma FlushKeeps(m0: Mem, v0: View, m: Mem, v: View, b: nat)
    requires Sealed(m0, v0, {}, {}) && Sealed(m, v, {}, {}) && v.live == v0.live && b in v.live
    ensures b < |m0| && b < |m| && m[b].size == m0[b].size
  {
    assert Open(0);
    assert IsLive(m0, v0.S, {}, b) && IsLive(m, v.S, {}, b);
  }

  /** A first pointer is NULL exactly for the empty chain. */
  lemma ChainEnds(m: Mem, v: View, i: nat)
    requires Sealed(m, v, {}, {}) && i < QUICK_LISTS && |v.ql| == |v.qf| == QUICK_LISTS
    ensures v.qf[i] == NULL <==> v.ql[i] == []
  {
    assert Open(0);
    assert Chain(m, v.qf[i], v.ql[i]);
  }

  lemma FlagNoAdjacent(m: Mem, m': Mem, v: View, Y: set<nat>, b: nat)
    requires Tiles(m, v.S, v.E) && Tiles(m', v.S, v.E) && Fences(m, v.E) && Fences(m', v.E) && NoAdjacent(m, v.S, v.E, Y)
    requires forall x :: x in v.S && x != b ==> SameKind(m[x], m'[x])
    requires b in v.S && m'[b].size == m[b].size
    ensures NoAdjacent(m', v.S, v.E, Y + {b})
  {
    KeepNoAdjacent(m, m', v.S, v.E, Y + {b});
  }

  /** One round of the flush: the first block of quick list i is taken off, marked free and ready
      to be coalesced. */
  lemma FlushRound(m: Mem, v: View, i: nat)
    requires Sealed(m, v, {}, {}) && i < QUICK_LISTS && |v.ql| == |v.qf| == QUICK_LISTS && v.ql[i] != []
    ensures var b := v.qf[i];
      && b == v.ql[i][0] && b in v.S && b + 1 < |m| && v.E < |m| && CanUpdate(m, b, Flagged(m[b], false, false), v.E)
      && var m1 := Update(m, b, Flagged(m[b], false, false), v.E);
      && Sealed(m1, Popped(m, v, i), {b}, {b}) && |m1| == |m| && PayloadKept(m, m1, v.live)
      && forall x :: Covered(m, v.S, x) ==> Covered(m1, v.S, x)
  {
    assert Open(0);
    PopInv(m, v, {}, i);
    assert {} + {v.ql[i][0]} == {v.ql[i][0]};
    FlushRoundAt(m, v, i, v.ql[i][0]);
  }

  lemma FlushRoundAt(m: Mem, v: View, i: nat, b: nat)
    requires Inv(m, v, {}) && NoAdjacent(m, v.S, v.E, {}) && i < QUICK_LISTS && v.ql[i] != [] && b == v.ql[i][0]
    requires b + 1 < |m| && Inv(m, Popped(m, v, i), {b}) && b in v.S && m[b].alc
    ensures CanUpdate(m, b, Flagged(m[b], false, false), v.E)
    ensures var m1 := Update(m, b, Flagged(m[b], false, false), v.E);
      && Sealed(m1, Popped(m, v, i), {b}, {b}) && |m1| == |m| && PayloadKept(m, m1, v.live)
      && forall x :: Covered(m, v.S, x) ==> Covered(m1, v.S, x)
  {
    hide FreeIndex, Chain, Distinct, QuickMembers, Tags, PayloadKept, Update, CanUpdate, Covered;
    SetFlagsInv(m, Popped(m, v, i), {b}, b, false, false);
    var m1 := Update(m, b, Flagged(m[b], false, false), v.E);
    FlagNoAdjacent(m, m1, v, {}, b);
    assert {} + {b} == {b};
    CoveredKept(m, m1, v.S, b);
  }

  lemma CoveredKept(m: Mem, m1: Mem, S: set<nat>, b: nat)
    requires |m| == |m1| && b < |m| && m[b].alc
    requires forall x :: x in S && x != b && x < |m| ==> SameKind(m[x], m1[x])
    ensures forall x :: Covered(m, S, x) ==> Covered(m1, S, x)
  {
    forall x: nat | Covered(m, S, x) ensures Covered(m1, S, x) {
      var c :| c in S && c < |m| && !m[c].alc && c <= x && x < c + m[c].size;
      assert SameKind(m[c], m1[c]);
    }
  }

  /** The end of addToQuickList: link row and flags of the block in hand make it the new first. */
  ghost predicate CanPush(m: Mem, b: nat, f: nat, E: nat) {
    && b + 1 < |m| && CanUpdate(m[b + 1 := Link(f)], b, Flagged(m[b], true, true), E)
  }

  function PushMem(m: Mem, b: nat, f: nat, E: nat): Mem
    requires CanPush(m, b, f, E)
  {
    Update(m[b + 1 := Link(f)], b, Flagged(m[b], true, true), E)
  }

  lemma PushRound(m: Mem, v: View, j: nat, b: nat)
    requires Sealed(m, v, {b}, {b}) && j < QUICK_LISTS && |v.ql| == |v.qf| == QUICK_LISTS
    requires b in v.S && b < |m| && m[b].size == j + MIN_ROWS
    ensures CanPush(m, b, v.qf[j], v.E)
    ensures Sealed(PushMem(m, b, v.qf[j], v.E), Pushed(v, j, b), {}, {})
    ensures PayloadKept(m, PushMem(m, b, v.qf[j], v.E), v.live)
    ensures forall x :: Covered(m, v.S, x) && m[b].alc ==> Covered(PushMem(m, b, v.qf[j], v.E), v.S, x)
  {
    assert Open(0);
    ScribbleInv(m, v, {b}, b, b + 1, Link(v.qf[j]));
    PushRoundAt(m, m[b + 1 := Link(v.qf[j])], v, j, b);
  }

  lemma PushRoundAt(m: Mem, m1: Mem, v: View, j: nat, b: nat)
    requires Inv(m1, v, {b}) && Tiles(m, v.S, v.E) && Fences(m, v.E) && NoAdjacent(m, v.S, v.E, {b})
    requires j < QUICK_LISTS && |m1| == |m|
    requires b in v.S && m[b].size == j + MIN_ROWS && b + 1 < |m| && m1[b + 1] == Link(v.qf[j]) && PayloadKept(m, m1, v.live)
    requires forall x :: x in v.S ==> m1[x] == m[x]
    ensures CanUpdate(m1, b, Flagged(m[b], true, true), v.E)
    ensures var m2 := Update(m1, b, Flagged(m[b], true, true), v.E);
      && Sealed(m2, Pushed(v, j, b), {}, {}) && PayloadKept(m, m2, v.live)
      && forall x :: Covered(m, v.S, x) && m[b].alc ==> Covered(m2, v.S, x)
  {
    hide FreeIndex, QuickIndexed, Tags, PayloadKept, Update, CanUpdate, Covered;
    SetFlagsInv(m1, v, {b}, b, true, true);
    var m2 := Update(m1, b, Flagged(m[b], true, true), v.E);
    assert {b} - {b} == {};
    assert m2[b + 1] == m1[b + 1] by { SetFlagsRows(m1, v.S, v.E, b, true, true); LinkRowKept(m1, m2, v.S, v.E, b); }
    PushInv(m2, v, {b}, j, b);
    PayloadChain(m, m1, m2, v.live);
    KeepNoAdjacent(m, m2, v.S, v.E, {b});
    SettleNoAdjacent(m2, v.S, v.E, b);
    if m[b].alc { CoveredKept(m, m2, v.S, b); }
  }

  lemma LinkRowKept(m: Mem, m': Mem, S: set<nat>, E: nat, b: nat)
    requires Tiles(m, S, E) && b in S && Reflagged(m, m', S, b, Nx(m, b), true, true)
    ensures b + 1 < |m| && m'[b + 1] == m[b + 1]
  {
  }

  /** A live block is taken in hand. */
  lemma TakeInHand(m: Mem, v: View, b: nat)
    requires Sealed(m, v, {}, {}) && b in v.live
    ensures b in v.S && b < |m| && b != BASE && m[b].alc && MIN_ROWS <= m[b].size && m[b].size == v.live[b]
    ensures b + m[b].size <= v.E < |m|
    ensures Sealed(m, v.(live := v.live - {b}), {b}, {b})
  {
    assert Open(0);
    TakeLive(m, v, {}, b);
    assert {} + {b} == {b};
  }

  // ---------------------------------------------------------------- splitting and handing out

  /** Blocks other than b are what they were. */
  ghost predicate OthersKept(m: Mem, m': Mem, S: set<nat>, b: nat) {
    |m'| == |m| && forall x :: x in S && x != b && x < |m| ==> SameKind(m[x], m'[x])
  }

  ghost predicate FreeIn(m: Mem, v: View, b: nat) {
    b in v.S && BASE < b && b + MIN_ROWS <= v.E < |m| && !m[b].alc && MIN_ROWS <= m[b].size && b + m[b].size <= v.E
  }

  ghost predicate CanUnlink(m: Mem, b: nat) {
    Node(m, b) && Node(m, m[b + 1].size) && Node(m, m[b + 2].size) && Apart(m[b + 2].size, b)
  }

  /** Inv alone, sealed; while a block is being split or handed out. */
  ghost predicate Hand(m: Mem, v: View, X: set<nat>) {
    forall k {:trigger Open(k)} :: Open(k) ==> Inv(m, v, X)
  }

  /** Block b has the size it had and is free, every other block is what it was. */
  ghost predicate FreedAs(m: Mem, m': Mem, v: View, b: nat) {
    b < |m| && OthersKept(m, m', v.S, b) && PayloadKept(m, m', v.live) && m'[b].size == m[b].size && !m'[b].alc
  }

  lemma UnlinkStep(m: Mem, v: View, Y: set<nat>, b: nat) returns (v1: View)
    requires Sealed(m, v, {}, Y) && FreeIn(m, v, b)
    ensures CanUnlink(m, b) && Inv(m, v, {}) && NoAdjacent(m, v.S, v.E, Y)
    ensures v1 == v.(fl := v1.fl) && Inv(Unlink(m, b), v1, {b}) && Tags(Unlink(m, b), v.S, v.E, {})
    ensures PayloadKept(m, Unlink(m, b), v.live)
    ensures forall x :: x in v.S ==> Unlink(m, b)[x] == m[x]
  {
    hide FreeIndex, QuickIndexed, Tags, Lives, PayloadKept, Unlink, Class;
    assert Open(0);
    var k := FindFree(m, v, {}, b);
    UnlinkInv(m, v, {}, Class(m[b].size), k);
    assert {} + {b} == {b};
    v1 := Unfiled(v, Class(m[b].size), k);
  }

  lemma FileStep(m: Mem, v: View, X: set<nat>, b: nat)
    requires Hand(m, v, X) && b in X && b in v.S
    ensures CanAddFree(m, b, v.E) && |v.fl| == FREE_LISTS && |v.fl[Class(m[b].size)]| > 0 && MIN_ROWS <= m[b].size
    ensures Hand(AddFreeMem(m, b, v.E), Filed(v, Class(m[b].size), b), X - {b})
    ensures FreedAs(m, AddFreeMem(m, b, v.E), v, b)
  {
    assert Open(0);
    AddFreeInv(m, v, X, b);
  }

  lemma UnlinkHand(m: Mem, v: View, b: nat) returns (v1: View)
    requires Sealed(m, v, {}, {}) && FreeIn(m, v, b)
    ensures CanUnlink(m, b) && v1 == v.(fl := v1.fl) && Hand(Unlink(m, b), v1, {b})
    ensures PayloadKept(m, Unlink(m, b), v.live)
    ensures forall x :: x in v.S && x < |m| ==> Unlink(m, b)[x] == m[x]
  {
    v1 := UnlinkStep(m, v, {}, b);
  }

  lemma SplitHand(m1: Mem, v1: View, b: nat, n: nat)
    requires Hand(m1, v1, {b}) && b in v1.S && b < |m1| && MIN_ROWS <= n && n + MIN_ROWS <= m1[b].size
    ensures b + m1[b].size <= |m1| && b + n !in v1.S
    ensures SplitDone(m1, SplitRows(m1, b, n), b, n) && PayloadKept(m1, SplitRows(m1, b, n), v1.live)
    ensures Hand(SplitRows(m1, b, n), v1.(S := v1.S + {b + n}), {b, b + n})
    ensures {b, b + n} - {b} == {b + n}
  {
    assert Open(0);
    SplitInv(m1, v1, {b}, b, n);
    assert {b} + {b + n} == {b, b + n};
  }

  lemma SplitNoAdjacent(m: Mem, m2: Mem, S: set<nat>, E: nat, b: nat, n: nat)
    requires Tiles(m, S, E) && Fences(m, E) && NoAdjacent(m, S, E, {}) && b in S && !m[b].alc
    requires Tiles(m2, S + {b + n}, E) && Fences(m2, E) && OthersKept(m, m2, S, b) && b + n !in S
    requires n < m[b].size && m2[b].size == n && m2[b + n].size == m[b].size - n
    ensures NoAdjacent(m2, S + {b + n}, E, {b})
  {
    assert m[Nx(m, b)].alc;
    forall x | x in S + {b + n} && x != b && !m2[x].alc && Nx(m2, x) != b
      ensures m2[Nx(m2, x)].alc
    {
      if x == b + n {
        assert Nx(m2, x) == Nx(m, b);
        assert Nx(m, b) == E || Nx(m, b) in S;
      } else {
        assert Nx(m2, x) == Nx(m, x);
        assert Nx(m, x) == E || Nx(m, x) in S;
      }
    }
  }

  /** The parts a free block b of m has been split into. */
  ghost predicate SplitInTwo(m: Mem, u: Mem, v: View, b: nat, n: nat)
    requires b < |m|
  {
    && OthersKept(m, u, v.S, b) && PayloadKept(m, u, v.live) && n <= m[b].size && b + n < |u|
    && u[b].size == n && !u[b].alc && u[b + n].size == m[b].size - n && !u[b + n].alc
  }

  /** Block b has been unlinked, giving m1, and cut in two, giving s. */
  ghost predicate Cut(m: Mem, m1: Mem, s: Mem, v: View, b: nat, n: nat) {
    && |m1| == |m| && b < |m1| && b + n !in v.S && SplitDone(m1, s, b, n)
    && PayloadKept(m, m1, v.live) && PayloadKept(m1, s, v.live)
    && forall x :: x in v.S && x < |m| ==> m1[x] == m[x]
  }

  lemma SplitOthers(m: Mem, m1: Mem, s: Mem, t: Mem, u: Mem, v: View, w: View, b: nat, n: nat)
    requires Tiles(m, v.S, v.E) && b in v.S && MIN_ROWS <= n && n + MIN_ROWS <= m[b].size && b + n !in v.S
    requires |m1| == |m| && forall x :: x in v.S ==> m1[x] == m[x]
    requires SplitDone(m1, s, b, n) && w == v.(S := v.S + {b + n}, fl := w.fl)
    requires FreedAs(s, t, w, b) && FreedAs(t, u, w, b + n)
    requires PayloadKept(m, m1, v.live) && PayloadKept(m1, s, v.live)
    ensures SplitInTwo(m, u, v, b, n)
  {
    PayloadChain(m, m1, s, v.live);
    PayloadChain(m, s, t, v.live);
    PayloadChain(m, t, u, v.live);
    forall x | x in v.S && x != b ensures SameKind(m[x], u[x]) {
      assert s[x] == m1[x] == m[x];
      assert x in w.S && SameKind(s[x], t[x]) && SameKind(t[x], u[x]);
    }
    assert b in w.S && SameKind(t[b], u[b]);
    assert b + n in w.S && SameKind(s[b + n], t[b + n]);
  }

  /** splitBlock on a free block: both parts are free and filed, nothing else moves. */
  lemma SplitFinish(m: Mem, m1: Mem, s: Mem, t: Mem, u: Mem, v: View, w: View, v2: View, b: nat, n: nat)
    requires Sealed(m, v, {}, {}) && FreeIn(m, v, b) && MIN_ROWS <= n && n + MIN_ROWS <= m[b].size
    requires Cut(m, m1, s, v, b, n) && w == v.(S := v.S + {b + n}, fl := w.fl) && v2 == w.(fl := v2.fl)
    requires FreedAs(s, t, w, b) && FreedAs(t, u, w, b + n) && Hand(u, v2, {})
    ensures SplitInTwo(m, u, v, b, n) && Sealed(u, v2, {}, {b})
  {
    assert Open(0);
    SplitOthers(m, m1, s, t, u, v, w, b, n);
    SplitNoAdjacent(m, u, v.S, v.E, b, n);
  }

  /** removeFromFreeList and updateBlockFlags on the block handed to the client. */
  ghost predicate CanHandOut(m: Mem, b: nat, E: nat) {
    && CanUnlink(m, b) && b < |Unlink(m, b)|
    && CanUpdate(Unlink(m, b), b, Flagged(Unlink(m, b)[b], false, true), E)
  }

  function HandOutMem(m: Mem, b: nat, E: nat): Mem
    requires CanHandOut(m, b, E)
  {
    var m1 := Unlink(m, b);
    Update(m1, b, Flagged(m1[b], false, true), E)
  }

  lemma HandOutRound(m: Mem, v: View, Y: set<nat>, b: nat) returns (v2: View)
    requires Sealed(m, v, {}, Y) && FreeIn(m, v, b) && Y <= {b}
    ensures CanHandOut(m, b, v.E) && b !in v.live
    ensures v2 == v.(live := v.live[b := m[b].size], fl := v2.fl)
    ensures Sealed(HandOutMem(m, b, v.E), v2, {}, {})
    ensures PayloadKept(m, HandOutMem(m, b, v.E), v.live) && OthersKept(m, HandOutMem(m, b, v.E), v.S, b)
    ensures HandOutMem(m, b, v.E)[b].size == m[b].size
  {
    var v1 := UnlinkStep(m, v, Y, b);
    v2 := HandOutStep(m, Unlink(m, b), v, v1, Y, b);
  }

  lemma HandOutStep(m: Mem, m1: Mem, v: View, v1: View, Y: set<nat>, b: nat) returns (v2: View)
    requires Inv(m1, v1, {b}) && Tags(m1, v1.S, v1.E, {}) && b in v1.S && PayloadKept(m, m1, v1.live)
    requires Tiles(m, v1.S, v1.E) && Fences(m, v1.E) && NoAdjacent(m, v1.S, v1.E, Y) && Y <= {b}
    requires |m| == |m1| && v1 == v.(fl := v1.fl) && forall x :: x in v1.S ==> m1[x] == m[x]
    ensures CanUpdate(m1, b, Flagged(m1[b], false, true), v1.E) && b !in v.live
    ensures v2 == v.(live := v.live[b := m[b].size], fl := v2.fl)
    ensures var m2 := Update(m1, b, Flagged(m1[b], false, true), v1.E);
      && Sealed(m2, v2, {}, {}) && PayloadKept(m, m2, v.live) && OthersKept(m, m2, v.S, b) && m2[b].size == m[b].size
  {
    hide FreeIndex, QuickIndexed, Tags, PayloadKept, Update, CanUpdate;
    SetFlagsInv(m1, v1, {b}, b, false, true);
    assert {b} - {b} == {};
    var m2 := Update(m1, b, Flagged(m1[b], false, true), v1.E);
    SettleLive(m2, v1, {b}, b);
    v2 := v1.(live := v1.live[b := m2[b].size]);
    PayloadChain(m, m1, m2, v.live);
    assert NoAdjacent(m, v1.S, v1.E, {b});
    KeepNoAdjacent(m, m2, v1.S, v1.E, {b});
    SettleNoAdjacent(m2, v1.S, v1.E, b);
  }

  /** The quick list pop of sf_malloc: the first block of list i becomes live. */
  lemma PopRound(m: Mem, v: View, i: nat)
    requires Sealed(m, v, {}, {}) && i < QUICK_LISTS && |v.ql| == |v.qf| == QUICK_LISTS && v.ql[i] != []
    ensures var b := v.ql[i][0];
      && b == v.qf[i] && b in v.S && BASE < b && b + 1 < |m| && v.E < |m| && m[b].size == i + MIN_ROWS && b !in v.live
      && CanUpdate(m, b, Flagged(m[b], false, true), v.E)
      && var m2, v1 := Update(m, b, Flagged(m[b], false, true), v.E), Popped(m, v, i);
      && Sealed(m2, v1.(live := v.live[b := m[b].size]), {}, {})
      && PayloadKept(m, m2, v.live) && OthersKept(m, m2, v.S, b) && m2[b].size == m[b].size
  {
    assert Open(0);
    PopInv(m, v, {}, i);
    assert {} + {v.ql[i][0]} == {v.ql[i][0]};
    PopRoundAt(m, v, i, v.ql[i][0]);
  }

  lemma PopRoundAt(m: Mem, v: View, i: nat, b: nat)
    requires Inv(m, v, {}) && NoAdjacent(m, v.S, v.E, {}) && i < QUICK_LISTS && v.ql[i] != [] && b == v.ql[i][0]
    requires b + 1 < |m| && Inv(m, Popped(m, v, i), {b}) && b in v.S && m[b].alc
    ensures CanUpdate(m, b, Flagged(m[b], false, true), v.E) && b !in v.live && BASE < b
    ensures var m2, v1 := Update(m, b, Flagged(m[b], false, true), v.E), Popped(m, v, i);
      && Sealed(m2, v1.(live := v.live[b := m[b].size]), {}, {})
      && PayloadKept(m, m2, v.live) && OthersKept(m, m2, v.S, b) && m2[b].size == m[b].size
  {
    hide FreeIndex, Chain, Distinct, QuickMembers, Tags, PayloadKept, Update, CanUpdate;
    var v1 := Popped(m, v, i);
    SetFlagsInv(m, v1, {b}, b, false, true);
    assert {b} - {b} == {};
    var m2 := Update(m, b, Flagged(m[b], false, true), v.E);
    SettleLive(m2, v1, {b}, b);
    KeepNoAdjacent(m, m2, v.S, v.E, {});
  }

  lemma PopStep(m: Mem, v: View, i: nat) returns (v2: View)
    requires Sealed(m, v, {}, {}) && i < QUICK_LISTS && |v.ql| == |v.qf| == QUICK_LISTS && v.ql[i] != []
    ensures var b := v.ql[i][0];
      && b == v.qf[i] && b in v.S && BASE < b && b + 1 < |m| && m[b].size == i + MIN_ROWS && b !in v.live
      && CanUpdate(m, b, Flagged(m[b], false, true), v.E)
      && v2 == v.(ql := v.ql[i := v.ql[i][1..]], qf := v.qf[i := m[b + 1].size], live := v.live[b := i + MIN_ROWS])
      && Sealed(Update(m, b, Flagged(m[b], false, true), v.E), v2, {}, {})
      && PayloadKept(m, Update(m, b, Flagged(m[b], false, true), v.E), v.live)
      && Update(m, b, Flagged(m[b], false, true), v.E)[b].size == m[b].size
  {
    PopRound(m, v, i);
    v2 := Popped(m, v, i).(live := v.live[v.ql[i][0] := i + MIN_ROWS]);
  }

  // ---------------------------------------------------------------- first fit

  /** A list that is skipped holds only blocks that are too small. */
  lemma SkippedList(m: Mem, v: View, i: nat, n: nat)
    requires Sealed(m, v, {}, {}) && i < FREE_LISTS && |v.fl| == FREE_LISTS && MIN_ROWS <= n && Fits(n, i) == 0
    ensures forall l :: 1 <= l < |v.fl[i]| ==> v.fl[i][l] < |m| && m[v.fl[i][l]].size < n
  {
    assert Open(0);
    FitsIsClass(n, i);
    forall l | 1 <= l < |v.fl[i]| ensures v.fl[i][l] < |m| && m[v.fl[i][l]].size < n {
      assert IsFree(m, v.S, {}, v.fl[i][l]) && Class(m[v.fl[i][l]].size) == i;
      SmallerClass(m[v.fl[i][l]].size, n);
    }
  }

  /** A member of a free list is a free block. */
  lemma MemberFree(m: Mem, v: View, j: nat, k: nat)
    requires Sealed(m, v, {}, {}) && j < FREE_LISTS && |v.fl| == FREE_LISTS && 1 <= k < |v.fl[j]|
    ensures FreeIn(m, v, v.fl[j][k]) && v.fl[j][k] < |m|
  {
    assert Open(0);
    assert IsFree(m, v.S, {}, v.fl[j][k]);
  }

  /** The search of the lists is complete: when none of them holds a block of n rows, no block of the heap
      with n rows is free. */
  lemma FirstFitComplete(m: Mem, v: View, n: nat)
    requires Sealed(m, v, {}, {}) && |v.fl| == FREE_LISTS
    requires forall j, l :: 0 <= j < FREE_LISTS && 1 <= l < |v.fl[j]| ==> v.fl[j][l] < |m| && m[v.fl[j][l]].size < n
    ensures forall x: nat :: FreeIn(m, v, x) ==> m[x].size < n
  {
    assert Open(0);
    forall x: nat | FreeIn(m, v, x) ensures m[x].size < n {
      assert IsFree(m, v.S, {}, x);
      var k := FindFree(m, v, {}, x);
    }
  }

  // ---------------------------------------------------------------- growing

  /** Rows of the free block in front of the epilogue, read off the epilogue's prev-alloc bit. */
  function TailRows(m: Mem, E: nat): nat
    requires 0 < E < |m|
  {
    if m[E].prv then 0 else m[E - 1].size
  }

  lemma GrowRound(m: Mem, v: View)
    requires Sealed(m, v, {}, {}) && v.E + PAGE_ROWS < |m|
    ensures BASE < v.E && v.E !in v.S && Grown(m, GrowRows(m, v.E), v.E) && PayloadKept(m, GrowRows(m, v.E), v.live)
    ensures Sealed(GrowRows(m, v.E), v.(S := v.S + {v.E}, E := v.E + PAGE_ROWS), {v.E}, {v.E})
  {
    assert Open(0);
    GrowInv(m, v);
    GrowNoAdjacent(m, GrowRows(m, v.E), v.S, v.E);
  }

  lemma GrowNoAdjacent(m: Mem, m': Mem, S: set<nat>, E: nat)
    requires Tiles(m, S, E) && Fences(m, E) && NoAdjacent(m, S, E, {}) && E + PAGE_ROWS < |m| && Grown(m, m', E)
    requires Tiles(m', S + {E}, E + PAGE_ROWS) && E !in S
    ensures NoAdjacent(m', S + {E}, E + PAGE_ROWS, {E})
  {
    forall x | x in S + {E} && x != E && !m'[x].alc && Nx(m', x) != E
      ensures m'[Nx(m', x)].alc
    {
      assert Nx(m', x) == Nx(m, x);
      assert Nx(m, x) in S;
    }
  }

  /** The block a growth leaves is the tail of the heap: the old free tail, if any, and one page. */
  lemma TailGrown(m: Mem, v: View, m1: Mem, v1: View, m2: Mem, v2: View, a: nat)
    requires Sealed(m, v, {}, {}) && v.E + PAGE_ROWS < |m| && BASE < v.E && Grown(m, m1, v.E)
    requires v1 == v.(S := v.S + {v.E}, E := v.E + PAGE_ROWS) && Sealed(m1, v1, {v.E}, {v.E})
    requires Gathered(m1, v1, v.E, m2, v2, a) && Sealed(m2, v2, {}, {}) && InBounds(m2, v2, a)
    ensures a + m2[a].size == v1.E && m2[a].size == TailRows(m, v.E) + 512 && !m2[a].alc
    ensures forall x: nat :: FreeIn(m2, v2, x) && x != a ==> FreeIn(m, v, x) && m2[x].size == m[x].size
    ensures PayloadKept(m1, m2, v.live) && v2 == v1.(S := v2.S, fl := v2.fl)
  {
    hide FreeIndex, QuickIndexed, Lives, Tags, PayloadKept;
    assert Open(0);
    TailEnd(m1, v1, m2, v2, a);
    if m[v.E].prv {
      TailAlone(m, v, m1, m2, v2, a);
    } else {
      TailJoined(m, v, m1, m2, v2, a);
    }
    forall x: nat | FreeIn(m2, v2, x) && x != a
      ensures FreeIn(m, v, x) && m2[x].size == m[x].size
    {
      assert x in v1.S && SameKind(m1[x], m2[x]) && m1[x] == m[x];
      assert x + m[x].size <= v.E;
    }
  }

  lemma TailEnd(m1: Mem, v1: View, m2: Mem, v2: View, a: nat)
    requires v1.E >= PAGE_ROWS && v1.E - PAGE_ROWS < |m1| && Coalesced(m1, v1, v1.E - PAGE_ROWS, m2, v2, a)
    requires m1[v1.E - PAGE_ROWS].size == PAGE_ROWS
    ensures a + m2[a].size == v1.E && a <= v1.E - PAGE_ROWS
  {
    assert a + m2[a].size == Nx(m2, a);
  }

  lemma TailAlone(m: Mem, v: View, m1: Mem, m2: Mem, v2: View, a: nat)
    requires Inv(m, v, {}) && v.E + PAGE_ROWS < |m| && Grown(m, m1, v.E) && m[v.E].prv
    requires Absorbed(m1, v.(S := v.S + {v.E}, E := v.E + PAGE_ROWS), v.E, m2, v2, a) && a <= v.E
    ensures a == v.E
  {
    var p := Predecessor(m, v.S, v.E, v.E);
    assert m[Nx(m, p)].prv == m[p].alc;
    assert m1[p] == m[p];
    assert p < a;
    assert a != v.E ==> a in v.S;
  }

  lemma TailJoined(m: Mem, v: View, m1: Mem, m2: Mem, v2: View, a: nat)
    requires Inv(m, v, {}) && NoAdjacent(m, v.S, v.E, {}) && v.E + PAGE_ROWS < |m| && Grown(m, m1, v.E) && !m[v.E].prv
    requires Coalesced(m1, v.(S := v.S + {v.E}, E := v.E + PAGE_ROWS), v.E, m2, v2, a)
    ensures a == v.E - m[v.E - 1].size
  {
    var p := PeerBack(m, v.S, v.E, {}, v.E);
    assert m1[p] == m[p];
    assert p in v2.S && p != a ==> SameKind(m1[p], m2[p]) && Nx(m2, p) == v.E;
    assert a != v.E;
    assert a in v.S && m1[a] == m[a] && !m[a].alc;
    assert m[Nx(m, a)].alc;
    assert Nx(m, a) == v.E;
  }

  // ---------------------------------------------------------------- the first page

  const FIRST_FREE: nat := PAGE_ROWS - MIN_ROWS - 1   // rows of the first page between prologue and epilogue

  function InitView(E: nat): View {
    View({BASE, BASE + MIN_ROWS}, E, seq(FREE_LISTS, j => if j >= 0 then [Sent(j)] else []),
         seq(QUICK_LISTS, j => []), seq(QUICK_LISTS, j => NULL), map[])
  }

  /** Headers and footers of the first page: prologue, one block, epilogue. */
  ghost predicate TagRows(m: Mem, E: nat) {
    && E == BASE + PAGE_ROWS - 1 < |m|
    && m[BASE] == Row(MIN_ROWS, false, false, true)
    && m[BASE + MIN_ROWS] == Row(FIRST_FREE, false, true, false) && m[E - 1] == m[BASE + MIN_ROWS]
    && m[E] == Row(1, false, false, true)
  }

  /** The rows initHeap writes before it files the one free block. */
  ghost predicate InitRows(m: Mem, E: nat) {
    && TagRows(m, E)
    && forall j :: 0 <= j < FREE_LISTS ==> m[Sent(j) + 1] == Link(Sent(j)) && m[Sent(j) + 2] == Link(Sent(j))
  }

  lemma InitRound(m: Mem, E: nat)
    requires InitRows(m, E)
    ensures var b, v0 := BASE + MIN_ROWS, InitView(E);
      && Hand(m, v0, {b}) && b in v0.S
      && CanAddFree(m, b, E) && |v0.fl| == FREE_LISTS && |v0.fl[Class(m[b].size)]| > 0 && MIN_ROWS <= m[b].size
      && Sealed(AddFreeMem(m, b, E), Filed(v0, Class(m[b].size), b), {}, {})
    ensures var b, m' := BASE + MIN_ROWS, AddFreeMem(m, BASE + MIN_ROWS, E);
      |m'| == |m| && m'[BASE].size == MIN_ROWS && m'[BASE].alc && m'[b].size == FIRST_FREE && !m'[b].alc
  {
    var b, v0 := BASE + MIN_ROWS, InitView(E);
    InitInv(m, E);
    AddFreeInv(m, v0, {b}, b);
    assert {b} - {b} == {};
    var m', S := AddFreeMem(m, b, E), v0.S;
    forall x | x in S && !m'[x].alc ensures m'[Nx(m', x)].alc {
      assert SameKind(m[BASE], m'[BASE]);
      assert x == b && Nx(m', x) == E;
    }
  }

  lemma InitLists(m: Mem, E: nat)
    requires InitRows(m, E)
    ensures FreeIndex(m, InitView(E).S, InitView(E).fl, {BASE + MIN_ROWS})
    ensures QuickIndexed(m, InitView(E).S, InitView(E).ql, InitView(E).qf, {BASE + MIN_ROWS})
  {
    var v0 := InitView(E);
    forall j | 0 <= j < FREE_LISTS ensures Ring(m, v0.fl[j]) {
      assert Node(m, Sent(j));
    }
    forall j | 0 <= j < QUICK_LISTS ensures Chain(m, v0.qf[j], v0.ql[j]) {}
  }

  lemma InitInv(m: Mem, E: nat)
    requires InitRows(m, E)
    ensures Inv(m, InitView(E), {BASE + MIN_ROWS})
  {
    hide FreeIndex, QuickIndexed;
    InitLists(m, E);
    assert Tiles(m, InitView(E).S, E);
  }

  // ---------------------------------------------------------------- what the methods look at

  /** The effect of addToQuickList on list i: b comes first, behind it the old list, or nothing when
      that was full and has gone back to the free blocks. */
  ghost predicate PushedOn(v0: View, m: Mem, v: View, i: int, b: nat) {
    && 0 <= i < QUICK_LISTS && |v0.ql| == QUICK_LISTS
    && if |v0.ql[i]| < 5 then
         v.ql == v0.ql[i := [b] + v0.ql[i]] && v.S == v0.S && v.fl == v0.fl
       else
         v.ql == v0.ql[i := [b]] && forall x :: x in v0.ql[i] ==> Covered(m, v.S, x)
  }

  lemma LiveAbove(m: Mem, v: View)
    requires Sealed(m, v, {}, {})
    ensures forall b :: b in v.live ==> BASE < b
  {
    assert Open(0);
    forall b | b in v.live ensures BASE < b { assert IsLive(m, v.S, {}, b); }
  }

  /** A block passes the checks of validBlock exactly when it is live. */
  lemma LiveLooks(m: Mem, v: View, b: nat)
    requires Sealed(m, v, {}, {}) && b != BASE && (b in v.S || b == v.E)
    ensures BASE < b < |m| && v.E < |m| && b <= v.E
    ensures b in v.live <==> MIN_ROWS <= m[b].size && b + m[b].size <= v.E + 1 && m[b].alc && !m[b].inq
    ensures !m[b].prv ==> !m[b - 1].alc && BASE + m[b - 1].size <= b && m[b - 1] == m[b - m[b - 1].size]
                          && m[b - 1].size < b
  {
    assert Open(0);
    assert b in v.live <==> IsLive(m, v.S, {}, b);
    if !m[b].prv {
      var p := PeerBack(m, v.S, v.E, {}, b);
    }
  }

  lemma WeakenAdjacent(m: Mem, v: View, b: nat)
    requires Sealed(m, v, {}, {})
    ensures Sealed(m, v, {}, {b})
  {
    assert Open(0);
  }

  lemma StillFree(m: Mem, v: View, b: nat)
    requires Sealed(m, v, {}, {b}) && b in v.S && b < |m| && !m[b].alc
    ensures FreeIn(m, v, b)
  {
    assert Open(0);
  }

  /** The effect of a growth: all of the old blocks, and a free block a at the end that is a page
      longer than the old free tail was. */
  ghost predicate GrownTo(m: Mem, v: View, m2: Mem, v2: View, a: nat) {
    && |m2| == |m| && 0 < v.E < |m| && v2 == v.(S := v2.S, fl := v2.fl, E := v.E + 512)
    && FreeIn(m2, v2, a) && a + m2[a].size == v2.E && m2[a].size == TailRows(m, v.E) + 512
    && (forall x: nat :: FreeIn(m2, v2, x) && x != a ==> FreeIn(m, v, x) && m2[x].size == m[x].size)
    && PayloadKept(m, m2, v.live)
  }

  lemma RingHead(m: Mem, v: View, i: nat)
    requires Sealed(m, v, {}, {}) && i < FREE_LISTS && |v.fl| == FREE_LISTS
    ensures |v.fl[i]| > 0
  {
    assert Open(0);
    assert Ring(m, v.fl[i]);
  }

  /** One step along free list i: from position k the next link leads to position k + 1. */
  lemma RingWalk(m: Mem, v: View, i: nat, k: nat)
    requires Sealed(m, v, {}, {}) && i < FREE_LISTS && |v.fl| == FREE_LISTS && k < |v.fl[i]|
    ensures |v.fl[i]| > 0 && v.fl[i][0] == Sent(i) && Sent(i) + 2 < |m| && v.fl[i][k] + 2 < |m|
    ensures m[v.fl[i][k] + 1].size == if k + 1 < |v.fl[i]| then v.fl[i][k + 1] else Sent(i)
    ensures v.fl[i][k] != NULL && (k > 0 ==> v.fl[i][k] != Sent(i))
  {
    assert Open(0);
    var c := v.fl[i];
    assert Ring(m, c);
    assert Follows(|c|, k, Succ(|c|, k));
    if k > 0 { assert Apart(c[0], c[k]); }
  }

  /** What a call of sf_malloc finds in the heap: the request is n rows, quick list q serves it if
      that is an index, and nothing in the heap does exactly when Stuck holds. */
  ghost predicate Stuck(m: Mem, v: View, n: nat, q: int) {
    && |v.ql| == QUICK_LISTS
    && (0 <= q < QUICK_LISTS ==> v.ql[q] == [])
    && (forall x: nat :: FreeIn(m, v, x) ==> m[x].size < n)
  }

  lemma ListCount(m: Mem, v: View)
    requires Sealed(m, v, {}, {})
    ensures |v.fl| == FREE_LISTS && |v.ql| == QUICK_LISTS && v.E < |m|
  {
    assert Open(0);
  }

  lemma OthersChain(m: Mem, m1: Mem, m2: Mem, S: set<nat>, S1: set<nat>, b: nat)
    requires OthersKept(m, m1, S, b) && OthersKept(m1, m2, S1, b) && S <= S1
    ensures OthersKept(m, m2, S, b)
  {
    forall x | x in S && x != b && x < |m| ensures SameKind(m[x], m2[x]) {
      assert SameKind(m[x], m1[x]) && SameKind(m1[x], m2[x]);
    }
  }

  /** When no free block has n rows, the free tail has fewer. */
  lemma TailSmall(m: Mem, v: View, n: nat)
    requires Sealed(m, v, {}, {}) && MIN_ROWS <= n && forall x: nat :: FreeIn(m, v, x) ==> m[x].size < n
    ensures 0 < v.E < |m| && TailRows(m, v.E) < n
  {
    assert Open(0);
    if !m[v.E].prv {
      var p := PeerBack(m, v.S, v.E, {}, v.E);
      assert FreeIn(m, v, p);
    }
  }

  // ---------------------------------------------------------------- what clients rely on

  /** What a caller gets from sf_malloc: block b is new, lies inside the heap, is disjoint from every
      live block, has room for the payload behind its header for every size below 2^63, and is the
      only change to the live map. */
  ghost predicate HandedOut(live0: map<nat, nat>, v: View, b: nat, size: nat) {
    && b !in live0 && b in v.live && v.live == live0[b := v.live[b]]
    && BASE + MIN_ROWS <= b && b + v.live[b] <= v.E
    && (forall c :: c in live0 ==> b + v.live[b] <= c || c + live0[c] <= b)
    && (size < 0x8000_0000_0000_0000 ==> size + 8 <= 8 * v.live[b])
  }

  /** Live blocks lie between prologue and epilogue and share no row. */
  lemma LiveDisjoint(m: Mem, v: View, b: nat, c: nat)
    requires Sealed(m, v, {}, {}) && b in v.live && c in v.live
    ensures BASE + MIN_ROWS <= b && b + v.live[b] <= v.E < |m| && MIN_ROWS <= v.live[b] == m[b].size && b in v.S
    ensures b != c ==> b + v.live[b] <= c || c + v.live[c] <= b
  {
    assert Open(0);
    assert IsLive(m, v.S, {}, b) && IsLive(m, v.S, {}, c);
  }

  lemma StartedAbove(m: Mem, v: View)
    requires Sealed(m, v, {}, {})
    ensures BASE < v.E
  {
    assert Open(0);
  }

  /** A client may write any payload row of a live block. */
  lemma ClientWrite(m: Mem, v: View, b: nat, j: nat, r: Row)
    requires Sealed(m, v, {}, {}) && b in v.live && b < j < b + v.live[b]
    ensures j < |m| && Sealed(m[j := r], v, {}, {})
    ensures PayloadKept(m, m[j := r], v.live - {b})
  {
    assert Open(0);
    ClientWriteAt(m, v, b, j, r);
  }

  lemma ClientWriteAt(m: Mem, v: View, b: nat, j: nat, r: Row)
    requires Inv(m, v, {}) && NoAdjacent(m, v.S, v.E, {}) && b in v.live && b < j < b + v.live[b]
    ensures j < |m| && Inv(m[j := r], v, {}) && NoAdjacent(m[j := r], v.S, v.E, {})
    ensures PayloadKept(m, m[j := r], v.live - {b})
  {
    hide FreeIndex, QuickIndexed, Tags;
    var v1, m' := v.(live := v.live - {b}), m[j := r];
    TakeLive(m, v, {}, b);
    assert {} + {b} == {b} && {b} - {b} == {};
    ScribbleInv(m, v1, {b}, b, j, r);
    assert v1.live[b := m[b].size] == v.live;
    LiveTags(m, m', v, b, j, r);
    SettleLive(m', v1, {b}, b);
    KeepNoAdjacent(m, m', v.S, v.E, {});
  }

  lemma LiveTags(m: Mem, m': Mem, v: View, b: nat, j: nat, r: Row)
    requires Tiles(m, v.S, v.E) && Tags(m, v.S, v.E, {}) && Tiles(m', v.S, v.E) && Tags(m', v.S, v.E, {b})
    requires b in v.S && m[b].alc && b < j < b + m[b].size && m' == m[j := r]
    ensures Tags(m', v.S, v.E, {})
  {
    assert m[Nx(m, b)].prv == m[b].alc;
    assert Nx(m', b) == Nx(m, b) && m'[b] == m[b];
    assert Nx(m, b) == v.E || Nx(m, b) in v.S;
    assert m'[Nx(m, b)] == m[Nx(m, b)];
  }
}
