/**
 The state of the heap seen abstractly, and the invariants that tie it to the rows.

 The address space is counted in rows.  The ten dummy list heads occupy rows below BASE, the
 heap starts at BASE with the prologue, and E is the epilogue, the last row of the heap.
 */
module Tiling {
  import opened Rows
  import opened Rings

  const BASE: nat := 32

  /** Address of the dummy block of free list j. */
  function Sent(j: nat): nat {
    1 + 3 * j
  }

  /** What the rows mean: block starts, epilogue, free lists (head first), quick lists with their
      first pointers, and the live blocks with their lengths in rows. */
  datatype View = View(S: set<nat>, E: nat, fl: seq<seq<nat>>, ql: seq<seq<nat>>, qf: seq<nat>, live: map<nat, nat>)

  /** Address of the physical successor of a block. */
  function Nx(m: Mem, b: nat): nat
    requires b < |m|
  {
    b + m[b].size
  }

  // ---------------------------------------------------------------- the invariants

  /** Prologue, blocks and epilogue tile the heap from BASE to E without gap or overlap. */
  ghost predicate Tiles(m: Mem, S: set<nat>, E: nat) {
    && BASE in S && E < |m|
    && (forall b :: b in S ==> BASE <= b && b < E && MIN_ROWS <= m[b].size && b + m[b].size <= E)
    && (forall b {:trigger Nx(m, b)} :: b in S ==> Nx(m, b) == E || Nx(m, b) in S)
    && (forall b, c :: b in S && c in S && b < c ==> b + m[b].size <= c)
  }

  /** The prologue is a block of M bytes and the epilogue a bare header; both stay allocated. */
  ghost predicate Fences(m: Mem, E: nat) {
    && BASE < E < |m|
    && m[BASE].size == MIN_ROWS && m[BASE].alc && !m[BASE].inq
    && m[E].size == 1 && m[E].alc && !m[E].inq
  }

  /** Boundary tags: the successor's prev-alloc bit is the block's alloc bit, and the footer of a
      free block equals its header.  Blocks in X are being changed and exempt. */
  ghost predicate Tags(m: Mem, S: set<nat>, E: nat, X: set<nat>)
    requires Tiles(m, S, E)
  {
    && (forall b {:trigger Nx(m, b)} :: b in S && b !in X ==>
          m[Nx(m, b)].prv == m[b].alc && (!m[b].alc ==> m[Nx(m, b) - 1] == m[b]))
    && (forall b :: b in S && b !in X && !m[b].alc ==> !m[b].inq)
  }

  /** No two physically adjacent blocks are both free. */
  ghost predicate NoAdjacent(m: Mem, S: set<nat>, E: nat, X: set<nat>)
    requires Tiles(m, S, E)
  {
    forall b {:trigger Nx(m, b)} :: b in S && b !in X && !m[b].alc && Nx(m, b) !in X ==> m[Nx(m, b)].alc
  }

  ghost predicate IsFree(m: Mem, S: set<nat>, X: set<nat>, b: nat) {
    b in S && b !in X && b < |m| && !m[b].alc
  }

  /** The ten circles hold exactly the free blocks, each in the list of its size class. */
  ghost predicate FreeIndex(m: Mem, S: set<nat>, fl: seq<seq<nat>>, X: set<nat>) {
    && |fl| == FREE_LISTS
    && (forall j :: 0 <= j < FREE_LISTS ==> Ring(m, fl[j]) && fl[j][0] == Sent(j))
    && (forall j, i :: 0 <= j < FREE_LISTS && 1 <= i < |fl[j]| ==>
          IsFree(m, S, X, fl[j][i]) && Class(m[fl[j][i]].size) == j)
    && (forall b: nat :: IsFree(m, S, X, b) ==> b in fl[Class(m[b].size)])
  }

  ghost predicate InQuick(m: Mem, S: set<nat>, X: set<nat>, b: nat) {
    b in S && b !in X && b < |m| && m[b].alc && m[b].inq
  }

  ghost predicate Distinct(l: seq<nat>) {
    forall i, k :: 0 <= i < k < |l| ==> l[i] != l[k]
  }

  /** l holds exactly the quick blocks of the size of list j. */
  ghost predicate QuickOf(m: Mem, S: set<nat>, X: set<nat>, l: seq<nat>, j: nat) {
    forall b: nat :: b in l <==> InQuick(m, S, X, b) && m[b].size == j + MIN_ROWS
  }

  ghost predicate QuickMembers(m: Mem, S: set<nat>, ql: seq<seq<nat>>, X: set<nat>)
    requires |ql| == QUICK_LISTS
  {
    && (forall j :: 0 <= j < QUICK_LISTS ==> QuickOf(m, S, X, ql[j], j))
    && (forall b: nat :: InQuick(m, S, X, b) ==> MIN_ROWS <= m[b].size < MIN_ROWS + QUICK_LISTS)
  }

  /** The twenty chains hold exactly the blocks marked allocated and in a quick list, each in the
      chain of its size. */
  ghost predicate QuickIndexed(m: Mem, S: set<nat>, ql: seq<seq<nat>>, qf: seq<nat>, X: set<nat>) {
    && |ql| == |qf| == QUICK_LISTS
    && (forall j :: 0 <= j < QUICK_LISTS ==> Chain(m, qf[j], ql[j]) && Distinct(ql[j]))
    && QuickMembers(m, S, ql, X)
  }

  ghost predicate IsLive(m: Mem, S: set<nat>, X: set<nat>, b: nat) {
    b in S && b !in X && b != BASE && b < |m| && m[b].alc && !m[b].inq
  }

  /** live maps exactly the blocks handed out to the client to their lengths. */
  ghost predicate Lives(m: Mem, S: set<nat>, live: map<nat, nat>, X: set<nat>) {
    && (forall b: nat :: b in live <==> IsLive(m, S, X, b))
    && (forall b :: b in live ==> live[b] == m[b].size)
  }

  /** All of it.  X names the blocks that are out of their lists while an operation is at work. */
  ghost predicate Inv(m: Mem, v: View, X: set<nat>) {
    && Tiles(m, v.S, v.E)
    && Fences(m, v.E)
    && Tags(m, v.S, v.E, X)
    && FreeIndex(m, v.S, v.fl, X)
    && QuickIndexed(m, v.S, v.ql, v.qf, X)
    && Lives(m, v.S, v.live, X)
    && BASE !in X
  }

  /** The payload rows of the live blocks hold the same values in m and m'. */
  ghost predicate PayloadKept(m: Mem, m': Mem, live: map<nat, nat>) {
    forall b, j :: b in live && b < j < b + live[b] && j < |m| && j < |m'| ==> m'[j] == m[j]
  }

  // ---------------------------------------------------------------- consequences of tiling

  lemma MaxBelow(S: set<nat>, c: nat) returns (b: nat)
    requires exists x :: x in S && x < c
    ensures b in S && b < c && forall x :: x in S && x < c ==> x <= b
  {
    var x :| x in S && x < c;
    b := x;
    var rest := set y | y in S && b < y < c;
    while rest != {}
      invariant b in S && b < c
      invariant rest == set y | y in S && b < y < c
      decreases rest
    {
      ghost var old_rest := rest;
      b :| b in rest;
      rest := set y | y in S && b < y < c;
      assert b in old_rest && b !in rest;
      assert rest <= old_rest;
    }
    forall y | y in S && y < c ensures y <= b {
      assert y !in rest;
    }
  }

  /** Every block but the prologue, and the epilogue, has a physical predecessor. */
  lemma Predecessor(m: Mem, S: set<nat>, E: nat, c: nat) returns (b: nat)
    requires Tiles(m, S, E)
    requires c == E || (c in S && c != BASE)
    ensures b in S && b < c && Nx(m, b) == c
  {
    assert BASE in S && BASE < c;
    b := MaxBelow(S, c);
    assert Nx(m, b) == E || Nx(m, b) in S;
    if c == E {
    } else {
      assert b + m[b].size <= c;
    }
  }
}
