/**
 What the sealed invariant of a started heap says, read back in the terms of sfmm.h.
 */
module HeapTheorems {
  import opened Rows
  import opened Rings
  import opened Tiling
  import opened ListOps
  import opened Moves
  import opened Sealing
  import opened Allocator

  /** Every row between heap start and epilogue belongs to exactly one block. */
  lemma RowOwner(m: Mem, v: View, j: nat) returns (b: nat)
    requires Sealed(m, v, {}, {}) && BASE <= j < v.E
    ensures v.E < |m| && b in v.S && b < |m| && b <= j < b + m[b].size
    ensures forall c :: c in v.S && c != b && c < |m| ==> !(c <= j < c + m[c].size)
  {
    assert Open(0);
    assert BASE in v.S;
    b := MaxBelow(v.S, j + 1);
    assert Nx(m, b) == v.E || Nx(m, b) in v.S;
  }

  /** Sum of the lengths of the blocks in S, largest address first. */
  ghost function Total(m: Mem, S: set<nat>): nat
    decreases |S|
  {
    if S == {} then 0
    else
      var b := Largest(S);
      (if b < |m| then m[b].size else 0) + Total(m, S - {b})
  }

  ghost function Largest(S: set<nat>): (b: nat)
    requires S != {}
    ensures b in S && forall x :: x in S ==> x <= b
  {
    LargestExists(S);
    var b :| b in S && forall x :: x in S ==> x <= b;
    b
  }

  lemma LargestExists(S: set<nat>)
    requires S != {}
    ensures exists b :: b in S && forall x :: x in S ==> x <= b
  {
    var x :| x in S;
    var b := x;
    var above := set y | y in S && b < y;
    while above != {}
      invariant b in S && above == set y | y in S && b < y
      decreases above
    {
      ghost var before := above;
      b :| b in above;
      above := set y | y in S && b < y;
      assert above <= before && b in before && b !in above;
    }
    forall y | y in S ensures y <= b { assert y !in above; }
  }

  /** The lengths of prologue and blocks add up to the heap without its epilogue. */
  lemma {:induction false} TilesTotal(m: Mem, S: set<nat>, E: nat)
    requires Tiles(m, S, E)
    ensures Total(m, S) == E - BASE
    decreases |S|
  {
    var b := Largest(S);
    var p := Predecessor(m, S, E, E);
    assert p == b;
    if b == BASE {
      assert S - {b} == {};
    } else {
      forall x | x in S - {b} ensures Nx(m, x) == b || Nx(m, x) in S - {b} {
        assert Nx(m, x) == E || Nx(m, x) in S;
      }
      TilesTotal(m, S - {b}, b);
    }
  }

  lemma BytesConserved(m: Mem, v: View)
    requires Sealed(m, v, {}, {})
    ensures Total(m, v.S) == v.E - BASE
  {
    assert Open(0);
    TilesTotal(m, v.S, v.E);
  }

  /** A block is in the free lists exactly when it is unallocated, and then exactly once, in the
      one list whose class accepts its size. */
  lemma FreeExactlyOnce(m: Mem, v: View, b: nat) returns (j: nat, i: nat)
    requires Sealed(m, v, {}, {}) && b in v.S && b < |m| && !m[b].alc
    ensures |v.fl| == FREE_LISTS && j < FREE_LISTS && 1 <= i < |v.fl[j]| && v.fl[j][i] == b
    ensures MIN_ROWS <= m[b].size && Fits(m[b].size, j) == 2
    ensures forall j', i' :: 0 <= j' < FREE_LISTS && 1 <= i' < |v.fl[j']| && v.fl[j'][i'] == b ==> j' == j && i' == i
  {
    assert Open(0);
    j := Class(m[b].size);
    i := FindFree(m, v, {}, b);
    FitsIsClass(m[b].size, j);
    forall j', i' | 0 <= j' < FREE_LISTS && 1 <= i' < |v.fl[j']| && v.fl[j'][i'] == b ensures j' == j && i' == i {
      assert Class(m[v.fl[j'][i']].size) == j';
      OnceOnly(m, v.fl[j'], i, i');
    }
  }

  lemma OnceOnly(m: Mem, c: seq<nat>, i: nat, k: nat)
    requires Ring(m, c) && i < |c| && k < |c| && c[i] == c[k]
    ensures i == k
  {
    assert i < k ==> Apart(c[i], c[k]);
    assert k < i ==> Apart(c[k], c[i]);
  }

  /** Nothing but free blocks is in the free lists, and the lists are closed circles through their heads. */
  lemma ListsHoldFreeBlocks(m: Mem, v: View, j: nat, i: nat)
    requires Sealed(m, v, {}, {}) && j < FREE_LISTS && |v.fl| == FREE_LISTS && 1 <= i < |v.fl[j]|
    ensures v.fl[j][i] in v.S && v.fl[j][i] + 2 < |m| && !m[v.fl[j][i]].alc && !m[v.fl[j][i]].inq
    ensures v.fl[j][0] == Sent(j) && v.fl[j][i - 1] + 2 < |m|
    ensures m[v.fl[j][i - 1] + 1] == Link(v.fl[j][i]) && m[v.fl[j][i] + 2] == Link(v.fl[j][i - 1])
    ensures i + 1 == |v.fl[j]| ==> m[v.fl[j][i] + 1] == Link(Sent(j)) && Sent(j) + 2 < |m| && m[Sent(j) + 2] == Link(v.fl[j][i])
  {
    assert Open(0);
    var c := v.fl[j];
    assert Ring(m, c) && IsFree(m, v.S, {}, c[i]);
    assert Follows(|c|, i - 1, i);
    if i + 1 == |c| { assert Follows(|c|, i, 0); }
  }

  /** Boundary tags of a block and its physical successor. */
  lemma BoundaryTags(m: Mem, v: View, b: nat)
    requires Sealed(m, v, {}, {}) && b in v.S
    ensures v.E < |m| && b < v.E && MIN_ROWS <= m[b].size && b + m[b].size <= v.E
    ensures b + m[b].size in v.S || b + m[b].size == v.E
    ensures m[b + m[b].size].prv == m[b].alc
    ensures !m[b].alc ==> m[b + m[b].size - 1] == m[b] && m[b + m[b].size].alc && m[b].prv
  {
    assert Open(0);
    assert b + m[b].size == Nx(m, b);
    if !m[b].alc {
      var p := Predecessor(m, v.S, v.E, b);
      assert m[Nx(m, p)].prv == m[p].alc;
    }
  }

  /** The chain of quick list i: its blocks are distinct, of one size, marked allocated and quick,
      linked in order and ended by NULL. */
  lemma QuickChain(m: Mem, v: View, i: nat, k: nat)
    requires Sealed(m, v, {}, {}) && i < QUICK_LISTS && |v.ql| == |v.qf| == QUICK_LISTS && k < |v.ql[i]|
    ensures var b := v.ql[i][k];
      && b in v.S && b + 1 < |m| && m[b].alc && m[b].inq && 8 * m[b].size == 32 + 8 * i
      && m[b + 1].size == if k + 1 < |v.ql[i]| then v.ql[i][k + 1] else NULL
    ensures v.qf[i] == v.ql[i][0]
    ensures forall l :: 0 <= l < |v.ql[i]| && l != k ==> v.ql[i][l] != v.ql[i][k]
  {
    assert Open(0);
    assert Distinct(v.ql[i]) && Chain(m, v.qf[i], v.ql[i]) && QuickOf(m, v.S, {}, v.ql[i], i);
    assert v.ql[i][k] in v.ql[i];
    ChainStep(m, v.qf[i], v.ql[i], k);
  }

  /** The same in a started heap, where the record of the list bounds the chain: its length field counts
      at most five blocks, and its first pointer is theirs. */
  lemma QuickList(h: Heap, i: nat, k: nat)
    requires h.Valid() && i < QUICK_LISTS && k < |h.v.ql[i]|
    ensures h.qlen[i] == |h.v.ql[i]| <= 5 && h.qfirst[i] == h.v.ql[i][0]
    ensures var b := h.v.ql[i][k];
      && b in h.v.S && b + 1 < h.mem.Length && h.mem[b].alc && h.mem[b].inq && 8 * h.mem[b].size == 32 + 8 * i
      && h.mem[b + 1].size == if k + 1 < |h.v.ql[i]| then h.v.ql[i][k + 1] else NULL
    ensures forall l :: 0 <= l < |h.v.ql[i]| && l != k ==> h.v.ql[i][l] != h.v.ql[i][k]
  {
    QuickChain(h.mem[..], h.v, i, k);
    assert h.qlen[..][i] == |h.v.ql[i]| <= QUICK_MAX && h.qfirst[..][i] == h.v.qf[i];
  }

  lemma {:induction false} ChainStep(m: Mem, p: nat, l: seq<nat>, k: nat)
    requires Chain(m, p, l) && k < |l|
    ensures l[k] + 1 < |m| && m[l[k] + 1].size == if k + 1 < |l| then l[k + 1] else NULL
    decreases |l|
  {
    if k > 0 { ChainStep(m, m[p + 1].size, l[1..], k - 1); }
  }
}
