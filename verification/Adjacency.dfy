/**
 Physical neighbours: finding them through the boundary tags, and the absence of adjacent
 free blocks.
 */
module Adjacency {
  import opened Rings
  import opened Tiling

  /** peerBlock backwards: with the prev-alloc bit clear, the row before the header is the footer
      of the predecessor and leads to its header. */
  lemma PeerBack(m: Mem, S: set<nat>, E: nat, X: set<nat>, c: nat) returns (b: nat)
    requires Tiles(m, S, E) && Fences(m, E) && Tags(m, S, E, X)
    requires c == E || c in S
    requires c != BASE && !m[c].prv && (X <= {c})
    ensures b in S && b != BASE && b < c && Nx(m, b) == c && !m[b].alc && b !in X
    ensures m[c - 1] == m[b] && b == c - m[c - 1].size
  {
    b := Predecessor(m, S, E, c);
    assert m[Nx(m, b)].prv == m[b].alc;
  }

  lemma KeepNoAdjacent(m: Mem, m': Mem, S: set<nat>, E: nat, X: set<nat>)
    requires Tiles(m, S, E) && Tiles(m', S, E) && NoAdjacent(m, S, E, X)
    requires forall x :: x in S && x !in X ==> m'[x].size == m[x].size && m'[x].alc == m[x].alc
    requires m[E].alc && m'[E].alc
    ensures NoAdjacent(m', S, E, X)
  {
    forall b | b in S && b !in X && !m'[b].alc && Nx(m', b) !in X
      ensures m'[Nx(m', b)].alc
    {
      assert Nx(m', b) == Nx(m, b);
      assert Nx(m, b) == E || Nx(m, b) in S;
    }
  }

  lemma MergeNoAdjacent(m: Mem, m': Mem, S: set<nat>, E: nat, X: set<nat>, a: nat, c: nat)
    requires Tiles(m, S, E) && Tiles(m', S - {c}, E) && NoAdjacent(m, S, E, X)
    requires a in S && c in S && a in X && c in X && Nx(m, a) == c
    requires forall x :: x in S && x !in X ==> m'[x].size == m[x].size && m'[x].alc == m[x].alc
    requires m[E].alc && m'[E].alc
    ensures NoAdjacent(m', S - {c}, E, X - {c})
  {
    forall b | b in S - {c} && b !in X - {c} && !m'[b].alc && Nx(m', b) !in X - {c}
      ensures m'[Nx(m', b)].alc
    {
      assert Nx(m', b) == Nx(m, b);
      assert Nx(m, b) == E || Nx(m, b) in S;
      assert Nx(m', b) == E || Nx(m', b) in S - {c};
    }
  }

  /** A block whose neighbours are both allocated stops being an exception. */
  lemma SettleNoAdjacent(m: Mem, S: set<nat>, E: nat, b: nat)
    requires Tiles(m, S, E) && Tags(m, S, E, {}) && NoAdjacent(m, S, E, {b}) && b in S
    requires m[b].alc || (m[b].prv && m[Nx(m, b)].alc)
    ensures NoAdjacent(m, S, E, {})
  {
    forall x | x in S && !m[x].alc
      ensures m[Nx(m, x)].alc
    {
      assert m[Nx(m, x)].prv == m[x].alc;
    }
  }
}
