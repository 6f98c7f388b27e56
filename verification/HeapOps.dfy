/**
 What the allocator's primitive operations do to the rows, and the invariants each one keeps.
 */
module HeapOps {
  import opened Rows
  import opened Rings
  import opened Tiling

  // ---------------------------------------------------------------- row updates

  /** createFooter: the last row of the block repeats its header. */
  function Foot(m: Mem, b: nat): Mem
    requires b < |m| && 0 < b + m[b].size <= |m|
  {
    m[b + m[b].size - 1 := m[b]]
  }

  /** createHeaderAndFooter. */
  function HeaderFooter(m: Mem, b: nat, r: Row): Mem
    requires b < |m| && 0 < b + r.size <= |m|
  {
    Foot(m[b := r], b)
  }

  /** updateHeader on the successor of a block: set its prev-alloc bit, and refresh its footer when
      it is free.  Addresses at or beyond the end of the heap are left alone. */
  function SetPrv(m: Mem, c: nat, on: bool, E: nat): Mem
    requires E < |m| && (c <= E && !m[c].alc ==> 0 < c + m[c].size <= |m|)
  {
    if c > E then m
    else
      var m1 := m[c := m[c].(prv := on)];
      if m1[c].alc then m1 else Foot(m1, c)
  }

  /** The rows of a block whose header becomes r, before the successor is told. */
  function PutBlock(m: Mem, b: nat, r: Row): Mem
    requires b < |m| && 0 < b + r.size <= |m|
  {
    var m1 := m[b := r];
    if r.alc then m1 else Foot(m1, b)
  }

  ghost predicate CanUpdate(m: Mem, b: nat, r: Row, E: nat) {
    && b < |m| && 0 < r.size && b + r.size <= |m| && E < |m|
    && (b + r.size <= E && !m[b + r.size].alc ==> b + r.size + m[b + r.size].size <= |m|)
  }

  /** updateBlock. */
  function Update(m: Mem, b: nat, r: Row, E: nat): Mem
    requires CanUpdate(m, b, r, E)
  {
    SetPrv(PutBlock(m, b, r), b + r.size, r.alc, E)
  }

  /** The header updateBlockFlags writes. */
  function Flagged(r: Row, q: bool, a: bool): Row {
    Row(r.size, q, r.prv, a)
  }

  // ---------------------------------------------------------------- untouched blocks

  predicate SameKind(r: Row, r': Row) {
    r'.size == r.size && r'.alc == r.alc && r'.inq == r.inq
  }

  /** Everything outside X keeps its place, its kind and its link rows. */
  ghost predicate Untouched(m: Mem, m': Mem, S: set<nat>, S': set<nat>, X: set<nat>, X': set<nat>) {
    && |m'| == |m|
    && (forall b :: b in S && b !in X <==> b in S' && b !in X')
    && (forall j :: 0 <= j < BASE && j < |m| ==> m'[j] == m[j])
    && (forall b :: b in S && b !in X && b + 2 < |m| ==>
          SameKind(m[b], m'[b]) && m'[b + 1] == m[b + 1] && m'[b + 2] == m[b + 2])
  }

  lemma UntouchedKinds(m: Mem, m': Mem, S: set<nat>, S': set<nat>, X: set<nat>, X': set<nat>)
    requires Untouched(m, m', S, S', X, X')
    requires forall b :: b in S || b in S' ==> b + 2 < |m|
    ensures forall b: nat :: IsFree(m', S', X', b) == IsFree(m, S, X, b)
    ensures forall b: nat :: InQuick(m', S', X', b) == InQuick(m, S, X, b)
    ensures forall b: nat :: IsLive(m', S', X', b) == IsLive(m, S, X, b)
    ensures forall b :: b in S && b !in X ==> m'[b].size == m[b].size
  {
  }

  lemma KeepFreeIndex(m: Mem, m': Mem, S: set<nat>, S': set<nat>, fl: seq<seq<nat>>, X: set<nat>, X': set<nat>)
    requires FreeIndex(m, S, fl, X) && Untouched(m, m', S, S', X, X') && BASE <= |m|
    requires forall b :: b in S || b in S' ==> b + 2 < |m|
    ensures FreeIndex(m', S', fl, X')
  {
    UntouchedKinds(m, m', S, S', X, X');
    forall j | 0 <= j < FREE_LISTS ensures Ring(m', fl[j]) {
      forall i | 0 <= i < |fl[j]|
        ensures m'[fl[j][i] + 1] == m[fl[j][i] + 1] && m'[fl[j][i] + 2] == m[fl[j][i] + 2]
      {
        if i > 0 { assert IsFree(m, S, X, fl[j][i]); }
      }
      RingFrame(m, m', fl[j]);
    }
  }

  lemma KeepChain(m: Mem, m': Mem, S: set<nat>, S': set<nat>, ql: seq<seq<nat>>, qf: seq<nat>, X: set<nat>, X': set<nat>, j: nat)
    requires QuickIndexed(m, S, ql, qf, X) && Untouched(m, m', S, S', X, X') && j < QUICK_LISTS
    requires forall b :: b in S || b in S' ==> b + 2 < |m|
    ensures Chain(m', qf[j], ql[j])
  {
    forall b | b in ql[j] && b + 1 < |m| ensures m'[b + 1] == m[b + 1] {
      assert InQuick(m, S, X, b);
    }
    ChainFrame(m, m', qf[j], ql[j]);
  }

  lemma KeepQuickMembers(m: Mem, m': Mem, S: set<nat>, S': set<nat>, ql: seq<seq<nat>>, X: set<nat>, X': set<nat>)
    requires |ql| == QUICK_LISTS && QuickMembers(m, S, ql, X) && Untouched(m, m', S, S', X, X')
    requires forall b :: b in S || b in S' ==> b + 2 < |m|
    ensures QuickMembers(m', S', ql, X')
  {
    UntouchedKinds(m, m', S, S', X, X');
  }

  lemma KeepQuickIndexed(m: Mem, m': Mem, S: set<nat>, S': set<nat>, ql: seq<seq<nat>>, qf: seq<nat>, X: set<nat>, X': set<nat>)
    requires QuickIndexed(m, S, ql, qf, X) && Untouched(m, m', S, S', X, X')
    requires forall b :: b in S || b in S' ==> b + 2 < |m|
    ensures QuickIndexed(m', S', ql, qf, X')
  {
    forall j | 0 <= j < QUICK_LISTS ensures Chain(m', qf[j], ql[j]) {
      KeepChain(m, m', S, S', ql, qf, X, X', j);
    }
    KeepQuickMembers(m, m', S, S', ql, X, X');
  }

  ghost predicate Listed(m: Mem, v: View, X: set<nat>) {
    FreeIndex(m, v.S, v.fl, X) && QuickIndexed(m, v.S, v.ql, v.qf, X) && Lives(m, v.S, v.live, X)
  }

  /** Lists and live map survive any change outside the untouched blocks. */
  lemma KeepLists(m: Mem, m': Mem, v: View, S': set<nat>, X: set<nat>, X': set<nat>)
    requires Listed(m, v, X)
    requires Untouched(m, m', v.S, S', X, X')
    requires forall b :: b in v.S || b in S' ==> b + 2 < |m|
    requires BASE <= |m|
    ensures Listed(m', v.(S := S'), X')
  {
    UntouchedKinds(m, m', v.S, S', X, X');
    KeepFreeIndex(m, m', v.S, S', v.fl, X, X');
    KeepQuickIndexed(m, m', v.S, S', v.ql, v.qf, X, X');
  }

  // ---------------------------------------------------------------- updateBlockFlags

  /** The rows updateBlockFlags writes: header, footer when the block becomes free, header of the
      successor c and its footer when the successor is free. */
  ghost predicate Reflagged(m: Mem, m': Mem, S: set<nat>, b: nat, c: nat, q: bool, a: bool)
    requires b < |m| && c < |m|
  {
    && |m'| == |m| && m'[b] == Flagged(m[b], q, a) && m'[c] == m[c].(prv := a)
    && (!a && c > 0 ==> m'[c - 1] == m'[b])
    && (c in S && !m[c].alc && 0 < c + m[c].size <= |m| ==> m'[c + m[c].size - 1] == m'[c])
    && forall j :: (0 <= j < |m| && j != b && j != c && (a || j != c - 1)
         && !(c in S && !m[c].alc && j == c + m[c].size - 1)) ==> m'[j] == m[j]
  }

  lemma CanReflag(m: Mem, S: set<nat>, E: nat, b: nat, q: bool, a: bool)
    requires Tiles(m, S, E) && Fences(m, E) && b in S
    ensures CanUpdate(m, b, Flagged(m[b], q, a), E)
  {
    var c := Nx(m, b);
    assert c == E || c in S;
  }

  lemma SetFlagsRows(m: Mem, S: set<nat>, E: nat, b: nat, q: bool, a: bool)
    requires Tiles(m, S, E) && Fences(m, E) && b in S
    ensures CanUpdate(m, b, Flagged(m[b], q, a), E)
    ensures Reflagged(m, Update(m, b, Flagged(m[b], q, a), E), S, b, Nx(m, b), q, a)
  {
    CanReflag(m, S, E, b, q, a);
    var c := Nx(m, b);
    assert c == E || c in S;
  }

  lemma ReflagTiles(m: Mem, m': Mem, S: set<nat>, E: nat, b: nat, q: bool, a: bool)
    requires Tiles(m, S, E) && Fences(m, E) && b in S && b != BASE && Reflagged(m, m', S, b, Nx(m, b), q, a)
    ensures Tiles(m', S, E) && Fences(m', E)
    ensures forall x :: x in S ==> m'[x].size == m[x].size && (x != b ==> SameKind(m[x], m'[x]))
  {
    forall x | x in S
      ensures m'[x].size == m[x].size && (x != b ==> SameKind(m[x], m'[x]))
    {
    }
    assert m'[E] == m[E] || m'[E] == m[E].(prv := a);
    forall x | x in S ensures Nx(m', x) == Nx(m, x) {}
  }

  lemma ReflagTags(m: Mem, m': Mem, S: set<nat>, E: nat, X: set<nat>, b: nat, q: bool, a: bool, x: nat)
    requires Tiles(m, S, E) && Tags(m, S, E, X) && b in X && b in S && (q ==> a)
    requires Reflagged(m, m', S, b, Nx(m, b), q, a) && Tiles(m', S, E)
    requires x in S && (x == b || x !in X)
    ensures Nx(m', x) == Nx(m, x) && m'[Nx(m, x)].prv == m'[x].alc
    ensures !m'[x].alc ==> m'[Nx(m, x) - 1] == m'[x] && !m'[x].inq
  {
    var c := Nx(m, b);
    assert c == E || c in S;
    if x != b {
      assert m[Nx(m, x)].prv == m[x].alc;
      assert Nx(m, x) == E || Nx(m, x) in S;
      assert Nx(m, x) != c;
      if x == c { } else if x < b { } else { }
    }
  }

  lemma SetFlagsInv(m: Mem, v: View, X: set<nat>, b: nat, q: bool, a: bool)
    requires Inv(m, v, X) && b in X && b in v.S && (q ==> a)
    ensures CanUpdate(m, b, Flagged(m[b], q, a), v.E)
    ensures var m' := Update(m, b, Flagged(m[b], q, a), v.E);
      && |m'| == |m| && Inv(m', v, X) && Tags(m', v.S, v.E, X - {b})
      && PayloadKept(m, m', v.live)
      && m'[b] == Flagged(m[b], q, a)
      && (forall x :: x in v.S && x != b ==> SameKind(m[x], m'[x]))
  {
    CanReflag(m, v.S, v.E, b, q, a);
    SetFlagsRows(m, v.S, v.E, b, q, a);
    ReflagInv(m, Update(m, b, Flagged(m[b], q, a), v.E), v, X, b, q, a);
  }

  lemma ReflagAllTags(m: Mem, m': Mem, S: set<nat>, E: nat, X: set<nat>, b: nat, q: bool, a: bool)
    requires Tiles(m, S, E) && Tags(m, S, E, X) && b in X && b in S && (q ==> a)
    requires Reflagged(m, m', S, b, Nx(m, b), q, a) && Tiles(m', S, E)
    ensures Tags(m', S, E, X - {b})
  {
    forall x | x in S && x !in X - {b}
      ensures m'[Nx(m', x)].prv == m'[x].alc
      ensures !m'[x].alc ==> m'[Nx(m', x) - 1] == m'[x] && !m'[x].inq
    {
      ReflagTags(m, m', S, E, X, b, q, a, x);
    }
  }

  lemma ReflagInv(m: Mem, m': Mem, v: View, X: set<nat>, b: nat, q: bool, a: bool)
    requires Inv(m, v, X) && b in X && b in v.S && (q ==> a)
    requires Reflagged(m, m', v.S, b, Nx(m, b), q, a)
    ensures Inv(m', v, X) && Tags(m', v.S, v.E, X - {b})
    ensures PayloadKept(m, m', v.live)
    ensures forall x :: x in v.S && x != b ==> SameKind(m[x], m'[x])
  {
    ReflagTiles(m, m', v.S, v.E, b, q, a);
    ReflagAllTags(m, m', v.S, v.E, X, b, q, a);
    ReflagUntouched(m, m', v.S, v.E, X, b, q, a);
    KeepLists(m, m', v, v.S, X, X);
    ReflagPayload(m, m', v, X, b, q, a);
  }

  lemma ReflagUntouched(m: Mem, m': Mem, S: set<nat>, E: nat, X: set<nat>, b: nat, q: bool, a: bool)
    requires Tiles(m, S, E) && Fences(m, E) && b in X && b in S && b != BASE
    requires Reflagged(m, m', S, b, Nx(m, b), q, a)
    ensures Untouched(m, m', S, S, X, X)
  {
    ReflagTiles(m, m', S, E, b, q, a);
  }

  lemma ReflagPayload(m: Mem, m': Mem, v: View, X: set<nat>, b: nat, q: bool, a: bool)
    requires Inv(m, v, X) && b in X && b in v.S
    requires Reflagged(m, m', v.S, b, Nx(m, b), q, a)
    ensures PayloadKept(m, m', v.live)
  {
    forall x, j | x in v.live && x < j < x + v.live[x] && j < |m|
      ensures m'[j] == m[j]
    {
      assert IsLive(m, v.S, X, x);
    }
  }

  // ---------------------------------------------------------------- merging and splitting

  /** Header and footer of the union of block a and its successor c. */
  ghost predicate Merged(m: Mem, m': Mem, a: nat, c: nat, r: Row)
    requires a < |m| && c < |m|
  {
    && |m'| == |m| && m'[a] == r && (0 < a + r.size <= |m| ==> m'[a + r.size - 1] == r)
    && forall j :: 0 <= j < |m| && j != a && j != a + r.size - 1 ==> m'[j] == m[j]
  }

  lemma MergeTiles(m: Mem, m': Mem, S: set<nat>, E: nat, a: nat, c: nat, r: Row)
    requires Tiles(m, S, E) && Fences(m, E) && a in S && c in S && a != BASE && Nx(m, a) == c
    requires r.size == m[a].size + m[c].size && Merged(m, m', a, c, r)
    ensures Tiles(m', S - {c}, E) && Fences(m', E)
    ensures forall x :: x in S && x != a && x != c ==> m'[x] == m[x]
  {
    assert Nx(m, c) == E || Nx(m, c) in S;
    forall x | x in S && x != a && x != c ensures m'[x] == m[x] {}
    forall x | x in S - {c} ensures Nx(m', x) == E || Nx(m', x) in S - {c} {
      if x != a {
        assert Nx(m', x) == Nx(m, x);
        assert Nx(m, x) != c;
      } else {
        assert Nx(m', x) == Nx(m, c);
      }
    }
  }

  lemma MergeTags(m: Mem, m': Mem, S: set<nat>, E: nat, X: set<nat>, a: nat, c: nat, r: Row)
    requires Tiles(m, S, E) && Fences(m, E) && Tags(m, S, E, X)
    requires a in S && c in S && a != BASE && Nx(m, a) == c && a in X && c in X
    requires r.size == m[a].size + m[c].size && r.prv == m[a].prv && Merged(m, m', a, c, r)
    requires Tiles(m', S - {c}, E)
    ensures Tags(m', S - {c}, E, X - {c})
  {
    forall x | x in S - {c} && x !in X - {c}
      ensures Nx(m', x) == Nx(m, x) && m'[Nx(m, x)].prv == m'[x].alc && (!m'[x].alc ==> m'[Nx(m, x) - 1] == m'[x])
    {
      assert m'[x] == m[x];
      assert Nx(m, x) == E || Nx(m, x) in S;
      assert Nx(m, x) != c;
      assert m[Nx(m, x)].prv == m[x].alc;
      assert Nx(m, x) != a + r.size - 1;
      if !m[x].alc { assert Nx(m, x) - 1 != a && Nx(m, x) - 1 != a + r.size - 1; }
    }
  }

  /** Merging the out-of-list blocks a and c conserves everything else, and every row of both. */
  lemma MergeInv(m: Mem, v: View, X: set<nat>, a: nat, c: nat, r: Row)
    requires Inv(m, v, X) && a in v.S && c in v.S && a in X && c in X && Nx(m, a) == c
    requires r.size == m[a].size + m[c].size && r.prv == m[a].prv
    ensures a + r.size <= |m|
    ensures Inv(HeaderFooter(m, a, r), v.(S := v.S - {c}), X - {c})
    ensures PayloadKept(m, HeaderFooter(m, a, r), v.live)
  {
    var m' := HeaderFooter(m, a, r);
    MergeTiles(m, m', v.S, v.E, a, c, r);
    MergeTags(m, m', v.S, v.E, X, a, c, r);
    MergeUntouched(m, m', v.S, v.E, X, a, c, r);
    KeepLists(m, m', v, v.S - {c}, X, X - {c});
    PayloadOutside(m, m', v, X, a, a + r.size);
  }

  /** Changes inside the span [lo, hi) of out-of-list blocks, or beyond the epilogue, reach no payload. */
  lemma PayloadOutside(m: Mem, m': Mem, v: View, X: set<nat>, lo: nat, hi: nat)
    requires Tiles(m, v.S, v.E) && Lives(m, v.S, v.live, X)
    requires forall x :: x in v.S && x !in X ==> x + m[x].size <= lo || hi <= x
    requires |m'| == |m| && forall j :: 0 <= j < |m| && !(lo <= j < hi) ==> m'[j] == m[j]
    ensures PayloadKept(m, m', v.live)
  {
    forall x, j | x in v.live && x < j < x + v.live[x] && j < |m|
      ensures m'[j] == m[j]
    {
      assert IsLive(m, v.S, X, x);
    }
  }

  lemma MergeUntouched(m: Mem, m': Mem, S: set<nat>, E: nat, X: set<nat>, a: nat, c: nat, r: Row)
    requires Tiles(m, S, E) && Fences(m, E) && a in S && c in S && a in X && c in X && a != BASE && Nx(m, a) == c
    requires r.size == m[a].size + m[c].size && Merged(m, m', a, c, r)
    ensures Untouched(m, m', S, S - {c}, X, X - {c})
  {
    MergeTiles(m, m', S, E, a, c, r);
  }

  /** Header and footer of the remainder d = b + n, then header and footer of the first part. */
  function SplitRows(m: Mem, b: nat, n: nat): Mem
    requires b < |m| && b + m[b].size <= |m| && 0 < n < m[b].size
  {
    var m1 := HeaderFooter(m, b + n, Row(m[b].size - n, false, false, false));
    HeaderFooter(m1, b, m[b].(size := n))
  }

  ghost predicate SplitDone(m: Mem, m': Mem, b: nat, n: nat)
    requires b < |m|
  {
    && |m'| == |m| && 0 < n && b + n < b + m[b].size <= |m|
    && m'[b] == m[b].(size := n) && m'[b + n] == Row(m[b].size - n, false, false, false)
    && forall j :: 0 <= j < |m| && !(b <= j < b + m[b].size) ==> m'[j] == m[j]
  }

  lemma SplitTiles(m: Mem, m': Mem, S: set<nat>, E: nat, b: nat, n: nat)
    requires Tiles(m, S, E) && Fences(m, E) && b in S && b != BASE
    requires MIN_ROWS <= n && n + MIN_ROWS <= m[b].size && SplitDone(m, m', b, n)
    ensures Tiles(m', S + {b + n}, E) && Fences(m', E) && b + n !in S
    ensures forall x :: x in S && x != b ==> m'[x] == m[x]
  {
    var S' := S + {b + n};
    forall x | x in S && x != b ensures m'[x] == m[x] {}
    assert b + n !in S;
    forall x | x in S' ensures Nx(m', x) == E || Nx(m', x) in S' {
      if x == b + n {
        assert Nx(m', x) == Nx(m, b);
      } else if x != b {
        assert Nx(m', x) == Nx(m, x);
      }
    }
  }

  lemma SplitTag(m: Mem, m': Mem, S: set<nat>, E: nat, X: set<nat>, b: nat, n: nat, x: nat)
    requires Tiles(m, S, E) && Fences(m, E) && Tags(m, S, E, X) && b in S && b != BASE && b in X && SplitDone(m, m', b, n)
    requires x in S && x !in X
    ensures x < |m'| && 0 < Nx(m', x) < |m'| && m'[Nx(m', x)].prv == m'[x].alc
    ensures !m'[x].alc ==> m'[Nx(m', x) - 1] == m'[x] && !m'[x].inq
  {
    assert m'[x] == m[x];
    assert m[Nx(m, x)].prv == m[x].alc;
    assert Nx(m, x) == E || Nx(m, x) in S;
    assert m'[Nx(m, x)].prv == m[Nx(m, x)].prv;
    assert !(b <= Nx(m, x) - 1 < b + m[b].size);
  }

  lemma SplitTags(m: Mem, m': Mem, S: set<nat>, E: nat, X: set<nat>, b: nat, n: nat)
    requires Tiles(m, S, E) && Fences(m, E) && Tags(m, S, E, X) && b in S && b != BASE && b in X
    requires SplitDone(m, m', b, n) && Tiles(m', S + {b + n}, E)
    ensures Tags(m', S + {b + n}, E, X + {b + n})
  {
    hide SplitDone, Fences, Tiles;
    forall x | x in S && x !in X && x != b + n
      ensures x < |m'| && 0 < Nx(m', x) < |m'| && m'[Nx(m', x)].prv == m'[x].alc
      ensures !m'[x].alc ==> m'[Nx(m', x) - 1] == m'[x] && !m'[x].inq
    {
      SplitTag(m, m', S, E, X, b, n, x);
    }
  }

  lemma SplitUntouched(m: Mem, m': Mem, S: set<nat>, E: nat, X: set<nat>, b: nat, n: nat)
    requires Tiles(m, S, E) && b in S && b in X && b + n !in S && SplitDone(m, m', b, n)
    ensures Untouched(m, m', S, S + {b + n}, X, X + {b + n})
  {
  }

  lemma SplitInvAt(m: Mem, m': Mem, v: View, X: set<nat>, b: nat, n: nat)
    requires Inv(m, v, X) && b in v.S && b in X && MIN_ROWS <= n && n + MIN_ROWS <= m[b].size && SplitDone(m, m', b, n)
    ensures b + n !in v.S && Inv(m', v.(S := v.S + {b + n}), X + {b + n}) && PayloadKept(m, m', v.live)
  {
    SplitTiles(m, m', v.S, v.E, b, n);
    hide FreeIndex, QuickIndexed, Tags, Fences, Untouched;
    SplitTags(m, m', v.S, v.E, X, b, n);
    SplitUntouched(m, m', v.S, v.E, X, b, n);
    KeepLists(m, m', v, v.S + {b + n}, X, X + {b + n});
    PayloadOutside(m, m', v, X, b, b + m[b].size);
  }

  /** Splitting the out-of-list block b after n rows adds one block, out of its list as well. */
  lemma SplitInv(m: Mem, v: View, X: set<nat>, b: nat, n: nat)
    requires Inv(m, v, X) && b in v.S && b in X && MIN_ROWS <= n && n + MIN_ROWS <= m[b].size
    ensures b + m[b].size <= |m| && b + n !in v.S
    ensures var m' := SplitRows(m, b, n);
      && SplitDone(m, m', b, n) && Inv(m', v.(S := v.S + {b + n}), X + {b + n})
      && PayloadKept(m, m', v.live)
  {
    hide FreeIndex, QuickIndexed, Tags, Fences, Lives, PayloadKept;
    SplitInvAt(m, SplitRows(m, b, n), v, X, b, n);
  }

  // ---------------------------------------------------------------- growing

  /** expandHeap up to the call of coalesce: the old epilogue becomes the header of one free page,
      and a new epilogue is written behind it. */
  function GrowRows(m: Mem, E: nat): Mem
    requires E + PAGE_ROWS < |m|
  {
    HeaderFooter(m, E, Row(PAGE_ROWS, false, m[E].prv, false))[E + PAGE_ROWS := Row(1, false, false, true)]
  }

  ghost predicate Grown(m: Mem, m': Mem, E: nat)
    requires E + PAGE_ROWS < |m|
  {
    && |m'| == |m| && m'[E] == Row(PAGE_ROWS, false, m[E].prv, false)
    && m'[E + PAGE_ROWS - 1] == m'[E] && m'[E + PAGE_ROWS] == Row(1, false, false, true)
    && forall j :: 0 <= j < E ==> m'[j] == m[j]
  }

  lemma GrowTiles(m: Mem, m': Mem, S: set<nat>, E: nat)
    requires Tiles(m, S, E) && Fences(m, E) && E + PAGE_ROWS < |m| && Grown(m, m', E)
    ensures E !in S
    ensures Tiles(m', S + {E}, E + PAGE_ROWS) && Fences(m', E + PAGE_ROWS)
    ensures Nx(m', E) == E + PAGE_ROWS
    ensures forall x :: x in S ==> m'[x] == m[x]
  {
    forall x | x in S ensures m'[x] == m[x] && Nx(m', x) == Nx(m, x) {}
  }

  lemma GrowTags(m: Mem, m': Mem, S: set<nat>, E: nat)
    requires Tiles(m, S, E) && Fences(m, E) && Tags(m, S, E, {}) && E + PAGE_ROWS < |m| && Grown(m, m', E)
    requires Tiles(m', S + {E}, E + PAGE_ROWS)
    ensures Tags(m', S + {E}, E + PAGE_ROWS, {E})
  {
    forall x | x in S
      ensures Nx(m', x) == Nx(m, x) && m'[Nx(m, x)].prv == m'[x].alc && (!m'[x].alc ==> m'[Nx(m, x) - 1] == m'[x])
    {
      assert Nx(m, x) == E || Nx(m, x) in S;
      assert m[Nx(m, x)].prv == m[x].alc;
    }
  }

  lemma GrowUntouched(m: Mem, m': Mem, S: set<nat>, E: nat)
    requires Tiles(m, S, E) && E + PAGE_ROWS < |m| && Grown(m, m', E) && E !in S
    ensures Untouched(m, m', S, S + {E}, {}, {E})
  {
  }

  lemma GrowInvAt(m: Mem, m': Mem, v: View)
    requires Inv(m, v, {}) && v.E + PAGE_ROWS < |m| && Grown(m, m', v.E) && v.E !in v.S
    requires Tiles(m', v.S + {v.E}, v.E + PAGE_ROWS) && Fences(m', v.E + PAGE_ROWS)
    ensures Inv(m', v.(S := v.S + {v.E}, E := v.E + PAGE_ROWS), {v.E})
    ensures PayloadKept(m, m', v.live)
  {
    hide FreeIndex, QuickIndexed, Tags, Untouched;
    GrowTags(m, m', v.S, v.E);
    GrowUntouched(m, m', v.S, v.E);
    KeepLists(m, m', v, v.S + {v.E}, {}, {v.E});
    PayloadOutside(m, m', v, {}, v.E, |m|);
  }

  /** Growing adds one free, unfiled page in front of the new epilogue and changes nothing else. */
  lemma GrowInv(m: Mem, v: View)
    requires Inv(m, v, {}) && v.E + PAGE_ROWS < |m|
    ensures v.E !in v.S
    ensures Grown(m, GrowRows(m, v.E), v.E)
    ensures Inv(GrowRows(m, v.E), v.(S := v.S + {v.E}, E := v.E + PAGE_ROWS), {v.E})
    ensures PayloadKept(m, GrowRows(m, v.E), v.live)
  {
    GrowTiles(m, GrowRows(m, v.E), v.S, v.E);
    GrowInvAt(m, GrowRows(m, v.E), v);
  }
}
