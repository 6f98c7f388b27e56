/**
 Why coalesce may unlink a block that is in no list: coming from sf_free or a flush its link words hold
 payload, or the link of the quick list it has left, and removeFromFreeList follows them.  Here is what
 the C text does then, exactly when the heap survives it, and how it can fail.
 */
module Unlinking {
  import opened Rows
  import opened Rings
  import opened Tiling
  import opened HeapOps
  import opened HeapTheorems
  import opened Moves
  import opened Sealing

  /** Memory after some stores, unless one of them went to an address that is no row of it. */
  datatype Outcome = Stored(rows: Mem) | Stray

  /** The store of row r in the field k rows behind the address that the word a holds; nothing when a
      is NULL.  Payload may hold a word that is no multiple of eight. */
  function StoreAt(m: Mem, a: Row, k: nat, r: Row): Outcome {
    if a == Link(NULL) then Stored(m)
    else if a == Link(a.size) && a.size + k < |m| then Stored(m[a.size + k := r])
    else Stray
  }

  /** removeFromFreeList on any block: its link rows are followed whatever they hold, and read again
      after the first store. */
  function UnlinkAny(m: Mem, b: nat): Outcome
    requires b + 2 < |m|
  {
    match StoreAt(m, m[b + 2], 1, m[b + 1])
    case Stray => Stray
    case Stored(m1) =>
      match StoreAt(m1, m1[b + 1], 2, m1[b + 2])
      case Stray => Stray
      case Stored(m2) => Stored(m2[b + 1 := Link(NULL)][b + 2 := Link(NULL)])
  }

  // ---------------------------------------------------------------- what the heap needs of its rows

  /** A link row of a dummy list head. */
  ghost predicate HeadRow(t: nat) {
    exists j: nat :: j < FREE_LISTS && (t == Sent(j) + 1 || t == Sent(j) + 2)
  }

  ghost predicate IndexRow(m: Mem, v: View, b: nat, x: nat, t: nat) {
    IsFree(m, v.S, {b}, x) && (t == x + 1 || t == x + 2 || t + 1 == x + m[x].size)
  }

  /** A link row or the footer of a free block. */
  ghost predicate FreeRow(m: Mem, v: View, b: nat, t: nat) {
    exists x: nat :: IndexRow(m, v, b, x, t)
  }

  /** The link row of a block in a quick list. */
  ghost predicate QuickRow(m: Mem, v: View, b: nat, t: nat) {
    t > 0 && InQuick(m, v.S, {b}, t - 1)
  }

  ghost predicate PayloadRow(v: View, x: nat, t: nat) {
    x in v.live && x < t < x + v.live[x]
  }

  /** A row of a live block's payload. */
  ghost predicate LiveRow(v: View, t: nat) {
    exists x: nat :: PayloadRow(v, x, t)
  }

  /** A row that must stay as it is while block b is in hand. */
  ghost predicate Firm(m: Mem, v: View, b: nat, t: nat) {
    (t in v.S && t != b) || t == v.E || HeadRow(t) || FreeRow(m, v, b, t) || LiveRow(v, t)
  }

  /** Row r can stand at t as well: nothing of the heap is kept there, or it is the same; of the header
      in hand the length and the prev-alloc bit count, of a quick list link the address. */
  ghost predicate Allows(m: Mem, v: View, b: nat, t: nat, r: Row)
    requires t < |m|
  {
    && (Firm(m, v, b, t) ==> r == m[t])
    && (t == b ==> r.size == m[t].size && r.prv == m[t].prv)
    && (QuickRow(m, v, b, t) ==> r.size == m[t].size)
  }

  /** What has changed from m to m' is allowed, row by row. */
  ghost predicate AllAllowed(m: Mem, m': Mem, v: View, b: nat) {
    |m'| == |m| && forall t: nat :: t < |m| ==> Allows(m, v, b, t, m'[t])
  }

  ghost predicate Survives(m: Mem, m': Mem, v: View, b: nat) {
    |m'| == |m| && Hand(m', v, {b}) && PayloadKept(m, m', v.live)
  }

  // ---------------------------------------------------------------- allowed changes keep the heap

  lemma AllowedBlock(m: Mem, m': Mem, v: View, b: nat, x: nat)
    requires Inv(m, v, {b}) && AllAllowed(m, m', v, b) && x in v.S
    ensures x < |m| && m'[x].size == m[x].size && m'[x].prv == m[x].prv && (x != b ==> m'[x] == m[x])
  {
    hide FreeIndex, QuickIndexed, Lives, Tags, FreeRow, LiveRow, HeadRow, QuickRow;
    assert Allows(m, v, b, x, m'[x]);
  }

  lemma AllowedTiles(m: Mem, m': Mem, v: View, b: nat)
    requires Inv(m, v, {b}) && AllAllowed(m, m', v, b)
    ensures Tiles(m', v.S, v.E) && Fences(m', v.E) && m'[v.E] == m[v.E]
    ensures forall x :: x in v.S ==> Nx(m', x) == Nx(m, x)
  {
    hide FreeIndex, QuickIndexed, Lives, Tags, AllAllowed, PayloadRow;
    AllowedEnd(m, m', v, b);
    forall x | x in v.S ensures x < |m| && m'[x].size == m[x].size && (x != b ==> m'[x] == m[x]) { AllowedBlock(m, m', v, b, x); }
    forall x | x in v.S ensures Nx(m', x) == v.E || Nx(m', x) in v.S { assert Nx(m', x) == Nx(m, x); }
  }

  lemma AllowedEnd(m: Mem, m': Mem, v: View, b: nat)
    requires v.E < |m| && AllAllowed(m, m', v, b)
    ensures |m'| == |m| && m'[v.E] == m[v.E]
  {
    assert Allows(m, v, b, v.E, m'[v.E]);
  }

  lemma AllowedTag(m: Mem, m': Mem, v: View, b: nat, x: nat)
    requires Inv(m, v, {b}) && AllAllowed(m, m', v, b) && x in v.S && x != b && Nx(m, x) <= |m'| && Nx(m, x) > 0
    ensures Nx(m, x) < |m'| && m'[Nx(m, x)].prv == m'[x].alc && (!m'[x].alc ==> m'[Nx(m, x) - 1] == m'[x] && !m'[x].inq)
  {
    hide FreeIndex, QuickIndexed, Lives;
    AllowedBlock(m, m', v, b, x);
    var c := Nx(m, x);
    assert c == v.E || c in v.S;
    if c == v.E { AllowedEnd(m, m', v, b); } else { AllowedBlock(m, m', v, b, c); }
    if !m[x].alc {
      assert IndexRow(m, v, b, x, c - 1);
      assert Allows(m, v, b, c - 1, m'[c - 1]);
    }
  }

  lemma AllowedTags(m: Mem, m': Mem, v: View, b: nat)
    requires Inv(m, v, {b}) && AllAllowed(m, m', v, b) && Tiles(m', v.S, v.E)
    requires forall x :: x in v.S ==> Nx(m', x) == Nx(m, x)
    ensures Tags(m', v.S, v.E, {b})
  {
    hide FreeIndex, QuickIndexed, Lives, AllAllowed;
    forall x | x in v.S && x != b
      ensures m'[Nx(m, x)].prv == m'[x].alc && (!m'[x].alc ==> m'[Nx(m, x) - 1] == m'[x] && !m'[x].inq)
    {
      AllowedTag(m, m', v, b, x);
    }
  }

  /** The blocks other than b are what they were. */
  ghost predicate KindsSame(m: Mem, m': Mem, v: View, b: nat) {
    |m'| == |m| && forall x :: x in v.S && x != b && x < |m| ==> SameKind(m[x], m'[x])
  }

  lemma KindsOf(m: Mem, m': Mem, v: View, b: nat)
    requires KindsSame(m, m', v, b)
    ensures forall x: nat :: IsFree(m', v.S, {b}, x) == IsFree(m, v.S, {b}, x)
    ensures forall x: nat :: InQuick(m', v.S, {b}, x) == InQuick(m, v.S, {b}, x)
    ensures forall x: nat :: IsLive(m', v.S, {b}, x) == IsLive(m, v.S, {b}, x)
  {
  }

  lemma AllowedFree(m: Mem, m': Mem, v: View, b: nat)
    requires Inv(m, v, {b}) && AllAllowed(m, m', v, b) && KindsSame(m, m', v, b)
    ensures FreeIndex(m', v.S, v.fl, {b})
  {
    hide QuickIndexed, Lives, Tags, AllAllowed, Tiles;
    KindsOf(m, m', v, b);
    forall j | 0 <= j < FREE_LISTS ensures Ring(m', v.fl[j]) {
      forall i | 0 <= i < |v.fl[j]|
        ensures m'[v.fl[j][i] + 1] == m[v.fl[j][i] + 1] && m'[v.fl[j][i] + 2] == m[v.fl[j][i] + 2]
      {
        AllowedLink(m, m', v, b, j, i);
      }
      RingFrame(m, m', v.fl[j]);
    }
  }

  lemma AllowedLink(m: Mem, m': Mem, v: View, b: nat, j: nat, i: nat)
    requires FreeIndex(m, v.S, v.fl, {b}) && AllAllowed(m, m', v, b) && j < FREE_LISTS && i < |v.fl[j]|
    ensures var x := v.fl[j][i]; x + 2 < |m| == |m'| && m'[x + 1] == m[x + 1] && m'[x + 2] == m[x + 2]
  {
    var x := v.fl[j][i];
    assert Node(m, x);
    if i == 0 {
      assert x == Sent(j) && HeadRow(x + 1) && HeadRow(x + 2);
    } else {
      assert IndexRow(m, v, b, x, x + 1) && IndexRow(m, v, b, x, x + 2);
    }
    assert Allows(m, v, b, x + 1, m'[x + 1]) && Allows(m, v, b, x + 2, m'[x + 2]);
  }

  lemma {:induction false} ChainBySizes(m: Mem, m': Mem, p: nat, l: seq<nat>)
    requires Chain(m, p, l) && |m'| == |m| && forall x :: x in l && x + 1 < |m| ==> m'[x + 1].size == m[x + 1].size
    ensures Chain(m', p, l)
    decreases |l|
  {
    if l != [] {
      assert l[0] in l;
      forall x | x in l[1..] ensures x in l {}
      ChainBySizes(m, m', m[p + 1].size, l[1..]);
    }
  }

  lemma AllowedQuick(m: Mem, m': Mem, v: View, b: nat)
    requires Inv(m, v, {b}) && AllAllowed(m, m', v, b) && KindsSame(m, m', v, b)
    ensures QuickIndexed(m', v.S, v.ql, v.qf, {b})
  {
    hide FreeIndex, Lives, Tags, AllAllowed, Tiles, Chain;
    KindsOf(m, m', v, b);
    forall j | 0 <= j < QUICK_LISTS ensures Chain(m', v.qf[j], v.ql[j]) {
      assert QuickOf(m, v.S, {b}, v.ql[j], j);
      forall x | x in v.ql[j] && x + 1 < |m| ensures m'[x + 1].size == m[x + 1].size {
        AllowedQuickLink(m, m', v, b, x);
      }
      ChainBySizes(m, m', v.qf[j], v.ql[j]);
    }
    forall j | 0 <= j < QUICK_LISTS ensures QuickOf(m', v.S, {b}, v.ql[j], j) {
      assert QuickOf(m, v.S, {b}, v.ql[j], j);
    }
  }

  lemma AllowedQuickLink(m: Mem, m': Mem, v: View, b: nat, x: nat)
    requires AllAllowed(m, m', v, b) && InQuick(m, v.S, {b}, x) && x + 1 < |m|
    ensures |m'| == |m| && m'[x + 1].size == m[x + 1].size
  {
    assert QuickRow(m, v, b, x + 1);
    assert Allows(m, v, b, x + 1, m'[x + 1]);
  }

  lemma AllowedPayload(m: Mem, m': Mem, v: View, b: nat)
    requires AllAllowed(m, m', v, b)
    ensures PayloadKept(m, m', v.live)
  {
    forall x, j | x in v.live && x < j < x + v.live[x] && j < |m| && j < |m'| ensures m'[j] == m[j] {
      assert PayloadRow(v, x, j);
      assert Allows(m, v, b, j, m'[j]);
    }
  }

  lemma AllowedSurvives(m: Mem, m': Mem, v: View, b: nat)
    requires Hand(m, v, {b}) && AllAllowed(m, m', v, b)
    ensures Survives(m, m', v, b)
  {
    assert Open(0);
    hide FreeIndex, QuickIndexed, Lives, Tags, Tiles, AllAllowed, Fences, PayloadKept;
    AllowedTiles(m, m', v, b);
    AllowedTags(m, m', v, b);
    AllowedKinds(m, m', v, b);
    AllowedFree(m, m', v, b);
    AllowedQuick(m, m', v, b);
    AllowedLives(m, m', v, b);
    AllowedPayload(m, m', v, b);
  }

  lemma AllowedKinds(m: Mem, m': Mem, v: View, b: nat)
    requires Inv(m, v, {b}) && AllAllowed(m, m', v, b)
    ensures KindsSame(m, m', v, b)
  {
    hide Inv;
    forall x | x in v.S && x != b && x < |m| ensures SameKind(m[x], m'[x]) { AllowedBlock(m, m', v, b, x); }
    assert |m'| == |m|;
  }

  lemma AllowedLives(m: Mem, m': Mem, v: View, b: nat)
    requires Lives(m, v.S, v.live, {b}) && KindsSame(m, m', v, b)
    ensures Lives(m', v.S, v.live, {b})
  {
    KindsOf(m, m', v, b);
    assert forall x :: x in v.live ==> IsLive(m, v.S, {b}, x);
  }

  // ---------------------------------------------------------------- and no others do

  predicate Foreign(b: nat, t: nat) {
    t != b + 1 && t != b + 2
  }

  /** Rows that have changed hold bare addresses, and equal ones stand close together: so it is with what
      an unlinking stores, but for the link rows of b itself. */
  ghost predicate Scattered(m: Mem, m': Mem, b: nat) {
    && |m'| == |m|
    && (forall t: nat :: t < |m| && Foreign(b, t) && m'[t] != m[t] ==> m'[t] == Link(m'[t].size))
    && (forall s: nat, t: nat :: s + 3 <= t < |m| && Foreign(b, s) && Foreign(b, t) && m'[s] != m[s] && m'[t] != m[t] ==> m'[s] != m'[t])
  }

  /** Two tilings with the same starts give the blocks the same lengths. */
  lemma SizesStay(m: Mem, m': Mem, S: set<nat>, E: nat, x: nat)
    requires Tiles(m, S, E) && Tiles(m', S, E) && x in S
    ensures m'[x].size == m[x].size
  {
    assert Nx(m, x) == E || Nx(m, x) in S;
    assert Nx(m', x) == E || Nx(m', x) in S;
  }

  /** And what the lists and the live map say of the other blocks fixes their flags. */
  lemma KindStays(m: Mem, m': Mem, v: View, b: nat, x: nat)
    requires Inv(m, v, {b}) && Inv(m', v, {b}) && x in v.S && x != b
    ensures SameKind(m[x], m'[x])
  {
    hide FreeIndex, Chain;
    SizesStay(m, m', v.S, v.E, x);
    if m[x].alc && m[x].inq { QuickBoth(m, m', v, b, x); }
    if m'[x].alc && m'[x].inq { QuickBoth(m', m, v, b, x); }
    assert x in v.live <==> IsLive(m, v.S, {b}, x);
    assert x in v.live <==> IsLive(m', v.S, {b}, x);
    assert !m[x].alc ==> !m[x].inq by { assert Nx(m, x) == Nx(m, x); }
    assert !m'[x].alc ==> !m'[x].inq by { assert Nx(m', x) == Nx(m', x); }
  }

  lemma QuickBoth(m: Mem, m': Mem, v: View, b: nat, x: nat)
    requires Inv(m, v, {b}) && Inv(m', v, {b}) && InQuick(m, v.S, {b}, x)
    ensures InQuick(m', v.S, {b}, x)
  {
    hide FreeIndex, Chain, Tags, Tiles, Lives;
    var j: nat := m[x].size - MIN_ROWS;
    assert QuickOf(m, v.S, {b}, v.ql[j], j) && QuickOf(m', v.S, {b}, v.ql[j], j);
    assert x in v.ql[j];
  }

  lemma PrvStays(m: Mem, m': Mem, v: View, b: nat, c: nat)
    requires Inv(m, v, {b}) && Inv(m', v, {b}) && c in v.S && c != BASE
    requires forall p :: p in v.S && Nx(m, p) == c ==> p != b
    ensures m'[c].prv == m[c].prv
  {
    hide FreeIndex, QuickIndexed, Lives;
    var p := Predecessor(m, v.S, v.E, c);
    SizesStay(m, m', v.S, v.E, p);
    KindStays(m, m', v, b, p);
    assert Nx(m', p) == c;
  }

  /** The block in hand is not its own successor, and has one predecessor. */
  lemma InHandPrv(m: Mem, m': Mem, v: View, b: nat)
    requires Inv(m, v, {b}) && Inv(m', v, {b}) && b in v.S && b != BASE
    ensures m'[b].size == m[b].size && m'[b].prv == m[b].prv
  {
    hide FreeIndex, QuickIndexed, Lives, Tags;
    SizesStay(m, m', v.S, v.E, b);
    PrvStays(m, m', v, b, b);
  }

  lemma HeaderStays(m: Mem, m': Mem, v: View, b: nat, x: nat)
    requires Inv(m, v, {b}) && Inv(m', v, {b}) && Scattered(m, m', b) && b in v.S && x in v.S && x != b
    ensures m'[x] == m[x]
  {
    hide FreeIndex, QuickIndexed, Lives, Fences;
    SizesStay(m, m', v.S, v.E, x);
    KindStays(m, m', v, b, x);
    assert (x <= b || b + 3 <= x) && Foreign(b, x);
    if !m[x].alc {
      var f: nat := x + m[x].size - 1;
      assert Nx(m, x) == Nx(m', x) && m[f] == m[x] && m'[f] == m'[x];
      assert (f <= b || b + 3 <= f) && Foreign(b, f);
    }
  }

  lemma FooterStays(m: Mem, m': Mem, v: View, b: nat, x: nat)
    requires Inv(m, v, {b}) && Inv(m', v, {b}) && Scattered(m, m', b) && b in v.S && IsFree(m, v.S, {b}, x)
    ensures 0 < Nx(m, x) <= |m'| && m'[Nx(m, x) - 1] == m[Nx(m, x) - 1]
  {
    HeaderStays(m, m', v, b, x);
    hide FreeIndex, QuickIndexed, Lives, Fences, Scattered;
    assert Nx(m', x) == Nx(m, x);
  }

  /** A circle fixes the link rows of its nodes. */
  lemma RingFixes(m: Mem, m': Mem, c: seq<nat>, i: nat)
    requires Ring(m, c) && Ring(m', c) && |m'| == |m| && i < |c|
    ensures c[i] + 2 < |m| && m'[c[i] + 1] == m[c[i] + 1] && m'[c[i] + 2] == m[c[i] + 2]
  {
    var k, h := Succ(|c|, i), if i == 0 then |c| - 1 else i - 1;
    assert Follows(|c|, i, k) && Follows(|c|, h, i) && Node(m, c[i]);
    assert m[c[i] + 1] == Link(c[k]) && m'[c[i] + 1] == Link(c[k]);
    assert m[c[i] + 2] == Link(c[h]) && m'[c[i] + 2] == Link(c[h]);
  }

  lemma LinksStay(m: Mem, m': Mem, v: View, b: nat, j: nat, i: nat)
    requires FreeIndex(m, v.S, v.fl, {b}) && FreeIndex(m', v.S, v.fl, {b}) && |m'| == |m| && j < FREE_LISTS && i < |v.fl[j]|
    ensures var x := v.fl[j][i]; x + 2 < |m| && m'[x + 1] == m[x + 1] && m'[x + 2] == m[x + 2]
  {
    hide IsFree, Ring;
    RingFixes(m, m', v.fl[j], i);
  }

  lemma FreeLinksStay(m: Mem, m': Mem, v: View, b: nat, x: nat)
    requires FreeIndex(m, v.S, v.fl, {b}) && FreeIndex(m', v.S, v.fl, {b}) && |m'| == |m| && IsFree(m, v.S, {b}, x)
    ensures x + 2 < |m| && m'[x + 1] == m[x + 1] && m'[x + 2] == m[x + 2]
  {
    var j := Class(m[x].size);
    var i :| 0 <= i < |v.fl[j]| && v.fl[j][i] == x;
    LinksStay(m, m', v, b, j, i);
  }

  lemma QuickLinkStays(m: Mem, m': Mem, v: View, b: nat, x: nat)
    requires QuickIndexed(m, v.S, v.ql, v.qf, {b}) && QuickIndexed(m', v.S, v.ql, v.qf, {b}) && |m'| == |m| && InQuick(m, v.S, {b}, x)
    ensures x + 1 < |m| && m'[x + 1].size == m[x + 1].size
  {
    hide Chain;
    var j: nat := m[x].size - MIN_ROWS;
    assert QuickOf(m, v.S, {b}, v.ql[j], j) && Chain(m, v.qf[j], v.ql[j]) && Chain(m', v.qf[j], v.ql[j]);
    var k :| 0 <= k < |v.ql[j]| && v.ql[j][k] == x;
    ChainStep(m, v.qf[j], v.ql[j], k);
    ChainStep(m', v.qf[j], v.ql[j], k);
  }

  lemma FirmStays(m: Mem, m': Mem, v: View, b: nat, t: nat)
    requires Inv(m, v, {b}) && Inv(m', v, {b}) && PayloadKept(m, m', v.live) && Scattered(m, m', b) && b in v.S && Firm(m, v, b, t) && t < |m|
    ensures m'[t] == m[t]
  {
    hide FreeIndex, QuickIndexed, Lives, Tags;
    if t in v.S && t != b {
      HeaderStays(m, m', v, b, t);
    } else if t == v.E {
      assert b + 3 <= t;
    } else if HeadRow(t) {
      var j: nat :| j < FREE_LISTS && (t == Sent(j) + 1 || t == Sent(j) + 2);
      HeadLinks(m, m', v, b, j);
    } else if LiveRow(v, t) {
      var x: nat :| PayloadRow(v, x, t);
    } else {
      var x: nat :| IndexRow(m, v, b, x, t);
      FreeLinksStay(m, m', v, b, x);
      FooterStays(m, m', v, b, x);
    }
  }

  lemma HeadLinks(m: Mem, m': Mem, v: View, b: nat, j: nat)
    requires FreeIndex(m, v.S, v.fl, {b}) && FreeIndex(m', v.S, v.fl, {b}) && |m'| == |m| && j < FREE_LISTS
    ensures Sent(j) + 2 < |m| && m'[Sent(j) + 1] == m[Sent(j) + 1] && m'[Sent(j) + 2] == m[Sent(j) + 2]
  {
    assert Ring(m, v.fl[j]);
    LinksStay(m, m', v, b, j, 0);
  }

  /** A heap that survives has changed in allowed rows only. */
  lemma SurvivesAllowed(m: Mem, m': Mem, v: View, b: nat, t: nat)
    requires Hand(m, v, {b}) && Survives(m, m', v, b) && Scattered(m, m', b) && b in v.S && b != BASE && t < |m|
    ensures Allows(m, v, b, t, m'[t])
  {
    assert Open(0);
    hide FreeIndex, QuickIndexed, Lives, Tags, Tiles, Scattered, PayloadKept, Firm;
    if Firm(m, v, b, t) { FirmStays(m, m', v, b, t); }
    if t == b { InHandPrv(m, m', v, b); }
    if QuickRow(m, v, b, t) { QuickLinkStays(m, m', v, b, t - 1); }
  }

  // ---------------------------------------------------------------- the theorem

  /** A store of row r through the word a leaves the heap intact: there is none, or it goes to a row of
      memory that allows it. */
  ghost predicate Fine(m: Mem, v: View, b: nat, a: Row, k: nat, r: Row) {
    a == Link(NULL) || (a == Link(a.size) && a.size + k < |m| && Allows(m, v, b, a.size + k, r))
  }

  /** The second store goes where the first went. */
  predicate Meeting(m: Mem, n: Row, p: Row) {
    && p != Link(NULL) && p == Link(p.size) && p.size + 1 < |m|
    && n != Link(NULL) && n == Link(n.size) && n.size + 2 == p.size + 1
  }

  /** The previous link as it is read again behind the first store. */
  function Again(b: nat, n: Row, p: Row): Row {
    if p == Link(b + 1) then n else p
  }

  /** The rows behind an unlinking whose stores found rows to go to. */
  ghost predicate UnlinkedRows(m: Mem, m': Mem, b: nat, n: Row, p: Row) {
    && |m'| == |m| && b + 2 < |m| && m'[b + 1] == m'[b + 2] == Link(NULL)
    && (p == Link(NULL) || (p == Link(p.size) && p.size + 1 < |m|)) && (n == Link(NULL) || (n == Link(n.size) && n.size + 2 < |m|))
    && forall t :: 0 <= t < |m| && t != b + 1 && t != b + 2 ==>
         m'[t] == if n != Link(NULL) && t == n.size + 2 then Again(b, n, p) else if p != Link(NULL) && t == p.size + 1 then n else m[t]
  }

  lemma UnlinkStores(m: Mem, b: nat)
    requires b + 2 < |m|
    ensures UnlinkAny(m, b).Stored? ==> UnlinkedRows(m, UnlinkAny(m, b).rows, b, m[b + 1], m[b + 2])
    ensures UnlinkAny(m, b).Stray? <==>
      !(m[b + 2] == Link(NULL) || (m[b + 2] == Link(m[b + 2].size) && m[b + 2].size + 1 < |m|))
      || !(m[b + 1] == Link(NULL) || (m[b + 1] == Link(m[b + 1].size) && m[b + 1].size + 2 < |m|))
  {
  }

  lemma UnlinkScatters(m: Mem, m': Mem, b: nat, n: Row, p: Row)
    requires UnlinkedRows(m, m', b, n, p)
    ensures Scattered(m, m', b)
  {
  }

  /** The rows an unlinking writes besides the links of b. */
  lemma UnlinkTargets(m: Mem, m': Mem, v: View, b: nat, n: Row, p: Row)
    requires UnlinkedRows(m, m', b, n, p)
    requires Allows(m, v, b, b + 1, Link(NULL)) && Allows(m, v, b, b + 2, Link(NULL))
    ensures AllAllowed(m, m', v, b) ==> Fine(m, v, b, n, 2, Again(b, n, p)) || n.size + 2 == b + 1 || n.size + 2 == b + 2
    ensures AllAllowed(m, m', v, b) ==> Fine(m, v, b, p, 1, n) || Meeting(m, n, p) || p.size + 1 == b + 1 || p.size + 1 == b + 2
    ensures (Fine(m, v, b, p, 1, n) || Meeting(m, n, p)) && Fine(m, v, b, n, 2, Again(b, n, p)) ==> AllAllowed(m, m', v, b)
  {
    hide Allows;
    if AllAllowed(m, m', v, b) {
      if n != Link(NULL) { assert Allows(m, v, b, n.size + 2, m'[n.size + 2]); }
      if p != Link(NULL) { assert Allows(m, v, b, p.size + 1, m'[p.size + 1]); }
    }
    if (Fine(m, v, b, p, 1, n) || Meeting(m, n, p)) && Fine(m, v, b, n, 2, Again(b, n, p)) {
      forall t: nat | t < |m| ensures Allows(m, v, b, t, m'[t]) {
        if m'[t] == m[t] { SameAllowed(m, v, b, t); }
      }
    }
  }

  lemma SameAllowed(m: Mem, v: View, b: nat, t: nat)
    requires t < |m|
    ensures Allows(m, v, b, t, m[t])
  {
  }

  /** The link rows of the block in hand hold nothing the heap needs. */
  lemma OwnRows(m: Mem, v: View, b: nat, t: nat, r: Row)
    requires Inv(m, v, {b}) && b in v.S && (t == b + 1 || t == b + 2) && t < |m|
    ensures Allows(m, v, b, t, r)
  {
    hide FreeIndex, QuickIndexed, Tags;
    assert t !in v.S && t != v.E && !HeadRow(t) && !QuickRow(m, v, b, t) && !FreeRow(m, v, b, t);
    forall x | x in v.live ensures x in v.S && x != b && v.live[x] == m[x].size { assert IsLive(m, v.S, {b}, x); }
    assert !LiveRow(v, t);
  }

  /** What unlinking a block that is in no list does to the heap: it survives, with the block still in
      hand, exactly when each of the two link words is NULL, or the address of a node whose link row
      allows what is stored in it.  Any other word costs a header, a link or somebody's payload, or is no
      address at all. */
  lemma UnlinkPayloadExact(m: Mem, v: View, b: nat)
    requires Hand(m, v, {b}) && b in v.S && b != BASE && b + 2 < |m|
    ensures var o, n, p := UnlinkAny(m, b), m[b + 1], m[b + 2];
      o.Stored? && Survives(m, o.rows, v, b) <==>
        (Fine(m, v, b, p, 1, n) || Meeting(m, n, p)) && Fine(m, v, b, n, 2, Again(b, n, p))
  {
    hide Allows, Survives, Scattered, UnlinkAny;
    var o, n, p := UnlinkAny(m, b), m[b + 1], m[b + 2];
    OwnAllowed(m, v, b, Link(NULL));
    OwnAllowed(m, v, b, n);
    OwnAllowed(m, v, b, Again(b, n, p));
    UnlinkStores(m, b);
    if o.Stored? {
      UnlinkTargets(m, o.rows, v, b, n, p);
      if AllAllowed(m, o.rows, v, b) { AllowedSurvives(m, o.rows, v, b); }
      if Survives(m, o.rows, v, b) {
        UnlinkScatters(m, o.rows, b, n, p);
        SurvivesAll(m, o.rows, v, b);
      }
    }
  }

  lemma OwnAllowed(m: Mem, v: View, b: nat, r: Row)
    requires Hand(m, v, {b}) && b in v.S && b + 2 < |m|
    ensures Allows(m, v, b, b + 1, r) && Allows(m, v, b, b + 2, r)
  {
    assert Open(0);
    OwnRows(m, v, b, b + 1, r);
    OwnRows(m, v, b, b + 2, r);
  }

  lemma SurvivesAll(m: Mem, m': Mem, v: View, b: nat)
    requires Hand(m, v, {b}) && Survives(m, m', v, b) && Scattered(m, m', b) && b in v.S && b != BASE
    ensures AllAllowed(m, m', v, b)
  {
    hide Allows, Hand, Scattered;
    forall t: nat | t < |m| ensures Allows(m, v, b, t, m'[t]) { SurvivesAllowed(m, m', v, b, t); }
  }

  /** In a flush the next link of the block leads to the next block of the quick list, and what is stored
      there, in the row behind its link, does no harm. */
  lemma FlushLinkFine(m: Mem, v: View, b: nat, q: nat, r: Row)
    requires Hand(m, v, {b}) && b in v.S && InQuick(m, v.S, {b}, q)
    ensures Fine(m, v, b, Link(q), 2, r)
  {
    assert Open(0);
    QuickSpare(m, v, b, q, r);
  }

  lemma QuickSpare(m: Mem, v: View, b: nat, q: nat, r: Row)
    requires Inv(m, v, {b}) && b in v.S && InQuick(m, v.S, {b}, q)
    ensures q + 2 < |m| && Allows(m, v, b, q + 2, r)
  {
    hide FreeIndex, QuickIndexed, Tags;
    var t := q + 2;
    assert t !in v.S && t != v.E && !HeadRow(t) && !QuickRow(m, v, b, t) && !FreeRow(m, v, b, t);
    forall x | x in v.live ensures x in v.S && x != q && v.live[x] == m[x].size { assert IsLive(m, v.S, {b}, x); }
    assert !LiveRow(v, t);
  }

  /** Payload whose second word is the address of the row in front of a live block costs that block its
      header, though the client owns it. */
  lemma UnlinkPayloadHarm(m: Mem, v: View, b: nat, c: nat)
    requires Hand(m, v, {b}) && b in v.S && b != BASE && b + 2 < |m| && c in v.live && 1 < c
    requires m[b + 1] == Link(NULL) && m[b + 2] == Link(c - 1)
    ensures var o := UnlinkAny(m, b); c < |m| && m[c].alc && o.Stored? && c < |o.rows| && o.rows[c] == Link(NULL) && !Survives(m, o.rows, v, b)
  {
    assert Open(0);
    assert IsLive(m, v.S, {b}, c);
    UnlinkPayloadExact(m, v, b);
  }
}
