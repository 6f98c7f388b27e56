/**
 Filing blocks into and taking blocks out of the free lists and the quick lists.
 */
module ListOps {
  import opened Rows
  import opened Rings
  import opened Tiling
  import opened HeapOps

  /** Only link rows of the nodes p, q and r are written. */
  ghost predicate OnlyLinks(m: Mem, m': Mem, p: nat, q: nat, r: nat) {
    && |m'| == |m|
    && forall j :: 0 <= j < |m| && j != p + 1 && j != p + 2 && j != q + 1 && j != q + 2 && j != r + 1 && j != r + 2 ==>
         m'[j] == m[j]
  }

  /** Node p is a dummy head or a block that is not live. */
  ghost predicate LinkNode(m: Mem, v: View, p: nat) {
    p + 3 <= BASE || (p in v.S && p !in v.live && p != BASE)
  }

  lemma LinksKeepTiles(m: Mem, m': Mem, v: View, p: nat, q: nat, r: nat)
    requires Tiles(m, v.S, v.E) && Fences(m, v.E)
    requires OnlyLinks(m, m', p, q, r) && LinkNode(m, v, p) && LinkNode(m, v, q) && LinkNode(m, v, r)
    ensures Tiles(m', v.S, v.E) && Fences(m', v.E)
    ensures forall x :: x in v.S ==> m'[x] == m[x]
  {
    forall x | x in v.S ensures m'[x] == m[x] && Nx(m', x) == Nx(m, x) {}
  }

  lemma LinksKeepTag(m: Mem, m': Mem, v: View, Y: set<nat>, p: nat, q: nat, r: nat, x: nat)
    requires Tiles(m, v.S, v.E) && Fences(m, v.E) && Tags(m, v.S, v.E, Y) && |m'| == |m| && forall y :: y in v.S ==> m'[y] == m[y]
    requires OnlyLinks(m, m', p, q, r) && LinkNode(m, v, p) && LinkNode(m, v, q) && LinkNode(m, v, r) && x in v.S && x !in Y
    ensures 0 < Nx(m, x) < |m| && m'[Nx(m, x)].prv == m[x].alc
    ensures !m[x].alc ==> m'[Nx(m, x) - 1] == m[x] && !m[x].inq
  {
    assert Nx(m, x) == v.E || Nx(m, x) in v.S;
    assert m'[Nx(m, x)] == m[Nx(m, x)];
    assert m[Nx(m, x)].prv == m[x].alc;
  }

  lemma LinksKeepTags(m: Mem, m': Mem, v: View, Y: set<nat>, p: nat, q: nat, r: nat)
    requires Tiles(m, v.S, v.E) && Fences(m, v.E) && Tags(m, v.S, v.E, Y)
    requires OnlyLinks(m, m', p, q, r) && LinkNode(m, v, p) && LinkNode(m, v, q) && LinkNode(m, v, r)
    ensures Tiles(m', v.S, v.E) && Fences(m', v.E) && Tags(m', v.S, v.E, Y)
    ensures forall x :: x in v.S ==> m'[x] == m[x]
  {
    LinksKeepTiles(m, m', v, p, q, r);
    hide Tiles, Fences, LinkNode;
    forall x | x in v.S && x !in Y
      ensures x < |m| && m'[x] == m[x] && 0 < Nx(m', x) < |m'| && m'[Nx(m', x)].prv == m'[x].alc
      ensures !m'[x].alc ==> m'[Nx(m', x) - 1] == m'[x] && !m'[x].inq
    {
      LinksKeepTag(m, m', v, Y, p, q, r, x);
    }
  }

  lemma LinksKeepPayload(m: Mem, m': Mem, v: View, X: set<nat>, p: nat, q: nat, r: nat)
    requires Tiles(m, v.S, v.E) && Lives(m, v.S, v.live, X)
    requires OnlyLinks(m, m', p, q, r) && LinkNode(m, v, p) && LinkNode(m, v, q) && LinkNode(m, v, r)
    ensures PayloadKept(m, m', v.live)
  {
    forall x, j | x in v.live && x < j < x + v.live[x] && j < |m|
      ensures m'[j] == m[j]
    {
      assert IsLive(m, v.S, X, x);
      LinkRowsOutside(m, v, x, j, p);
      LinkRowsOutside(m, v, x, j, q);
      LinkRowsOutside(m, v, x, j, r);
    }
  }

  lemma LinkRowsOutside(m: Mem, v: View, x: nat, j: nat, p: nat)
    requires Tiles(m, v.S, v.E) && x in v.S && x in v.live && x < j < x + m[x].size && LinkNode(m, v, p)
    ensures j != p + 1 && j != p + 2
  {
  }

  /** Node p is a dummy head or a block outside the quick lists. */
  ghost predicate Clear(m: Mem, v: View, X: set<nat>, p: nat) {
    p + 3 <= BASE || (p in v.S && !InQuick(m, v.S, X, p))
  }

  lemma QuickLinkKept(m: Mem, m': Mem, v: View, X: set<nat>, p: nat, q: nat, r: nat, b: nat)
    requires Tiles(m, v.S, v.E) && InQuick(m, v.S, X, b) && OnlyLinks(m, m', p, q, r)
    requires Clear(m, v, X, p) && Clear(m, v, X, q) && Clear(m, v, X, r)
    ensures b + 1 < |m| && m'[b + 1] == m[b + 1]
  {
  }

  lemma QuickChainKept(m: Mem, m': Mem, v: View, X: set<nat>, p: nat, q: nat, r: nat, j: nat)
    requires Tiles(m, v.S, v.E) && QuickIndexed(m, v.S, v.ql, v.qf, X) && j < QUICK_LISTS
    requires OnlyLinks(m, m', p, q, r)
    requires Clear(m, v, X, p) && Clear(m, v, X, q) && Clear(m, v, X, r)
    ensures Chain(m', v.qf[j], v.ql[j])
  {
    forall b | b in v.ql[j] && b + 1 < |m| ensures m'[b + 1] == m[b + 1] {
      QuickLinkKept(m, m', v, X, p, q, r, b);
    }
    ChainFrame(m, m', v.qf[j], v.ql[j]);
  }

  lemma LinksKeepQuick(m: Mem, m': Mem, v: View, X: set<nat>, X': set<nat>, p: nat, q: nat, r: nat)
    requires Tiles(m, v.S, v.E) && QuickIndexed(m, v.S, v.ql, v.qf, X)
    requires OnlyLinks(m, m', p, q, r)
    requires Clear(m, v, X, p) && Clear(m, v, X, q) && Clear(m, v, X, r)
    requires forall x :: x in v.S ==> m'[x] == m[x]
    requires forall x: nat :: InQuick(m, v.S, X', x) == InQuick(m, v.S, X, x)
    ensures QuickIndexed(m', v.S, v.ql, v.qf, X')
  {
    forall j | 0 <= j < QUICK_LISTS ensures Chain(m', v.qf[j], v.ql[j]) {
      QuickChainKept(m, m', v, X, p, q, r, j);
    }
    KeepMembers(m, m', v.S, v.ql, X, X');
  }

  lemma KeepMembers(m: Mem, m': Mem, S: set<nat>, ql: seq<seq<nat>>, X: set<nat>, X': set<nat>)
    requires |ql| == QUICK_LISTS && QuickMembers(m, S, ql, X)
    requires |m'| == |m| && forall x :: x in S && x < |m| ==> m'[x] == m[x]
    requires forall x: nat :: InQuick(m, S, X', x) == InQuick(m, S, X, x)
    ensures QuickMembers(m', S, ql, X')
  {
    QuickKinds(m, m', S, X, X');
    forall j | 0 <= j < QUICK_LISTS ensures QuickOf(m', S, X', ql[j], j) {
      assert QuickOf(m, S, X, ql[j], j);
    }
  }

  lemma QuickKinds(m: Mem, m': Mem, S: set<nat>, X: set<nat>, X': set<nat>)
    requires |m'| == |m| && forall x :: x in S && x < |m| ==> m'[x] == m[x]
    requires forall x: nat :: InQuick(m, S, X', x) == InQuick(m, S, X, x)
    ensures forall b: nat :: InQuick(m', S, X', b) == InQuick(m, S, X, b)
  {
    forall b: nat ensures InQuick(m', S, X', b) == InQuick(m, S, X, b) {
      assert InQuick(m, S, X', b) == InQuick(m, S, X, b);
    }
  }

  /** Link writes outside the quick lists keep tiling, tags, quick lists, live map and payload. */
  lemma LinksKeep(m: Mem, m': Mem, v: View, X: set<nat>, X': set<nat>, Y: set<nat>, p: nat, q: nat, r: nat)
    requires Inv(m, v, X) && Tags(m, v.S, v.E, Y) && OnlyLinks(m, m', p, q, r)
    requires LinkNode(m, v, p) && LinkNode(m, v, q) && LinkNode(m, v, r)
    requires Clear(m, v, X, p) && Clear(m, v, X, q) && Clear(m, v, X, r)
    requires forall x: nat :: InQuick(m, v.S, X', x) == InQuick(m, v.S, X, x)
    requires forall x: nat :: IsLive(m, v.S, X', x) == IsLive(m, v.S, X, x)
    ensures Tiles(m', v.S, v.E) && Fences(m', v.E) && Tags(m', v.S, v.E, Y)
    ensures QuickIndexed(m', v.S, v.ql, v.qf, X') && Lives(m', v.S, v.live, X')
    ensures PayloadKept(m, m', v.live)
    ensures forall x :: x in v.S ==> m'[x] == m[x]
  {
    LinksKeepTags(m, m', v, Y, p, q, r);
    LinksKeepPayload(m, m', v, X, p, q, r);
    LinksKeepQuick(m, m', v, X, X', p, q, r);
    forall x: nat ensures IsLive(m', v.S, X', x) == IsLive(m, v.S, X, x) {
      assert IsLive(m, v.S, X', x) == IsLive(m, v.S, X, x);
    }
  }

  /** Nodes of the circles are dummy heads or free blocks; different circles are apart. */
  lemma OtherRing(m: Mem, m': Mem, v: View, X: set<nat>, j: nat, i: nat, p: nat, q: nat, r: nat)
    requires Tiles(m, v.S, v.E) && FreeIndex(m, v.S, v.fl, X)
    requires j < FREE_LISTS && i < FREE_LISTS && i != j
    requires OnlyLinks(m, m', p, q, r)
    requires forall u :: u == p || u == q || u == r ==> u in v.fl[j] || (u in v.S && u in X)
    ensures Ring(m', v.fl[i])
  {
    forall k | 0 <= k < |v.fl[i]|
      ensures m'[v.fl[i][k] + 1] == m[v.fl[i][k] + 1] && m'[v.fl[i][k] + 2] == m[v.fl[i][k] + 2]
    {
      var y := v.fl[i][k];
      assert Node(m, y);
      forall u | u == p || u == q || u == r ensures Apart(y, u) {
        if k > 0 { assert IsFree(m, v.S, X, y) && Class(m[y].size) == i; }
        if u in v.fl[j] {
          var l :| 0 <= l < |v.fl[j]| && v.fl[j][l] == u;
          if l > 0 { assert IsFree(m, v.S, X, u) && Class(m[u].size) == j; }
        }
      }
      assert Apart(y, p) && Apart(y, q) && Apart(y, r);
    }
    RingFrame(m, m', v.fl[i]);
  }

  // ---------------------------------------------------------------- addToFreeList

  function Filed(v: View, j: nat, b: nat): View
    requires j < |v.fl| && |v.fl[j]| > 0
  {
    v.(fl := v.fl[j := Front(v.fl[j], b)])
  }

  /** The head of circle j and the node it leads to. */
  lemma HeadAndFirst(m: Mem, v: View, X: set<nat>, j: nat)
    requires FreeIndex(m, v.S, v.fl, X) && j < FREE_LISTS
    ensures |v.fl| == FREE_LISTS && |v.fl[j]| > 0 && v.fl[j][0] == Sent(j) && Node(m, Sent(j)) && Node(m, m[Sent(j) + 1].size)
    ensures m[Sent(j) + 1].size in v.fl[j]
    ensures m[Sent(j) + 1].size == Sent(j) || IsFree(m, v.S, X, m[Sent(j) + 1].size)
  {
    hide IsFree, Class;
    var c := v.fl[j];
    assert Ring(m, c) && c[0] == Sent(j);
    RingFirst(m, c);
    var k := Succ(|c|, 0);
    if k > 0 { assert IsFree(m, v.S, X, c[k]); }
  }

  lemma RingApart(m: Mem, v: View, X: set<nat>, j: nat, b: nat)
    requires Tiles(m, v.S, v.E) && FreeIndex(m, v.S, v.fl, X) && j < FREE_LISTS && b in X && b in v.S
    ensures forall i :: 0 <= i < |v.fl[j]| ==> Apart(b, v.fl[j][i])
  {
    hide Ring, Class;
    forall i | 0 <= i < |v.fl[j]| ensures Apart(b, v.fl[j][i]) {
      if i > 0 { assert IsFree(m, v.S, X, v.fl[j][i]); }
    }
  }

  lemma FrontNodes(m: Mem, v: View, X: set<nat>, j: nat, b: nat)
    requires Tiles(m, v.S, v.E) && FreeIndex(m, v.S, v.fl, X) && j < FREE_LISTS && b in X && b in v.S
    ensures |v.fl[j]| > 0 && Node(m, Sent(j)) && Node(m, b) && Node(m, m[Sent(j) + 1].size)
    ensures OnlyLinks(m, LinkFront(m, Sent(j), b), Sent(j), b, m[Sent(j) + 1].size)
    ensures Ring(LinkFront(m, Sent(j), b), Front(v.fl[j], b))
  {
    HeadAndFirst(m, v, X, j);
    RingApart(m, v, X, j, b);
    assert Ring(m, v.fl[j]);
    hide Ring, FreeIndex, Front;
    LinkFrontRing(m, v.fl[j], b);
  }

  lemma FrontElement(c: seq<nat>, b: nat)
    requires |c| > 0
    ensures forall x :: x in Front(c, b) <==> x in c || x == b
  {
    var c' := Front(c, b);
    assert c'[1] == b;
    forall x | x in c ensures x in c' {
      var k :| 0 <= k < |c| && c[k] == x;
      assert c'[if k == 0 then 0 else k + 1] == x;
    }
  }

  lemma FrontRing(m: Mem, m': Mem, v: View, X: set<nat>, b: nat, j: nat, i: nat)
    requires Tiles(m, v.S, v.E) && FreeIndex(m, v.S, v.fl, X) && b in X && b in v.S && j < FREE_LISTS && i < FREE_LISTS
    requires |v.fl[j]| > 0 && Ring(m', Front(v.fl[j], b)) && m[Sent(j) + 1].size in v.fl[j]
    requires OnlyLinks(m, m', Sent(j), b, m[Sent(j) + 1].size)
    ensures var c := Filed(v, j, b).fl[i]; Ring(m', c) && |c| > 0 && c[0] == Sent(i)
  {
    hide Class, IsFree, OnlyLinks, Tiles;
    if i != j { OtherRing(m, m', v, X, j, i, Sent(j), b, m[Sent(j) + 1].size); }
  }

  lemma FrontRings(m: Mem, m': Mem, v: View, X: set<nat>, b: nat)
    requires Tiles(m, v.S, v.E) && FreeIndex(m, v.S, v.fl, X) && b in X && b in v.S && b < |m|
    requires var j := Class(m[b].size);
      && Ring(m', Front(v.fl[j], b)) && m[Sent(j) + 1].size in v.fl[j]
      && OnlyLinks(m, m', Sent(j), b, m[Sent(j) + 1].size)
    ensures var fl' := Filed(v, Class(m[b].size), b).fl;
      forall i :: 0 <= i < FREE_LISTS ==> Ring(m', fl'[i]) && fl'[i][0] == Sent(i)
  {
    hide IsFree, OnlyLinks, Ring, Tiles;
    HeadAndFirst(m, v, X, Class(m[b].size));
    var fl' := Filed(v, Class(m[b].size), b).fl;
    forall i | 0 <= i < FREE_LISTS ensures Ring(m', fl'[i]) && |fl'[i]| > 0 && fl'[i][0] == Sent(i) {
      FrontRing(m, m', v, X, b, Class(m[b].size), i);
    }
  }

  lemma FrontFreeIndex(m: Mem, m': Mem, v: View, X: set<nat>, b: nat)
    requires FreeIndex(m, v.S, v.fl, X) && b in X && b in v.S && b < |m| && !m[b].alc
    requires var fl' := Filed(v, Class(m[b].size), b).fl;
      forall i :: 0 <= i < FREE_LISTS ==> Ring(m', fl'[i]) && fl'[i][0] == Sent(i)
    requires |m'| == |m| && forall x :: x in v.S && x < |m| ==> m'[x] == m[x]
    ensures FreeIndex(m', v.S, Filed(v, Class(m[b].size), b).fl, X - {b})
  {
    var j := Class(m[b].size);
    var fl', X' := Filed(v, j, b).fl, X - {b};
    FrontElement(v.fl[j], b);
    forall x: nat
      ensures IsFree(m', v.S, X', x) <==> IsFree(m, v.S, X, x) || x == b
    {
    }
    forall i, k | 0 <= i < FREE_LISTS && 1 <= k < |fl'[i]|
      ensures IsFree(m', v.S, X', fl'[i][k]) && Class(m'[fl'[i][k]].size) == i
    {
      if i == j && k > 1 {
        assert fl'[i][k] == v.fl[i][k - 1];
        assert IsFree(m, v.S, X, v.fl[i][k - 1]);
      } else if i != j {
        assert IsFree(m, v.S, X, v.fl[i][k]);
      }
    }
  }

  /** Linking a free, tagged block into the list of its class ends its exemption. */
  lemma FrontInvAt(m: Mem, m': Mem, v: View, X: set<nat>, b: nat, f: nat)
    requires Inv(m, v, X) && b in X && b in v.S && !m[b].alc && Tags(m, v.S, v.E, X - {b})
    requires var j := Class(m[b].size);
      && Ring(m', Front(v.fl[j], b)) && f == m[Sent(j) + 1].size && f in v.fl[j]
      && OnlyLinks(m, m', Sent(j), b, f)
      && (f == Sent(j) || IsFree(m, v.S, X, f))
    ensures Inv(m', Filed(v, Class(m[b].size), b), X - {b})
    ensures PayloadKept(m, m', v.live)
    ensures forall x :: x in v.S ==> m'[x] == m[x]
  {
    LinksKeep(m, m', v, X, X - {b}, X - {b}, Sent(Class(m[b].size)), b, f);
    FrontRings(m, m', v, X, b);
    FrontFreeIndex(m, m', v, X, b);
  }

  ghost predicate CanAddFree(m: Mem, b: nat, E: nat) {
    && b < |m| && CanUpdate(m, b, Flagged(m[b], false, false), E)
    && var m1, s := Update(m, b, Flagged(m[b], false, false), E), Sent(Class(m[b].size));
       Node(m1, s) && Node(m1, b) && Node(m1, m1[s + 1].size) && s + 3 <= b
  }

  /** The rows after addToFreeList. */
  function AddFreeMem(m: Mem, b: nat, E: nat): Mem
    requires CanAddFree(m, b, E)
  {
    LinkFront(Update(m, b, Flagged(m[b], false, false), E), Sent(Class(m[b].size)), b)
  }

  /** A block in hand is back in the index, marked free, at the front of its list. */
  ghost predicate FiledDone(m: Mem, m': Mem, v: View, X: set<nat>, b: nat) {
    && |m'| == |m| && b < |m| && |v.fl| == FREE_LISTS && |v.fl[Class(m[b].size)]| > 0
    && Inv(m', Filed(v, Class(m[b].size), b), X - {b})
    && m'[b] == Flagged(m[b], false, false)
    && (forall x :: x in v.S && x != b && x < |m| ==> SameKind(m[x], m'[x]))
    && PayloadKept(m, m', v.live)
  }

  lemma AddFreeInv(m: Mem, v: View, X: set<nat>, b: nat)
    requires Inv(m, v, X) && b in X && b in v.S
    ensures CanAddFree(m, b, v.E) && FiledDone(m, AddFreeMem(m, b, v.E), v, X, b)
  {
    SetFlagsInv(m, v, X, b, false, false);
    AddFreeLink(m, Update(m, b, Flagged(m[b], false, false), v.E), v, X, b);
  }

  lemma AddFreeLink(m: Mem, m1: Mem, v: View, X: set<nat>, b: nat)
    requires Inv(m1, v, X) && b in X && b in v.S && Tags(m1, v.S, v.E, X - {b})
    requires |m| == |m1| && m1[b] == Flagged(m[b], false, false) && PayloadKept(m, m1, v.live)
    requires forall x :: x in v.S && x != b && x < |m| ==> SameKind(m[x], m1[x])
    ensures var s := Sent(Class(m[b].size));
      && Node(m1, s) && Node(m1, b) && Node(m1, m1[s + 1].size) && s + 3 <= b
      && FiledDone(m, LinkFront(m1, s, b), v, X, b)
  {
    hide Class, Tags, FreeIndex, QuickIndexed, Lives, Ring, LinkFront, Fences;
    var j := Class(m1[b].size);
    FrontNodes(m1, v, X, j, b);
    HeadAndFirst(m1, v, X, j);
    FrontInvAt(m1, LinkFront(m1, Sent(j), b), v, X, b, m1[Sent(j) + 1].size);
  }

  // ---------------------------------------------------------------- removeFromFreeList

  function Unfiled(v: View, j: nat, k: nat): View
    requires j < |v.fl| && k < |v.fl[j]|
  {
    v.(fl := v.fl[j := Without(v.fl[j], k)])
  }

  lemma UnlinkTouches(m: Mem, b: nat)
    requires Node(m, b) && Node(m, m[b + 1].size) && Node(m, m[b + 2].size)
    ensures OnlyLinks(m, Unlink(m, b), m[b + 2].size, m[b + 1].size, b)
  {
  }

  lemma UnlinkNodes(m: Mem, v: View, X: set<nat>, j: nat, k: nat)
    requires Tiles(m, v.S, v.E) && FreeIndex(m, v.S, v.fl, X) && j < FREE_LISTS && 1 <= k < |v.fl[j]|
    ensures var b := v.fl[j][k];
      && IsFree(m, v.S, X, b) && Node(m, b) && Node(m, m[b + 1].size) && Node(m, m[b + 2].size)
      && OnlyLinks(m, Unlink(m, b), m[b + 2].size, m[b + 1].size, b)
      && (forall u :: u == m[b + 1].size || u == m[b + 2].size || u == b ==> u in v.fl[j])
      && Apart(m[b + 2].size, b)
      && Ring(Unlink(m, b), Without(v.fl[j], k))
  {
    hide Tiles, Class, IsFree, Unlink, OnlyLinks;
    assert Ring(m, v.fl[j]);
    assert Apart(v.fl[j][k - 1], v.fl[j][k]);
    UnlinkRing(m, v.fl[j], k);
    UnlinkTouches(m, v.fl[j][k]);
    assert IsFree(m, v.S, X, v.fl[j][k]);
  }

  lemma ListNode(m: Mem, v: View, X: set<nat>, j: nat, u: nat)
    requires FreeIndex(m, v.S, v.fl, X) && j < FREE_LISTS && u in v.fl[j]
    ensures u == Sent(j) || IsFree(m, v.S, X, u)
  {
    var l :| 0 <= l < |v.fl[j]| && v.fl[j][l] == u;
    if l > 0 { assert IsFree(m, v.S, X, v.fl[j][l]); }
  }

  lemma FreeNode(m: Mem, v: View, X: set<nat>, j: nat, u: nat)
    requires Inv(m, v, X) && j < FREE_LISTS && (u == Sent(j) || IsFree(m, v.S, X, u))
    ensures LinkNode(m, v, u) && Clear(m, v, X, u)
  {
    hide FreeIndex, QuickIndexed, Tags;
  }

  /** A free block in hand or not: the quick and the live blocks are the same. */
  lemma TakeFree(m: Mem, S: set<nat>, X: set<nat>, b: nat)
    requires IsFree(m, S, X, b)
    ensures forall x: nat :: InQuick(m, S, X + {b}, x) == InQuick(m, S, X, x)
    ensures forall x: nat :: IsLive(m, S, X + {b}, x) == IsLive(m, S, X, x)
  {
  }

  lemma WithoutElement(c: seq<nat>, k: nat, m: Mem)
    requires Nodes(m, c) && k < |c|
    ensures forall x :: x in Without(c, k) <==> x in c && x != c[k]
  {
    var c' := Without(c, k);
    forall x | x in c && x != c[k] ensures x in c' {
      var l :| 0 <= l < |c| && c[l] == x;
      assert c'[if l < k then l else l - 1] == x;
    }
    forall x | x in c' ensures x in c && x != c[k] {
      var l :| 0 <= l < |c'| && c'[l] == x;
      var l' := if l < k then l else l + 1;
      assert c[l'] == x;
      assert if l' < k then Apart(c[l'], c[k]) else Apart(c[k], c[l']);
    }
  }

  lemma UnlinkRings(m: Mem, m': Mem, v: View, X: set<nat>, j: nat, k: nat)
    requires Tiles(m, v.S, v.E) && FreeIndex(m, v.S, v.fl, X) && j < FREE_LISTS && 1 <= k < |v.fl[j]|
    requires Ring(m', Without(v.fl[j], k)) && v.fl[j][k] + 2 < |m|
    requires OnlyLinks(m, m', m[v.fl[j][k] + 2].size, m[v.fl[j][k] + 1].size, v.fl[j][k])
    requires m[v.fl[j][k] + 1].size in v.fl[j] && m[v.fl[j][k] + 2].size in v.fl[j]
    ensures var fl' := Unfiled(v, j, k).fl;
      forall i :: 0 <= i < FREE_LISTS ==> Ring(m', fl'[i]) && fl'[i][0] == Sent(i)
  {
    var b, fl' := v.fl[j][k], Unfiled(v, j, k).fl;
    forall i | 0 <= i < FREE_LISTS ensures Ring(m', fl'[i]) && fl'[i][0] == Sent(i) {
      if i != j { OtherRing(m, m', v, X, j, i, m[b + 2].size, m[b + 1].size, b); }
    }
  }

  lemma UnlinkFreeIndex(m: Mem, m': Mem, v: View, X: set<nat>, j: nat, k: nat)
    requires Tiles(m, v.S, v.E) && FreeIndex(m, v.S, v.fl, X) && j < FREE_LISTS && 1 <= k < |v.fl[j]|
    requires var fl' := Unfiled(v, j, k).fl;
      forall i :: 0 <= i < FREE_LISTS ==> Ring(m', fl'[i]) && fl'[i][0] == Sent(i)
    requires |m'| == |m| && forall x :: x in v.S ==> m'[x] == m[x]
    ensures FreeIndex(m', v.S, Unfiled(v, j, k).fl, X + {v.fl[j][k]})
  {
    var b, fl', c := v.fl[j][k], Unfiled(v, j, k).fl, v.fl[j];
    var X' := X + {b};
    assert IsFree(m, v.S, X, b) && Class(m[b].size) == j;
    assert Ring(m, c);
    WithoutElement(c, k, m);
    forall x: nat
      ensures IsFree(m', v.S, X', x) <==> IsFree(m, v.S, X, x) && x != b
    {
    }
    forall i, l | 0 <= i < FREE_LISTS && 1 <= l < |fl'[i]|
      ensures IsFree(m', v.S, X', fl'[i][l]) && Class(m'[fl'[i][l]].size) == i
    {
      var l' := if i == j && l >= k then l + 1 else l;
      assert fl'[i][l] == v.fl[i][l'];
      assert IsFree(m, v.S, X, v.fl[i][l']);
      assert i == j ==> fl'[i][l] in fl'[j];
    }
  }

  /** Unlinking the k-th entry of list j takes that free block out of the index. */
  lemma UnlinkInv(m: Mem, v: View, X: set<nat>, j: nat, k: nat)
    requires Inv(m, v, X) && j < FREE_LISTS && 1 <= k < |v.fl[j]|
    ensures var b := v.fl[j][k];
      && IsFree(m, v.S, X, b) && Node(m, b) && Node(m, m[b + 1].size) && Node(m, m[b + 2].size)
      && Apart(m[b + 2].size, b)
      && Inv(Unlink(m, b), Unfiled(v, j, k), X + {b})
      && Tags(Unlink(m, b), v.S, v.E, X)
      && PayloadKept(m, Unlink(m, b), v.live)
      && forall x :: x in v.S ==> Unlink(m, b)[x] == m[x]
  {
    var b := v.fl[j][k];
    UnlinkNodes(m, v, X, j, k);
    UnlinkInvAt(m, Unlink(m, b), v, X, j, k, m[b + 2].size, m[b + 1].size);
  }

  lemma UnlinkInvAt(m: Mem, m': Mem, v: View, X: set<nat>, j: nat, k: nat, p: nat, q: nat)
    requires Inv(m, v, X) && j < FREE_LISTS && 1 <= k < |v.fl[j]|
    requires var b := v.fl[j][k];
      && IsFree(m, v.S, X, b) && b + 2 < |m| && p == m[b + 2].size && q == m[b + 1].size
      && OnlyLinks(m, m', p, q, b) && p in v.fl[j] && q in v.fl[j]
      && Ring(m', Without(v.fl[j], k))
    ensures Inv(m', Unfiled(v, j, k), X + {v.fl[j][k]}) && Tags(m', v.S, v.E, X)
    ensures PayloadKept(m, m', v.live)
    ensures forall x :: x in v.S ==> m'[x] == m[x]
  {
    hide InQuick, IsLive, Class, Ring, LinkNode, Clear, QuickIndexed, Lives;
    var b := v.fl[j][k];
    ListNode(m, v, X, j, p);
    ListNode(m, v, X, j, q);
    FreeNode(m, v, X, j, p);
    FreeNode(m, v, X, j, q);
    FreeNode(m, v, X, j, b);
    TakeFree(m, v.S, X, b);
    LinksKeep(m, m', v, X, X + {b}, X, p, q, b);
    UnlinkRings(m, m', v, X, j, k);
    UnlinkFreeIndex(m, m', v, X, j, k);
  }

  /** A free block sits behind the head of the list of its class. */
  lemma FindFree(m: Mem, v: View, X: set<nat>, b: nat) returns (k: nat)
    requires FreeIndex(m, v.S, v.fl, X) && IsFree(m, v.S, X, b) && BASE <= b
    ensures |v.fl| == FREE_LISTS && 1 <= k < |v.fl[Class(m[b].size)]| && v.fl[Class(m[b].size)][k] == b
  {
    var c := v.fl[Class(m[b].size)];
    k :| 0 <= k < |c| && c[k] == b;
    assert c[0] == Sent(Class(m[b].size));
  }

  // ---------------------------------------------------------------- payload rows of blocks in hand

  /** Any interior row of a block in hand may be overwritten. */
  lemma ScribbleInv(m: Mem, v: View, X: set<nat>, b: nat, j: nat, r: Row)
    requires Inv(m, v, X) && b in X && b in v.S && b < j < b + m[b].size
    ensures j < |m| && Inv(m[j := r], v, X) && PayloadKept(m, m[j := r], v.live)
    ensures forall x :: x in v.S ==> m[j := r][x] == m[x]
  {
    var m' := m[j := r];
    ScribbleTags(m, v.S, v.E, X, b, j, r);
    ScribbleUntouched(m, v.S, v.E, X, b, j, r);
    KeepLists(m, m', v, v.S, X, X);
    PayloadOutside(m, m', v, X, b, b + m[b].size);
  }

  lemma ScribbleUntouched(m: Mem, S: set<nat>, E: nat, X: set<nat>, b: nat, j: nat, r: Row)
    requires Tiles(m, S, E) && b in X && b in S && b < j < b + m[b].size
    ensures Untouched(m, m[j := r], S, S, X, X)
  {
  }

  lemma ScribbleTiles(m: Mem, S: set<nat>, E: nat, b: nat, j: nat, r: Row)
    requires Tiles(m, S, E) && Fences(m, E) && b in S && b < j < b + m[b].size && b != BASE
    ensures j < |m| && Tiles(m[j := r], S, E) && Fences(m[j := r], E)
    ensures forall x :: x in S ==> m[j := r][x] == m[x]
  {
    forall x | x in S ensures m[j := r][x] == m[x] && Nx(m[j := r], x) == Nx(m, x) {}
  }

  lemma ScribbleTag(m: Mem, S: set<nat>, E: nat, X: set<nat>, b: nat, j: nat, r: Row, x: nat)
    requires Tiles(m, S, E) && Tags(m, S, E, X) && b in X && b in S && b < j < b + m[b].size && x in S && x !in X
    ensures j < |m| && x < |m| && m[j := r][x] == m[x] && 0 < Nx(m, x) < |m|
    ensures m[j := r][Nx(m, x)].prv == m[x].alc
    ensures !m[x].alc ==> m[j := r][Nx(m, x) - 1] == m[x] && !m[x].inq
  {
    assert Nx(m, x) == E || Nx(m, x) in S;
    assert m[Nx(m, x)].prv == m[x].alc;
  }

  lemma ScribbleTags(m: Mem, S: set<nat>, E: nat, X: set<nat>, b: nat, j: nat, r: Row)
    requires Tiles(m, S, E) && Fences(m, E) && Tags(m, S, E, X) && b in X && b in S && b < j < b + m[b].size
    requires b != BASE
    ensures Tiles(m[j := r], S, E) && Fences(m[j := r], E) && Tags(m[j := r], S, E, X)
    ensures forall x :: x in S ==> m[j := r][x] == m[x]
  {
    ScribbleTiles(m, S, E, b, j, r);
    hide Tiles, Fences;
    var m' := m[j := r];
    forall x | x in S && x !in X
      ensures x < |m| && m'[x] == m[x] && 0 < Nx(m', x) < |m'| && m'[Nx(m', x)].prv == m'[x].alc
      ensures !m'[x].alc ==> m'[Nx(m', x) - 1] == m'[x] && !m'[x].inq
    {
      ScribbleTag(m, S, E, X, b, j, r, x);
    }
  }

  /** A tagged block in hand, marked allocated, becomes live. */
  lemma SettleLive(m: Mem, v: View, X: set<nat>, b: nat)
    requires Inv(m, v, X) && Tags(m, v.S, v.E, X - {b}) && b in X && b in v.S && m[b].alc && !m[b].inq
    ensures b !in v.live && Inv(m, v.(live := v.live[b := m[b].size]), X - {b})
  {
    var X', v' := X - {b}, v.(live := v.live[b := m[b].size]);
    assert !IsLive(m, v.S, X, b);
    forall x: nat
      ensures IsFree(m, v.S, X', x) == IsFree(m, v.S, X, x) && InQuick(m, v.S, X', x) == InQuick(m, v.S, X, x)
      ensures IsLive(m, v.S, X', x) <==> IsLive(m, v.S, X, x) || x == b
    {
    }
    SettleLists(m, v, X, X');
  }

  lemma SettleLists(m: Mem, v: View, X: set<nat>, X': set<nat>)
    requires FreeIndex(m, v.S, v.fl, X) && QuickIndexed(m, v.S, v.ql, v.qf, X)
    requires forall x: nat :: IsFree(m, v.S, X', x) == IsFree(m, v.S, X, x)
    requires forall x: nat :: InQuick(m, v.S, X', x) == InQuick(m, v.S, X, x)
    ensures FreeIndex(m, v.S, v.fl, X') && QuickIndexed(m, v.S, v.ql, v.qf, X')
  {
  }

  /** Taking a live block in hand. */
  lemma TakeLive(m: Mem, v: View, X: set<nat>, b: nat)
    requires Inv(m, v, X) && b in v.live
    ensures IsLive(m, v.S, X, b)
    ensures Inv(m, v.(live := v.live - {b}), X + {b})
  {
    var X' := X + {b};
    assert IsLive(m, v.S, X, b);
    forall x: nat
      ensures IsFree(m, v.S, X', x) == IsFree(m, v.S, X, x) && InQuick(m, v.S, X', x) == InQuick(m, v.S, X, x)
      ensures IsLive(m, v.S, X', x) <==> IsLive(m, v.S, X, x) && x != b
    {
    }
    SettleLists(m, v, X, X');
  }

  // ---------------------------------------------------------------- quick lists

  function Popped(m: Mem, v: View, j: nat): View
    requires j < |v.ql| && j < |v.qf| && v.ql[j] != [] && v.ql[j][0] + 1 < |m|
  {
    v.(ql := v.ql[j := v.ql[j][1..]], qf := v.qf[j := m[v.ql[j][0] + 1].size])
  }

  function Pushed(v: View, j: nat, b: nat): View
    requires j < |v.ql| && j < |v.qf|
  {
    v.(ql := v.ql[j := [b] + v.ql[j]], qf := v.qf[j := b])
  }

  /** The first block of a quick list, taken in hand by following the list's first pointer. */
  lemma PopInv(m: Mem, v: View, X: set<nat>, j: nat)
    requires Inv(m, v, X) && j < QUICK_LISTS && v.ql[j] != []
    ensures var b := v.ql[j][0];
      && v.qf[j] == b && InQuick(m, v.S, X, b) && m[b].size == j + MIN_ROWS && b + 1 < |m|
      && Inv(m, Popped(m, v, j), X + {b}) && Tags(m, v.S, v.E, X)
  {
    var b := v.ql[j][0];
    assert Chain(m, v.qf[j], v.ql[j]) && Distinct(v.ql[j]);
    assert b in v.ql[j] && InQuick(m, v.S, X, b);
    PopMembers(m, v, X, j);
    forall x: nat
      ensures IsFree(m, v.S, X + {b}, x) == IsFree(m, v.S, X, x)
      ensures IsLive(m, v.S, X + {b}, x) == IsLive(m, v.S, X, x)
    {
    }
  }

  lemma TailElements(l: seq<nat>)
    requires l != [] && Distinct(l)
    ensures forall x :: x in l[1..] <==> x in l && x != l[0]
    ensures Distinct(l[1..])
  {
    forall x | x in l && x != l[0] ensures x in l[1..] {
      var k :| 0 <= k < |l| && l[k] == x;
      assert l[1..][k - 1] == x;
    }
  }

  lemma ConsElements(l: seq<nat>, b: nat)
    requires Distinct(l) && b !in l
    ensures forall x :: x in [b] + l <==> x in l || x == b
    ensures Distinct([b] + l)
  {
    assert ([b] + l)[0] == b;
    forall x | x in l ensures x in [b] + l {
      var k :| 0 <= k < |l| && l[k] == x;
      assert ([b] + l)[k + 1] == x;
    }
  }

  lemma PopMembers(m: Mem, v: View, X: set<nat>, j: nat)
    requires QuickIndexed(m, v.S, v.ql, v.qf, X) && j < QUICK_LISTS && v.ql[j] != [] && v.ql[j][0] + 1 < |m|
    ensures QuickMembers(m, v.S, Popped(m, v, j).ql, X + {v.ql[j][0]})
    ensures Distinct(v.ql[j][1..])
  {
    var l, b, ql', X' := v.ql[j], v.ql[j][0], Popped(m, v, j).ql, X + {v.ql[j][0]};
    assert Distinct(l) && b in l && QuickOf(m, v.S, X, l, j);
    TailElements(l);
    forall x: nat ensures InQuick(m, v.S, X', x) <==> InQuick(m, v.S, X, x) && x != b {}
    forall i | 0 <= i < QUICK_LISTS ensures QuickOf(m, v.S, X', ql'[i], i) {
      assert QuickOf(m, v.S, X, v.ql[i], i);
    }
  }

  /** A tagged block in hand, marked as quick and linked to the old first block, becomes the first. */
  lemma PushInv(m: Mem, v: View, X: set<nat>, j: nat, b: nat)
    requires Inv(m, v, X) && Tags(m, v.S, v.E, X - {b}) && b in X && b in v.S && m[b].alc && m[b].inq
    requires j < QUICK_LISTS && m[b].size == j + MIN_ROWS && b + 1 < |m| && m[b + 1].size == v.qf[j]
    ensures Inv(m, Pushed(v, j, b), X - {b})
  {
    var l, X' := v.ql[j], X - {b};
    PushMembers(m, v, X, j, b);
    assert Chain(m, b, [b] + l) by {
      assert ([b] + l)[1..] == l;
      assert Chain(m, v.qf[j], l);
    }
    forall x: nat
      ensures IsFree(m, v.S, X', x) == IsFree(m, v.S, X, x)
      ensures IsLive(m, v.S, X', x) == IsLive(m, v.S, X, x)
    {
    }
  }

  lemma PushMembers(m: Mem, v: View, X: set<nat>, j: nat, b: nat)
    requires QuickIndexed(m, v.S, v.ql, v.qf, X) && b in X && b in v.S && b < |m| && m[b].alc && m[b].inq
    requires j < QUICK_LISTS && m[b].size == j + MIN_ROWS
    ensures QuickMembers(m, v.S, Pushed(v, j, b).ql, X - {b})
    ensures Distinct([b] + v.ql[j])
  {
    var l, ql', X' := v.ql[j], Pushed(v, j, b).ql, X - {b};
    assert Distinct(l) && QuickOf(m, v.S, X, l, j);
    assert !InQuick(m, v.S, X, b) && b !in l;
    ConsElements(l, b);
    forall x: nat ensures InQuick(m, v.S, X', x) <==> InQuick(m, v.S, X, x) || x == b {}
    forall i | 0 <= i < QUICK_LISTS ensures QuickOf(m, v.S, X', ql'[i], i) {
      assert QuickOf(m, v.S, X, v.ql[i], i);
    }
  }
}
