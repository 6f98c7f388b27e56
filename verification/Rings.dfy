/**
 Linked lists inside a memory of rows: the circular doubly linked free lists with their
 dummy head, and the NULL-terminated quick lists.  A node at address p keeps its next
 link in row p + 1 and its previous link in row p + 2.
 */
module Rings {
  import opened Rows

  type Mem = seq<Row>

  predicate Node(m: Mem, p: nat) {
    0 < p && p + 2 < |m|
  }

  /** The links of p and q occupy different rows. */
  predicate Apart(p: nat, q: nat) {
    p + 3 <= q || q + 3 <= p
  }

  ghost predicate Nodes(m: Mem, c: seq<nat>) {
    && |c| > 0
    && (forall i :: 0 <= i < |c| ==> Node(m, c[i]))
    && (forall i, k :: 0 <= i < k < |c| ==> Apart(c[i], c[k]))
  }

  /** Node k follows node i on a circle of n nodes. */
  predicate Follows(n: nat, i: int, k: int) {
    0 <= i < n && 0 <= k < n && (k == i + 1 || (k == 0 && i == n - 1))
  }

  /** Starting at the head c[0] the next links visit c in order and come back to the head; the
      previous links are their inverse. */
  ghost predicate Ring(m: Mem, c: seq<nat>) {
    && Nodes(m, c)
    && forall i, k {:trigger c[i], c[k]} :: Follows(|c|, i, k) ==>
         m[c[i] + 1] == Link(c[k]) && m[c[k] + 2] == Link(c[i])
  }

  /** Insertion right behind the head s, as addToFreeList does it. */
  function LinkFront(m: Mem, s: nat, b: nat): Mem
    requires Node(m, s) && Node(m, b) && Node(m, m[s + 1].size)
  {
    var f := m[s + 1].size;
    m[b + 1 := Link(f)][b + 2 := Link(s)][f + 2 := Link(b)][s + 1 := Link(b)]
  }

  /** Unlinking of b, as removeFromFreeList does it for a member. */
  function Unlink(m: Mem, b: nat): Mem
    requires Node(m, b) && Node(m, m[b + 1].size) && Node(m, m[b + 2].size)
  {
    var n, p := m[b + 1].size, m[b + 2].size;
    m[p + 1 := Link(n)][n + 2 := Link(p)][b + 1 := Link(NULL)][b + 2 := Link(NULL)]
  }

  function Front(c: seq<nat>, b: nat): seq<nat>
    requires |c| > 0
  {
    [c[0], b] + c[1..]
  }

  function Without(c: seq<nat>, k: nat): seq<nat>
    requires k < |c|
  {
    c[..k] + c[k + 1..]
  }

  function Succ(n: nat, i: nat): (k: nat)
    requires i < n
    ensures Follows(n, i, k)
  {
    if i + 1 == n then 0 else i + 1
  }

  lemma RingFirst(m: Mem, c: seq<nat>)
    requires Ring(m, c)
    ensures Node(m, c[0])
    ensures m[c[0] + 1] == Link(c[Succ(|c|, 0)])
    ensures m[c[Succ(|c|, 0)] + 2] == Link(c[0])
  {
  }

  /** Insertion turns the circle c into the circle with b behind the head. */
  lemma LinkFrontRing(m: Mem, c: seq<nat>, b: nat)
    requires Ring(m, c) && Node(m, b)
    requires forall i :: 0 <= i < |c| ==> Apart(b, c[i])
    ensures Node(m, c[0]) && Node(m, m[c[0] + 1].size)
    ensures Ring(LinkFront(m, c[0], b), [c[0], b] + c[1..])
  {
    RingFirst(m, c);
    var s, n := c[0], |c|;
    var f := c[Succ(n, 0)];
    var c', m' := Front(c, b), LinkFront(m, s, b);
    assert Nodes(m', c') by {
      forall i | 0 <= i < |c'| ensures Node(m', c'[i]) {
        if i >= 2 { assert c'[i] == c[i - 1]; }
      }
      forall i, k | 0 <= i < k < |c'| ensures Apart(c'[i], c'[k]) {
        if k >= 2 { assert c'[k] == c[k - 1]; }
        if i >= 2 { assert c'[i] == c[i - 1]; }
      }
    }
    forall i, k | Follows(|c'|, i, k)
      ensures m'[c'[i] + 1] == Link(c'[k]) && m'[c'[k] + 2] == Link(c'[i])
    {
      if i == 0 {
      } else if i == 1 {
        assert c'[k] == f;
      } else {
        var x := i - 1;
        var y := Succ(n, x);
        assert c'[i] == c[x] && c'[k] == c[y];
        assert m[c[x] + 1] == Link(c[y]) && m[c[y] + 2] == Link(c[x]);
        assert Apart(c[x], s);
        assert y != Succ(n, 0);
        assert c[y] != f;
      }
    }
  }

  lemma UnlinkNeighbours(m: Mem, c: seq<nat>, k: nat)
    requires Ring(m, c) && 0 < k < |c|
    ensures Node(m, c[k]) && m[c[k] + 1] == Link(c[Succ(|c|, k)]) && m[c[k] + 2] == Link(c[k - 1])
    ensures Node(m, c[k - 1]) && Node(m, c[Succ(|c|, k)]) && |Unlink(m, c[k])| == |m|
  {
    assert Follows(|c|, k - 1, k) && Follows(|c|, k, Succ(|c|, k));
  }

  lemma WithoutNodes(m: Mem, m': Mem, c: seq<nat>, k: nat)
    requires Nodes(m, c) && 0 < k < |c| && |m'| == |m|
    ensures Nodes(m', Without(c, k))
  {
    var c' := Without(c, k);
    forall i | 0 <= i < |c'| ensures Node(m', c'[i]) {
      assert c'[i] == c[if i < k then i else i + 1];
    }
    forall i, j | 0 <= i < j < |c'| ensures Apart(c'[i], c'[j]) {
      assert c'[i] == c[if i < k then i else i + 1];
      assert c'[j] == c[if j < k then j else j + 1];
    }
  }

  /** The step of UnlinkRing away from the gap: rows p + 1 and q + 2 are the only link rows of
      remaining nodes that Unlink writes. */
  lemma UnlinkKeeps(m: Mem, c: seq<nat>, k: nat, x: nat)
    requires Ring(m, c) && 0 < k < |c| && x < |c| && x != k
    requires Node(m, c[k]) && m[c[k] + 1] == Link(c[Succ(|c|, k)]) && m[c[k] + 2] == Link(c[k - 1])
    requires Node(m, c[k - 1]) && Node(m, c[Succ(|c|, k)])
    ensures Node(m, c[x])
    ensures x != k - 1 ==> Unlink(m, c[k])[c[x] + 1] == m[c[x] + 1]
    ensures x != Succ(|c|, k) ==> Unlink(m, c[k])[c[x] + 2] == m[c[x] + 2]
  {
    var p, q := c[k - 1], c[Succ(|c|, k)];
    assert Apart(c[x], c[k]);
    assert x != k - 1 ==> Apart(c[x], p);
    assert x != Succ(|c|, k) ==> Apart(c[x], q);
  }

  lemma UnlinkGap(m: Mem, c: seq<nat>, k: nat)
    requires Ring(m, c) && 0 < k < |c|
    requires Node(m, c[k]) && m[c[k] + 1] == Link(c[Succ(|c|, k)]) && m[c[k] + 2] == Link(c[k - 1])
    requires Node(m, c[k - 1]) && Node(m, c[Succ(|c|, k)])
    ensures Unlink(m, c[k])[c[k - 1] + 1] == Link(c[Succ(|c|, k)])
    ensures Unlink(m, c[k])[c[Succ(|c|, k)] + 2] == Link(c[k - 1])
  {
    assert Apart(c[k - 1], c[k]);
    assert Apart(c[Succ(|c|, k)], c[k]);
  }

  /** Unlinking the k-th node turns the circle c into the circle without it. */
  lemma UnlinkRing(m: Mem, c: seq<nat>, k: nat)
    requires Ring(m, c) && 0 < k < |c|
    ensures Node(m, c[k]) && m[c[k] + 1] == Link(c[Succ(|c|, k)]) && m[c[k] + 2] == Link(c[k - 1])
    ensures Node(m, c[k - 1]) && Node(m, c[Succ(|c|, k)])
    ensures Ring(Unlink(m, c[k]), c[..k] + c[k + 1..])
  {
    hide Unlink;
    UnlinkNeighbours(m, c, k);
    var n, c', m' := |c|, Without(c, k), Unlink(m, c[k]);
    WithoutNodes(m, m', c, k);
    forall i, j | Follows(|c'|, i, j)
      ensures m'[c'[i] + 1] == Link(c'[j]) && m'[c'[j] + 2] == Link(c'[i])
    {
      var x, y := if i < k then i else i + 1, if j < k then j else j + 1;
      assert c'[i] == c[x] && c'[j] == c[y];
      if i == k - 1 {
        assert y == Succ(n, k);
        UnlinkGap(m, c, k);
      } else {
        assert Follows(n, x, y);
        UnlinkKeeps(m, c, k, x);
        UnlinkKeeps(m, c, k, y);
      }
    }
  }

  /** A circle depends on the link rows of its nodes only. */
  lemma RingFrame(m: Mem, m': Mem, c: seq<nat>)
    requires Ring(m, c) && |m| <= |m'|
    requires forall i :: 0 <= i < |c| ==> m'[c[i] + 1] == m[c[i] + 1] && m'[c[i] + 2] == m[c[i] + 2]
    ensures Ring(m', c)
  {
    forall i | 0 <= i < |c| ensures Node(m', c[i]) {
      assert Node(m, c[i]);
    }
  }

  // ---------------------------------------------------------------- quick list chains

  /** Following next links from p visits exactly l and ends at NULL. */
  ghost predicate Chain(m: Mem, p: nat, l: seq<nat>)
    decreases |l|
  {
    if l == [] then p == NULL
    else p == l[0] && Node(m, p) && Chain(m, m[p + 1].size, l[1..])
  }

  /** A chain depends on the next links of its nodes only. */
  lemma {:induction false} ChainFrame(m: Mem, m': Mem, p: nat, l: seq<nat>)
    requires Chain(m, p, l) && |m| <= |m'|
    requires forall b :: b in l && b + 1 < |m| ==> m'[b + 1] == m[b + 1]
    ensures Chain(m', p, l)
    decreases |l|
  {
    if l != [] {
      assert l[0] in l;
      forall b | b in l[1..] ensures b in l {}
      ChainFrame(m, m', m[p + 1].size, l[1..]);
    }
  }
}
