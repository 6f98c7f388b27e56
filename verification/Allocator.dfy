/**
 The allocator: sf_malloc, sf_free and the operations below them, working in place on the rows.
 */
module Allocator {
  import opened Rows
  import opened Rings
  import opened Tiling
  import opened HeapOps
  import opened ListOps
  import opened Coalescing
  import opened Moves

  class Heap {
    const mem: array<Row>       // dummy list heads, then the heap, then room the heap may grow into
    const qlen: array<nat>      // sf_quick_lists[i].length
    const qfirst: array<nat>    // sf_quick_lists[i].first
    var brk: nat                // sf_mem_end()
    var enomem: bool            // sf_errno == ENOMEM
    ghost var v: View

    /** A heap over a memory system that can supply this many zero-filled pages. */
    constructor (pages: nat)
      requires pages > 0
      ensures Fresh() && mem.Length == BASE + pages * PAGE_ROWS && !enomem
      ensures fresh(mem) && fresh(qlen) && fresh(qfirst)
    {
      mem := new Row[BASE + pages * PAGE_ROWS](i => Row(0, false, false, false));
      qlen := new nat[QUICK_LISTS];
      qfirst := new nat[QUICK_LISTS];
      brk := BASE;
      enomem := false;
      v := InitView(BASE);
    }

    ghost predicate Shape()
      reads this
    {
      qlen != qfirst && qlen.Length == QUICK_LISTS && qfirst.Length == QUICK_LISTS && BASE <= brk <= mem.Length
    }

    /** The heap rows agree with the view, the blocks in X being in hand; no two adjacent blocks
        outside Y are free. */
    ghost predicate Agrees(X: set<nat>, Y: set<nat>)
      reads this, mem
    {
      Shape() && brk == v.E + 1 && Sealed(mem[..], v, X, Y)
    }

    // -------------------------------------------------------------- tags

    method CreateHeaderAndFooter(b: nat, r: Row)
      requires b < mem.Length && 0 < b + r.size <= mem.Length
      modifies mem
      ensures mem[..] == HeaderFooter(old(mem[..]), b, r)
    {
      mem[b] := r;
      mem[b + mem[b].size - 1] := mem[b];
    }

    method UpdateHeader(c: nat, on: bool)
      requires 0 < brk <= mem.Length
      requires c < brk && !mem[c].alc ==> 0 < c + mem[c].size <= mem.Length
      modifies mem
      ensures mem[..] == SetPrv(old(mem[..]), c, on, brk - 1)
    {
      if c >= brk { return; }
      mem[c] := mem[c].(prv := on);
      if !mem[c].alc {
        mem[c + mem[c].size - 1] := mem[c];
      }
    }

    method UpdateBlock(b: nat, r: Row)
      requires 0 < brk <= mem.Length && CanUpdate(mem[..], b, r, brk - 1)
      modifies mem
      ensures mem[..] == Update(old(mem[..]), b, r, brk - 1)
    {
      if r.alc {
        mem[b] := r;
        UpdateHeader(b + r.size, true);
      } else {
        CreateHeaderAndFooter(b, r);
        UpdateHeader(b + r.size, false);
      }
    }

    method UpdateBlockFlags(b: nat, q: bool, a: bool)
      requires 0 < brk <= mem.Length && b < mem.Length && CanUpdate(mem[..], b, Flagged(mem[b], q, a), brk - 1)
      modifies mem
      ensures mem[..] == Update(old(mem[..]), b, Flagged(old(mem[b]), q, a), brk - 1)
    {
      UpdateBlock(b, Row(mem[b].size, q, mem[b].prv, a));
    }

    // -------------------------------------------------------------- free lists

    /** The dummy head of the one list fitsInFreeList accepts with 2. */
    method ListHead(size: nat) returns (head: nat)
      requires MIN_ROWS <= size
      ensures head == Sent(Class(size))
    {
      head := NULL;
      for i := 0 to FREE_LISTS
        invariant head == if Class(size) < i then Sent(Class(size)) else NULL
      {
        FitsIsClass(size, i);
        if Fits(size, i) == 2 {
          head := Sent(i);
        }
      }
    }

    /** Files a block in hand as free, at the front of the list of its class. */
    method AddToFreeList(b: nat)
      requires 0 < brk <= mem.Length && CanAddFree(mem[..], b, brk - 1) && MIN_ROWS <= mem[b].size
      modifies mem
      ensures mem[..] == AddFreeMem(old(mem[..]), b, brk - 1)
    {
      var head := ListHead(mem[b].size);
      UpdateBlockFlags(b, false, false);
      LinkIn(b, head);
    }

    /** The four link assignments of addToFreeList. */
    method LinkIn(b: nat, head: nat)
      requires Node(mem[..], head) && Node(mem[..], b) && Node(mem[..], mem[head + 1].size)
      requires head + 1 != b + 1 && head + 1 != b + 2
      modifies mem
      ensures mem[..] == LinkFront(old(mem[..]), head, b)
    {
      mem[b + 1] := Link(mem[head + 1].size);
      mem[b + 2] := Link(head);
      mem[mem[head + 1].size + 2] := Link(b);
      mem[head + 1] := Link(b);
    }

    /** removeFromFreeList on a member of a list. */
    method RemoveFromFreeList(b: nat)
      requires Node(mem[..], b)
      requires Node(mem[..], mem[b + 1].size) && Node(mem[..], mem[b + 2].size)
      requires Apart(mem[b + 2].size, b)
      modifies mem
      ensures mem[..] == Unlink(old(mem[..]), b)
    {
      if mem[b + 2].size != NULL {
        mem[mem[b + 2].size + 1] := Link(mem[b + 1].size);
      }
      if mem[b + 1].size != NULL {
        mem[mem[b + 1].size + 2] := Link(mem[b + 2].size);
      }
      mem[b + 1] := Link(NULL);
      mem[b + 2] := Link(NULL);
    }

    // -------------------------------------------------------------- coalesce

    /** peerBlock backwards: the header the footer in front of block c leads to, or NULL. */
    method PeerBack(c: nat) returns (p: nat)
      requires BASE < c < brk <= mem.Length
      ensures p != NULL <==> !mem[c].prv && !mem[c - 1].alc && BASE + mem[c - 1].size <= c
                             && mem[c - 1] == mem[c - mem[c - 1].size]
      ensures p != NULL ==> p == c - mem[c - 1].size
    {
      if !mem[c].prv {
        var footer := mem[c - 1];
        if footer.alc { return NULL; }
        if c < BASE + footer.size { return NULL; }
        if mem[c - footer.size] != footer { return NULL; }
        return c - footer.size;
      } else {
        return NULL;
      }
    }

    method MergeNext(a: nat, next: nat)
      requires CanForward(mem[..], a, next)
      modifies mem
      ensures mem[..] == ForwardMem(old(mem[..]), a, next)
    {
      RemoveFromFreeList(next);
      CreateHeaderAndFooter(a, mem[a].(size := mem[a].size + mem[next].size));
    }

    method MergePrev(prev: nat, a: nat)
      requires CanBackward(mem[..], prev, a)
      modifies mem
      ensures mem[..] == BackwardMem(old(mem[..]), prev, a)
    {
      CreateHeaderAndFooter(prev, mem[prev].(size := mem[prev].size + mem[a].size));
      RemoveFromFreeList(prev);
    }

    /** The forward loop of coalesce: absorb free successors. */
    method AbsorbNext(a: nat, ghost m0: Mem, ghost v0: View, ghost b: nat)
      requires Shape() && brk == v.E + 1 && Held(m0, v0, b, mem[..], v, a) && InBounds(mem[..], v, a)
      modifies `v, mem
      ensures brk == v.E + 1 && Held(m0, v0, b, mem[..], v, a) && InBounds(mem[..], v, a)
      ensures mem[a + mem[a].size].alc
    {
      var next := a + mem[a].size;
      while !mem[next].alc
        invariant Shape() && brk == v.E + 1
        invariant Held(m0, v0, b, mem[..], v, a) && InBounds(mem[..], v, a)
        invariant next == a + mem[a].size
        decreases v.E - next
      {
        v := HeldNext(m0, v0, b, mem[..], v, a, next);
        MergeNext(a, next);
        next := a + mem[a].size;
      }
    }

    /** The backward loop of coalesce: let free predecessors absorb the block. */
    method AbsorbPrev(c: nat, ghost m0: Mem, ghost v0: View, ghost b: nat) returns (a: nat)
      requires Shape() && brk == v.E + 1 && Held(m0, v0, b, mem[..], v, c) && InBounds(mem[..], v, c)
      requires mem[c + mem[c].size].alc
      modifies `v, mem
      ensures brk == v.E + 1 && Held(m0, v0, b, mem[..], v, a) && InBounds(mem[..], v, a)
      ensures mem[a].prv && mem[a + mem[a].size].alc
    {
      hide Held, CanBackward, BackwardMem;
      a := c;
      while !mem[a].prv
        invariant Shape() && brk == v.E + 1
        invariant Held(m0, v0, b, mem[..], v, a) && InBounds(mem[..], v, a)
        invariant mem[a + mem[a].size].alc
        decreases a
      {
        ghost var p, v2 := HeldPrev(m0, v0, b, mem[..], v, a);
        var prev := PeerBack(a);
        MergePrev(prev, a);
        a, v := prev, v2;
      }
    }

    /** Merges the block in hand with the free blocks on both sides and files the result.  The
        block may still be marked allocated.  Its own links are payload and are not followed. */
    method Coalesce(b: nat) returns (a: nat)
      requires Agrees({b}, {b}) && b in v.S
      modifies `v, mem
      ensures Agrees({}, {}) && Gathered(old(mem[..]), old(v), b, mem[..], v, a) && InBounds(mem[..], v, a)
    {
      hide Sealed, Held, Gathered, AddFreeMem, CanAddFree, Class;
      ghost var m0, v0 := mem[..], v;
      HeldStart(m0, v0, b);
      AbsorbNext(b, m0, v0, b);
      a := AbsorbPrev(b, m0, v0, b);
      HeldDone(m0, v0, b, mem[..], v, a);
      v := Filed(v, Class(mem[a].size), a);
      AddToFreeList(a);
    }

    // -------------------------------------------------------------- quick lists

    /** The quick list records agree with the view: first pointers, and lengths that count the blocks. */
    ghost predicate QuickArrays()
      reads this, qlen, qfirst
    {
      && Shape() && |v.ql| == |v.qf| == QUICK_LISTS
      && (forall j :: 0 <= j < QUICK_LISTS ==> qfirst[..][j] == v.qf[j] && qlen[..][j] == |v.ql[j]| <= QUICK_MAX)
    }

    /** All invariants of a started heap between two calls. */
    ghost predicate Valid()
      reads this, mem, qlen, qfirst
    {
      Agrees({}, {}) && QuickArrays()
    }

    /** Returns the blocks of a full quick list to the main pool, one by one. */
    method Flush(i: nat)
      requires Valid() && i < QUICK_LISTS
      modifies `v, mem, qlen, qfirst
      ensures Valid() && brk == old(brk) && v == old(v).(S := v.S, fl := v.fl, ql := old(v.ql)[i := []], qf := old(v.qf)[i := NULL])
      ensures forall x :: x in old(v.ql)[i] ==> Covered(mem[..], v.S, x)
      ensures PayloadKept(old(mem[..]), mem[..], v.live)
    {
      hide Sealed, PayloadKept, Covered;
      PayloadSame(mem[..], v.live);
      ghost var m0, v0 := mem[..], v;
      var curr := qfirst[i];
      qlen[i] := 0;
      qfirst[i] := NULL;
      ghost var done := 0;
      ChainEnds(m0, v0, i);
      while curr != NULL
        invariant Shape() && brk == v.E + 1 && Sealed(mem[..], v, {}, {}) && brk == old(brk) && |mem[..]| == |m0|
        invariant 0 <= done <= |v0.ql[i]| && |v.ql| == |v.qf| == QUICK_LISTS
        invariant v == v0.(S := v.S, fl := v.fl, ql := v0.ql[i := v0.ql[i][done..]], qf := v0.qf[i := curr])
        invariant curr == NULL <==> done == |v0.ql[i]|
        invariant forall k :: 0 <= k < done ==> Covered(mem[..], v.S, v0.ql[i][k])
        invariant PayloadKept(m0, mem[..], v.live)
        invariant qlen[i] == 0 && qfirst[i] == NULL
        invariant forall j :: 0 <= j < QUICK_LISTS && j != i ==> qfirst[j] == v0.qf[j] && qlen[j] == |v0.ql[j]| <= QUICK_MAX
        decreases |v0.ql[i]| - done
      {
        ghost var m1 := mem[..];
        var placeholder := FlushFirst(i, curr);
        PayloadChain(m0, m1, mem[..], v.live);
        curr := placeholder;
        done := done + 1;
        ChainEnds(mem[..], v, i);
        assert v0.ql[i][done - 1..][1..] == v0.ql[i][done..];
      }
      assert v0.ql[i][done..] == [];
    }

    /** One round of Flush. */
    method FlushFirst(ghost i: nat, curr: nat) returns (next: nat)
      requires Agrees({}, {}) && i < QUICK_LISTS && |v.ql| == |v.qf| == QUICK_LISTS && v.ql[i] != [] && curr == v.qf[i]
      modifies `v, mem
      ensures Agrees({}, {}) && brk == old(brk) && |v.ql| == |v.qf| == QUICK_LISTS
      ensures v == old(v).(S := v.S, fl := v.fl, ql := old(v.ql)[i := old(v.ql)[i][1..]], qf := old(v.qf)[i := next])
      ensures curr == old(v.ql)[i][0] && Covered(mem[..], v.S, curr)
      ensures forall x :: Covered(old(mem[..]), old(v).S, x) ==> Covered(mem[..], v.S, x)
      ensures PayloadKept(old(mem[..]), mem[..], v.live)
    {
      hide PayloadKept, Covered, Sealed, Gathered, Update, CanUpdate, InBounds;
      ghost var m0 := mem[..];
      FlushRound(m0, v, i);
      next := mem[curr + 1].size;
      UpdateBlockFlags(curr, false, false);
      v := Popped(m0, v, i);
      ghost var m1, v1 := mem[..], v;
      var a := Coalesce(curr);
      GatheredFacts(m1, v1, curr, mem[..], v, a);
      PayloadChain(m0, m1, mem[..], v.live);
    }

    /** Puts a live block on the quick list of its size, flushing the list first when it is full.
        Returns false, having done nothing, when the size has no quick list. */
    method AddToQuickList(b: nat) returns (ok: bool)
      requires Valid() && b in v.live && b < mem.Length
      modifies `v, mem, qlen, qfirst
      ensures Valid() && brk == old(brk)
      ensures ok <==> QuickIndex(8 * old(mem[b].size)) >= 0
      ensures !ok ==> v == old(v) && mem[..] == old(mem[..])
      ensures ok ==> v.live == old(v.live) - {b} && PayloadKept(old(mem[..]), mem[..], v.live)
      ensures ok ==> PushedOn(old(v), mem[..], v, old(mem[b].size) - 4, b)
    {
      hide Sealed, PayloadKept, Covered;
      var i := QuickIndex(8 * mem[b].size);
      if i < 0 || i >= QUICK_LISTS {
        return false;
      }
      ghost var m0, v0 := mem[..], v;
      TakeInHand(m0, v0, b);
      if qlen[i] >= QUICK_MAX {
        Flush(i);
        FlushKeeps(m0, v0, mem[..], v, b);
      }
      ghost var m1, v1 := mem[..], v;
      TakeInHand(m1, v1, b);
      ok := true;
      PushFirst(i, b);
      assert [b] + [] == [b];
      PayloadLess(m0, m1, v0.live, v.live);
      PayloadChain(m0, m1, mem[..], v.live);
    }

    /** The end of addToQuickList. */
    method PushFirst(i: nat, b: nat)
      requires Valid() && b in v.live && b < mem.Length && i < QUICK_LISTS && mem[b].size == i + MIN_ROWS
      requires |v.ql[i]| < QUICK_MAX && Sealed(mem[..], v.(live := v.live - {b}), {b}, {b}) && b in v.S && mem[b].alc
      modifies `v, mem, qlen, qfirst
      ensures Valid() && brk == old(brk) && v == Pushed(old(v), i, b).(live := old(v).live - {b})
      ensures PayloadKept(old(mem[..]), mem[..], v.live)
      ensures forall x :: Covered(old(mem[..]), v.S, x) ==> Covered(mem[..], v.S, x)
    {
      hide Sealed, PayloadKept, Covered, Update, CanUpdate;
      ghost var m0, v0 := mem[..], v.(live := v.live - {b});
      PushRound(m0, v0, i, b);
      qlen[i] := qlen[i] + 1;
      mem[b + 1] := Link(qfirst[i]);
      qfirst[i] := b;
      v := Pushed(v0, i, b);
      UpdateBlockFlags(b, true, true);
    }

    // -------------------------------------------------------------- sf_free

    /** validFreePtr: the checks sf_free makes before it trusts a pointer. */
    method ValidFreePtr(pp: nat) returns (ok: bool)
      requires Valid() && FreeArgument(pp)
      ensures ok <==> pp % 8 == 0 && 8 <= pp && pp / 8 - 1 in v.live
    {
      if pp == 0 || pp <= 8 * BASE || pp % 8 != 0 {
        LiveAbove(mem[..], v);
        return false;
      }
      var b := pp / 8 - 1;
      LiveLooks(mem[..], v, b);
      if mem[b].size < MIN_ROWS || b < BASE || b + mem[b].size > brk || !mem[b].alc || mem[b].inq {
        return false;
      }
      if !mem[b].prv {
        var p := PeerBack(b);
        if p == NULL { return false; }
      }
      return true;
    }

    /** A pointer sf_free can look at: NULL, misaligned, below the heap, or behind the header of some
        block, live or not, of the heap. */
    ghost predicate FreeArgument(pp: nat)
      reads this
    {
      pp % 8 == 0 && pp > 8 * BASE ==> pp / 8 - 1 != BASE && (pp / 8 - 1 in v.S || pp / 8 - 1 == v.E)
    }

    /** sf_free; ok is false where the program aborts. */
    method Free(pp: nat) returns (ok: bool)
      requires Valid() && FreeArgument(pp)
      modifies `v, mem, qlen, qfirst
      ensures Valid() && brk == old(brk)
      ensures ok <==> pp % 8 == 0 && 8 <= pp && pp / 8 - 1 in old(v.live)
      ensures !ok ==> v == old(v) && mem[..] == old(mem[..])
      ensures ok ==> v.live == old(v.live) - {pp / 8 - 1} && PayloadKept(old(mem[..]), mem[..], v.live)
      ensures ok ==> var b := pp / 8 - 1;
        if old(v.live)[b] - MIN_ROWS < QUICK_LISTS
        then PushedOn(old(v), mem[..], v, old(v.live)[b] - MIN_ROWS, b)
        else Covered(mem[..], v.S, b) && v.ql == old(v.ql)
    {
      hide Sealed, PayloadKept, Covered, PushedOn, Gathered;
      ok := ValidFreePtr(pp);
      if !ok { return; }
      var b := pp / 8 - 1;
      TakeInHand(mem[..], v, b);
      var quick := AddToQuickList(b);
      if !quick {
        ghost var m0 := mem[..];
        v := v.(live := v.live - {b});
        ghost var v0 := v;
        var a := Coalesce(b);
        GatheredFacts(m0, v0, b, mem[..], v, a);
      }
    }

    // -------------------------------------------------------------- splitBlock and handing out

    /** splitBlock on a free block, as sf_malloc calls it: cut off what exceeds n rows, unless less
        than a minimal block would remain. */
    method SplitBlock(b: nat, n: nat)
      requires Valid() && FreeIn(mem[..], v, b) && MIN_ROWS <= n <= mem[b].size
      modifies `v, mem
      ensures Agrees({}, {b}) && brk == old(brk) && FreeIn(mem[..], v, b)
      ensures v == old(v).(S := v.S, fl := v.fl) && PayloadKept(old(mem[..]), mem[..], v.live)
      ensures OthersKept(old(mem[..]), mem[..], old(v).S, b)
      ensures old(mem[b].size) < n + MIN_ROWS ==> mem[..] == old(mem[..]) && v == old(v)
      ensures old(mem[b].size) >= n + MIN_ROWS ==> v.S == old(v).S + {b + n} && SplitInTwo(old(mem[..]), mem[..], old(v), b, n)
    {
      if mem[b].size - n < MIN_ROWS {
        WeakenAdjacent(mem[..], v, b);
        return;
      }
      CutInTwo(b, n);
    }

    /** The header writes of splitBlock, the remainder first. */
    method SplitHeaders(b: nat, n: nat)
      requires b < mem.Length && 0 < n < mem[b].size && b + mem[b].size <= mem.Length
      modifies mem
      ensures mem[..] == SplitRows(old(mem[..]), b, n)
    {
      CreateHeaderAndFooter(b + n, Row(mem[b].size - n, false, false, false));
      CreateHeaderAndFooter(b, mem[b].(size := n));
    }

    /** splitBlock when both parts are large enough. */
    method CutInTwo(b: nat, n: nat)
      requires Agrees({}, {}) && FreeIn(mem[..], v, b) && MIN_ROWS <= n && n + MIN_ROWS <= mem[b].size
      modifies `v, mem
      ensures Agrees({}, {b}) && brk == old(brk) && FreeIn(mem[..], v, b)
      ensures v == old(v).(S := old(v).S + {b + n}, fl := v.fl) && SplitInTwo(old(mem[..]), mem[..], old(v), b, n)
      ensures PayloadKept(old(mem[..]), mem[..], v.live)
      ensures OthersKept(old(mem[..]), mem[..], old(v).S, b)
    {
      hide Sealed, Hand, PayloadKept, OthersKept, Cut, FreedAs, SplitInTwo, Class;
      ghost var m, v0 := mem[..], v;
      ghost var m1, w := UnlinkAndCut(b, n);
      ghost var s := mem[..];
      ghost var t, w1 := FileSplit(b, b + n, w);
      v := Filed(w1, Class(t[b + n].size), b + n);
      SplitFinish(m, m1, s, t, mem[..], v0, w, v, b, n);
      StillFree(mem[..], v, b);
    }

    /** The first half of splitBlock: out of the list, then two headers. */
    method UnlinkAndCut(b: nat, n: nat) returns (ghost m1: Mem, ghost w: View)
      requires Agrees({}, {}) && FreeIn(mem[..], v, b) && MIN_ROWS <= n && n + MIN_ROWS <= mem[b].size
      modifies mem
      ensures Cut(old(mem[..]), m1, mem[..], v, b, n) && w == v.(S := v.S + {b + n}, fl := w.fl)
      ensures Hand(mem[..], w, {b, b + n})
    {
      ghost var v1 := UnlinkHand(mem[..], v, b);
      RemoveFromFreeList(b);
      m1 := mem[..];
      SplitHand(m1, v1, b, n);
      SplitHeaders(b, n);
      w := v1.(S := v1.S + {b + n});
    }

    /** The two calls of addToFreeList in splitBlock. */
    method FileSplit(b: nat, d: nat, ghost w: View) returns (ghost t: Mem, ghost w1: View)
      requires 0 < brk == w.E + 1 <= mem.Length && b != d
      requires Hand(mem[..], w, {b, d}) && b in w.S && d in w.S
      modifies mem
      ensures w1 == w.(fl := w1.fl) && d < |t| && |w1.fl| == FREE_LISTS && |w1.fl[Class(t[d].size)]| > 0
      ensures Hand(mem[..], Filed(w1, Class(t[d].size), d), {})
      ensures FreedAs(old(mem[..]), t, w, b) && FreedAs(t, mem[..], w, d)
    {
      assert {b, d} - {b} == {d} && {d} - {d} == {};
      w1 := FileAs(b, {b, d}, w);
      t := mem[..];
      ghost var w2 := FileAs(d, {d}, w1);
    }

    /** addToFreeList on a block in hand. */
    method FileAs(b: nat, ghost X: set<nat>, ghost w: View) returns (ghost w1: View)
      requires 0 < brk == w.E + 1 <= mem.Length && Hand(mem[..], w, X) && b in X && b in w.S
      modifies mem
      ensures b < mem.Length && |w.fl| == FREE_LISTS && |w.fl[Class(old(mem[..])[b].size)]| > 0
      ensures w1 == Filed(w, Class(old(mem[..])[b].size), b)
      ensures Hand(mem[..], w1, X - {b}) && FreedAs(old(mem[..]), mem[..], w, b)
    {
      FileStep(mem[..], w, X, b);
      w1 := Filed(w, Class(mem[b].size), b);
      AddToFreeList(b);
    }

    /** removeFromFreeList and updateBlockFlags on a block that is handed to the client. */
    method HandOut(b: nat)
      requires Agrees({}, {b}) && FreeIn(mem[..], v, b)
      modifies `v, mem
      ensures Agrees({}, {}) && brk == old(brk)
      ensures b !in old(v.live) && v == old(v).(live := old(v.live)[b := old(mem[b].size)], fl := v.fl)
      ensures PayloadKept(old(mem[..]), mem[..], old(v.live)) && OthersKept(old(mem[..]), mem[..], v.S, b)
      ensures mem[b].size == old(mem[b].size)
    {
      ghost var v2 := HandOutRound(mem[..], v, {b}, b);
      RemoveFromFreeList(b);
      UpdateBlockFlags(b, false, true);
      v := v2;
    }

    // -------------------------------------------------------------- heap growth

    /** expandHeap: one more page, turned into a free block and coalesced; NULL when the memory
        system has no page left. */
    method ExpandHeap() returns (a: nat)
      requires Agrees({}, {})
      modifies `v, `brk, mem
      ensures Agrees({}, {})
      ensures a == NULL <==> old(brk) + 512 > mem.Length
      ensures a == NULL ==> brk == old(brk) && v == old(v) && mem[..] == old(mem[..])
      ensures a != NULL ==> GrownTo(old(mem[..]), old(v), mem[..], v, a) && brk == old(brk) + 512
    {
      var oldEp := brk - 1;
      ghost var m, v0 := mem[..], v;
      if brk + PAGE_ROWS > mem.Length {
        return NULL;
      }
      GrowRound(m, v0);
      brk := brk + PAGE_ROWS;
      var newEp := brk - 1;
      CreateHeaderAndFooter(oldEp, Row(newEp - oldEp, false, mem[oldEp].prv, false));
      UpdateBlock(newEp, Row(1, false, false, true));
      assert mem[..] == GrowRows(m, oldEp);
      v := v0.(S := v0.S + {oldEp}, E := newEp);
      ghost var m1, v1 := mem[..], v;
      a := Coalesce(oldEp);
      TailGrown(m, v0, m1, v1, mem[..], v, a);
      PayloadChain(m, m1, mem[..], v.live);
    }

    /** A heap nothing has been allocated from yet; the first page is there to be taken. */
    ghost predicate Fresh()
      reads this, mem
    {
      && Shape() && brk == BASE && BASE + PAGE_ROWS <= mem.Length && v.live == map[]
      && forall i :: 0 <= i < mem.Length ==> mem[i] == Row(0, false, false, false)
    }

    /** initHeap: prologue, epilogue, one free block over the rest of the page, empty lists. */
    method InitHeap()
      requires Fresh()
      modifies `v, `brk, mem, qlen, qfirst
      ensures Valid() && v.live == map[] && brk == BASE + 512 && v.E == brk - 1
      ensures v.S == {BASE, BASE + 4} && mem[BASE].alc && !mem[BASE + 4].alc
      ensures mem[BASE].size == 4 && mem[BASE + 4].size == 507
      ensures |v.fl| == 10 && v.fl[7] == [Sent(7), BASE + 4] && forall j :: 0 <= j < 10 && j != 7 ==> v.fl[j] == [Sent(j)]
      ensures |v.ql| == 20 && forall j :: 0 <= j < 20 ==> v.ql[j] == []
    {
      hide Sealed, AddFreeMem, CanAddFree, TagRows, Class;
      ClassBytes(507);
      brk := brk + PAGE_ROWS;
      var epilogue := brk - 1;
      var freeBlock := BASE + MIN_ROWS;
      InitTags(epilogue);
      ClearQuickLists();
      ClearFreeLists();
      InitRound(mem[..], epilogue);
      v := Filed(InitView(epilogue), Class(mem[freeBlock].size), freeBlock);
      AddToFreeList(freeBlock);
    }

    /** Headers and footers of the first page. */
    method InitTags(epilogue: nat)
      requires epilogue == brk - 1 == BASE + PAGE_ROWS - 1 < mem.Length
      requires forall i :: 0 <= i < mem.Length ==> mem[i] == Row(0, false, false, false)
      modifies mem
      ensures TagRows(mem[..], epilogue)
    {
      var prologue := BASE;
      var freeBlock := prologue + MIN_ROWS;
      UpdateBlock(prologue, Row(MIN_ROWS, false, false, true));
      UpdateBlock(epilogue, Row(1, false, false, true));
      UpdateBlock(freeBlock, Row(epilogue - freeBlock, false, true, false));
    }

    method ClearQuickLists()
      requires qlen != qfirst && qlen.Length == QUICK_LISTS && qfirst.Length == QUICK_LISTS
      modifies qlen, qfirst
      ensures forall j :: 0 <= j < QUICK_LISTS ==> qlen[j] == 0 && qfirst[j] == NULL
    {
      for i := 0 to QUICK_LISTS
        invariant forall j :: 0 <= j < i ==> qlen[j] == 0 && qfirst[j] == NULL
      {
        qlen[i] := 0;
        qfirst[i] := NULL;
      }
    }

    method ClearFreeLists()
      requires BASE <= mem.Length
      modifies mem
      ensures forall j :: 0 <= j < FREE_LISTS ==> mem[Sent(j) + 1] == Link(Sent(j)) && mem[Sent(j) + 2] == Link(Sent(j))
      ensures forall j :: BASE <= j < mem.Length ==> mem[j] == old(mem[j])
    {
      for i := 0 to FREE_LISTS
        invariant forall j :: 0 <= j < i ==> mem[Sent(j) + 1] == Link(Sent(j)) && mem[Sent(j) + 2] == Link(Sent(j))
        invariant forall j :: BASE <= j < mem.Length ==> mem[j] == old(mem[j])
      {
        mem[Sent(i) + 1] := Link(Sent(i));
        mem[Sent(i) + 2] := Link(Sent(i));
      }
    }

    // -------------------------------------------------------------- sf_malloc

    /** The free list search of sf_malloc: b is the first block with n rows in list j, at position k
        behind the head, and no list in front of it holds one. */
    method SearchFreeLists(n: nat) returns (b: nat, ghost j: nat, ghost k: nat)
      requires Agrees({}, {}) && MIN_ROWS <= n && |v.fl| == FREE_LISTS
      ensures b != NULL ==> j < FREE_LISTS && 1 <= k < |v.fl[j]| && b == v.fl[j][k] && FreeIn(mem[..], v, b) && b < mem.Length && n <= mem[b].size
      ensures b != NULL ==> forall l :: 1 <= l < k ==> v.fl[j][l] < mem.Length && mem[v.fl[j][l]].size < n
      ensures b != NULL ==> forall i, l :: 0 <= i < j && 1 <= l < |v.fl[i]| ==> v.fl[i][l] < mem.Length && mem[v.fl[i][l]].size < n
      ensures b == NULL ==> forall x: nat :: FreeIn(mem[..], v, x) ==> mem[x].size < n
    {
      hide Sealed, Fits;
      ghost var m := mem[..];
      for i := 0 to FREE_LISTS
        invariant forall h, l :: 0 <= h < i && 1 <= l < |v.fl[h]| ==> v.fl[h][l] < |m| && m[v.fl[h][l]].size < n
      {
        RingHead(m, v, i);
        if Fits(n, i) != 0 {
          RingWalk(m, v, i, 0);
          var curr := mem[Sent(i) + 1].size;
          k := 1;
          while curr != Sent(i)
            invariant 1 <= k <= |v.fl[i]| && curr == if k < |v.fl[i]| then v.fl[i][k] else Sent(i)
            invariant forall l :: 1 <= l < k ==> v.fl[i][l] < |m| && m[v.fl[i][l]].size < n
            decreases |v.fl[i]| - k
          {
            RingWalk(m, v, i, k);
            if mem[curr].size >= n {
              MemberFree(m, v, i, k);
              return curr, i, k;
            }
            curr := mem[curr + 1].size;
            k := k + 1;
          }
          RingWalk(m, v, i, 0);
          assert k == |v.fl[i]| by { if k < |v.fl[i]| { RingWalk(m, v, i, k); } }
        } else {
          SkippedList(m, v, i, n);
        }
      }
      FirstFitComplete(m, v, n);
      b, j, k := NULL, 0, 0;
    }

    /** Takes the latest block off quick list i.  The length is counted down with it, as its
        documentation says. */
    method PopQuickList(i: nat) returns (b: nat)
      requires Valid() && i < QUICK_LISTS && v.ql[i] != []
      modifies `v, mem, qlen, qfirst
      ensures Valid() && brk == old(brk) && b == old(v.ql)[i][0] && NULL < b < mem.Length && b !in old(v.live)
      ensures mem[b].size == old(mem[..])[b].size == i + MIN_ROWS
      ensures v == old(v).(ql := old(v.ql)[i := old(v.ql)[i][1..]], qf := v.qf, live := old(v.live)[b := i + MIN_ROWS])
      ensures PayloadKept(old(mem[..]), mem[..], old(v.live))
    {
      hide Sealed, PayloadKept, Update, CanUpdate;
      b := qfirst[i];
      ghost var v2 := PopStep(mem[..], v, i);
      PopFirst(i, mem[b + 1].size);
      UpdateBlockFlags(b, false, true);
      v := v2;
    }

    /** The record of quick list i after its first block is gone. */
    method PopFirst(i: nat, next: nat)
      requires qlen != qfirst && i < qlen.Length && i < qfirst.Length && qlen[i] > 0
      modifies qlen, qfirst
      ensures qfirst[..] == old(qfirst[..])[i := next] && qlen[..] == old(qlen[..])[i := old(qlen[i]) - 1]
    {
      qfirst[i] := next;
      qlen[i] := qlen[i] - 1;
    }

    /** Trims the chosen free block to n rows where possible and hands it out. */
    method TakeFree(b: nat, n: nat)
      requires Valid() && FreeIn(mem[..], v, b) && MIN_ROWS <= n <= mem[b].size
      modifies `v, mem
      ensures Valid() && brk == old(brk) && b !in old(v.live) && b < mem.Length
      ensures mem[b].size == if old(mem[b].size) < n + MIN_ROWS then old(mem[b].size) else n
      ensures v.live == old(v.live)[b := mem[b].size] && v.ql == old(v.ql)
      ensures v.S == if old(mem[b].size) < n + MIN_ROWS then old(v).S else old(v).S + {b + n}
      ensures PayloadKept(old(mem[..]), mem[..], old(v.live)) && OthersKept(old(mem[..]), mem[..], old(v).S, b)
    {
      ghost var m := mem[..];
      SplitBlock(b, n);
      ghost var m1, S1 := mem[..], v.S;
      HandOut(b);
      PayloadChain(m, m1, mem[..], old(v.live));
      OthersChain(m, m1, mem[..], old(v).S, S1, b);
    }

    /** The growth loop of sf_malloc: grow until the tail is large enough, and hand it out whole. */
    method GrowAndTake(n: nat) returns (b: nat)
      requires Valid() && MIN_ROWS <= n && forall x: nat :: FreeIn(mem[..], v, x) ==> mem[x].size < n
      modifies `v, `brk, mem
      ensures Valid() && v.ql == old(v.ql) && PayloadKept(old(mem[..]), mem[..], old(v.live))
      ensures b == NULL ==> v.live == old(v.live) && brk + PAGE_ROWS > mem.Length
      ensures b == NULL ==> forall x: nat :: FreeIn(mem[..], v, x) ==> mem[x].size < n
      ensures b != NULL ==> b < mem.Length && b !in old(v.live) && v.live == old(v.live)[b := mem[b].size]
      ensures b != NULL ==> n <= mem[b].size < n + PAGE_ROWS && brk > old(brk)
    {
      hide Sealed, PayloadKept, OthersKept;
      PayloadSame(mem[..], v.live);
      ghost var m0, v0 := mem[..], v;
      TailSmall(m0, v0, n);
      while true
        invariant Agrees({}, {}) && QuickArrays() && v.ql == v0.ql && v.live == v0.live && |mem[..]| == |m0|
        invariant PayloadKept(m0, mem[..], v0.live)
        invariant forall x: nat :: FreeIn(mem[..], v, x) ==> mem[x].size < n
        invariant 0 < v.E < |mem[..]| && TailRows(mem[..], v.E) < n && brk >= old(brk)
        decreases mem.Length - brk
      {
        ghost var m1 := mem[..];
        b := ExpandHeap();
        if b == NULL {
          return;
        }
        PayloadChain(m0, m1, mem[..], v0.live);
        ghost var m2 := mem[..];
        if mem[b].size >= n {
          WeakenAdjacent(m2, v, b);
          HandOut(b);
          PayloadChain(m0, m2, mem[..], v0.live);
          return;
        }
        TailSmall(m2, v, n);
      }
    }

    /** Quick list q, if there is one, is empty. */
    ghost predicate NoQuick(q: int)
      reads `v
    {
      0 <= q < |v.ql| ==> v.ql[q] == []
    }

    /** sf_malloc on a started heap.  A quick list serves a request for blocks of its size with its latest
        block; else the block is the first one large enough, position k of list j, and none of the lists in
        front of j holds one; else the heap grows. */
    method Allocate(size: nat) returns (b: nat, ghost j: nat, ghost k: nat)
      requires Valid() && 0 < size < 0x1_0000_0000_0000_0000
      modifies this, mem, qlen, qfirst
      ensures Valid() && PayloadKept(old(mem[..]), mem[..], old(v.live))
      ensures b == NULL ==> enomem && v.live == old(v.live) && brk + PAGE_ROWS > mem.Length
      ensures b == NULL ==> Stuck(mem[..], v, BlockBytes(size) / 8, QuickIndex(BlockBytes(size)))
      ensures b != NULL ==> enomem == old(enomem) && b < mem.Length && b !in old(v.live)
      ensures b != NULL ==> v.live == old(v.live)[b := mem[b].size]
      ensures b != NULL ==> BlockBytes(size) / 8 <= mem[b].size < BlockBytes(size) / 8 + PAGE_ROWS
      ensures (b == NULL || brk > old(brk)) <==> old(Stuck(mem[..], v, BlockBytes(size) / 8, QuickIndex(BlockBytes(size))))
      ensures old(!NoQuick(QuickIndex(BlockBytes(size)))) ==> b == old(v.ql)[QuickIndex(BlockBytes(size))][0] && mem[b].size == BlockBytes(size) / 8
      ensures |old(v.fl)| == FREE_LISTS
      ensures b != NULL && brk == old(brk) && old(NoQuick(QuickIndex(BlockBytes(size)))) ==> j < FREE_LISTS && 1 <= k < |old(v.fl)[j]| && b == old(v.fl)[j][k]
      ensures b != NULL && brk == old(brk) && old(NoQuick(QuickIndex(BlockBytes(size)))) ==> BlockBytes(size) / 8 <= old(mem[..])[b].size
      ensures b != NULL && brk == old(brk) && old(NoQuick(QuickIndex(BlockBytes(size)))) ==> mem[b].size == if old(mem[..])[b].size < BlockBytes(size) / 8 + MIN_ROWS then old(mem[..])[b].size else BlockBytes(size) / 8
      ensures b != NULL && brk == old(brk) && old(NoQuick(QuickIndex(BlockBytes(size)))) ==> forall l :: 1 <= l < k ==> old(v.fl)[j][l] < mem.Length && old(mem[..])[old(v.fl)[j][l]].size < BlockBytes(size) / 8
      ensures b != NULL && brk == old(brk) && old(NoQuick(QuickIndex(BlockBytes(size)))) ==> forall i, l :: 0 <= i < j && 1 <= l < |old(v.fl)[i]| ==> old(v.fl)[i][l] < mem.Length && old(mem[..])[old(v.fl)[i][l]].size < BlockBytes(size) / 8
    {
      hide Sealed, PayloadKept, OthersKept, BlockBytes, QuickIndex;
      QuickIndexSize(BlockBytes(size));
      PayloadSame(mem[..], v.live);
      ListCount(mem[..], v);
      BlockBytesRoom(size);
      var blockSize := BlockBytes(size);
      var n := blockSize / 8;
      var i := QuickIndex(blockSize);
      if i >= 0 && qlen[i] > 0 {
        b := PopQuickList(i);
        j, k := 0, 0;
        return;
      }
      b, j, k := SearchFreeLists(n);
      if b != NULL {
        TakeFree(b, n);
        return;
      }
      b := GrowAndTake(n);
      if b == NULL {
        enomem := true;
      }
    }

    /** sf_malloc.  The result is a byte address, or NULL. */
    method Malloc(size: nat) returns (p: nat)
      requires size < 0x1_0000_0000_0000_0000 && (Fresh() || Valid())
      modifies this, mem, qlen, qfirst
      ensures size == 0 ==> p == 0 && v == old(v) && mem[..] == old(mem[..]) && enomem == old(enomem) && (Fresh() || Valid())
      ensures size != 0 ==> Valid()
      ensures PayloadKept(old(mem[..]), mem[..], old(v.live))
      ensures p == 0 ==> v.live == old(v.live)
      ensures p == 0 && size != 0 ==> enomem && brk + PAGE_ROWS > mem.Length
      ensures p == 0 && size != 0 ==> Stuck(mem[..], v, BlockBytes(size) / 8, QuickIndex(BlockBytes(size)))
      ensures p != 0 ==> enomem == old(enomem) && p % 8 == 0 && 8 <= p && HandedOut(old(v.live), v, p / 8 - 1, size)
    {
      hide Sealed, BlockBytes, Stuck;
      if size == 0 {
        return 0;
      }
      if Valid() { StartedAbove(mem[..], v); }
      if brk == BASE {
        InitHeap();
      }
      var b;
      ghost var j, k;
      b, j, k := Allocate(size);
      if b == NULL { return 0; }
      LiveDisjoint(mem[..], v, b, b);
      forall c | c in old(v.live) ensures b + v.live[b] <= c || c + v.live[c] <= b {
        LiveDisjoint(mem[..], v, b, c);
      }
      BlockBytesRoom(size);
      p := 8 * (b + 1);
    }

    /** A store of the client into row off of the payload of live block b. */
    method Store(b: nat, off: nat, r: Row)
      requires Valid() && b in v.live && off + 1 < v.live[b]
      modifies mem
      ensures Valid() && b + 1 + off < mem.Length && mem[..] == old(mem[..])[b + 1 + off := r]
      ensures PayloadKept(old(mem[..]), mem[..], v.live - {b})
    {
      ClientWrite(mem[..], v, b, b + 1 + off, r);
      mem[b + 1 + off] := r;
    }
  }
}
