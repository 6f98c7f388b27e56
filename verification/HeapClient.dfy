/**
 Whole runs of the allocator.  Seen from a client, the heap behaves like an abstract store: blocks
 come and go as the calls say, and a value written into a live block stays there, whatever else is
 allocated, freed, coalesced, flushed or grown, until it is overwritten or its block is freed.
 */
module HeapClient {
  import opened Rows
  import opened Rings
  import opened Tiling
  import opened Moves
  import opened Allocator

  datatype Call = Request(size: nat) | Release(b: nat) | Write(b: nat, off: nat, r: Row)

  datatype Event = Got(b: nat, len: nat) | Freed(b: nat) | Stored(b: nat, off: nat, r: Row) | Nothing

  /** The blocks a client owns after a run, with their lengths. */
  function Owned(run: seq<Event>): map<nat, nat> {
    if run == [] then map[]
    else
      var before := Owned(run[..|run| - 1]);
      match run[|run| - 1]
      case Got(b, len) => before[b := len]
      case Freed(b) => before - {b}
      case _ => before
  }

  /** The payload rows a client has written and not lost by freeing, keyed by block and offset. */
  function Contents(run: seq<Event>): map<(nat, nat), Row> {
    if run == [] then map[]
    else
      var before := Contents(run[..|run| - 1]);
      match run[|run| - 1]
      case Freed(b) => map k | k in before && k.0 != b :: before[k]
      case Stored(b, off, r) => before[(b, off) := r]
      case _ => before
  }

  /** The rows and what they mean after a call. */
  datatype Shot = Shot(m: Mem, v: View)

  /** No page is left to grow into, and neither the quick list nor any free block can serve the request. */
  ghost predicate Exhausted(s: Shot, size: nat)
    requires size < 0x1_0000_0000_0000_0000
  {
    && s.v.E + 1 + PAGE_ROWS > |s.m|
    && Stuck(s.m, s.v, BlockBytes(size) / 8, QuickIndex(BlockBytes(size)))
  }

  /** An answer fits its call, s being the heap after it: a block is new and large enough, and is refused
      only for size 0 and by an exhausted heap; only owned blocks are freed or written. */
  ghost predicate Answers(owned: map<nat, nat>, c: Call, e: Event, s: Shot) {
    match c
    case Request(size) =>
      (e == Nothing && (size == 0 || (size < 0x1_0000_0000_0000_0000 && Exhausted(s, size))))
      || (size != 0 && e.Got? && e.b !in owned && (size < 0x8000_0000_0000_0000 ==> size + 8 <= 8 * e.len)
        && forall x :: x in owned ==> e.b + e.len <= x || x + owned[x] <= e.b)
    case Release(b) => e == if b in owned then Freed(b) else Nothing
    case Write(b, off, r) => e == if b in owned && off + 1 < owned[b] then Stored(b, off, r) else Nothing
  }

  /** Row k.1 of the payload of block k.0 holds r. */
  ghost predicate HeldAt(m: Mem, owned: map<nat, nat>, k: (nat, nat), r: Row) {
    k.0 in owned && k.1 + 1 < owned[k.0] && k.0 + 1 + k.1 < |m| && m[k.0 + 1 + k.1] == r
  }

  /** The rows hold what the run says they hold. */
  ghost predicate Holds(m: Mem, run: seq<Event>) {
    forall k :: k in Contents(run) ==> HeldAt(m, Owned(run), k, Contents(run)[k])
  }

  lemma OneMore(run: seq<Event>, e: Event)
    ensures Owned(run + [e]) == if e.Got? then Owned(run)[e.b := e.len] else if e.Freed? then Owned(run) - {e.b} else Owned(run)
    ensures e.Got? || e.Nothing? ==> Contents(run + [e]) == Contents(run)
    ensures e.Freed? ==> Contents(run + [e]) == map k | k in Contents(run) && k.0 != e.b :: Contents(run)[k]
    ensures e.Stored? ==> Contents(run + [e]) == Contents(run)[(e.b, e.off) := e.r]
  {
    assert (run + [e])[..|run|] == run;
  }

  /** Block e.b is owned and holds row e.off, other blocks are elsewhere. */
  ghost predicate StoreFits(m: Mem, owned: map<nat, nat>, e: Event)
    requires e.Stored?
  {
    && e.b in owned && e.off + 1 < owned[e.b] && e.b + 1 + e.off < |m|
    && forall c :: c in owned && c != e.b ==> e.b + owned[e.b] <= c || c + owned[c] <= e.b
  }

  lemma StoreHeld(m: Mem, owned: map<nat, nat>, e: Event, k: (nat, nat), r: Row)
    requires e.Stored? && StoreFits(m, owned, e) && HeldAt(m, owned, k, r) && k != (e.b, e.off)
    ensures HeldAt(m[e.b + 1 + e.off := e.r], owned, k, r)
  {
  }

  lemma HoldsKept(m: Mem, m': Mem, run: seq<Event>, e: Event)
    requires Holds(m, run) && |m'| == |m|
    requires e.Stored? ==> StoreFits(m, Owned(run), e) && m' == m[e.b + 1 + e.off := e.r]
    requires e.Freed? ==> PayloadKept(m, m', Owned(run) - {e.b})
    requires e.Got? ==> e.b !in Owned(run) && PayloadKept(m, m', Owned(run))
    requires e.Nothing? ==> PayloadKept(m, m', Owned(run))
    ensures Holds(m', run + [e])
  {
    hide Owned, Contents, PayloadKept, StoreFits;
    OneMore(run, e);
    var owned := Owned(run + [e]);
    forall k | k in Contents(run + [e]) ensures HeldAt(m', owned, k, Contents(run + [e])[k]) {
      if e.Stored? {
        if k == (e.b, e.off) { JustStored(m, owned, e); } else { StoreHeld(m, owned, e, k, Contents(run)[k]); }
      } else {
        PayloadHeld(m, m', Owned(run), owned, k, Contents(run)[k]);
      }
    }
  }

  lemma JustStored(m: Mem, owned: map<nat, nat>, e: Event)
    requires e.Stored? && StoreFits(m, owned, e)
    ensures HeldAt(m[e.b + 1 + e.off := e.r], owned, (e.b, e.off), e.r)
  {
  }

  lemma PayloadHeld(m: Mem, m': Mem, owned: map<nat, nat>, owned': map<nat, nat>, k: (nat, nat), r: Row)
    requires HeldAt(m, owned, k, r) && |m'| == |m| && k.0 in owned' && owned'[k.0] == owned[k.0]
    requires PayloadKept(m, m', owned) || PayloadKept(m, m', owned')
    ensures HeldAt(m', owned', k, r)
  {
  }

  lemma NothingRun(calls: seq<Call>, m: Mem)
    ensures Holds(m, []) && Owned([]) == map[] && Answered(calls, [], [])
  {
  }

  /** Every answer of the run fits its call and the heap behind it. */
  ghost predicate Answered(calls: seq<Call>, run: seq<Event>, shots: seq<Shot>) {
    |run| == |shots| <= |calls| && forall i :: 0 <= i < |run| ==> Answers(Owned(run[..i]), calls[i], run[i], shots[i])
  }

  lemma AnsweredMore(calls: seq<Call>, run: seq<Event>, shots: seq<Shot>, e: Event, s: Shot)
    requires Answered(calls, run, shots) && |run| < |calls| && Answers(Owned(run), calls[|run|], e, s)
    ensures Answered(calls, run + [e], shots + [s])
  {
    hide Answers, Owned;
    var r, t := run + [e], shots + [s];
    forall k | 0 <= k < |r| ensures Answers(Owned(r[..k]), calls[k], r[k], t[k]) {
      assert r[..k] == run[..k];
      if k == |run| { assert run[..k] == run; }
    }
  }

  /** Runs any sequence of calls on a fresh heap. */
  method Run(h: Heap, calls: seq<Call>) returns (run: seq<Event>, ghost shots: seq<Shot>)
    requires h.Fresh() && forall c :: c in calls && c.Request? ==> c.size < 0x1_0000_0000_0000_0000
    modifies h, h.mem, h.qlen, h.qfirst
    ensures |run| == |calls| && Answered(calls, run, shots)
    ensures shots != [] ==> shots[|shots| - 1] == Shot(h.mem[..], h.v)
    ensures (h.Fresh() || h.Valid()) && h.v.live == Owned(run)
    ensures Holds(h.mem[..], run)
  {
    hide Answers, Answered, Contents, Owned, Holds, Exhausted;
    run, shots := [], [];
    NothingRun(calls, h.mem[..]);
    var owned: map<nat, nat> := map[];
    for i := 0 to |calls|
      invariant |run| == |shots| == i && owned == Owned(run) == h.v.live
      invariant h.Fresh() || h.Valid()
      invariant Answered(calls, run, shots)
      invariant shots != [] ==> shots[|shots| - 1] == Shot(h.mem[..], h.v)
      invariant Holds(h.mem[..], run)
    {
      assert calls[i] in calls;
      var e := Step(h, calls[i], owned, run);
      OneMore(run, e);
      AnsweredMore(calls, run, shots, e, Shot(h.mem[..], h.v));
      shots := shots + [Shot(h.mem[..], h.v)];
      match e {
        case Got(b, len) => owned := owned[b := len];
        case Freed(b) => owned := owned - {b};
        case _ =>
      }
      run := run + [e];
    }
  }

  /** One call. */
  method Step(h: Heap, c: Call, owned: map<nat, nat>, ghost run: seq<Event>) returns (e: Event)
    requires (h.Fresh() || h.Valid()) && owned == Owned(run) == h.v.live && Holds(h.mem[..], run)
    requires c.Request? ==> c.size < 0x1_0000_0000_0000_0000
    modifies h, h.mem, h.qlen, h.qfirst
    ensures h.Fresh() || h.Valid()
    ensures Answers(owned, c, e, Shot(h.mem[..], h.v)) && h.v.live == Owned(run + [e]) && Holds(h.mem[..], run + [e])
  {
    hide Owned, Contents, Holds, PayloadKept;
    ghost var m := h.mem[..];
    PayloadSame(m, owned);
    e := Nothing;
    match c {
      case Request(size) =>
        var p := h.Malloc(size);
        if p != 0 {
          LiveDisjoint(h.mem[..], h.v, p / 8 - 1, p / 8 - 1);
          e := Got(p / 8 - 1, h.mem[p / 8 - 1].size);
        }
      case Release(b) =>
        if b in owned {
          LiveDisjoint(m, h.v, b, b);
          assert 8 * (b + 1) / 8 - 1 == b;
          var ok := h.Free(8 * (b + 1));
          e := Freed(b);
        }
      case Write(b, off, r) =>
        if b in owned && off + 1 < owned[b] {
          forall x | x in owned && x != b ensures b + owned[b] <= x || x + owned[x] <= b {
            LiveDisjoint(m, h.v, b, x);
          }
          h.Store(b, off, r);
          e := Stored(b, off, r);
        }
    }
    OneMore(run, e);
    HoldsKept(m, h.mem[..], run, e);
  }
}
