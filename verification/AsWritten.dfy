/**
 Two places where the allocator's C text does not keep its own heap; Unlinking has a third.  The model of
 the heap departs from the text there; here is what the text does, with an input that shows the difference
 and the exact condition under which there is none.
 */
module AsWritten {
  import opened Rows
  import opened Rings
  import opened Tiling
  import opened HeapOps
  import opened ListOps
  import opened Moves
  import opened Sealing
  import opened Unlinking

  // ---------------------------------------------------------------- the quick list pop

  /** A quick list record as sf_malloc and addToQuickList leave it: the pop does not count down. */
  datatype Quick = Quick(length: nat, chain: seq<nat>) | Crashed

  datatype Use = Push(b: nat) | Pop

  function Apply(q: Quick, u: Use): Quick {
    match q
    case Crashed => Crashed
    case Quick(length, chain) =>
      match u
      case Push(b) => if length >= QUICK_MAX then Quick(1, [b]) else Quick(length + 1, [b] + chain)
      case Pop => if length == 0 then q else if chain == [] then Crashed else Quick(length, chain[1..])
  }

  function After(us: seq<Use>): Quick {
    if us == [] then Quick(0, []) else Apply(After(us[..|us| - 1]), us[|us| - 1])
  }

  /** Without the count down a pushed block can be popped once and then NULL is followed. */
  lemma PopTwiceCrashes(b: nat)
    ensures After([Push(b), Pop, Pop]) == Crashed
  {
    var us := [Push(b), Pop, Pop];
    assert us[..2] == [Push(b), Pop] && us[..2][..1] == [Push(b)] && us[..1][..0] == [];
    assert After([Push(b)]) == Quick(1, [b]);
    assert After([Push(b), Pop]) == Quick(1, []) by { assert [Push(b), Pop][..1] == [Push(b)]; }
  }

  /** Pushes since the list was last emptied, and pops since then. */
  function Counts(us: seq<Use>): (n: (nat, nat)) {
    if us == [] then (0, 0)
    else
      var n := Counts(us[..|us| - 1]);
      match us[|us| - 1]
      case Push(b) => if n.0 >= QUICK_MAX then (1, 0) else (n.0 + 1, n.1)
      case Pop => if n.0 == 0 then n else (n.0, n.1 + 1)
  }

  /** The record survives exactly the histories in which no more blocks are popped than were pushed
      since the list was last emptied; its length counts the pushes, not the blocks. */
  lemma {:induction false} RecordExact(us: seq<Use>)
    ensures After(us) != Crashed <==> forall k :: 0 <= k <= |us| ==> Counts(us[..k]).1 <= Counts(us[..k]).0
    ensures After(us) != Crashed ==> After(us).length == Counts(us).0 <= QUICK_MAX
                                     && |After(us).chain| == Counts(us).0 - Counts(us).1
  {
    if us != [] {
      var h, n := us[..|us| - 1], |us| - 1;
      RecordExact(h);
      assert us[..|us|] == us && us[..n] == h;
      forall k | 0 <= k <= n ensures us[..k] == h[..k] {}
      if After(us) != Crashed {
        forall k | 0 <= k <= |us| ensures Counts(us[..k]).1 <= Counts(us[..k]).0 {
          if k <= n { assert Counts(h[..k]).1 <= Counts(h[..k]).0; }
        }
      } else if After(h) == Crashed {
        var k :| 0 <= k <= |h| && !(Counts(h[..k]).1 <= Counts(h[..k]).0);
        assert us[..k] == h[..k];
      } else {
        assert !(Counts(us[..|us|]).1 <= Counts(us[..|us|]).0);
      }
    } else {
      assert us[..0] == us;
    }
  }

  // ---------------------------------------------------------------- splitBlock

  /** The header splitBlock gives the first n rows of block b. */
  function FirstPart(m: Mem, b: nat, n: nat): Row
    requires b < |m|
  {
    Row(n, false, m[b].prv, false)
  }

  /** Rows of a 64-bit address space. */
  const ALL_ROWS: nat := 0x2000_0000_0000_0000

  /** The length in a row as getHeaderLen returns it: a signed number, negative in the upper half. */
  function Signed(size: nat): int {
    if size < ALL_ROWS / 2 then size else size - ALL_ROWS
  }

  /** The row where the first n rows of block b, on their way into a free list, put what they take
      for the footer of their successor: row b + n has no header yet. */
  function Target(m: Mem, b: nat, n: nat): int
    requires b + n < |m|
  {
    b + n + Signed(m[b + n].size) - 1
  }

  /** The rows after the header, the footer and the updateBlockFlags of the first part, in the order of
      the text, where row b + n still holds what the block held there. */
  function Relink(m: Mem, b: nat, n: nat, E: nat): Outcome
    requires b < |m| && 0 < n < m[b].size && b + m[b].size <= E < |m|
  {
    var t, r := Target(m, b, n), m[b + n].(prv := false);
    var m1 := m[b := FirstPart(m, b, n)][b + n - 1 := FirstPart(m, b, n)][b + n := r];
    if r.alc then Stored(m1) else if 0 <= t < |m| then Stored(m1[t := r]) else Stray
  }

  /** Where the length is not negative that is what the heap's own operations make of the rows. */
  lemma RelinkIsUpdate(m: Mem, b: nat, n: nat, E: nat)
    requires b < |m| && 0 < n < m[b].size && b + m[b].size <= E < |m| && |m| < ALL_ROWS / 2
    requires m[b + n].alc || b + n + m[b + n].size <= |m|
    ensures CanUpdate(HeaderFooter(m, b, FirstPart(m, b, n)), b, FirstPart(m, b, n), E)
    ensures Relink(m, b, n, E) == Stored(Update(HeaderFooter(m, b, FirstPart(m, b, n)), b, FirstPart(m, b, n), E))
  {
  }

  /** What row b + n holds leads no store out of the block or onto its header: it has the alloc bit, or
      its length ends inside, or at a row that is what the store would make it. */
  predicate SplitHarmless(m: Mem, b: nat, n: nat)
    requires b < |m| && b + n < |m|
  {
    || m[b + n].alc
    || b < Target(m, b, n) < b + m[b].size
    || (0 <= Target(m, b, n) < |m| && Target(m, b, n) != b && m[Target(m, b, n)] == m[b + n].(prv := false))
  }

  /** Relinking the first part before the rest has a header leaves the rows of all other blocks alone,
      and the header of the first part, exactly if row b + n is harmless.  A length of zero there spoils
      the footer of the first part. */
  lemma SplitRelinkExact(m: Mem, b: nat, n: nat, E: nat)
    requires b < |m| && 0 < n < m[b].size && b + m[b].size <= E < |m| && m[b + n].size < ALL_ROWS
    ensures OnlyWithin(Relink(m, b, n, E), m, b, b + m[b].size) && Relink(m, b, n, E).rows[b] == FirstPart(m, b, n) <==> SplitHarmless(m, b, n)
    ensures var o := Relink(m, b, n, E); o.Stored? && n > 1 ==>
      o.rows[b + n - 1] == (if !m[b + n].alc && Target(m, b, n) == b + n - 1 then m[b + n].(prv := false) else FirstPart(m, b, n))
  {
    var o, t := Relink(m, b, n, E), Target(m, b, n);
    if o.Stored? && !m[b + n].alc {
      assert o.rows[t] == m[b + n].(prv := false);
    }
  }

  /** The rows from lo to hi are the only ones that may have changed. */
  ghost predicate OnlyWithin(o: Outcome, m: Mem, lo: nat, hi: nat) {
    o.Stored? && |o.rows| == |m| && forall j :: 0 <= j < |m| && !(lo <= j < hi) ==> o.rows[j] == m[j]
  }

  /** Block b is free, has left its list, and is large enough for two. */
  predicate Splittable(m: Mem, b: nat, n: nat, E: nat) {
    && BASE < b < |m| && MIN_ROWS <= n && n + MIN_ROWS <= m[b].size && b + m[b].size <= E < |m|
    && !m[b].alc && !m[b].inq
  }

  /** The first n rows and the rest of block b can go into the lists as the model does it: both headers
      first. */
  ghost predicate CanSplit(m: Mem, b: nat, n: nat, E: nat) {
    && Splittable(m, b, n, E) && CanAddFree(SplitRows(m, b, n), b, E) && LinksElsewhere(m, b, n) && RestCanFollow(m, b, n, E)
  }

  /** The block at the head of the list of the first part is another one. */
  predicate LinksElsewhere(m: Mem, b: nat, n: nat)
    requires b < |m| && b + m[b].size <= |m| && 0 < n < m[b].size
  {
    Sent(Class(n)) + 1 < |m| && var f := m[Sent(Class(n)) + 1].size; f + 3 <= b || b + m[b].size <= f
  }

  ghost predicate RestCanFollow(m: Mem, b: nat, n: nat, E: nat)
    requires Splittable(m, b, n, E) && CanAddFree(SplitRows(m, b, n), b, E)
  {
    CanAddFree(AddFreeMem(SplitRows(m, b, n), b, E), b + n, E)
  }

  function SplitAsModelled(m: Mem, b: nat, n: nat, E: nat): Mem
    requires CanSplit(m, b, n, E)
  {
    hide CanAddFree, AddFreeMem, SplitRows, LinksElsewhere; AddFreeMem(AddFreeMem(SplitRows(m, b, n), b, E), b + n, E)
  }

  ghost predicate CanLinkFirst(m: Mem, b: nat, n: nat) {
    var s := Sent(Class(n)); Node(m, s) && Node(m, b) && Node(m, m[s + 1].size)
  }

  function RestHeader(m: Mem, b: nat, n: nat): Row
    requires b < |m| && n < m[b].size
  {
    Row(m[b].size - n, false, false, false)
  }

  /** The rest of splitBlock in the order of the text, r being the rows after Relink: the first part goes
      into its list, and then only the rest gets a header. */
  function FirstFiled(m: Mem, r: Mem, b: nat, n: nat): Mem
    requires b < |m| && 0 < n < m[b].size && b + m[b].size <= |r| && CanLinkFirst(r, b, n)
  {
    HeaderFooter(LinkFront(r, Sent(Class(n)), b), b + n, RestHeader(m, b, n))
  }

  ghost predicate CanSplitAsWritten(m: Mem, b: nat, n: nat, E: nat)
    requires Splittable(m, b, n, E)
  {
    var o := Relink(m, b, n, E);
    o.Stored? && |o.rows| == |m| && CanLinkFirst(o.rows, b, n) && CanAddFree(FirstFiled(m, o.rows, b, n), b + n, E)
  }

  function SplitAsWritten(m: Mem, b: nat, n: nat, E: nat): Mem
    requires Splittable(m, b, n, E) && CanSplitAsWritten(m, b, n, E)
  {
    hide CanAddFree, AddFreeMem, FirstFiled, CanLinkFirst, Relink; AddFreeMem(FirstFiled(m, Relink(m, b, n, E).rows, b, n), b + n, E)
  }

  ghost predicate SameBut(m: Mem, m': Mem, t: int) {
    |m'| == |m| && forall j :: 0 <= j < |m| && j != t ==> m'[j] == m[j]
  }

  /** A row that addToFreeList neither reads nor needs makes no difference to the others. */
  lemma AddFreeSame(m: Mem, m': Mem, d: nat, E: nat, t: int)
    requires SameBut(m, m', t) && CanAddFree(m, d, E)
    requires t != d && t != d + m[d].size && (t < 0 || t > Sent(Class(m[d].size)) + 1)
    ensures CanAddFree(m', d, E) && SameBut(AddFreeMem(m, d, E), AddFreeMem(m', d, E), t)
  {
    hide Class;
  }

  /** The row inside block b in which the two orders may differ, if there is one. */
  function Spot(m: Mem, b: nat, n: nat): int
    requires b < |m| && b + n < |m|
  {
    var t := Target(m, b, n);
    if m[b + n].alc || t == b + n || t <= b + 2 || t >= b + m[b].size then -1 else t
  }

  /** The rows after the first updateBlockFlags in the order of the model. */
  ghost predicate FirstRows(m: Mem, u: Mem, b: nat, n: nat)
    requires b < |m| && 0 < n < m[b].size
  {
    var end := b + m[b].size;
    && |u| == |m| && end <= |m| && u[b] == u[b + n - 1] == FirstPart(m, b, n) && u[b + n] == u[end - 1] == RestHeader(m, b, n)
    && forall j :: 0 <= j < |m| && j != b && j != b + n - 1 && j != b + n && j != end - 1 ==> u[j] == m[j]
  }

  lemma ModelledRows(m: Mem, b: nat, n: nat, E: nat)
    requires b < |m| && MIN_ROWS <= n && n + MIN_ROWS <= m[b].size && b + m[b].size <= E < |m| && !m[b].alc && !m[b].inq
    requires CanUpdate(SplitRows(m, b, n), b, Flagged(SplitRows(m, b, n)[b], false, false), E)
    ensures var s := SplitRows(m, b, n); s[b].size == n && FirstRows(m, Update(s, b, Flagged(s[b], false, false), E), b, n)
  {
  }

  /** The same in the order of the text. */
  ghost predicate RelinkedRows(m: Mem, r: Mem, b: nat, n: nat)
    requires b < |m| && b + n < |m| && 0 < n
  {
    && |r| == |m| && r[b] == FirstPart(m, b, n) && (b + n - 1 != Spot(m, b, n) ==> r[b + n - 1] == FirstPart(m, b, n))
    && forall j :: 0 <= j < |m| && j != b && j != b + 1 && j != b + 2 && j != b + n - 1 && j != b + n && j != Spot(m, b, n) ==> r[j] == m[j]
  }

  lemma WrittenRows(m: Mem, b: nat, n: nat, E: nat)
    requires b < |m| && MIN_ROWS <= n && n + MIN_ROWS <= m[b].size && b + m[b].size <= E < |m|
    requires SplitHarmless(m, b, n) && m[b + n].size < ALL_ROWS
    ensures Relink(m, b, n, E).Stored? && RelinkedRows(m, Relink(m, b, n, E).rows, b, n)
  {
    SplitRelinkExact(m, b, n, E);
  }

  /** Links written before or after the header of the rest: it is the same. */
  lemma LinkThenHead(r: Mem, u: Mem, s: nat, b: nat, d: nat, h: Row, t: int)
    requires |u| == |r| && Node(u, s) && Node(u, b) && Node(u, u[s + 1].size)
    requires s + 3 <= b && b + 3 <= d && h.size >= MIN_ROWS && d + h.size <= |u|
    requires (u[s + 1].size + 3 <= b || d + h.size <= u[s + 1].size) && (t < 0 || (b + 3 <= t && t < d + h.size))
    requires u[d] == h && u[d + h.size - 1] == h
    requires forall j :: 0 <= j < |u| && j != b + 1 && j != b + 2 && j != d && j != d + h.size - 1 && j != t ==> r[j] == u[j]
    ensures Node(r, s) && Node(r, b) && Node(r, r[s + 1].size)
    ensures SameBut(LinkFront(u, s, b), HeaderFooter(LinkFront(r, s, b), d, h), t)
  {
  }

  lemma SpotInside(m: Mem, b: nat, n: nat)
    requires b < |m| && b + n < |m|
    ensures Spot(m, b, n) < 0 || (b + 3 <= Spot(m, b, n) < b + m[b].size && Spot(m, b, n) != b + n)
  {
  }

  lemma LinkFirst(m: Mem, r: Mem, u: Mem, b: nat, n: nat, E: nat)
    requires Splittable(m, b, n, E) && LinksElsewhere(m, b, n) && FirstRows(m, u, b, n) && RelinkedRows(m, r, b, n)
    requires CanLinkFirst(u, b, n)
    ensures CanLinkFirst(r, b, n) && SameBut(LinkFront(u, Sent(Class(n)), b), FirstFiled(m, r, b, n), Spot(m, b, n))
  {
    hide Class, Spot, HeaderFooter, LinkFront, FirstPart;
    SpotInside(m, b, n);
    LinkThenHead(r, u, Sent(Class(n)), b, b + n, RestHeader(m, b, n), Spot(m, b, n));
  }

  lemma FirstPartSame(m: Mem, b: nat, n: nat, E: nat)
    requires CanSplit(m, b, n, E) && SplitHarmless(m, b, n) && m[b + n].size < ALL_ROWS
    ensures Relink(m, b, n, E).Stored? && |Relink(m, b, n, E).rows| == |m| && CanLinkFirst(Relink(m, b, n, E).rows, b, n)
    ensures SameBut(AddFreeMem(SplitRows(m, b, n), b, E), FirstFiled(m, Relink(m, b, n, E).rows, b, n), Spot(m, b, n))
  {
    ModelledRows(m, b, n, E);
    WrittenRows(m, b, n, E);
    hide Class, Relink, SplitHarmless, RestCanFollow, SplitRows, HeaderFooter, Update, LinkFront, LinksElsewhere, CanUpdate;
    var s := SplitRows(m, b, n);
    LinkFirst(m, Relink(m, b, n, E).rows, Update(s, b, Flagged(s[b], false, false), E), b, n, E);
  }

  lemma FiledRest(m: Mem, b: nat, n: nat, E: nat)
    requires CanSplit(m, b, n, E)
    ensures |AddFreeMem(SplitRows(m, b, n), b, E)| == |m| && AddFreeMem(SplitRows(m, b, n), b, E)[b + n] == RestHeader(m, b, n)
  {
    ModelledRows(m, b, n, E);
    hide Class, SplitRows, RestCanFollow, Update;
  }

  lemma OrderOfRest(m: Mem, u: Mem, r: Mem, b: nat, n: nat, E: nat)
    requires Splittable(m, b, n, E) && |u| == |m| && CanAddFree(u, b + n, E) && SameBut(u, r, Spot(m, b, n))
    requires u[b + n] == RestHeader(m, b, n)
    ensures CanAddFree(r, b + n, E) && SameBut(AddFreeMem(u, b + n, E), AddFreeMem(r, b + n, E), Spot(m, b, n))
  {
    SpotInside(m, b, n);
    hide Class, AddFreeMem, CanAddFree, Spot;
    AddFreeSame(u, r, b + n, E, Spot(m, b, n));
  }

  /** Where row b + n is harmless the order makes no difference to the heap but in the one row that the
      store goes to, if that is inside the free block. */
  lemma SplitOrder(m: Mem, b: nat, n: nat, E: nat)
    requires CanSplit(m, b, n, E) && SplitHarmless(m, b, n) && m[b + n].size < ALL_ROWS
    ensures CanSplitAsWritten(m, b, n, E)
    ensures SameBut(SplitAsModelled(m, b, n, E), SplitAsWritten(m, b, n, E), Spot(m, b, n))
  {
    FirstPartSame(m, b, n, E);
    SpotInside(m, b, n);
    FiledRest(m, b, n, E);
    hide Class, Relink, SplitHarmless, AddFreeMem, SplitRows, LinksElsewhere, CanAddFree, FirstFiled, Spot, CanLinkFirst;
    OrderOfRest(m, AddFreeMem(SplitRows(m, b, n), b, E), FirstFiled(m, Relink(m, b, n, E).rows, b, n), b, n, E);
  }

  lemma BothCanFile(s: Mem, w: View, b: nat, n: nat)
    requires Hand(s, w, {b, b + n}) && {b, b + n} - {b} == {b + n} && b in w.S && b + n in w.S
    ensures CanAddFree(s, b, w.E) && CanAddFree(AddFreeMem(s, b, w.E), b + n, w.E)
  {
    FileStep(s, w, {b, b + n}, b);
    hide Class, AddFreeMem, CanAddFree, Hand, FreedAs;
    FileStep(AddFreeMem(s, b, w.E), Filed(w, Class(s[b].size), b), {b + n}, b + n);
  }

  /** A block of a heap that has left its list can be split. */
  lemma HeapCanSplit(m: Mem, v: View, b: nat, n: nat)
    requires Hand(m, v, {b}) && b in v.S && Splittable(m, b, n, v.E)
    ensures CanSplit(m, b, n, v.E)
  {
    SplitHand(m, v, b, n);
    HeapHead(m, v, b, n);
    hide Class, AddFreeMem, CanAddFree, Hand, SplitRows, LinksElsewhere, SplitDone;
    BothCanFile(SplitRows(m, b, n), v.(S := v.S + {b + n}), b, n);
  }

  lemma HeapHead(m: Mem, v: View, b: nat, n: nat)
    requires Hand(m, v, {b}) && b in v.S && Splittable(m, b, n, v.E)
    ensures LinksElsewhere(m, b, n)
  {
    SplitHand(m, v, b, n);
    hide Class, AddFreeMem, CanAddFree, Hand;
    HeadElsewhere(SplitRows(m, b, n), v.(S := v.S + {b + n}), b, n);
    assert Sent(Class(n)) + 1 < BASE;
  }

  lemma HeadElsewhere(s: Mem, w: View, b: nat, n: nat)
    requires Hand(s, w, {b, b + n}) && b in w.S && b + n in w.S && b < |s| && s[b].size == n && b + n < |s|
    ensures Sent(Class(n)) + 1 < |s|
    ensures var f := s[Sent(Class(n)) + 1].size; f + 3 <= b || b + n + s[b + n].size <= f
  {
    assert Open(0);
    var c := w.fl[Class(n)];
    hide Class;
    assert Ring(s, c) && Follows(|c|, 0, Succ(|c|, 0));
    var f := c[Succ(|c|, 0)];
    if Succ(|c|, 0) > 0 { assert IsFree(s, w.S, {b, b + n}, f); }
  }

  /** Payload that makes the length in row b + n end at a live block, above or below, costs that block its
      header, though the client owns it. */
  lemma SplitRelinkHarm(m: Mem, v: View, b: nat, n: nat, c: nat)
    requires Hand(m, v, {b}) && b in v.S && Splittable(m, b, n, v.E)
    requires c in v.live && !m[b + n].alc && Target(m, b, n) == c
    ensures var o := Relink(m, b, n, v.E);
      o.Stored? && c < |m| && m[c].alc && |o.rows| == |m| && o.rows[c] == m[b + n].(prv := false) && !o.rows[c].alc
  {
    assert Open(0);
    assert IsLive(m, v.S, {b}, c);
  }

  /** The first page after malloc(4000), malloc(24), a store of 3984 at byte 24 of the first of them and
      its free, when the next malloc(24) has taken the block at row 36 out of its list. */
  function Page(): Mem {
    seq(544, i =>
      if i == 32 then Row(4, false, false, true)
      else if i == 36 || i == 536 then Row(501, false, true, false)
      else if i == 40 then Row(498, false, false, false)
      else if i == 537 then Row(6, false, false, true)
      else if i == 543 then Row(1, false, true, true)
      else if 0 < i < 32 && i % 3 == 2 then Link(i - 1)
      else if 0 < i < 31 && i % 3 == 0 then Link(i - 2)
      else Link(NULL))
  }

  function PageView(): View {
    InitView(543).(S := {32, 36, 537}, live := map[537 := 6])
  }

  lemma PageBlocks(m: Mem)
    requires m == Page()
    ensures |m| == 544 && m[32] == Row(4, false, false, true) && m[36] == Row(501, false, true, false)
    ensures m[40] == Row(498, false, false, false) && m[537] == Row(6, false, false, true) && m[543] == Row(1, false, true, true)
  {
  }

  /** Every dummy head leads to itself, both ways. */
  lemma PageHead(m: Mem, j: nat)
    requires m == Page() && j < FREE_LISTS
    ensures Ring(m, [Sent(j)])
  {
    assert (3 * j + 2) % 3 == 2 && (3 * j + 3) % 3 == 0;
    assert m[Sent(j) + 1] == Link(Sent(j)) && m[Sent(j) + 2] == Link(Sent(j));
  }

  lemma PageHeads(m: Mem)
    requires m == Page()
    ensures FreeIndex(m, PageView().S, PageView().fl, {36})
  {
    hide Page, Ring;
    PageBlocks(m);
    forall j | 0 <= j < FREE_LISTS ensures Ring(m, PageView().fl[j]) { PageHead(m, j); }
  }

  lemma PageInv(m: Mem)
    requires m == Page()
    ensures Hand(m, PageView(), {36})
  {
    PageBlocks(m);
    PageHeads(m);
    hide Page, FreeIndex;
    var v := PageView();
    assert Tiles(m, v.S, v.E);
    forall j | 0 <= j < QUICK_LISTS ensures Chain(m, v.qf[j], v.ql[j]) {}
  }

  /** There the order of the text makes the header of the second block, which the client owns, that of
      an unallocated block of 498 rows, that is 3984 bytes. */
  lemma SplitRelinkPage()
    ensures Hand(Page(), PageView(), {36}) && 537 in PageView().live
    ensures Page()[36].size == 501 && Page()[537] == Row(6, false, false, true)
    ensures Relink(Page(), 36, 4, 543).Stored? && |Relink(Page(), 36, 4, 543).rows| == 544
    ensures Relink(Page(), 36, 4, 543).rows[537] == Row(498, false, false, false)
  {
    PageBlocks(Page());
    PageInv(Page());
    hide Page;
    SplitRelinkHarm(Page(), PageView(), 36, 4, 537);
  }

  /** With -16 in that word instead the store goes to row 37, inside the block, and does no harm. */
  lemma NegativeLength(m: Mem)
    requires m == Page()[40 := Decode(0xFFFF_FFFF_FFFF_FFF0)]
    ensures m[40].size < ALL_ROWS && Target(m, 36, 4) == 37 && SplitHarmless(m, 36, 4)
  {
    PageBlocks(Page());
    hide Page;
  }
}
