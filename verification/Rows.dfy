/**
 The 64-bit rows the heap is made of, and the size arithmetic of the allocator.

 A row is pictured in sfmm.h as a block size whose three low bits hold the flags
 "in quick list", "previous allocated" and "allocated".  Row is that picture: sizes and
 addresses are counted in rows of eight bytes, so the byte length of a block is 8 * size.
 A link field is a row whose size part is an address and whose flags are clear.
 */
module Rows {

  datatype Row = Row(size: nat, inq: bool, prv: bool, alc: bool)

  const NULL: nat := 0
  const MIN_ROWS: nat := 4
  const FREE_LISTS: nat := 10
  const QUICK_LISTS: nat := 20
  const QUICK_MAX: nat := 5
  const PAGE_ROWS: nat := 512

  function Link(p: nat): Row {
    Row(p, false, false, false)
  }

  function Bit(b: bool): nat {
    if b then 1 else 0
  }

  /** The 64-bit value stored for a row: length in bytes plus the flag bits. */
  function Encode(r: Row): nat {
    8 * r.size + 4 * Bit(r.inq) + 2 * Bit(r.prv) + Bit(r.alc)
  }

  /** The row read back from a 64-bit value through the masks 0b111, 0b100, 0b010 and 0b001. */
  function Decode(v: nat): Row {
    var flags := v % 8;
    Row(v / 8, flags / 4 == 1, flags / 2 % 2 == 1, flags % 2 == 1)
  }

  /** A row survives being stored: masking the stored value gives back its size and flags. */
  lemma DecodeEncode(r: Row)
    ensures Decode(Encode(r)) == r
  {
    var e := Encode(r);
    var flags := 4 * Bit(r.inq) + 2 * Bit(r.prv) + Bit(r.alc);
    assert e == 8 * r.size + flags && 0 <= flags < 8;
    assert e / 8 == r.size && e % 8 == flags;
  }

  /** Every 64-bit value is the stored form of a row, so nothing is lost by working on rows. */
  lemma EncodeDecode(v: nat)
    ensures Encode(Decode(v)) == v
  {
    var flags := v % 8;
    assert v == 8 * (v / 8) + flags;
    assert flags == 4 * (flags / 4) + 2 * (flags / 2 % 2) + flags % 2;
  }

  /** The flags are the bits of value 1, allocated, 2, previous allocated, and 4, in quick list; the rest is
      the length in bytes. */
  lemma DecodeBits(v: nat)
    ensures Decode(v).alc <==> v % 2 == 1
    ensures Decode(v).prv <==> v / 2 % 2 == 1
    ensures Decode(v).inq <==> v / 4 % 2 == 1
    ensures 8 * Decode(v).size == v - v % 8
  {
    assert v == 8 * (v / 8) + v % 8;
    LowBits(v / 8, v % 8);
  }

  lemma LowBits(k: nat, f: nat)
    requires f < 8
    ensures var v := 8 * k + f; v % 2 == f % 2 && v / 2 % 2 == f / 2 % 2 && v / 4 % 2 == f / 4
  {
    var v := 8 * k + f;
    assert v / 4 == 2 * k + f / 4;
    assert v / 2 == 4 * k + f / 2;
  }

  // ---------------------------------------------------------------- size classes

  /** Upper bound, in rows, of the sizes kept in free list i: M, 2M, 4M, ... */
  function ListMax(i: nat): nat {
    if i == 0 then MIN_ROWS else 2 * ListMax(i - 1)
  }

  /** fitsInFreeList: 2 when list i is the list for this size, 1 when its blocks are larger. */
  function Fits(size: nat, i: nat): nat
    requires MIN_ROWS <= size && i < FREE_LISTS
  {
    if i == 0 then if size == MIN_ROWS then 2 else 0
    else if i == FREE_LISTS - 1 && size > ListMax(i - 1) then 2
    else if size <= ListMax(i) then if size > ListMax(i - 1) then 2 else 1
    else 0
  }

  function ClassFrom(size: nat, i: nat): (c: nat)
    requires i < FREE_LISTS
    ensures i <= c < FREE_LISTS
    decreases FREE_LISTS - i
  {
    if i == FREE_LISTS - 1 || size <= ListMax(i) then i else ClassFrom(size, i + 1)
  }

  /** The index of the free list that holds blocks of this size. */
  function Class(size: nat): (c: nat)
    ensures c < FREE_LISTS
  {
    ClassFrom(size, 0)
  }

  lemma {:induction false} ListMaxMonotone(i: nat, j: nat)
    requires i < j
    ensures ListMax(i) < ListMax(j) && ListMax(0) <= ListMax(i)
    decreases j
  {
    if i + 1 < j { ListMaxMonotone(i, j - 1); }
    if i > 0 { ListMaxMonotone(0, i); }
  }

  lemma {:induction false} ClassFromBounds(size: nat, i: nat)
    requires i < FREE_LISTS
    ensures var c := ClassFrom(size, i);
            && (c < FREE_LISTS - 1 ==> size <= ListMax(c))
            && (i < c ==> ListMax(c - 1) < size)
    decreases FREE_LISTS - i
  {
    if !(i == FREE_LISTS - 1 || size <= ListMax(i)) {
      ClassFromBounds(size, i + 1);
    }
  }

  /** Every size belongs to exactly one list; the lists malloc searches are that one and all above. */
  lemma FitsIsClass(size: nat, i: nat)
    requires MIN_ROWS <= size && i < FREE_LISTS
    ensures Fits(size, i) == 2 <==> i == Class(size)
    ensures Fits(size, i) != 0 <==> Class(size) <= i || i == FREE_LISTS - 1
    ensures i < Class(size) ==> ListMax(i) < size
  {
    var c := Class(size);
    ClassFromBounds(size, 0);
    if c < i { ListMaxMonotone(c, i); if c < i - 1 { ListMaxMonotone(c, i - 1); } }
    if i < c { ListMaxMonotone(i, c); if i < c - 1 { ListMaxMonotone(i, c - 1); } }
  }

  /** The classes in bytes: M, 2M, 4M up to 256M, and all the rest. */
  lemma ClassBytes(size: nat)
    requires MIN_ROWS <= size
    ensures Class(size) ==
      (if 8 * size <= 32 then 0 else if 8 * size <= 64 then 1 else if 8 * size <= 128 then 2 else if 8 * size <= 256 then 3
       else if 8 * size <= 512 then 4 else if 8 * size <= 1024 then 5 else if 8 * size <= 2048 then 6
       else if 8 * size <= 4096 then 7 else if 8 * size <= 8192 then 8 else 9)
  {
    ListMaxima();
    ClassFromBounds(size, 0);
    hide ListMax;
  }

  lemma ListMaxima()
    ensures ListMax(0) == 4 && ListMax(1) == 8 && ListMax(2) == 16 && ListMax(3) == 32 && ListMax(4) == 64
    ensures ListMax(5) == 128 && ListMax(6) == 256 && ListMax(7) == 512 && ListMax(8) == 1024
  {
    assert ListMax(2) == 16;
    assert ListMax(4) == 64;
    assert ListMax(6) == 256;
  }

  /** A block filed below the list searched first is too small for the request. */
  lemma SmallerClass(have: nat, want: nat)
    requires MIN_ROWS <= have && MIN_ROWS <= want
    requires Class(have) < Class(want)
    ensures have < want
  {
    ClassFromBounds(have, 0);
    ClassFromBounds(want, 0);
    if Class(have) < Class(want) - 1 { ListMaxMonotone(Class(have), Class(want) - 1); }
  }

  // ---------------------------------------------------------------- quick list index

  /** getQuickListNum on a length in bytes; -1 when the length has no quick list. */
  function QuickIndex(bytes: nat): int {
    if (bytes - 32) % 8 != 0 then -1
    else if bytes < 32 || (bytes - 32) / 8 > QUICK_LISTS - 1 then -1
    else (bytes - 32) / 8
  }

  lemma QuickIndexSize(bytes: nat)
    ensures QuickIndex(bytes) >= 0 ==> QuickIndex(bytes) < QUICK_LISTS && bytes / 8 == QuickIndex(bytes) + MIN_ROWS
  {
  }

  /** Quick list indices are a bijection between the sizes 32, 40, ..., 184 and 0..19. */
  lemma QuickIndexBijection(i: int)
    ensures 0 <= i < QUICK_LISTS <==> exists bytes: nat :: QuickIndex(bytes) == i && i >= 0
    ensures forall a: nat, b: nat :: QuickIndex(a) == QuickIndex(b) == i && i >= 0 ==> a == b
    ensures forall a: nat :: QuickIndex(a) >= 0 <==> a % 8 == 0 && 32 <= a <= 184
    ensures 0 <= i < QUICK_LISTS ==> QuickIndex(8 * (i + MIN_ROWS)) == i
  {
    if 0 <= i < QUICK_LISTS {
      assert QuickIndex(8 * (i + MIN_ROWS)) == i;
    }
    forall a: nat | QuickIndex(a) >= 0
      ensures a == 8 * (QuickIndex(a) + MIN_ROWS)
    {
    }
  }

  // ---------------------------------------------------------------- request sizes

  /** roundUpSize on a 64-bit size_t: the next multiple of eight, or -1 when the sign bit is set. */
  function RoundUp(size: nat): nat
    requires size < 0x1_0000_0000_0000_0000
  {
    if size >= 0x8000_0000_0000_0000 then 0xFFFF_FFFF_FFFF_FFFF
    else if size % 8 == 0 then size
    else size + (7 - size % 8) + 1
  }

  /** Length in bytes of the block for a request, with the wrap-around of size_t. */
  function BlockBytes(size: nat): nat
    requires size < 0x1_0000_0000_0000_0000
  {
    var s := (RoundUp(size) + 8) % 0x1_0000_0000_0000_0000;
    if s < 32 then 32 else s
  }

  /** The block chosen for a request has room for header and payload exactly below 2^63 bytes;
      it is a multiple of eight, at least M, and wastes less than one row above M. */
  lemma BlockBytesRoom(size: nat)
    requires size < 0x1_0000_0000_0000_0000
    ensures BlockBytes(size) >= size + 8 <==> size < 0x8000_0000_0000_0000
    ensures BlockBytes(size) % 8 == 0 && BlockBytes(size) >= 32 && (size >= 0x8000_0000_0000_0000 ==> BlockBytes(size) == 32)
    ensures size < 0x8000_0000_0000_0000 && BlockBytes(size) > 32 ==> BlockBytes(size) < size + 16
  {
    if size < 0x8000_0000_0000_0000 {
      assert RoundUp(size) % 8 == 0;
      assert size <= RoundUp(size) < size + 8;
    }
  }
}
