/** The direct-mapped translation caches. */
module Tlb {
  import opened Words
  import opened Translate

  const SIZE: nat := 256

  /** -1 as an unsigned address: all ones. */
  const INVALID: nat := 0xFFFF_FFFF_FFFF_FFFF

  /**
   * An entry: the virtual page, the host buffer and the page's offset in it; no buffer is -1.
   * `filled`, the context the entry was filled under, is history: no lookup reads it.
   */
  datatype Entry = Entry(tag: nat, host: int, off: nat, filled: Ctx)

  const EMPTY: Entry := Entry(INVALID, -1, 0, Ctx(Machine, false, false, 0, 0))

  function TagOf(va: addr): (t: addr)
    ensures t % PAGE == 0 && t <= va
  {
    va - va % PAGE
  }

  function IndexOf(va: nat): (i: nat)
    ensures i < SIZE
  {
    va / PAGE % SIZE
  }

  /** `addr & ~(pageMask & ~(size - 1))`: the page bits and the bits an aligned access must have clear. */
  function AlignedTag(va: addr, n: nat): nat
    requires IsSize(n)
  {
    TagOf(va) + va % n
  }

  predicate Hit(e: Entry, va: addr, n: nat)
    requires IsSize(n)
  {
    e.tag == AlignedTag(va, n)
  }

  /** The invalid tag has bits set that no lookup tag can have. */
  lemma NeverInvalid(va: addr, n: nat)
    requires IsSize(n)
    ensures AlignedTag(va, n) != INVALID && TagOf(va) != INVALID
  {
    assert INVALID % PAGE == 4095;
    assert (TagOf(va) + va % n) % PAGE == va % n;
  }

  /** A hit on a page entry means an aligned access to that page. */
  lemma HitMeans(e: Entry, va: addr, n: nat)
    requires IsSize(n) && e.tag % PAGE == 0
    ensures Hit(e, va, n) <==> e.tag == TagOf(va) && va % n == 0
  {
    assert (TagOf(va) + va % n) % PAGE == va % n;
  }

  /** `flushTlbPage` on one table. */
  function FlushPage(t: seq<Entry>, va: addr): (t': seq<Entry>)
    requires |t| == SIZE
    ensures |t'| == SIZE
  {
    if t[IndexOf(va)].tag == TagOf(va) then t[IndexOf(va) := EMPTY] else t
  }

  function EmptyTable(): (t: seq<Entry>)
    ensures |t| == SIZE && forall i :: 0 <= i < SIZE ==> t[i] == EMPTY
  {
    seq(SIZE, i => EMPTY)
  }

  /** `_purgeWriteTlbForPage` */
  function Purge(t: seq<Entry>, host: int, off: nat): (t': seq<Entry>)
    ensures |t'| == |t|
    ensures forall i :: 0 <= i < |t| ==> t'[i] == if t[i].off == off && t[i].host == host then EMPTY else t[i]
  {
    seq(|t|, i requires 0 <= i < |t| => if t[i].off == off && t[i].host == host then EMPTY else t[i])
  }

  /** Every valid entry sits in the slot its tag selects. */
  predicate Placed(t: seq<Entry>)
  {
    |t| == SIZE &&
    forall i :: 0 <= i < SIZE && t[i].tag != INVALID ==> t[i].tag % PAGE == 0 && t[i].tag < SPACE && IndexOf(t[i].tag) == i
  }

  /** A targeted flush removes the page's translation wherever it is, and nothing else. */
  lemma FlushPageExact(t: seq<Entry>, va: addr)
    requires Placed(t)
    ensures Placed(FlushPage(t, va))
    ensures forall i :: 0 <= i < SIZE ==> FlushPage(t, va)[i].tag != TagOf(va)
    ensures forall i :: 0 <= i < SIZE && t[i].tag != TagOf(va) ==> FlushPage(t, va)[i] == t[i]
  {
    NeverInvalid(va, 1);
    assert IndexOf(TagOf(va)) == IndexOf(va);
  }
}

/** Decoded pages: the lazily filled slots in front of instruction bytes. */
module Predecode {
  import opened Words
  import opened PhysMemory

  const ENTRIES: nat := 256
  const SLOTS: nat := 2048

  /** A packed micro-op word and its immediate. */
  datatype MicroOp = MicroOp(meta: int, imm: int)

  /** What each instruction word decodes to is left open. */
  datatype Decoder = Decoder(compressed: bv64 -> MicroOp, full: bv64 -> MicroOp, fallback: MicroOp)

  /** The dispatch switch has no case of its own for the op. */
  predicate Uncommon(d: Decoder, op: MicroOp) { op.meta % 256 == d.fallback.meta % 256 }

  datatype DecodedPage = DecodedPage(host: int, off: nat, slots: seq<Option<MicroOp>>)

  function SlotOf(va: addr): (i: nat)
    ensures i < SLOTS
  {
    va % PAGE / 2
  }

  predicate IsCompressed(low: bv64) { low & 3 != 3 }

  /** `decodeSlot`: the instruction at a halfword of a page; one that crosses the page end falls back. */
  function DecodeSlot(d: Decoder, bytes: seq<bv8>, off: nat, slot: nat): MicroOp
    requires slot < SLOTS && off + PAGE <= |bytes|
  {
    var low := Le2(bytes, off + slot * 2);
    if IsCompressed(low) then d.compressed(low)
    else if slot == SLOTS - 1 then d.fallback
    else d.full(Halves(low, Le2(bytes, off + slot * 2 + 2)))
  }

  function CacheIndex(off: nat): (i: nat)
    ensures i < ENTRIES
  {
    off / PAGE % ENTRIES
  }

  type Cache = seq<Option<DecodedPage>>

  predicate Holds(c: Cache, host: int, off: nat)
    requires |c| == ENTRIES
  {
    var p := c[CacheIndex(off)];
    p.Some? && p.value.host == host && p.value.off == off
  }

  function Fresh(host: int, off: nat): DecodedPage
  {
    DecodedPage(host, off, seq(SLOTS, i => None))
  }

  function Insert(c: Cache, host: int, off: nat): (c': Cache)
    requires |c| == ENTRIES
    ensures |c'| == ENTRIES
  {
    c[CacheIndex(off) := Some(Fresh(host, off))]
  }

  function Drop(c: Cache, host: int, off: nat): (c': Cache)
    requires |c| == ENTRIES
    ensures |c'| == ENTRIES
  {
    if Holds(c, host, off) then c[CacheIndex(off) := None] else c
  }

  function EmptyCache(): (c: Cache)
    ensures |c| == ENTRIES && forall i :: 0 <= i < ENTRIES ==> c[i] == None
  {
    seq(ENTRIES, i => None)
  }

  /** Every cached page sits in its own slot with all its halfwords. */
  predicate Placed(c: Cache)
  {
    |c| == ENTRIES &&
    forall i :: 0 <= i < ENTRIES && c[i].Some? ==>
      CacheIndex(c[i].value.off) == i && |c[i].value.slots| == SLOTS && c[i].value.off % PAGE == 0
  }
}
