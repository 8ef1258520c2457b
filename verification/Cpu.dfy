/**
 * The memory side of the processor as functions on states: cached accesses, fetches and dispatch, the events that
 * change the translation context, and device writes.
 *
 * Three components of the state are history and influence no result: `stale`, the entries whose walk has been damaged since
 * they were filled; `tainted`, the pages that a translation's own A/D write has hit since they were last decoded afresh; and
 * `exposed`, whether a stale entry or a slot of a tainted page has been used.
 */
module Cpu {
  import opened Words
  import opened PhysMemory
  import opened Pte
  import opened Translate
  import opened Csr
  import opened Tlb
  import D = Predecode

  type PageId = (int, nat)

  /** The floating-point registers. */
  type FloatFile = f: seq<bv64> | |f| == 32 witness seq(32, i => 0)

  /** The places an entry can be held in: a slot of one of the three tables, or the code page. */
  datatype Slot = Slot(acc: Access, i: nat) | CodeSlot

  datatype State = State(
    mem: Mem, csr: Csrs,
    tlbR: seq<Entry>, tlbW: seq<Entry>, tlbX: seq<Entry>,
    code: Entry,
    cache: D.Cache,
    stale: iset<Slot>, exposed: bool, tainted: set<PageId>)

  /** What a device register answers to one access is left open; device writes change nothing modelled here. */
  datatype World = World(readDevice: (nat, nat) -> bv64, decoder: D.Decoder)

  datatype Outcome = Done(v: bv64) | Dispatched(op: D.MicroOp) | Trapped(cause: nat, tval: addr) | Crash

  function DataCtx(s: State): Ctx { ContextOf(s.csr, true) }
  function FetchCtx(s: State): Ctx { ContextOf(s.csr, false) }

  function Held(s: State, k: Slot): Entry
  {
    match k
    case Slot(Read, i) => if i < |s.tlbR| then s.tlbR[i] else EMPTY
    case Slot(Write, i) => if i < |s.tlbW| then s.tlbW[i] else EMPTY
    case Slot(Fetch, i) => if i < |s.tlbX| then s.tlbX[i] else EMPTY
    case CodeSlot => s.code
  }

  /** The context a place's entries are looked up under. */
  function SlotCtx(s: State, k: Slot): Ctx { if k.CodeSlot? || k.acc == Fetch then FetchCtx(s) else DataCtx(s) }

  /** A word that the walk behind the entry reads has changed in more than A and D set. */
  predicate Hurt(s: State, m': Mem, k: Slot)
  {
    var e := Held(s, k);
    e.tag != INVALID && e.tag < SPACE && Damaged(s.mem, m', SlotCtx(s, k), e.tag)
  }

  // ---------------------------------------------------------------- memory primitives

  predicate InBounds(m: Mem, host: int, off: nat, n: nat)
  {
    0 <= host < |m.ram| && off + n <= |m.ram[host]|
  }

  function Peek(m: Mem, host: int, off: nat, n: nat): bv64
    requires IsSize(n)
  {
    if InBounds(m, host, off, n) then ReadLe(m.ram[host], off, n) else 0
  }

  function PokeBytes(m: Mem, host: int, off: nat, b: seq<bv8>): (m': Mem)
    ensures m'.ranges == m.ranges && |m'.ram| == |m.ram|
    ensures forall h :: 0 <= h < |m.ram| ==> |m'.ram[h]| == |m.ram[h]|
  {
    if InBounds(m, host, off, |b|) then m.(ram := m.ram[host := Splice(m.ram[host], off, b)]) else m
  }

  /** The page base `rangeOffset - pageOffset`. */
  function PageBase(off: nat, va: addr): nat { if off >= va % PAGE then off - va % PAGE else 0 }

  function CauseOf(t: Translation, acc: Access): nat
  {
    match acc
    case Fetch => if t.AccessFault? then 0x1 else 0xC
    case Read => if t.AccessFault? then 0x5 else 0xD
    case Write => if t.AccessFault? then 0x7 else 0xF
  }

  function FaultOf(t: Translation, acc: Access, va: addr): Outcome
  {
    if t.Unimplemented? then Crash else Trapped(CauseOf(t, acc), va)
  }

  function PageIdOf(p: Place): set<PageId> { if p.InRam? then {(p.host, p.off - p.off % PAGE)} else {} }

  function LeafPlace(m: Mem, w: Walked): Place { if w.Leaf? then PlaceOf(m, w.pteAddr) else Nowhere }

  /** The page that holds the leaf a translation writes to, if it writes. */
  function LeafPage(m: Mem, c: Ctx, va: addr, acc: Access): set<PageId>
  {
    if XlateMem(m, c, va, acc) != m then PageIdOf(LeafPlace(m, Walk(m, c, va))) else {}
  }

  /** The state after a translation: its A/D write, and the page that taints. */
  function Translated(s: State, c: Ctx, va: addr, acc: Access): State
  {
    s.(mem := XlateMem(s.mem, c, va, acc), tainted := s.tainted + LeafPage(s.mem, c, va, acc))
  }

  /** The entry held in a place has been used. */
  ghost function Used(s: State, k: Slot): State
  {
    s.(exposed := s.exposed || k in s.stale)
  }

  /** Bytes stored into RAM; the entries whose walks they damage become stale. */
  ghost function Stored(s: State, host: int, off: nat, b: seq<bv8>): State
  {
    var m' := PokeBytes(s.mem, host, off, b);
    s.(mem := m', stale := iset k: Slot | k in s.stale || Hurt(s, m', k))
  }

  /** A fresh entry for the page, in the place an access looks it up. */
  ghost function Filled(s: State, va: addr, host: nat, off: nat, acc: Access): (s': State)
    requires Shaped(s)
    ensures Shaped(s')
  {
    var i := IndexOf(va);
    var e := Entry(TagOf(va), host, PageBase(off, va), SlotCtx(s, Slot(acc, i)));
    var stale := s.stale - iset{Slot(acc, i)};
    match acc
    case Read => s.(tlbR := s.tlbR[i := e], stale := stale)
    case Write => s.(tlbW := s.tlbW[i := e], stale := stale)
    case Fetch => s.(tlbX := s.tlbX[i := e], stale := stale)
  }

  /** `_dropDecodedPage`; an invalidated code page is not stale any more. */
  ghost function DropPage(s: State, host: int, off: nat): (s': State)
    requires |s.cache| == D.ENTRIES
    ensures Shaped(s) ==> Shaped(s')
  {
    if !D.Holds(s.cache, host, off) then s
    else
      var s1 := s.(cache := D.Drop(s.cache, host, off));
      if s.code.off == off && s.code.host == host
      then s1.(code := s.code.(tag := INVALID), stale := s.stale - iset{CodeSlot})
      else s1
  }

  predicate Shaped(s: State)
  {
    |s.tlbR| == SIZE && |s.tlbW| == SIZE && |s.tlbX| == SIZE && |s.cache| == D.ENTRIES
  }

  // ---------------------------------------------------------------- loads

  /** `_memReadSlow`, aligned. */
  ghost function ReadSlow(s: State, w: World, va: addr, n: nat): (r: (State, Outcome))
    requires Shaped(s) && IsSize(n)
    ensures Shaped(r.0)
  {
    var c := DataCtx(s);
    var t := Xlate(s.mem, c, va, Read);
    if !t.Physical? then (s, FaultOf(t, Read, va))
    else
      var s1 := Translated(s, c, va, Read);
      var p := PlaceOf(s1.mem, t.pa);
      match p
      case Nowhere => (s1, Done(0))
      case InDevice => (s1, Done(w.readDevice(t.pa, n)))
      case InRam(host, off) =>
        (Filled(s1, va, host, off, Read), Done(Peek(s1.mem, host, off, n)))
  }

  /** `_memReadU8` to `_memReadU64` at an aligned address. */
  ghost function ReadAligned(s: State, w: World, va: addr, n: nat): (r: (State, Outcome))
    requires Shaped(s) && IsSize(n)
    ensures Shaped(r.0)
  {
    var e := s.tlbR[IndexOf(va)];
    if Hit(e, va, n) then (Used(s, Slot(Read, IndexOf(va))), Done(Peek(s.mem, e.host, e.off + va % PAGE, n))) else ReadSlow(s, w, va, n)
  }

  /** `v >> (8 * k)`, logical. */
  function Right(v: bv64, k: nat): bv64
  {
    if k == 0 then v else if k == 1 then v >> 8 else if k == 2 then v >> 16 else if k == 3 then v >> 24
    else if k == 4 then v >> 32 else if k == 5 then v >> 40 else if k == 6 then v >> 48 else if k == 7 then v >> 56 else 0
  }

  function Left(v: bv64, k: nat): bv64
  {
    if k == 0 then v else if k == 1 then v << 8 else if k == 2 then v << 16 else if k == 3 then v << 24
    else if k == 4 then v << 32 else if k == 5 then v << 40 else if k == 6 then v << 48 else if k == 7 then v << 56 else 0
  }

  function Funnel(v0: bv64, v1: bv64, right: nat, left: nat): bv64 { Right(v0, right) | Left(v1, left) }

  function TwoBytes(v0: bv64, v1: bv64): bv64 { v0 | (v1 << 8) }

  function Word(v: bv64): bv64 { v & 0xFFFF_FFFF }

  /** The two halves of an unaligned access, put together as the source does; for words the top half may be dirty. */
  function Join(n: nat, al: nat, v0: bv64, v1: bv64): bv64
    requires al < n && IsSize(n)
  {
    if n == 2 then TwoBytes(v0, v1)
    else if n == 4 then Funnel(Word(v0), Word(v1), al, 4 - al)
    else Funnel(v0, v1, al, 8 - al)
  }

  /** The two aligned accesses an unaligned load is made of. */
  function FirstPart(va: addr, n: nat): addr
    requires n == 2 || n == 4 || n == 8
  {
    if n == 2 then va else va - va % n
  }

  function SecondPart(va: addr, n: nat): addr
    requires n == 2 || n == 4 || n == 8
  {
    if n == 2 then Wrap(va + 1) else Wrap(va - va % n + n)
  }

  function PartSize(n: nat): nat { if n == 2 then 1 else n }

  /** `_memReadUnaligned` */
  ghost function ReadUnaligned(s: State, w: World, va: addr, n: nat): (r: (State, Outcome))
    requires Shaped(s) && IsSize(n) && va % n != 0
    ensures Shaped(r.0)
  {
    var (s1, r1) := ReadAligned(s, w, FirstPart(va, n), PartSize(n));
    if !r1.Done? then (s1, r1)
    else
      var (s2, r2) := ReadAligned(s1, w, SecondPart(va, n), PartSize(n));
      if !r2.Done? then (s2, r2) else (s2, Done(Join(n, va % n, r1.v, r2.v)))
  }

  ghost function MemRead(s: State, w: World, va: addr, n: nat): (r: (State, Outcome))
    requires Shaped(s) && IsSize(n)
    ensures Shaped(r.0)
  {
    if va % n == 0 then ReadAligned(s, w, va, n) else ReadUnaligned(s, w, va, n)
  }

  // ---------------------------------------------------------------- stores

  /** `_memWriteSlow`, aligned: fill, drop the page's decoded form, write. */
  ghost function WriteSlow(s: State, va: addr, n: nat, v: bv64): (r: (State, Outcome))
    requires Shaped(s) && IsSize(n)
    ensures Shaped(r.0)
  {
    var c := DataCtx(s);
    var t := Xlate(s.mem, c, va, Write);
    if !t.Physical? then (s, FaultOf(t, Write, va))
    else
      var s1 := Translated(s, c, va, Write);
      var p := PlaceOf(s1.mem, t.pa);
      if p.InRam? then
        var s2 := Filled(s1, va, p.host, p.off, Write);
        var s3 := DropPage(s2, p.host, PageBase(p.off, va));
        (Stored(s3, p.host, p.off, BytesOf(v, n)), Done(0))
      else (s1, Done(0))
  }

  ghost function WriteAligned(s: State, va: addr, n: nat, v: bv64): (r: (State, Outcome))
    requires Shaped(s) && IsSize(n)
    ensures Shaped(r.0)
  {
    var e := s.tlbW[IndexOf(va)];
    if Hit(e, va, n) then
      (Stored(Used(s, Slot(Write, IndexOf(va))), e.host, e.off + va % PAGE, BytesOf(v, n)), Done(0))
    else WriteSlow(s, va, n, v)
  }

  function ByteValue(v: bv64, i: nat): bv64 { Byte(v, i) as bv64 }

  /** `_memWriteUnaligned`: bytes `i` to `n - 1`, stopping at the first fault. */
  ghost function WriteBytes(s: State, va: addr, i: nat, n: nat, v: bv64): (r: (State, Outcome))
    requires Shaped(s) && i <= n
    ensures Shaped(r.0)
    decreases n - i
  {
    if i == n then (s, Done(0))
    else
      var (s1, r1) := WriteAligned(s, Wrap(va + i), 1, ByteValue(v, i));
      if r1.Done? then WriteBytes(s1, va, i + 1, n, v) else (s1, r1)
  }

  ghost function MemWrite(s: State, va: addr, n: nat, v: bv64): (r: (State, Outcome))
    requires Shaped(s) && IsSize(n)
    ensures Shaped(r.0)
  {
    if va % n == 0 then WriteAligned(s, va, n, v) else WriteBytes(s, va, 0, n, v)
  }

  // ---------------------------------------------------------------- fetch and dispatch

  /** What a page offers at an address: a whole instruction, the first half of one that goes on in the next page, or nothing. */
  datatype Piece = Whole(insn: bv64) | Half(low: bv64) | Odd

  function PieceAt(m: Mem, host: int, base: nat, pc: addr): Piece
  {
    var rem := PAGE - pc % PAGE;
    if rem >= 4 then
      var word := Peek(m, host, base + pc % PAGE, 4);
      Whole(if D.IsCompressed(word) then LowHalf(word) else word)
    else if rem >= 2 then
      var low := Peek(m, host, base + pc % PAGE, 2);
      if D.IsCompressed(low) then Whole(low) else Half(low)
    else Odd
  }

  const FETCH_FAULT: nat := 1

  /** `_fetchCrossPage` */
  function CrossPage(s: State, pc: addr, low: bv64): (r: (State, Outcome))
    requires Shaped(s)
    ensures Shaped(r.0) && !r.1.Dispatched?
  {
    var c, next := FetchCtx(s), Wrap(pc + 2);
    var t := Xlate(s.mem, c, next, Fetch);
    if !t.Physical? then (s, FaultOf(t, Fetch, next))
    else
      var s1 := Translated(s, c, next, Fetch);
      var p := PlaceOf(s1.mem, t.pa);
      if p.InRam? then (s1, Done(Halves(low, Peek(s1.mem, p.host, p.off, 2)))) else (s1, Trapped(FETCH_FAULT, next))
  }

  /** The instruction once its page is known. */
  function FromPage(s: State, host: int, base: nat, pc: addr): (r: (State, Outcome))
    requires Shaped(s)
    ensures Shaped(r.0) && !r.1.Dispatched?
  {
    match PieceAt(s.mem, host, base, pc)
    case Whole(insn) => (s, Done(insn))
    case Half(low) => CrossPage(s, pc, low)
    case Odd => (s, Trapped(FETCH_FAULT, pc))
  }

  /** `_fetchSlow` */
  ghost function FetchSlow(s: State, pc: addr): (r: (State, Outcome))
    requires Shaped(s)
    ensures Shaped(r.0) && !r.1.Dispatched?
  {
    var c := FetchCtx(s);
    var t := Xlate(s.mem, c, pc, Fetch);
    if !t.Physical? then (s, FaultOf(t, Fetch, pc))
    else
      var s1 := Translated(s, c, pc, Fetch);
      var p := PlaceOf(s1.mem, t.pa);
      if !p.InRam? then (s1, Trapped(FETCH_FAULT, pc))
      else
        FromPage(Filled(s1, pc, p.host, p.off, Fetch), p.host, PageBase(p.off, pc), pc)
  }

  /** `_installCodePage` */
  ghost function Install(s: State, e: Entry): (s': State)
    requires Shaped(s)
    ensures Shaped(s')
  {
    var stale := if Slot(Fetch, IndexOf(e.tag)) in s.stale then s.stale + iset{CodeSlot} else s.stale - iset{CodeSlot};
    var s1 := s.(code := e, stale := stale);
    if D.Holds(s1.cache, e.host, e.off) then s1
    else s1.(cache := D.Insert(s1.cache, e.host, e.off), tlbW := Purge(s1.tlbW, e.host, e.off),
             tainted := s1.tainted - {(e.host, e.off)})
  }

  /** `_readFromCodePage`; an odd last byte goes through the slow path. */
  ghost function ReadFromCodePage(s: State, pc: addr): (r: (State, Outcome))
    requires Shaped(s)
    ensures Shaped(r.0) && !r.1.Dispatched?
  {
    if PieceAt(s.mem, s.code.host, s.code.off, pc).Odd? then FetchSlow(s, pc) else FromPage(s, s.code.host, s.code.off, pc)
  }

  /** `_fetchSlowAndCache` */
  ghost function FetchAndCache(s: State, pc: addr): (r: (State, Outcome))
    requires Shaped(s)
    ensures Shaped(r.0) && !r.1.Dispatched?
  {
    var e := s.tlbX[IndexOf(pc)];
    if e.tag == TagOf(pc) then ReadFromCodePage(Install(Used(s, Slot(Fetch, IndexOf(pc))), e), pc)
    else
      var (s1, r) := FetchSlow(s, pc);
      if r.Done? then (Install(s1, s1.tlbX[IndexOf(pc)]), r) else (s1, r)
  }

  /** `_fetchInstruction` */
  ghost function FetchInsn(s: State, pc: addr): (r: (State, Outcome))
    requires Shaped(s)
    ensures Shaped(r.0) && !r.1.Dispatched?
  {
    if s.code.tag == TagOf(pc) && !PieceAt(s.mem, s.code.host, s.code.off, pc).Odd?
    then FromPage(Used(s, CodeSlot), s.code.host, s.code.off, pc)
    else FetchAndCache(s, pc)
  }

  /** The slot of the installed page, decoded if it has not been. */
  function DispatchSlot(s: State, w: World, pc: addr): (r: (State, Outcome))
    requires Shaped(s)
    ensures Shaped(r.0)
  {
    var i, slot := D.CacheIndex(s.code.off), D.SlotOf(pc);
    if !D.Holds(s.cache, s.code.host, s.code.off) || slot >= |s.cache[i].value.slots| || !InBounds(s.mem, s.code.host, s.code.off, PAGE)
    then (s, Crash)
    else
      var page := s.cache[i].value;
      if page.slots[slot].Some? then
        (s.(exposed := s.exposed || (page.host, page.off) in s.tainted), Dispatched(page.slots[slot].value))
      else
        var op := D.DecodeSlot(w.decoder, s.mem.ram[s.code.host], s.code.off, slot);
        (s.(cache := s.cache[i := Some(page.(slots := page.slots[slot := Some(op)]))]), Dispatched(op))
  }

  /** The predecoded loop up to its dispatch. */
  ghost function Dispatch(s: State, w: World, pc: addr): (r: (State, Outcome))
    requires Shaped(s)
    ensures Shaped(r.0)
  {
    if s.code.tag == TagOf(pc) then DispatchSlot(Used(s, CodeSlot), w, pc)
    else
      var (s1, r) := FetchAndCache(s, pc);
      if r.Done? then DispatchSlot(Used(s1, CodeSlot), w, pc) else (s1, r)
  }

  /** One turn of the predecoded loop: an uncommon instruction is fetched whole and left to the classic interpreter. */
  ghost function Turn(s: State, w: World, pc: addr): (r: (State, Outcome))
    requires Shaped(s)
    ensures Shaped(r.0)
  {
    var (s1, r) := Dispatch(s, w, pc);
    if r.Dispatched? && D.Uncommon(w.decoder, r.op) then FetchInsn(s1, pc) else (s1, r)
  }

  // ---------------------------------------------------------------- context changes, fences, devices

  ghost function FlushAll(s: State): (s': State)
    ensures Shaped(s) ==> Shaped(s')
  {
    s.(tlbR := EmptyTable(), tlbW := EmptyTable(), tlbX := EmptyTable(), code := s.code.(tag := INVALID), stale := iset{})
  }

  ghost function WithCsr(s: State, csr: Csrs, flush: bool): (s': State)
    ensures Shaped(s) ==> Shaped(s')
  {
    if flush then FlushAll(s).(csr := csr) else s.(csr := csr)
  }

  /** `sfence.vma` with an address. */
  ghost function FenceVma(s: State, va: addr): (s': State)
    requires Shaped(s)
    ensures Shaped(s')
  {
    s.(tlbR := FlushPage(s.tlbR, va), tlbW := FlushPage(s.tlbW, va), tlbX := FlushPage(s.tlbX, va),
       code := if s.code.tag == TagOf(va) then s.code.(tag := INVALID) else s.code)
  }

  /** `fence.i` */
  function FenceI(s: State): (s': State)
    requires Shaped(s)
    ensures Shaped(s')
  {
    s.(code := s.code.(tag := INVALID), cache := D.EmptyCache(), tainted := {})
  }

  /** Decoded pages from `first` to `last` dropped, one after the other. */
  ghost function DropPages(s: State, host: int, first: nat, last: int): (s': State)
    requires Shaped(s)
    ensures Shaped(s')
    decreases last - first
  {
    if first > last then s else DropPages(DropPage(s, host, first), host, first + PAGE, last)
  }

  /** A device writes RAM behind a physical address and reports it; a transfer past the end of the buffer is refused. */
  ghost function Dma(s: State, pa: nat, b: seq<bv8>): (s': State)
    requires Shaped(s)
    ensures Shaped(s')
  {
    var p := PlaceOf(s.mem, pa);
    if !p.InRam? || !InBounds(s.mem, p.host, p.off, |b|) then s
    else
      var last := p.off + |b| - 1;
      DropPages(Stored(s, p.host, p.off, b), p.host, p.off - p.off % PAGE, last - last % PAGE)
  }

  datatype Event =
    | Load(va: addr, n: nat)
    | Store(va: addr, n: nat, v: bv64)
    | Insn(pc: addr)
    | Execute(pc: addr)
    | CsrWrite(csr: nat, val: bv64)
    | Raise(cause: bv64, tval: bv64)
    | DoMret
    | DoSret
    | SfenceAll
    | SfencePage(va: addr)
    | DoFenceI
    | DeviceWrite(pa: nat, bytes: seq<bv8>)
    | SetMip(mip: bv64)
    | Sync(at: Reg, counter: nat)
    | FloatDone(flags: bv64, dirty: bool)

  predicate Sensible(e: Event) { (e.Load? ==> IsSize(e.n)) && (e.Store? ==> IsSize(e.n)) }

  /** The register file after an event that does not touch memory. */
  function CsrAfter(c: Csrs, e: Event): Csrs
  {
    match e
    case CsrWrite(csr, val) => if Accessible(c, csr) then Written(c, csr, val) else c
    case Raise(cause, tval) => Trap(c, cause, tval)
    case DoMret => Mret(c)
    case DoSret => Sret(c)
    case SetMip(mip) => c.(mip := Reg(mip))
    case Sync(at, counter) => c.(pc := at, counter := counter)
    case FloatDone(flags, dirty) => WithFlags(c, flags, dirty)
    case _ => c
  }

  predicate Flushes(c: Csrs, e: Event)
  {
    match e
    case CsrWrite(csr, val) => Accessible(c, csr) && WriteFlushes(c, csr, val)
    case Raise(_, _) => PrivFlushes(c, CsrAfter(c, e))
    case DoMret => PrivFlushes(c, CsrAfter(c, e))
    case DoSret => PrivFlushes(c, CsrAfter(c, e))
    case _ => false
  }

  ghost function Next(s: State, w: World, e: Event): (r: (State, Outcome))
    requires Shaped(s) && Sensible(e)
    ensures Shaped(r.0)
  {
    match e
    case Load(va, n) => MemRead(s, w, va, n)
    case Store(va, n, v) => MemWrite(s, va, n, v)
    case Insn(pc) => FetchInsn(s, pc)
    case Execute(pc) => Turn(s, w, pc)
    case SfenceAll => (FlushAll(s), Done(0))
    case SfencePage(va) => (FenceVma(s, va), Done(0))
    case DoFenceI => (FenceI(s), Done(0))
    case DeviceWrite(pa, bytes) => (Dma(s, pa, bytes), Done(0))
    case _ => (WithCsr(s, CsrAfter(s.csr, e), Flushes(s.csr, e)), Done(0))
  }
}
