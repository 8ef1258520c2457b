/**
 * What a guest has to fence, seen from the uncached machine alone: which translations have been overwritten since they were
 * last fenced, and which page-table pages have had A or D set since the last `fence.i`.
 */
module Fences {
  import opened Words
  import opened PhysMemory
  import opened Pte
  import opened Translate
  import opened Csr
  import opened Tlb
  import opened Cpu
  import U = Uncached
  import D = Predecode

  /** A virtual page as data accesses or as fetches see it. */
  datatype Page = Page(data: bool, tag: addr)

  /** Pages that could be translated when a store or a device damaged their walk, and pages that hold a leaf an access has marked. */
  datatype History = History(dirty: iset<Page>, marked: set<PageId>)

  type Seen = (History, bool)

  ghost function Nothing(): History { History(iset{}, {}) }

  /** The access does not depend on a translation that should have been fenced. */
  ghost predicate Clean(h: History, data: bool, va: addr) { Page(data, TagOf(va)) !in h.dirty }

  /** Some access to the page is allowed: only then can a translation of it be cached. */
  predicate Mapped(m: Mem, c: Ctx, t: addr)
  {
    Xlate(m, c, t, Read).Physical? || Xlate(m, c, t, Write).Physical? || Xlate(m, c, t, Fetch).Physical?
  }

  /** The store changes what translates a page that is mapped. */
  predicate Breaks(m: Mem, m': Mem, csr: Csrs, p: Page)
  {
    var c := ContextOf(csr, p.data);
    Mapped(m, c, p.tag) && Damaged(m, m', c, p.tag)
  }

  ghost function Overwritten(h: History, m: Mem, m': Mem, csr: Csrs): History
  {
    h.(dirty := iset p: Page | p in h.dirty || Breaks(m, m', csr, p))
  }

  ghost function Marked(h: History, m: Mem, c: Ctx, va: addr, acc: Access): History
  {
    h.(marked := h.marked + LeafPage(m, c, va, acc))
  }

  // ---------------------------------------------------------------- accesses

  ghost function SeenRead(h: History, m: Mem, csr: Csrs, va: addr): Seen
  {
    (Marked(h, m, ContextOf(csr, true), va, Read), Clean(h, true, va))
  }

  ghost function SeenLoad(h: History, m: Mem, csr: Csrs, w: World, va: addr, n: nat): Seen
    requires IsSize(n)
  {
    if va % n == 0 then SeenRead(h, m, csr, va)
    else
      var (m1, r) := U.LoadAligned(m, ContextOf(csr, true), w, FirstPart(va, n), PartSize(n));
      var (h1, ok1) := SeenRead(h, m, csr, FirstPart(va, n));
      if !r.Done? then (h1, ok1)
      else
        var (h2, ok2) := SeenRead(h1, m1, csr, SecondPart(va, n));
        (h2, ok1 && ok2)
  }

  ghost function SeenWrite(h: History, m: Mem, csr: Csrs, va: addr, n: nat, v: bv64): Seen
    requires IsSize(n)
  {
    var c := ContextOf(csr, true);
    var h1 := Marked(h, m, c, va, Write);
    (Overwritten(h1, XlateMem(m, c, va, Write), U.StoreAligned(m, c, va, n, v).0, csr), Clean(h, true, va))
  }

  ghost function SeenBytes(h: History, m: Mem, csr: Csrs, va: addr, i: nat, n: nat, v: bv64): Seen
    requires i <= n
    decreases n - i
  {
    if i == n then (h, true)
    else
      var (m1, r) := U.StoreAligned(m, ContextOf(csr, true), Wrap(va + i), 1, ByteValue(v, i));
      var (h1, ok1) := SeenWrite(h, m, csr, Wrap(va + i), 1, ByteValue(v, i));
      if !r.Done? then (h1, ok1)
      else
        var (h2, ok2) := SeenBytes(h1, m1, csr, va, i + 1, n, v);
        (h2, ok1 && ok2)
  }

  ghost function SeenStore(h: History, m: Mem, csr: Csrs, va: addr, n: nat, v: bv64): Seen
    requires IsSize(n)
  {
    if va % n == 0 then SeenWrite(h, m, csr, va, n, v) else SeenBytes(h, m, csr, va, 0, n, v)
  }

  // ---------------------------------------------------------------- fetches

  /** The second half of an instruction is always translated afresh. */
  ghost function SeenPiece(h: History, m: Mem, c: Ctx, host: int, base: nat, pc: addr): History
  {
    if PieceAt(m, host, base, pc).Half? then Marked(h, m, c, Wrap(pc + 2), Fetch) else h
  }

  ghost function SeenFetch(h: History, m: Mem, csr: Csrs, pc: addr): Seen
  {
    var c := ContextOf(csr, false);
    var t := Xlate(m, c, pc, Fetch);
    var m1, h1 := XlateMem(m, c, pc, Fetch), Marked(h, m, c, pc, Fetch);
    var p := if t.Physical? then PlaceOf(m1, t.pa) else Nowhere;
    (if p.InRam? then SeenPiece(h1, m1, c, p.host, PageBase(p.off, pc), pc) else h1, Clean(h, false, pc))
  }

  /** The page of RAM an instruction is fetched from. */
  function CodeFrame(m: Mem, c: Ctx, pc: addr): set<PageId>
  {
    var t := Xlate(m, c, pc, Fetch);
    var p := if t.Physical? then PlaceOf(m, t.pa) else Nowhere;
    if p.InRam? then {(p.host, PageBase(p.off, pc))} else {}
  }

  /** Instructions are executed at even addresses, and not from a page that holds a leaf marked since the last `fence.i`. */
  ghost function SeenExecute(h: History, m: Mem, csr: Csrs, pc: addr): Seen
  {
    var (h1, ok) := SeenFetch(h, m, csr, pc);
    (h1, ok && pc % 2 == 0 && CodeFrame(m, ContextOf(csr, false), pc) !! h1.marked)
  }

  // ---------------------------------------------------------------- events

  ghost function Flushed(h: History): History { h.(dirty := iset{}) }

  ghost function FencedPage(h: History, va: addr): History
  {
    h.(dirty := h.dirty - iset{Page(true, TagOf(va)), Page(false, TagOf(va))})
  }

  /** What one event adds to the history, and whether it is polite: it uses no translation that should have been fenced. */
  ghost function Observed(h: History, p: U.Plain, w: World, e: Event): Seen
    requires Sensible(e)
  {
    match e
    case Load(va, n) => SeenLoad(h, p.mem, p.csr, w, va, n)
    case Store(va, n, v) => SeenStore(h, p.mem, p.csr, va, n, v)
    case Insn(pc) => SeenFetch(h, p.mem, p.csr, pc)
    case Execute(pc) => SeenExecute(h, p.mem, p.csr, pc)
    case SfenceAll => (Flushed(h), true)
    case SfencePage(va) => (FencedPage(h, va), true)
    case DoFenceI => (h.(marked := {}), true)
    case DeviceWrite(_, _) => (Overwritten(h, p.mem, U.PlainStep(p, w, e).0.mem, p.csr), true)
    case _ => (if Flushes(p.csr, e) then Flushed(h) else h, true)
  }
}
