/** Guests that leave their page tables alone, and guests that never page: polite by construction. */
module PagedRuns {
  import opened Words
  import opened PhysMemory
  import opened Pte
  import opened Translate
  import opened Csr
  import opened CsrTheorems
  import opened Cpu
  import opened CpuInvariant
  import opened CpuRuns
  import opened Fences
  import opened FencedRuns
  import DM = DataMemory
  import R = CpuRuns
  import U = Uncached
  import D = Predecode

  // ---------------------------------------------------------------- page tables left alone

  /** No walk, of any page, reads a word that holds the byte. */
  ghost predicate OffTables(m: Mem, csr: Csrs, p: Place)
  {
    forall q: Page, a :: a in Visits(m, ContextOf(csr, q.data), q.tag) ==> DM.Clear(m, a, p)
  }

  /** Every leaf that translates some page lies in `tables`. */
  ghost predicate LeavesIn(m: Mem, csr: Csrs, tables: iset<PageId>)
  {
    forall q: Page, id ::
      Translates(m, ContextOf(csr, q.data), q.tag) && id in PageIdOf(LeafPlace(m, Walk(m, ContextOf(csr, q.data), q.tag))) ==>
        id in tables
  }

  predicate Translates(m: Mem, c: Ctx, va: addr) { Paging(c) && c.mode == SV39 && Walk(m, c, va).Leaf? }

  /** The bytes a store or a device writes. */
  ghost predicate Writes(p: U.Plain, e: Event, q: Place)
  {
    match e
    case Store(va, n, _) => exists k :: 0 <= k < n && q == DM.Target(p.mem, ContextOf(p.csr, true), DM.Nth(va, k))
    case DeviceWrite(pa, b) => var o := PlaceOf(p.mem, pa); o.InRam? && q.InRam? && q.host == o.host && o.off <= q.off < o.off + |b|
    case _ => false
  }

  /**
   * The event writes no word that a walk of any page reads, all leaves lie in `tables`, and what is executed lies at an even
   * address outside `tables`.
   */
  ghost predicate Tame(tables: iset<PageId>, p: U.Plain, e: Event)
  {
    && LeavesIn(p.mem, p.csr, tables)
    && (forall q :: Writes(p, e, q) ==> OffTables(p.mem, p.csr, q))
    && (e.Execute? ==> e.pc % 2 == 0 && forall id :: id in CodeFrame(p.mem, ContextOf(p.csr, false), e.pc) ==> id !in tables)
  }

  /** Nothing to fence, and only page-table pages marked. */
  ghost predicate Idle(h: History, tables: iset<PageId>) { h.dirty == iset{} && forall id :: id in h.marked ==> id in tables }

  lemma IdleMarked(h: History, tables: iset<PageId>, m: Mem, csr: Csrs, data: bool, va: addr, acc: Access)
    requires Idle(h, tables) && LeavesIn(m, csr, tables)
    ensures Idle(Marked(h, m, ContextOf(csr, data), va, acc), tables)
  {
    hide Walk, PlaceOf, ContextOf, Poke8, Xlate, NeedsUpdate;
    var c, q := ContextOf(csr, data), Page(data, va);
    forall id | id in LeafPage(m, c, va, acc) ensures id in tables {
      MarkedTranslates(m, c, va, acc);
      assert Translates(m, ContextOf(csr, q.data), q.tag);
    }
  }

  lemma MarkedTranslates(m: Mem, c: Ctx, va: addr, acc: Access)
    ensures XlateMem(m, c, va, acc) != m ==> Translates(m, c, va)
  {
    hide Walk, Poke8, NeedsUpdate, LeafOk, BuildPa;
  }

  // ---------------------------------------------------------------- memories with the same page tables

  /** No walk of any page has been damaged. */
  ghost predicate Intact(m: Mem, m': Mem, csr: Csrs)
  {
    && ValidMem(m) && ValidMem(m') && SameShape(m, m')
    && forall q: Page :: !Damaged(m, m', ContextOf(csr, q.data), q.tag)
  }

  lemma IntactXlate(m: Mem, m': Mem, csr: Csrs, c: Ctx, va: addr, acc: Access)
    requires Intact(m, m', csr)
    ensures Intact(m, XlateMem(m', c, va, acc), csr)
  {
    hide ValidMem, XlateMem, Damaged, AdExtMem, ContextOf;
    var m2 := XlateMem(m', c, va, acc);
    XlateShape(m', c, va, acc);
    UpdateIsAdExtMem(m', c, va, acc);
    forall q: Page ensures !Damaged(m, m2, ContextOf(csr, q.data), q.tag) {
      AdExtMemUndamaged(m', m2, ContextOf(csr, q.data), q.tag);
      DM.UndamagedTrans(m, m', m2, ContextOf(csr, q.data), q.tag);
    }
  }

  lemma IntactRefl(m: Mem, csr: Csrs)
    requires ValidMem(m)
    ensures Intact(m, m, csr)
  {
    hide ValidMem, Visits, PteAt, AdExtWord, ContextOf;
    forall a: nat ensures AdExtWord(PteAt(m, a), PteAt(m, a)) {
      AdExtRefl(PteAt(m, a));
    }
  }

  /** Leaves stay where they are. */
  lemma IntactLeaves(m: Mem, m': Mem, csr: Csrs, tables: iset<PageId>)
    requires Intact(m, m', csr) && LeavesIn(m, csr, tables)
    ensures LeavesIn(m', csr, tables)
  {
    hide ValidMem, Damaged, Walk, PlaceOf, ContextOf;
    forall q: Page, id |
      Translates(m', ContextOf(csr, q.data), q.tag) && id in PageIdOf(LeafPlace(m', Walk(m', ContextOf(csr, q.data), q.tag)))
      ensures id in tables
    {
      var c := ContextOf(csr, q.data);
      UndamagedXlate(m, m', c, q.tag, Read);
      SamePlaces(m, m', Walk(m, c, q.tag).pteAddr);
      assert Translates(m, ContextOf(csr, q.data), q.tag);
    }
  }

  /** Bytes off the page tables damage no walk. */
  lemma IntactPoke(m: Mem, m': Mem, csr: Csrs, host: nat, off: nat, b: seq<bv8>)
    requires Intact(m, m', csr) && (InBounds(m, host, off, |b|) ==> forall o :: off <= o < off + |b| ==> OffTables(m, csr, InRam(host, o)))
    ensures var m2 := PokeBytes(m', host, off, b); Intact(m, m2, csr) && Intact(m', m2, csr)
  {
    hide ValidMem, Damaged, PokeBytes, ContextOf, PlaceOf, Visits, AdExtWord, PteAt;
    var m2 := PokeBytes(m', host, off, b);
    SameShapeValid(m', m2);
    forall q: Page ensures !Damaged(m, m2, ContextOf(csr, q.data), q.tag) && !Damaged(m', m2, ContextOf(csr, q.data), q.tag) {
      var c := ContextOf(csr, q.data);
      DM.UndamagedVisits(m, m', c, q.tag);
      forall a | a in Visits(m', c, q.tag) ensures AdExtWord(PteAt(m', a), PteAt(m2, a)) {
        AdExtRefl(PteAt(m', a));
        SamePlaces(m, m', a);
        if InBounds(m, host, off, |b|) {
          forall o | off <= o < off + |b| ensures DM.Clear(m', a, InRam(host, o)) {
            assert OffTables(m, csr, InRam(host, o));
            assert a in Visits(m, ContextOf(csr, q.data), q.tag);
            assert DM.Clear(m, a, InRam(host, o));
            assert PlaceOf(m', a) == PlaceOf(m, a);
          }
          DM.WordUntouched(m', host, off, b, a);
        } else {
          PokeOutside(m', host, off, b);
        }
      }
      NoDamage(m', m2, c, q.tag);
      DM.UndamagedTrans(m, m', m2, c, q.tag);
    }
  }

  lemma NoDamage(m: Mem, m': Mem, c: Ctx, va: addr)
    requires forall a :: a in Visits(m, c, va) ==> AdExtWord(PteAt(m, a), PteAt(m', a))
    ensures !Damaged(m, m', c, va)
  {
  }

  lemma IdleOverwritten(h: History, tables: iset<PageId>, m: Mem, m': Mem, csr: Csrs)
    requires Idle(h, tables) && Intact(m, m', csr)
    ensures Idle(Overwritten(h, m, m', csr), tables)
  {
    hide ValidMem, Damaged, Mapped, ContextOf;
    assert Overwritten(h, m, m', csr).dirty == iset{};
  }

  // ---------------------------------------------------------------- accesses

  lemma IdleRead(h: History, tables: iset<PageId>, m: Mem, csr: Csrs, w: World, va: addr, n: nat)
    requires Idle(h, tables) && LeavesIn(m, csr, tables) && ValidMem(m) && IsSize(n)
    ensures SeenRead(h, m, csr, va).1 && Idle(SeenRead(h, m, csr, va).0, tables)
    ensures var m' := U.LoadAligned(m, ContextOf(csr, true), w, va, n).0; ValidMem(m') && LeavesIn(m', csr, tables)
  {
    hide ValidMem, LeavesIn, ContextOf, Xlate, XlateMem, PlaceOf, Peek, Intact, Marked;
    var c := ContextOf(csr, true);
    IdleMarked(h, tables, m, csr, true, va, Read);
    LeavesAfter(m, csr, tables, c, va, Read);
  }

  lemma LeavesAfter(m: Mem, csr: Csrs, tables: iset<PageId>, c: Ctx, va: addr, acc: Access)
    requires ValidMem(m) && LeavesIn(m, csr, tables)
    ensures var m' := XlateMem(m, c, va, acc); Intact(m, m', csr) && ValidMem(m') && LeavesIn(m', csr, tables)
  {
    hide ValidMem, LeavesIn, ContextOf, XlateMem, Damaged;
    IntactRefl(m, csr);
    IntactXlate(m, m, csr, c, va, acc);
    IntactLeaves(m, XlateMem(m, c, va, acc), csr, tables);
  }

  lemma IdleLoad(h: History, tables: iset<PageId>, m: Mem, csr: Csrs, w: World, va: addr, n: nat)
    requires Idle(h, tables) && LeavesIn(m, csr, tables) && ValidMem(m) && IsSize(n)
    ensures SeenLoad(h, m, csr, w, va, n).1 && Idle(SeenLoad(h, m, csr, w, va, n).0, tables)
  {
    hide ValidMem, LeavesIn, ContextOf, SeenRead, U.LoadAligned, Idle;
    if va % n == 0 {
      IdleRead(h, tables, m, csr, w, va, n);
    } else {
      IdleRead(h, tables, m, csr, w, FirstPart(va, n), PartSize(n));
      var m1 := U.LoadAligned(m, ContextOf(csr, true), w, FirstPart(va, n), PartSize(n)).0;
      IdleRead(SeenRead(h, m, csr, FirstPart(va, n)).0, tables, m1, csr, w, SecondPart(va, n), PartSize(n));
    }
  }

  /** An aligned store whose bytes lie off the tables of an earlier memory with the same walks. */
  lemma IntactStore(m: Mem, m': Mem, csr: Csrs, va: addr, n: nat, v: bv64)
    requires Intact(m, m', csr) && IsSize(n) && va % n == 0
    requires forall k :: 0 <= k < n ==> OffTables(m, csr, DM.Target(m, ContextOf(csr, true), DM.Nth(va, k)))
    ensures var c := ContextOf(csr, true); var m2 := U.StoreAligned(m', c, va, n, v).0;
      Intact(m, m2, csr) && Intact(XlateMem(m', c, va, Write), m2, csr)
  {
    assert ValidMem(m);
    hide ValidMem, ContextOf, Xlate, XlateMem, PlaceOf, PokeBytes, Intact, OffTables, BytesOf, DM.Target;
    var c := ContextOf(csr, true);
    var m1 := XlateMem(m', c, va, Write);
    IntactXlate(m, m', csr, c, va, Write);
    IntactSelf(m, m1, csr);
    IntactPlaces(m, m', m1, csr, va);
    var p := DM.Target(m, c, va);
    TargetStores(m, m', m1, c, va, n, v);
    if p.InRam? {
      TargetBytes(m, csr, va, n, p.host, p.off);
      IntactPoke(m, m1, csr, p.host, p.off, BytesOf(v, n));
    }
  }

  /** What an aligned store does, by where its first byte would have landed. */
  lemma TargetStores(m: Mem, m': Mem, m1: Mem, c: Ctx, va: addr, n: nat, v: bv64)
    requires IsSize(n) && m1 == XlateMem(m', c, va, Write) && Xlate(m', c, va, Write) == Xlate(m, c, va, Write)
    requires Xlate(m', c, va, Write).Physical? ==> PlaceOf(m1, Xlate(m', c, va, Write).pa) == DM.Target(m, c, va)
    ensures var p := DM.Target(m, c, va);
      U.StoreAligned(m', c, va, n, v).0 == if p.InRam? then PokeBytes(m1, p.host, p.off, BytesOf(v, n)) else m1
  {
    hide PokeBytes, BytesOf, PlaceOf, Walk, BuildPa, LeafOk, Poke8;
  }

  lemma TargetBytes(m: Mem, csr: Csrs, va: addr, n: nat, host: nat, off: nat)
    requires ValidMem(m) && IsSize(n) && va % n == 0 && DM.Target(m, ContextOf(csr, true), va) == InRam(host, off)
    requires forall k :: 0 <= k < n ==> OffTables(m, csr, DM.Target(m, ContextOf(csr, true), DM.Nth(va, k)))
    ensures forall o :: off <= o < off + n ==> OffTables(m, csr, InRam(host, o))
  {
    hide ValidMem, OffTables, DM.Target, ContextOf;
    var c := ContextOf(csr, true);
    assert DM.Nth(va, 0) == va;
    DM.AlignedChunk(m, c, va, 0, n);
    forall o | off <= o < off + n ensures OffTables(m, csr, InRam(host, o)) {
      assert DM.Target(m, c, DM.Nth(va, o - off)) == InRam(host, off + (o - off - 0));
    }
  }

  lemma IdleWrite(h: History, tables: iset<PageId>, m: Mem, m': Mem, csr: Csrs, va: addr, n: nat, v: bv64)
    requires Idle(h, tables) && LeavesIn(m, csr, tables) && Intact(m, m', csr) && IsSize(n) && va % n == 0
    requires forall k :: 0 <= k < n ==> OffTables(m, csr, DM.Target(m, ContextOf(csr, true), DM.Nth(va, k)))
    ensures SeenWrite(h, m', csr, va, n, v).1 && Idle(SeenWrite(h, m', csr, va, n, v).0, tables)
    ensures Intact(m, U.StoreAligned(m', ContextOf(csr, true), va, n, v).0, csr)
  {
    hide LeavesIn, ContextOf, XlateMem, U.StoreAligned, Intact, Marked, OffTables, Overwritten, DM.Target;
    var c := ContextOf(csr, true);
    IntactLeaves(m, m', csr, tables);
    IdleMarked(h, tables, m', csr, true, va, Write);
    IntactStore(m, m', csr, va, n, v);
    IdleOverwritten(Marked(h, m', c, va, Write), tables, XlateMem(m', c, va, Write), U.StoreAligned(m', c, va, n, v).0, csr);
  }

  lemma IntactSelf(m: Mem, m': Mem, csr: Csrs)
    requires Intact(m, m', csr)
    ensures Intact(m', m', csr)
  {
    hide ValidMem, Damaged;
    IntactRefl(m', csr);
  }

  /** Stores land where they would have landed. */
  lemma IntactPlaces(m: Mem, m': Mem, m1: Mem, csr: Csrs, va: addr)
    requires Intact(m, m', csr) && Intact(m, m1, csr)
    ensures var c := ContextOf(csr, true); var t := Xlate(m', c, va, Write);
      t == Xlate(m, c, va, Write) && (t.Physical? ==> PlaceOf(m1, t.pa) == DM.Target(m, c, va))
  {
    hide ValidMem, Damaged, Xlate, PlaceOf, ContextOf;
    UndamagedXlate(m, m', ContextOf(csr, Page(true, va).data), Page(true, va).tag, Write);
    var t := Xlate(m, ContextOf(csr, true), va, Write);
    if t.Physical? {
      SamePlaces(m, m1, t.pa);
    }
  }

  lemma {:induction false} IdleBytes(h: History, tables: iset<PageId>, m: Mem, m': Mem, csr: Csrs, va: addr, i: nat, n: nat, v: bv64)
    requires Idle(h, tables) && LeavesIn(m, csr, tables) && Intact(m, m', csr) && i <= n
    requires forall k :: 0 <= k < n ==> OffTables(m, csr, DM.Target(m, ContextOf(csr, true), DM.Nth(va, k)))
    ensures SeenBytes(h, m', csr, va, i, n, v).1 && Idle(SeenBytes(h, m', csr, va, i, n, v).0, tables)
    decreases n - i
  {
    hide LeavesIn, ContextOf, U.StoreAligned, ByteValue, SeenWrite, Intact, OffTables, DM.Target, Idle;
    if i < n {
      var a, x := Wrap(va + i), ByteValue(v, i);
      assert a == DM.Nth(va, i) && DM.Nth(a, 0) == a;
      IdleWrite(h, tables, m, m', csr, a, 1, x);
      IdleBytes(SeenWrite(h, m', csr, a, 1, x).0, tables, m, U.StoreAligned(m', ContextOf(csr, true), a, 1, x).0, csr, va, i + 1, n, v);
    }
  }

  lemma IdleStore(h: History, tables: iset<PageId>, m: Mem, csr: Csrs, va: addr, n: nat, v: bv64)
    requires Idle(h, tables) && LeavesIn(m, csr, tables) && ValidMem(m) && IsSize(n)
    requires forall k :: 0 <= k < n ==> OffTables(m, csr, DM.Target(m, ContextOf(csr, true), DM.Nth(va, k)))
    ensures SeenStore(h, m, csr, va, n, v).1 && Idle(SeenStore(h, m, csr, va, n, v).0, tables)
  {
    hide ValidMem, LeavesIn, ContextOf, SeenWrite, Intact, OffTables, DM.Target, Idle, SeenBytes;
    IntactRefl(m, csr);
    if va % n == 0 {
      IdleWrite(h, tables, m, m, csr, va, n, v);
    } else {
      IdleBytes(h, tables, m, m, csr, va, 0, n, v);
    }
  }

  lemma IdleFetch(h: History, tables: iset<PageId>, m: Mem, csr: Csrs, pc: addr)
    requires Idle(h, tables) && LeavesIn(m, csr, tables) && ValidMem(m)
    ensures SeenFetch(h, m, csr, pc).1 && Idle(SeenFetch(h, m, csr, pc).0, tables)
  {
    hide ValidMem, LeavesIn, ContextOf, Xlate, XlateMem, PlaceOf, Intact, Marked, PieceAt;
    var c := ContextOf(csr, false);
    var m1, h1 := XlateMem(m, c, pc, Fetch), Marked(h, m, c, pc, Fetch);
    IdleMarked(h, tables, m, csr, false, pc, Fetch);
    LeavesAfter(m, csr, tables, c, pc, Fetch);
    IdleMarked(h1, tables, m1, csr, false, Wrap(pc + 2), Fetch);
  }

  lemma IdleDma(h: History, tables: iset<PageId>, p: U.Plain, w: World, pa: nat, b: seq<bv8>)
    requires Idle(h, tables) && ValidMem(p.mem)
    requires forall q :: Writes(p, DeviceWrite(pa, b), q) ==> OffTables(p.mem, p.csr, q)
    ensures Idle(Overwritten(h, p.mem, U.PlainStep(p, w, DeviceWrite(pa, b)).0.mem, p.csr), tables)
  {
    hide ValidMem, PlaceOf, Intact, OffTables, PokeBytes, Overwritten;
    IntactRefl(p.mem, p.csr);
    var o := PlaceOf(p.mem, pa);
    if o.InRam? {
      forall k | o.off <= k < o.off + |b| ensures OffTables(p.mem, p.csr, InRam(o.host, k)) {
        assert Writes(p, DeviceWrite(pa, b), InRam(o.host, k));
      }
      IntactPoke(p.mem, p.mem, p.csr, o.host, o.off, b);
    }
    IdleOverwritten(h, tables, p.mem, U.PlainStep(p, w, DeviceWrite(pa, b)).0.mem, p.csr);
  }

  // ---------------------------------------------------------------- runs

  lemma TameStep(h: History, tables: iset<PageId>, p: U.Plain, w: World, e: Event)
    requires Idle(h, tables) && ValidMem(p.mem) && Sensible(e) && Tame(tables, p, e)
    ensures var (h', ok) := Observed(h, p, w, e); ok && Idle(h', tables)
  {
    hide ValidMem, LeavesIn, OffTables, SeenLoad, SeenStore, SeenFetch, Overwritten, CodeFrame, ContextOf, DM.Target, Flushes;
    match e {
      case Load(va, n) => IdleLoad(h, tables, p.mem, p.csr, w, va, n);
      case Store(va, n, v) =>
        forall k | 0 <= k < n ensures OffTables(p.mem, p.csr, DM.Target(p.mem, ContextOf(p.csr, true), DM.Nth(va, k))) {
          assert Writes(p, e, DM.Target(p.mem, ContextOf(p.csr, true), DM.Nth(va, k)));
        }
        IdleStore(h, tables, p.mem, p.csr, va, n, v);
      case Insn(pc) => IdleFetch(h, tables, p.mem, p.csr, pc);
      case Execute(pc) => IdleFetch(h, tables, p.mem, p.csr, pc);
      case DeviceWrite(pa, b) => IdleDma(h, tables, p, w, pa, b);
      case SfencePage(va) => assert FencedPage(h, va).dirty == iset{};
      case _ =>
    }
  }

  ghost predicate TameRun(d: D.Decoder, tables: iset<PageId>, p: U.Plain, cs: seq<Cycle>)
    requires Regular(d, cs)
    decreases |cs|
  {
    cs == [] ||
    (Tame(tables, p, cs[0].event) && TameRun(d, tables, U.PlainStep(p, cs[0].world, cs[0].event).0, cs[1..]))
  }

  lemma {:induction false} TamePolite(d: D.Decoder, s: State, h: History, tables: iset<PageId>, cs: seq<Cycle>)
    requires Inv(d, s) && Linked(s, h) && Idle(h, tables) && Regular(d, cs) && TameRun(d, tables, U.Plain(s.mem, s.csr), cs)
    ensures Polite(d, h, U.Plain(s.mem, s.csr), cs)
    decreases |cs|
  {
    hide Coherent, ValidMem, CsrInv, Linked, Next, U.PlainStep, Observed, Idle, Tame;
    if cs != [] {
      var w, e, p := cs[0].world, cs[0].event, U.Plain(s.mem, s.csr);
      TameStep(h, tables, p, w, e);
      StepRefines(d, s, w, e);
      StepLinked(d, s, h, w, e);
      PoliteEven(h, p, w, e);
      NotExposed(Next(s, w, e).0, Observed(h, p, w, e).0);
      TamePolite(d, Next(s, w, e).0, Observed(h, p, w, e).0, tables, cs[1..]);
    }
  }

  /**
   * Paging guests that leave their page tables alone need no fence: if no store and no device writes a word that some walk
   * reads, so that only the machine's own A and D updates change the tables, and no instruction lies among the leaves, the
   * caches are invisible from reset on.
   */
  lemma PagedRefines(d: D.Decoder, m: Mem, csr: Csrs, tables: iset<PageId>, cs: seq<Cycle>)
    requires ValidMem(m) && CsrInv(csr) && Regular(d, cs) && TameRun(d, tables, U.Plain(m, csr), cs)
    ensures var (s, os) := R.Run(d, Reset(m, csr), cs); (U.Plain(s.mem, s.csr), os) == PlainRun(d, U.Plain(m, csr), cs)
  {
    hide ValidMem, CsrInv, R.Run, PlainRun, Polite, Linked, TameRun;
    ResetInv(d, m, csr);
    ResetLinked(m, csr);
    TamePolite(d, Reset(m, csr), Nothing(), tables, cs);
    FencedFromReset(d, m, csr, cs);
  }

  // ---------------------------------------------------------------- no paging at all

  /** No state of the run, save perhaps the last, translates through page tables. */
  ghost predicate FlatRun(d: D.Decoder, p: U.Plain, cs: seq<Cycle>)
    requires Regular(d, cs)
    decreases |cs|
  {
    cs == [] ||
    (!Paging(ContextOf(p.csr, true)) && !Paging(ContextOf(p.csr, false)) &&
     FlatRun(d, U.PlainStep(p, cs[0].world, cs[0].event).0, cs[1..]))
  }

  lemma FlatTame(p: U.Plain, e: Event)
    requires !Paging(ContextOf(p.csr, true)) && !Paging(ContextOf(p.csr, false)) && EvenPc(e)
    ensures Tame(iset{}, p, e)
  {
    hide ContextOf, Walk, VisitsFrom, CodeFrame, PlaceOf, Writes;
    forall q: Page ensures !Paging(ContextOf(p.csr, q.data)) {
    }
  }

  lemma {:induction false} FlatTameRun(d: D.Decoder, p: U.Plain, cs: seq<Cycle>)
    requires Regular(d, cs) && Even(cs) && FlatRun(d, p, cs)
    ensures TameRun(d, iset{}, p, cs)
    decreases |cs|
  {
    hide Tame, U.PlainStep, ContextOf;
    if cs != [] {
      FlatTame(p, cs[0].event);
      FlatTameRun(d, U.PlainStep(p, cs[0].world, cs[0].event).0, cs[1..]);
    }
  }

  /**
   * A guest that never pages, the FreeRTOS applications for instance, and executes at even addresses: whatever it stores, and
   * wherever devices write, the cached machine answers exactly what the uncached one answers.
   */
  lemma FlatRefines(d: D.Decoder, m: Mem, csr: Csrs, cs: seq<Cycle>)
    requires ValidMem(m) && CsrInv(csr) && Regular(d, cs) && Even(cs) && FlatRun(d, U.Plain(m, csr), cs)
    ensures var (s, os) := R.Run(d, Reset(m, csr), cs); (U.Plain(s.mem, s.csr), os) == PlainRun(d, U.Plain(m, csr), cs)
  {
    hide ValidMem, CsrInv, R.Run, PlainRun, FlatRun, TameRun;
    FlatTameRun(d, U.Plain(m, csr), cs);
    PagedRefines(d, m, csr, iset{}, cs);
  }
}
