/** Fetching, installing code pages and dispatching decoded slots, against fetching and decoding afresh. */
module FetchTheorems {
  import opened Words
  import opened PhysMemory
  import opened Pte
  import opened Translate
  import opened Csr
  import opened CsrTheorems
  import opened Tlb
  import opened Cpu
  import opened CpuInvariant
  import opened CpuRefinement
  import U = Uncached
  import D = Predecode

  // ---------------------------------------------------------------- fetching twice is fetching once

  /** A translation changes no byte but the first of an aligned word. */
  lemma XlateFirstBytes(m: Mem, c: Ctx, va: addr, acc: Access, h: nat, o: nat)
    requires ValidMem(m) && h < |m.ram| && o < |m.ram[h]| && o % 8 != 0
    ensures var m' := XlateMem(m, c, va, acc); SameShape(m, m') && m'.ram[h][o] == m.ram[h][o]
  {
    hide XlateMem, ValidMem, Xlate, PlaceOf, WalkFrom, Canonical, Le8, Byte, Updated;
    var m' := XlateMem(m, c, va, acc);
    XlateShape(m, c, va, acc);
    WalkAtomic(m, c, va, acc);
    if m' != m {
      var w := Walk(m, c, va);
      var p := PlaceOf(m, w.pteAddr);
      WalkedAligned(m, c.root * PAGE, 2, va);
      PlaceBounds(m, w.pteAddr);
      EightInPage(w.pteAddr, p.off);
      SamePlaces(m, m', w.pteAddr);
      if h == p.host && p.off <= o < p.off + 8 {
        var i := o - p.off;
        ByteOfLe8(m.ram[h], p.off, i);
        ByteOfLe8(m'.ram[h], p.off, i);
        UpdateInLowByte(w.pte, acc, i);
      }
    }
  }

  /** The low half of an instruction that goes on in the next page survives the second translation. */
  lemma LowHalfStays(m: Mem, c: Ctx, va: addr, host: int, base: nat, pc: addr)
    requires ValidMem(m) && Backed(m, host, base) && PieceAt(m, host, base, pc).Half?
    ensures PieceAt(XlateMem(m, c, va, Fetch), host, base, pc) == PieceAt(m, host, base, pc)
  {
    hide XlateMem, ValidMem, D.IsCompressed;
    var o := base + pc % PAGE;
    HalfOffset(base, pc);
    XlateFirstBytes(m, c, va, Fetch, host, o);
    XlateFirstBytes(m, c, va, Fetch, host, o + 1);
    Le2Same(m.ram[host], XlateMem(m, c, va, Fetch).ram[host], o);
  }

  lemma HalfOffset(base: nat, pc: addr)
    requires base % PAGE == 0 && 2 <= PAGE - pc % PAGE < 4
    ensures (base + pc % PAGE) % 8 != 0 && (base + pc % PAGE + 1) % 8 != 0 && pc % PAGE + 2 <= PAGE
  {
    var q := base / PAGE * 512;
    assert base == 8 * q;
    assert pc % PAGE == 8 * 511 + 5 || pc % PAGE == 8 * 511 + 6;
  }

  /** A translation done again: the same address, the same place, and nothing left to write. */
  lemma XlateAgain(m: Mem, c: Ctx, va: addr)
    requires ValidMem(m) && Xlate(m, c, va, Fetch).Physical?
    ensures var m' := XlateMem(m, c, va, Fetch);
      && ValidMem(m') && SameShape(m, m') && Settled(m', c, va, Fetch) && XlateMem(m', c, va, Fetch) == m'
      && Xlate(m', c, va, Fetch) == Xlate(m, c, va, Fetch)
  {
    hide XlateMem, ValidMem, Xlate, Settled;
    XlateShape(m, c, va, Fetch);
    XlateSettles(m, c, va, Fetch);
    UpdatePreservesMeaning(m, c, va, Fetch, c, va, Fetch);
  }

  /** A settled page stays settled, and leads to the same place, through another translation. */
  lemma SettledThrough(m: Mem, c: Ctx, va: addr, vb: addr)
    requires ValidMem(m) && Settled(m, c, va, Fetch) && Xlate(m, c, va, Fetch).Physical?
    ensures var m' := XlateMem(m, c, vb, Fetch);
      && Settled(m', c, va, Fetch) && XlateMem(m', c, va, Fetch) == m' && Xlate(m', c, va, Fetch) == Xlate(m, c, va, Fetch)
      && forall a :: PlaceOf(m', a) == PlaceOf(m, a)
  {
    hide XlateMem, ValidMem, Xlate, Settled, Damaged, PlaceOf, AdExtMem;
    var m' := XlateMem(m, c, vb, Fetch);
    XlateShape(m, c, vb, Fetch);
    UpdateIsAdExtMem(m, c, vb, Fetch);
    AdExtMemUndamaged(m, m', c, va);
    UndamagedSettled(m, m', c, va, Fetch);
    UndamagedXlate(m, m', c, va, Fetch);
    SettledWritesNothing(m', c, va, Fetch);
    forall a ensures PlaceOf(m', a) == PlaceOf(m, a) {
      SamePlaces(m, m', a);
    }
  }

  lemma SecondHalfAgain(m: Mem, c: Ctx, pc: addr, low: bv64)
    requires ValidMem(m) && U.SecondHalf(m, c, pc, low).1.Done?
    ensures var r := U.SecondHalf(m, c, pc, low); U.SecondHalf(r.0, c, pc, low) == r
    ensures U.SecondHalf(m, c, pc, low).0 == XlateMem(m, c, Wrap(pc + 2), Fetch)
  {
    hide XlateMem, ValidMem, Xlate, Settled, PlaceOf, Peek;
    var next := Wrap(pc + 2);
    XlateAgain(m, c, next);
  }

  /** Fetching an instruction a second time yields it again and writes nothing more. */
  lemma FetchAgain(m: Mem, c: Ctx, pc: addr)
    requires ValidMem(m) && U.FetchWord(m, c, pc).1.Done?
    ensures var r := U.FetchWord(m, c, pc); U.FetchWord(r.0, c, pc) == r
  {
    hide XlateMem, ValidMem, Xlate, Settled, PlaceOf, PieceAt, U.SecondHalf, Backed, Visits;
    XlateAgain(m, c, pc);
    var m1 := XlateMem(m, c, pc, Fetch);
    var p := PlaceOf(m1, Xlate(m, c, pc, Fetch).pa);
    var base := PageBase(p.off, pc);
    var piece := PieceAt(m1, p.host, base, pc);
    if piece.Half? {
      WholePage(m1, c, pc, Fetch, pc);
      SecondHalfAgain(m1, c, pc, piece.low);
      var m2 := XlateMem(m1, c, Wrap(pc + 2), Fetch);
      SettledThrough(m1, c, pc, Wrap(pc + 2));
      LowHalfStays(m1, c, Wrap(pc + 2), p.host, base, pc);
    }
  }

  // ---------------------------------------------------------------- fetches

  lemma CrossPageFollows(d: D.Decoder, s: State, pc: addr, low: bv64)
    requires Inv(d, s)
    ensures Follows(d, s, CrossPage(s, pc, low), U.SecondHalf(s.mem, FetchCtx(s), pc, low))
    ensures CrossPage(s, pc, low).0.tlbX == s.tlbX
  {
    hide ValidMem, CsrInv, Xlate, PlaceOf, XlateMem, TablesOk, CacheOk, Exclusive, CodeHeld, Peek, ContextOf, LeafPage;
    var c, next := FetchCtx(s), Wrap(pc + 2);
    if !Xlate(s.mem, c, next, Fetch).Physical? {
      FaultNeverCrashes(s, false, next, Fetch);
    } else {
      TranslatedInv(d, s, c, next, Fetch);
    }
  }

  lemma FromPageFollows(d: D.Decoder, s: State, host: int, base: nat, pc: addr)
    requires Inv(d, s)
    ensures Follows(d, s, FromPage(s, host, base, pc), U.FetchAt(s.mem, FetchCtx(s), host, base, pc))
    ensures FromPage(s, host, base, pc).0.tlbX == s.tlbX
  {
    hide Coherent, ValidMem, CsrInv, PieceAt, U.SecondHalf, CrossPage, ContextOf;
    match PieceAt(s.mem, host, base, pc) {
      case Half(low) => CrossPageFollows(d, s, pc, low);
      case Whole(_) =>
      case Odd =>
    }
  }

  lemma FetchSlowFollows(d: D.Decoder, s: State, pc: addr)
    requires Inv(d, s)
    ensures Follows(d, s, FetchSlow(s, pc), U.FetchWord(s.mem, FetchCtx(s), pc))
    ensures FetchSlow(s, pc).1.Done? ==> FetchSlow(s, pc).0.tlbX[IndexOf(pc)].tag == TagOf(pc)
  {
    hide ValidMem, CsrInv, Xlate, PlaceOf, XlateMem, TableOk, EntryOk, CacheOk, Exclusive, CodeHeld, FromPage, U.FetchAt, Leads,
      Backed, ContextOf, LeafPage, IndexOf;
    var c := FetchCtx(s);
    if !Xlate(s.mem, c, pc, Fetch).Physical? {
      FaultNeverCrashes(s, false, pc, Fetch);
    } else {
      TranslatedInv(d, s, c, pc, Fetch);
      var s1 := Translated(s, c, pc, Fetch);
      var p := PlaceOf(s1.mem, Xlate(s.mem, c, pc, Fetch).pa);
      if p.InRam? {
        FilledLeads(s.mem, c, pc, Fetch);
        FilledInv(d, s1, pc, p.host, p.off, Fetch);
        FromPageFollows(d, Filled(s1, pc, p.host, p.off, Fetch), p.host, PageBase(p.off, pc), pc);
      }
    }
  }

  /** A fetch through an entry that leads where the walk leads. */
  lemma FetchThrough(m: Mem, c: Ctx, e: Entry, pc: addr)
    requires ValidMem(m) && Leads(m, c, e, Fetch) && e.tag == TagOf(pc)
    ensures U.FetchWord(m, c, pc) == U.FetchAt(m, c, e.host, e.off, pc)
  {
    hide ValidMem, Xlate, PlaceOf, XlateMem, Leads, U.FetchAt;
    HitIsFresh(m, c, e, pc, Fetch);
  }

  /** Reading from the installed page, whose odd last byte goes through the slow path. */
  lemma InstalledFollows(d: D.Decoder, s: State, pc: addr)
    requires Inv(d, s) && s.code.tag == TagOf(pc) && (CodeSlot in s.stale ==> s.exposed)
    ensures Follows(d, s, FromPage(s, s.code.host, s.code.off, pc), U.FetchWord(s.mem, FetchCtx(s), pc))
    ensures Follows(d, s, ReadFromCodePage(s, pc), U.FetchWord(s.mem, FetchCtx(s), pc))
  {
    hide ValidMem, CsrInv, TableOk, CacheOk, Exclusive, CodeHeld, FromPage, FetchSlow, U.FetchWord, U.FetchAt, PieceAt;
    hide Leads, Backed, ContextOf;
    NeverInvalid(pc, 1);
    FromPageFollows(d, s, s.code.host, s.code.off, pc);
    FetchSlowFollows(d, s, pc);
    if CodeSlot !in s.stale {
      FetchThrough(s.mem, FetchCtx(s), s.code, pc);
    }
  }

  lemma CodeEntry(d: D.Decoder, s: State, pc: addr)
    requires Inv(d, s) && s.tlbX[IndexOf(pc)].tag == TagOf(pc)
    ensures TagOf(pc) != INVALID && IndexOf(TagOf(pc)) == IndexOf(pc)
    ensures EntryOk(s.mem, s.stale, FetchCtx(s), s.tlbX[IndexOf(pc)], Slot(Fetch, IndexOf(pc)))
  {
    TagInPage(pc);
    hide ValidMem, CsrInv, EntryOk, CacheOk, Exclusive, CodeHeld, ContextOf, IndexOf;
    NeverInvalid(pc, 1);
  }

  lemma FetchAndCacheFollows(d: D.Decoder, s: State, pc: addr)
    requires Inv(d, s)
    ensures Follows(d, s, FetchAndCache(s, pc), U.FetchWord(s.mem, FetchCtx(s), pc))
    ensures FetchAndCache(s, pc).1.Done? ==> FetchAndCache(s, pc).0.code.tag == TagOf(pc)
  {
    hide Coherent, ValidMem, CsrInv, FetchSlow, ReadFromCodePage, U.FetchWord, Install, ContextOf, IndexOf, EntryOk;
    var e := s.tlbX[IndexOf(pc)];
    if e.tag == TagOf(pc) {
      var k := Slot(Fetch, IndexOf(pc));
      var s0 := Used(s, k);
      UsedInv(d, s, k);
      CodeEntry(d, s0, pc);
      InstallInv(d, s0, e);
      InstallKeeps(s0, e);
      InstalledFollows(d, Install(s0, e), pc);
      ReadKeepsCode(Install(s0, e), pc);
    } else {
      FetchSlowFollows(d, s, pc);
      var r := FetchSlow(s, pc);
      if r.1.Done? {
        CodeEntry(d, r.0, pc);
        InstallInv(d, r.0, r.0.tlbX[IndexOf(pc)]);
        InstallKeeps(r.0, r.0.tlbX[IndexOf(pc)]);
      }
    }
  }

  lemma UsedInv(d: D.Decoder, s: State, k: Slot)
    requires Inv(d, s)
    ensures Inv(d, Used(s, k))
  {
    hide ValidMem, CsrInv, TableOk, EntryOk, CacheOk, Exclusive, CodeHeld, ContextOf;
  }

  lemma InstallKeeps(s: State, e: Entry)
    requires Shaped(s)
    ensures var s' := Install(s, e);
      && s'.mem == s.mem && s'.csr == s.csr && s'.exposed == s.exposed && s'.code == e
      && (CodeSlot in s'.stale <==> Slot(Fetch, IndexOf(e.tag)) in s.stale)
  {
  }

  lemma ReadKeepsCode(s: State, pc: addr)
    requires Shaped(s)
    ensures ReadFromCodePage(s, pc).0.code == s.code
  {
    hide Xlate, XlateMem, PlaceOf, PieceAt, LeafPage, ContextOf;
  }

  lemma FetchInsnFollows(d: D.Decoder, s: State, pc: addr)
    requires Inv(d, s)
    ensures Follows(d, s, FetchInsn(s, pc), U.FetchWord(s.mem, FetchCtx(s), pc))
  {
    hide Coherent, ValidMem, CsrInv, FetchAndCache, FromPage, U.FetchWord, PieceAt, ContextOf;
    FetchAndCacheFollows(d, s, pc);
    if s.code.tag == TagOf(pc) {
      UsedInv(d, s, CodeSlot);
      InstalledFollows(d, Used(s, CodeSlot), pc);
    }
  }

  // ---------------------------------------------------------------- dispatch

  lemma HalvesBits(low: bv64, high: bv64)
    ensures D.IsCompressed(Halves(low, high)) == D.IsCompressed(low) && D.IsCompressed(LowHalf(low)) == D.IsCompressed(low)
    ensures LowHalf(Halves(low, high)) == LowHalf(low)
  {
  }

  lemma Le2IsLow(s: seq<bv8>, o: nat)
    requires o + 2 <= |s|
    ensures LowHalf(Le2(s, o)) == Le2(s, o)
  {
  }

  lemma EvenOffset(pc: addr)
    requires pc % 2 == 0
    ensures D.SlotOf(pc) * 2 == pc % PAGE && pc % PAGE <= PAGE - 2
  {
  }

  /** A decoded slot against the instruction fetched at the same even address. */
  lemma SlotIsDecode(d: D.Decoder, m: Mem, host: int, off: nat, pc: addr)
    requires Backed(m, host, off) && pc % 2 == 0
    ensures var op := D.DecodeSlot(d, m.ram[host], off, D.SlotOf(pc));
      match PieceAt(m, host, off, pc)
      case Whole(insn) => op == U.Decode(d, pc, insn)
      case Half(low) => op == d.fallback && pc % PAGE == PAGE - 2 && !D.IsCompressed(low)
      case Odd => false
  {
    hide Le2, Le8, Halves, LowHalf, D.IsCompressed, D.SlotOf;
    EvenOffset(pc);
    var o := off + pc % PAGE;
    Le2IsLow(m.ram[host], o);
    if PAGE - pc % PAGE >= 4 {
      HalvesBits(Le2(m.ram[host], o), Le2(m.ram[host], o + 2));
    }
  }

  /** What dispatching from the installed page yields. */
  lemma SlotDispatched(d: D.Decoder, s: State, w: World, pc: addr)
    requires Inv(d, s) && d == w.decoder && s.code.tag == TagOf(pc)
    ensures var r := DispatchSlot(s, w, pc);
      && Inv(d, r.0) && r.0 == s.(cache := r.0.cache, exposed := r.0.exposed) && (s.exposed ==> r.0.exposed)
      && r.1.Dispatched? && Backed(s.mem, s.code.host, s.code.off)
      && (!r.0.exposed ==> r.1.op == D.DecodeSlot(d, s.mem.ram[s.code.host], s.code.off, D.SlotOf(pc)))
  {
    hide ValidMem, CsrInv, TableOk, Leads, ContextOf, D.DecodeSlot, D.SlotOf;
    NeverInvalid(pc, 1);
    var i := D.CacheIndex(s.code.off);
    assert PageOk(d, s.mem, s.tainted, s.cache[i].value);
  }

  /** One turn from the installed page. */
  ghost function InstalledTurn(s: State, w: World, pc: addr): (r: (State, Outcome))
    requires Shaped(s)
  {
    var (s1, r) := DispatchSlot(Used(s, CodeSlot), w, pc);
    if r.Dispatched? && D.Uncommon(w.decoder, r.op) then FetchInsn(s1, pc) else (s1, r)
  }

  /** The uncached machine on an instruction whose page is known. */
  lemma ExecuteThrough(m: Mem, c: Ctx, d: D.Decoder, host: int, off: nat, pc: addr)
    requires Backed(m, host, off) && pc % 2 == 0 && U.FetchWord(m, c, pc) == U.FetchAt(m, c, host, off, pc)
    ensures var op := D.DecodeSlot(d, m.ram[host], off, D.SlotOf(pc));
      U.ExecuteWord(m, c, d, pc) == if D.Uncommon(d, op) then U.FetchWord(m, c, pc) else (m, Dispatched(op))
  {
    hide U.FetchWord, U.Decode, PieceAt, D.DecodeSlot, D.SlotOf, Xlate, XlateMem, PlaceOf, Peek, D.Uncommon;
    SlotIsDecode(d, m, host, off, pc);
    match PieceAt(m, host, off, pc) {
      case Whole(_) =>
      case Half(low) => FallbackDecode(m, c, d, pc, low);
    }
  }

  lemma FallbackDecode(m: Mem, c: Ctx, d: D.Decoder, pc: addr, low: bv64)
    requires pc % PAGE == PAGE - 2 && !D.IsCompressed(low)
    ensures D.Uncommon(d, d.fallback)
    ensures U.SecondHalf(m, c, pc, low).1.Done? ==> U.Decode(d, pc, U.SecondHalf(m, c, pc, low).1.v) == d.fallback
    ensures !U.SecondHalf(m, c, pc, low).1.Dispatched?
  {
    hide Xlate, XlateMem, PlaceOf, D.IsCompressed, Peek, Halves;
    var t := Xlate(m, c, Wrap(pc + 2), Fetch);
    if t.Physical? {
      var m1 := XlateMem(m, c, Wrap(pc + 2), Fetch);
      var p := PlaceOf(m1, t.pa);
      if p.InRam? {
        HalvesBits(low, Peek(m1, p.host, p.off, 2));
      }
    }
  }

  lemma InstalledTurnFollows(d: D.Decoder, s: State, w: World, pc: addr)
    requires Inv(d, s) && d == w.decoder && s.code.tag == TagOf(pc)
    ensures Sound(d, s, InstalledTurn(s, w, pc))
    ensures pc % 2 == 0 ==> Follows(d, s, InstalledTurn(s, w, pc), U.ExecuteWord(s.mem, FetchCtx(s), d, pc))
  {
    hide Coherent, ValidMem, CsrInv, FetchInsn, DispatchSlot, U.ExecuteWord, U.FetchWord, U.FetchAt, D.DecodeSlot, D.SlotOf,
      D.Uncommon, ContextOf, Backed, Leads;
    var s0 := Used(s, CodeSlot);
    UsedInv(d, s, CodeSlot);
    SlotDispatched(d, s0, w, pc);
    var r := DispatchSlot(s0, w, pc);
    FetchInsnFollows(d, r.0, pc);
    if CodeSlot !in s.stale && pc % 2 == 0 {
      CodeLeads(d, s, pc);
      FetchThrough(s.mem, FetchCtx(s), s.code, pc);
      ExecuteThrough(s.mem, FetchCtx(s), d, s.code.host, s.code.off, pc);
    }
  }

  lemma CodeLeads(d: D.Decoder, s: State, pc: addr)
    requires Inv(d, s) && s.code.tag == TagOf(pc) && CodeSlot !in s.stale
    ensures ValidMem(s.mem) && Leads(s.mem, FetchCtx(s), s.code, Fetch) && Backed(s.mem, s.code.host, s.code.off)
  {
    hide ValidMem, CsrInv, TableOk, Leads, Backed, CacheOk, ContextOf;
    NeverInvalid(pc, 1);
  }

  /** Executing again from a memory that already saw the fetch. */
  lemma ExecuteAgain(m: Mem, c: Ctx, d: D.Decoder, pc: addr)
    requires ValidMem(m) && U.FetchWord(m, c, pc).1.Done?
    ensures U.ExecuteWord(U.FetchWord(m, c, pc).0, c, d, pc) == U.ExecuteWord(m, c, d, pc)
  {
    hide U.FetchWord, U.Decode, D.Uncommon;
    FetchAgain(m, c, pc);
  }

  /** A turn of the predecoded loop at an even address: the op dispatched is what the word fetched afresh decodes to. */
  lemma TurnFollows(d: D.Decoder, s: State, w: World, pc: addr)
    requires Inv(d, s) && d == w.decoder
    ensures Sound(d, s, Turn(s, w, pc))
    ensures pc % 2 == 0 ==> Follows(d, s, Turn(s, w, pc), U.ExecuteWord(s.mem, FetchCtx(s), d, pc))
  {
    hide Coherent, ValidMem, CsrInv, FetchAndCache, FetchInsn, DispatchSlot, U.ExecuteWord, U.FetchWord, D.Uncommon, ContextOf;
    if s.code.tag == TagOf(pc) {
      InstalledTurnFollows(d, s, w, pc);
      assert Turn(s, w, pc) == InstalledTurn(s, w, pc);
    } else {
      FetchAndCacheFollows(d, s, pc);
      var r := FetchAndCache(s, pc);
      FaultDecodesNothing(s.mem, FetchCtx(s), d, pc);
      if r.1.Done? {
        InstalledTurnFollows(d, r.0, w, pc);
        assert Turn(s, w, pc) == InstalledTurn(r.0, w, pc);
        if !InstalledTurn(r.0, w, pc).0.exposed {
          ExecuteAgain(s.mem, FetchCtx(s), d, pc);
          assert FetchCtx(r.0) == FetchCtx(s);
        }
      } else {
        assert Turn(s, w, pc) == r;
      }
    }
  }

  lemma FaultDecodesNothing(m: Mem, c: Ctx, d: D.Decoder, pc: addr)
    ensures !U.FetchWord(m, c, pc).1.Done? ==> U.ExecuteWord(m, c, d, pc) == U.FetchWord(m, c, pc)
  {
  }

  /** Only loads look at devices. */
  lemma AnyWorld(s: State, w: World, v: World, e: Event)
    requires Shaped(s) && Sensible(e) && !e.Load? && w.decoder == v.decoder
    ensures Next(s, w, e) == Next(s, v, e)
  {
    hide MemWrite, FetchInsn, FetchAndCache, FlushAll, FenceVma, FenceI, Dma, WithCsr, CsrAfter, Flushes, D.Uncommon, D.DecodeSlot, Used;
  }

  // ---------------------------------------------------------------- odd addresses

  lemma OddSlot(pc: addr)
    requires pc % 2 == 1
    ensures D.SlotOf(pc) == D.SlotOf(pc - 1) && TagOf(pc) == TagOf(pc - 1)
  {
    assert pc % PAGE % 2 == 1;
    assert (pc - 1) % PAGE == pc % PAGE - 1;
  }

  /** Fetching at the odd address leaves the memory that fetching at the even one below would leave before its second half. */
  lemma OddFetch(m: Mem, c: Ctx, d: D.Decoder, pc: addr, below: addr)
    requires ValidMem(m) && pc == below + 1 && below % 2 == 0 && U.FetchWord(m, c, pc).1.Done?
    ensures U.ExecuteWord(U.FetchWord(m, c, pc).0, c, d, below).1 == U.ExecuteWord(m, c, d, below).1
  {
    hide XlateMem, ValidMem, Xlate, Settled, PlaceOf, PieceAt, Visits, PageBase, Wrap, U.FetchAt, U.Decode, D.Uncommon;
    OddPage(pc, below);
    PageUniform(m, c, below, pc, Fetch);
    var m1 := XlateMem(m, c, pc, Fetch);
    XlateAgain(m, c, pc);
    XlateAgain(m, c, below);
    OddSecondHalf(m, c, pc);
    SamePlaces(m, m1, Xlate(m, c, below, Fetch).pa);
  }

  lemma OddPage(pc: addr, below: addr)
    requires pc == below + 1 && below % 2 == 0
    ensures pc / PAGE == below / PAGE
  {
    var q, r := below / PAGE, below % PAGE;
    Remainder2(2048 * q, r);
    assert r < PAGE - 1;
    assert pc == PAGE * q + (r + 1);
  }

  /** At an odd address the second half, where there is one, lies in the same page. */
  lemma OddSecondHalf(m: Mem, c: Ctx, pc: addr)
    requires ValidMem(m) && pc % 2 == 1 && U.FetchWord(m, c, pc).1.Done?
    ensures U.FetchWord(m, c, pc).0 == XlateMem(m, c, pc, Fetch)
  {
    hide XlateMem, ValidMem, Xlate, Settled, PlaceOf, PieceAt, Visits, PageBase, Wrap;
    XlateAgain(m, c, pc);
    var m1 := XlateMem(m, c, pc, Fetch);
    var p := PlaceOf(m1, Xlate(m, c, pc, Fetch).pa);
    if PieceAt(m1, p.host, PageBase(p.off, pc), pc).Half? {
      HalfAtOdd(m1, p.host, PageBase(p.off, pc), pc);
      SamePageOn(pc);
      PageUniform(m1, c, Wrap(pc + 2), pc, Fetch);
    }
  }

  lemma HalfAtOdd(m: Mem, host: int, base: nat, pc: addr)
    requires pc % 2 == 1 && PieceAt(m, host, base, pc).Half?
    ensures pc % PAGE == PAGE - 3
  {
    hide Peek, D.IsCompressed;
    OddOffset(pc / PAGE, pc % PAGE);
  }

  lemma OddOffset(q: nat, r: nat)
    requires (PAGE * q + r) % 2 == 1
    ensures r % 2 == 1
  {
    Remainder2(2048 * q, r);
  }

  lemma SamePageOn(pc: addr)
    requires pc % PAGE == PAGE - 3
    ensures Wrap(pc + 2) / PAGE == pc / PAGE
  {
    var q := pc / PAGE;
    assert pc == PAGE * q + (PAGE - 3) && q <= SPACE / PAGE - 1;
    assert pc + 2 < SPACE;
  }

  /**
   * A return can leave an odd program counter. The predecoded loop then dispatches the instruction at the even address below,
   * if it is a common one; otherwise, and where the page cannot be fetched, it answers as a fetch from the odd address itself.
   */
  lemma OddTurn(d: D.Decoder, s: State, w: World, pc: addr, below: addr)
    requires Inv(d, s) && d == w.decoder && pc == below + 1 && below % 2 == 0
    ensures var r := Turn(s, w, pc);
      !r.0.exposed ==>
        r.1 == if r.1.Dispatched? then U.ExecuteWord(s.mem, FetchCtx(s), d, below).1 else U.FetchWord(s.mem, FetchCtx(s), pc).1
  {
    hide Coherent, ValidMem, CsrInv, FetchAndCache, FetchInsn, DispatchSlot, U.ExecuteWord, U.FetchWord, D.Uncommon, ContextOf, TagOf;
    OddSlot(pc);
    if s.code.tag == TagOf(pc) {
      OddInstalled(d, s, w, pc, below);
      assert Turn(s, w, pc) == InstalledTurn(s, w, pc);
    } else {
      FetchAndCacheFollows(d, s, pc);
      var r := FetchAndCache(s, pc);
      if r.1.Done? {
        OddInstalled(d, r.0, w, pc, below);
        assert Turn(s, w, pc) == InstalledTurn(r.0, w, pc);
        if !InstalledTurn(r.0, w, pc).0.exposed {
          FetchAgain(s.mem, FetchCtx(s), pc);
          OddFetch(s.mem, FetchCtx(s), d, pc, below);
          assert FetchCtx(r.0) == FetchCtx(s);
        }
      } else {
        assert Turn(s, w, pc) == r;
      }
    }
  }

  /** The same from the installed page. */
  lemma OddInstalled(d: D.Decoder, s: State, w: World, pc: addr, below: addr)
    requires Inv(d, s) && d == w.decoder && s.code.tag == TagOf(pc) && pc == below + 1 && below % 2 == 0
    ensures var r := InstalledTurn(s, w, pc);
      && (s.exposed ==> r.0.exposed)
      && (!r.0.exposed ==>
            r.1 == if r.1.Dispatched? then U.ExecuteWord(s.mem, FetchCtx(s), d, below).1 else U.FetchWord(s.mem, FetchCtx(s), pc).1)
  {
    hide Coherent, ValidMem, CsrInv, FetchInsn, DispatchSlot, U.ExecuteWord, U.FetchWord, D.DecodeSlot, D.SlotOf, D.Uncommon, ContextOf,
      TagOf, Backed;
    OddSlot(pc);
    OddDispatch(s, w, pc, below);
    UsedInv(d, s, CodeSlot);
    SlotDispatched(d, Used(s, CodeSlot), w, pc);
    FetchInsnFollows(d, DispatchSlot(Used(s, CodeSlot), w, pc).0, pc);
    InstalledTurnFollows(d, s, w, below);
  }

  lemma OddDispatch(s: State, w: World, pc: addr, below: addr)
    requires Shaped(s) && pc == below + 1 && below % 2 == 0
    ensures DispatchSlot(Used(s, CodeSlot), w, pc) == DispatchSlot(Used(s, CodeSlot), w, below)
  {
    hide D.DecodeSlot, D.SlotOf, TagOf;
    OddSlot(pc);
  }
}
