/** Whole runs of the memory side: what every reachable state satisfies, and what the uncached machine does on the same events. */
module CpuRuns {
  import opened Words
  import opened PhysMemory
  import opened Pte
  import opened Translate
  import opened Csr
  import opened CsrTheorems
  import opened Tlb
  import opened Cpu
  import opened CpuInvariant
  import opened CpuRefinement
  import F = FetchTheorems
  import U = Uncached
  import D = Predecode

  // ---------------------------------------------------------------- device writes

  lemma DropCommutes(s: State, host: nat, off: nat, b: seq<bv8>, h: int, page: nat)
    requires Shaped(s)
    ensures DropPage(Stored(s, host, off, b), h, page) == Stored(DropPage(s, h, page), host, off, b)
  {
    hide PokeBytes, Damaged, ContextOf;
    var s1, s2 := DropPage(Stored(s, host, off, b), h, page), Stored(DropPage(s, h, page), host, off, b);
    assert s1.stale == s2.stale;
  }

  lemma {:induction false} DropsCommute(s: State, host: nat, off: nat, b: seq<bv8>, h: int, first: nat, last: int)
    requires Shaped(s)
    ensures DropPages(Stored(s, host, off, b), h, first, last) == Stored(DropPages(s, h, first, last), host, off, b)
    decreases last - first
  {
    hide Stored, DropPage;
    if first <= last {
      DropCommutes(s, host, off, b, h, first);
      DropsCommute(DropPage(s, h, first), host, off, b, h, first + PAGE, last);
    }
  }

  /** Dropping a stretch of pages keeps everything else and leaves none of them decoded. */
  lemma {:induction false} DropsInv(d: D.Decoder, s: State, host: int, first: nat, last: int)
    requires Inv(d, s) && first % PAGE == 0
    ensures var s' := DropPages(s, host, first, last);
      && Inv(d, s') && s'.mem == s.mem && s'.csr == s.csr && s'.exposed == s.exposed
      && (forall i :: 0 <= i < D.ENTRIES && s'.cache[i].Some? ==> s'.cache[i] == s.cache[i])
      && (forall i :: 0 <= i < D.ENTRIES && s'.cache[i].Some? && s'.cache[i].value.host == host ==>
            s'.cache[i].value.off < first || s'.cache[i].value.off > last)
    decreases last - first
  {
    hide ValidMem, CsrInv, TableOk, EntryOk, PageOk, Leads, Exclusive, CodeHeld, ContextOf, DropPage;
    if first <= last {
      DropInv(d, s, host, first);
      DropKeeps(s, host, first);
      var s1 := DropPage(s, host, first);
      DropsInv(d, s1, host, first + PAGE, last);
      var s' := DropPages(s, host, first, last);
      forall i | 0 <= i < D.ENTRIES && s'.cache[i].Some? && s'.cache[i].value.host == host
        ensures s'.cache[i].value.off < first || s'.cache[i].value.off > last
      {
        assert s'.cache[i] == s1.cache[i];
        if first <= s1.cache[i].value.off < first + PAGE {
          OnlyMultiple(s1.cache[i].value.off, first);
        }
      }
    }
  }

  lemma OnlyMultiple(a: nat, b: nat)
    requires a % PAGE == 0 && b % PAGE == 0 && b <= a < b + PAGE
    ensures a == b
  {
  }

  lemma DropKeeps(s: State, host: int, off: nat)
    requires Shaped(s)
    ensures var s' := DropPage(s, host, off);
      && s'.mem == s.mem && s'.csr == s.csr && s'.exposed == s.exposed
      && (forall i :: 0 <= i < D.ENTRIES && s'.cache[i].Some? ==> s'.cache[i] == s.cache[i])
  {
  }

  lemma PagesCover(off: nat, n: nat, page: nat)
    requires page % PAGE == 0 && (page < off - off % PAGE || page > (off + n - 1) - (off + n - 1) % PAGE)
    ensures page + PAGE <= off || off + n <= page
  {
    if page < off - off % PAGE {
      PageStart(off);
      PagesApart(page, off - off % PAGE);
    }
  }

  lemma DmaFollows(d: D.Decoder, s: State, pa: nat, b: seq<bv8>)
    requires Inv(d, s)
    ensures var s' := Dma(s, pa, b); var p := PlaceOf(s.mem, pa);
      && Inv(d, s') && s'.csr == s.csr && s'.exposed == s.exposed
      && s'.mem == if p.InRam? then PokeBytes(s.mem, p.host, p.off, b) else s.mem
  {
    hide ValidMem, CsrInv, TablesOk, PageOk, Exclusive, CodeHeld, ContextOf, DropPages, PlaceOf, PokeBytes, Damaged;
    var p := PlaceOf(s.mem, pa);
    if p.InRam? && InBounds(s.mem, p.host, p.off, |b|) {
      var first, end := p.off - p.off % PAGE, p.off + |b| - 1;
      var last := end - end % PAGE;
      DropsCommute(s, p.host, p.off, b, p.host, first, last);
      PageStart(p.off);
      DropsInv(d, s, p.host, first, last);
      var s1 := DropPages(s, p.host, first, last);
      forall i | 0 <= i < D.ENTRIES && s1.cache[i].Some? && s1.cache[i].value.host == p.host
        ensures s1.cache[i].value.off + PAGE <= p.off || p.off + |b| <= s1.cache[i].value.off
      {
        PagesCover(p.off, |b|, s1.cache[i].value.off);
      }
      StoredInv(d, s1, p.host, p.off, b);
    } else if p.InRam? {
      PokeOutside(s.mem, p.host, p.off, b);
    }
  }

  lemma DmaUnfold(s: State, pa: nat, b: seq<bv8>)
    requires Shaped(s)
    ensures var p := PlaceOf(s.mem, pa); p.InRam? ==> Shaped(Stored(s, p.host, p.off, b))
    ensures var p := PlaceOf(s.mem, pa);
      Dma(s, pa, b) ==
        if p.InRam? && InBounds(s.mem, p.host, p.off, |b|) then
          var end := p.off + |b| - 1;
          DropPages(Stored(s, p.host, p.off, b), p.host, p.off - p.off % PAGE, end - end % PAGE)
        else s
  {
    hide PlaceOf, PokeBytes, Damaged, DropPages, ContextOf;
  }

  lemma PokeOutside(m: Mem, host: nat, off: nat, b: seq<bv8>)
    requires !InBounds(m, host, off, |b|)
    ensures PokeBytes(m, host, off, b) == m
  {
  }

  // ---------------------------------------------------------------- context changes

  /** Whatever does not flush leaves the translation context alone. */
  lemma CsrStep(c: Csrs, e: Event)
    requires CsrInv(c)
    ensures CsrInv(CsrAfter(c, e)) && (!Flushes(c, e) ==> SameContext(c, CsrAfter(c, e)))
  {
    hide CsrInv, SameContext, Written, WriteFlushes, Trap, Mret, Sret, PrivFlushes, Accessible, WithFlags;
    SameContextRefl(c);
    match e {
      case CsrWrite(csr, val) =>
        WriteKeepsOk(c, csr, val);
        if !WriteFlushes(c, csr, val) {
          WriteKeepsContext(c, csr, val);
        }
      case Raise(cause, tval) =>
        TrapKeepsOk(c, cause, tval);
        if !PrivFlushes(c, Trap(c, cause, tval)) {
          TrapKeepsContext(c, cause, tval);
        }
      case DoMret => ReturnKeepsOk(c); ReturnKeepsContext(c);
      case DoSret => ReturnKeepsOk(c); ReturnKeepsContext(c);
      case SetMip(mip) => MipOutside(c, mip);
      case Sync(pc, counter) => SyncOutside(c, pc, counter);
      case FloatDone(flags, dirty) => FlagsOk(c, flags, dirty); FlagsContext(c, flags, dirty);
      case _ =>
    }
  }

  lemma SameContextRefl(c: Csrs)
    ensures SameContext(c, c)
  {
  }

  lemma MipOutside(c: Csrs, mip: bv64)
    ensures CsrInv(c) ==> CsrInv(c.(mip := Reg(mip)))
    ensures SameContext(c, c.(mip := Reg(mip)))
  {
    hide MstatusOk, SupportedSatp, SumBit, MxrBit, SatpMode, SatpPpn, Mprv, Mpp, PrivOf;
  }

  lemma SyncOutside(c: Csrs, pc: Reg, counter: nat)
    ensures CsrInv(c) ==> CsrInv(c.(pc := pc, counter := counter))
    ensures SameContext(c, c.(pc := pc, counter := counter))
  {
    hide MstatusOk, SupportedSatp, SumBit, MxrBit, SatpMode, SatpPpn, Mprv, Mpp, PrivOf;
  }

  // ---------------------------------------------------------------- single steps

  /** What one step does: the invariant is kept and, unless something stale has been used, the uncached machine does the same. */
  ghost predicate StepFollows(d: D.Decoder, s: State, r: (State, Outcome), p: (U.Plain, Outcome))
  {
    StepSound(d, s, r) && (!r.0.exposed ==> (U.Plain(r.0.mem, r.0.csr), r.1) == p)
  }

  ghost predicate StepSound(d: D.Decoder, s: State, r: (State, Outcome))
  {
    Inv(d, r.0) && (s.exposed ==> r.0.exposed) && r.1 != Crash
  }

  /** An instruction is dispatched at an even address. */
  predicate EvenPc(e: Event) { e.Execute? ==> e.pc % 2 == 0 }

  lemma StepRefines(d: D.Decoder, s: State, w: World, e: Event)
    requires Inv(d, s) && d == w.decoder && Sensible(e)
    ensures StepSound(d, s, Next(s, w, e))
    ensures EvenPc(e) ==> StepFollows(d, s, Next(s, w, e), U.PlainStep(U.Plain(s.mem, s.csr), w, e))
  {
    hide Coherent, ValidMem, CsrInv, MemRead, MemWrite, FetchInsn, Turn, Dma, U.Load, U.Store, U.FetchWord, U.ExecuteWord,
      ContextOf, PlaceOf, PokeBytes, CsrAfter, Flushes, FlushAll, WithCsr, FenceVma, FenceI;
    match e {
      case Load(va, n) => LoadFollows(d, s, w, va, n);
      case Store(va, n, v) => StoreFollows(d, s, va, n, v);
      case Insn(pc) => F.FetchInsnFollows(d, s, pc);
      case Execute(pc) => F.TurnFollows(d, s, w, pc);
      case DeviceWrite(pa, bytes) => DmaFollows(d, s, pa, bytes);
      case _ => ControlFollows(d, s, w, e);
    }
  }

  /** The events that touch no memory. */
  lemma ControlFollows(d: D.Decoder, s: State, w: World, e: Event)
    requires Inv(d, s) && Sensible(e)
    requires !e.Load? && !e.Store? && !e.Insn? && !e.Execute? && !e.DeviceWrite?
    ensures StepFollows(d, s, Next(s, w, e), U.PlainStep(U.Plain(s.mem, s.csr), w, e))
  {
    hide Coherent, ValidMem, CsrInv, SameContext, Flushes, FenceVma, FenceI, FlushAll, WithCsr, CsrAfter, MemRead, MemWrite,
      FetchInsn, Turn, Dma, U.Load, U.Store, U.FetchWord, U.ExecuteWord, ContextOf, PlaceOf, PokeBytes;
    match e {
      case SfenceAll => SameContextRefl(s.csr); FlushInv(d, s, s.csr, true); FencesKeep(s, 0);
      case SfencePage(va) => FenceVmaInv(d, s, va); FencesKeep(s, va);
      case DoFenceI => FenceIInv(d, s); FencesKeep(s, 0);
      case _ => CsrFollows(d, s, e);
    }
    NoCsrChange(s.csr, e);
  }

  lemma CsrFollows(d: D.Decoder, s: State, e: Event)
    requires Inv(d, s)
    ensures var s' := WithCsr(s, CsrAfter(s.csr, e), Flushes(s.csr, e));
      Inv(d, s') && s'.mem == s.mem && s'.csr == CsrAfter(s.csr, e) && s'.exposed == s.exposed
  {
    hide Coherent, ValidMem, CsrInv, SameContext, Flushes, CsrAfter;
    CsrStep(s.csr, e);
    FlushInv(d, s, CsrAfter(s.csr, e), Flushes(s.csr, e));
  }

  lemma NoCsrChange(c: Csrs, e: Event)
    ensures e.SfenceAll? || e.SfencePage? || e.DoFenceI? ==> CsrAfter(c, e) == c
  {
    hide Written, Accessible, Trap, Mret, Sret;
  }

  lemma FencesKeep(s: State, va: addr)
    requires Shaped(s)
    ensures FenceVma(s, va).mem == s.mem && FenceVma(s, va).csr == s.csr && FenceVma(s, va).exposed == s.exposed
    ensures FenceI(s).mem == s.mem && FenceI(s).csr == s.csr && FenceI(s).exposed == s.exposed
    ensures FlushAll(s).mem == s.mem && FlushAll(s).csr == s.csr && FlushAll(s).exposed == s.exposed
  {
  }

  // ---------------------------------------------------------------- runs

  /** One event, with what devices would answer while it is served. */
  datatype Cycle = Cycle(event: Event, world: World)

  /** Events come with the sizes the instruction set has, and one decoder serves the whole run. */
  ghost predicate Regular(d: D.Decoder, cs: seq<Cycle>)
  {
    forall i :: 0 <= i < |cs| ==> Sensible(cs[i].event) && cs[i].world.decoder == d
  }

  /** Instructions are executed at even addresses, as the instruction set has it. */
  predicate Even(cs: seq<Cycle>) { forall i :: 0 <= i < |cs| ==> EvenPc(cs[i].event) }

  /** The cached machine over a run: its last state and everything it answered. */
  ghost function Run(d: D.Decoder, s: State, cs: seq<Cycle>): (r: (State, seq<Outcome>))
    requires Shaped(s) && Regular(d, cs)
    ensures Shaped(r.0)
    decreases |cs|
  {
    if cs == [] then (s, [])
    else
      var (s1, o) := Next(s, cs[0].world, cs[0].event);
      var (s2, os) := Run(d, s1, cs[1..]);
      (s2, [o] + os)
  }

  /** The same for the uncached machine. */
  ghost function PlainRun(d: D.Decoder, p: U.Plain, cs: seq<Cycle>): (U.Plain, seq<Outcome>)
    requires Regular(d, cs)
    decreases |cs|
  {
    if cs == [] then (p, [])
    else
      var (p1, o) := U.PlainStep(p, cs[0].world, cs[0].event);
      var (p2, os) := PlainRun(d, p1, cs[1..]);
      (p2, [o] + os)
  }

  /**
   * The caches are invisible. Over every run from a state that satisfies the invariant, unless the guest has used a
   * translation whose page-table words it overwrote without a flush, or a slot an A/D write has hit, every load, store,
   * fetch and dispatch answers exactly what the uncached machine answers, and both end with the same memory and registers.
   * An odd program counter, which a return can leave, is the exception: see `OddTurn`.
   */
  lemma {:induction false} RunRefines(d: D.Decoder, s: State, cs: seq<Cycle>)
    requires Inv(d, s) && Regular(d, cs)
    ensures var (s', os) := Run(d, s, cs);
      && Inv(d, s') && (s.exposed ==> s'.exposed) && (forall i :: 0 <= i < |os| ==> os[i] != Crash)
      && (Even(cs) && !s'.exposed ==> (U.Plain(s'.mem, s'.csr), os) == PlainRun(d, U.Plain(s.mem, s.csr), cs))
    decreases |cs|
  {
    hide Coherent, ValidMem, CsrInv, Next, U.PlainStep;
    if cs != [] {
      StepRefines(d, s, cs[0].world, cs[0].event);
      RunRefines(d, Next(s, cs[0].world, cs[0].event).0, cs[1..]);
    }
  }

  // ---------------------------------------------------------------- what every reachable state satisfies

  /** After reset: empty tables and cache, no code page. */
  ghost function Reset(m: Mem, csr: Csrs): (s: State)
    ensures Shaped(s)
  {
    State(m, csr, EmptyTable(), EmptyTable(), EmptyTable(), EMPTY, D.EmptyCache(), iset{}, false, {})
  }

  lemma ResetInv(d: D.Decoder, m: Mem, csr: Csrs)
    requires ValidMem(m) && CsrInv(csr)
    ensures Inv(d, Reset(m, csr))
  {
    hide ValidMem, CsrInv, ContextOf;
  }

  /** `_initMisa` leaves UXL and SXL at 2 and satp at 0. */
  lemma ResetCsr(csr: Csrs)
    requires csr.mstatus.bits == 0xA_0000_0000 && csr.satp.bits == 0
    ensures CsrInv(csr)
  {
  }

  /**
   * Decoded code is never stale: after every run no decoded page has a write entry, an installed code page is decoded,
   * and every decoded slot says what the bytes now in RAM decode to, unless an A/D write has hit its page since.
   */
  lemma DecodedNeverStale(d: D.Decoder, m: Mem, csr: Csrs, cs: seq<Cycle>)
    requires ValidMem(m) && CsrInv(csr) && Regular(d, cs)
    ensures var s := Run(d, Reset(m, csr), cs).0;
      && (forall i :: 0 <= i < SIZE && s.tlbW[i].tag != INVALID ==> !D.Holds(s.cache, s.tlbW[i].host, s.tlbW[i].off))
      && (s.code.tag != INVALID ==> D.Holds(s.cache, s.code.host, s.code.off))
      && (forall i :: 0 <= i < D.ENTRIES && s.cache[i].Some? && (s.cache[i].value.host, s.cache[i].value.off) !in s.tainted ==>
            var p := s.cache[i].value;
            Backed(s.mem, p.host, p.off) && |p.slots| == D.SLOTS &&
            forall k :: 0 <= k < D.SLOTS && p.slots[k].Some? ==>
              p.slots[k].value == D.DecodeSlot(d, s.mem.ram[p.host], p.off, k))
  {
    hide ValidMem, CsrInv, TablesOk, Backed, D.DecodeSlot, Run, Reset;
    ResetInv(d, m, csr);
    RunRefines(d, Reset(m, csr), cs);
    var s := Run(d, Reset(m, csr), cs).0;
    assert forall i :: 0 <= i < D.ENTRIES && s.cache[i].Some? ==> PageOk(d, s.mem, s.tainted, s.cache[i].value);
  }

  /** Every valid entry of a table was filled under a context. */
  predicate Stamped(t: seq<Entry>, c: Ctx) { forall i :: 0 <= i < |t| && t[i].tag != INVALID ==> t[i].filled == c }

  /**
   * Context stamp: after every run, whatever the guest did to its page tables, each valid entry was filled under the
   * current satp, SUM, MXR and effective privilege.
   */
  lemma ContextStamp(d: D.Decoder, m: Mem, csr: Csrs, cs: seq<Cycle>)
    requires ValidMem(m) && CsrInv(csr) && Regular(d, cs)
    ensures var s := Run(d, Reset(m, csr), cs).0;
      && Stamped(s.tlbR, ContextOf(s.csr, true)) && Stamped(s.tlbW, ContextOf(s.csr, true))
      && Stamped(s.tlbX, ContextOf(s.csr, false)) && Stamped([s.code], ContextOf(s.csr, false))
  {
    hide ValidMem, CsrInv, CacheOk, Exclusive, CodeHeld, Backed, Leads, ContextOf, Run, Reset;
    ResetInv(d, m, csr);
    RunRefines(d, Reset(m, csr), cs);
    var s := Run(d, Reset(m, csr), cs).0;
    StampedTable(s.mem, s.stale, DataCtx(s), s.tlbR, Read);
    StampedTable(s.mem, s.stale, DataCtx(s), s.tlbW, Write);
    StampedTable(s.mem, s.stale, FetchCtx(s), s.tlbX, Fetch);
  }

  lemma StampedTable(m: Mem, stale: iset<Slot>, c: Ctx, t: seq<Entry>, acc: Access)
    requires TableOk(m, stale, c, t, acc)
    ensures Stamped(t, c)
  {
    hide Backed, Leads;
    forall i | 0 <= i < |t| && t[i].tag != INVALID ensures t[i].filled == c {
      assert EntryOk(m, stale, c, t[i], Slot(acc, i));
    }
  }

  /** A write entry means its leaf has A and D set: stores through it owe the page table nothing. */
  lemma WriteEntryIsDirty(d: D.Decoder, m: Mem, csr: Csrs, cs: seq<Cycle>, i: nat)
    requires ValidMem(m) && CsrInv(csr) && Regular(d, cs) && i < SIZE
    ensures var s := Run(d, Reset(m, csr), cs).0; var e := s.tlbW[i]; var c := ContextOf(s.csr, true);
      e.tag != INVALID && Slot(Write, i) !in s.stale && Paging(c) && c.mode == SV39 ==>
        && e.tag < SPACE && Walk(s.mem, c, e.tag).Leaf?
        && IsAccessed(Walk(s.mem, c, e.tag).pte) && IsDirty(Walk(s.mem, c, e.tag).pte)
  {
    hide ValidMem, CsrInv, CacheOk, Exclusive, CodeHeld, Backed, ContextOf, Run, Reset, Xlate, Walk, PlaceOf, IsAccessed, IsDirty;
    ResetInv(d, m, csr);
    RunRefines(d, Reset(m, csr), cs);
    var s := Run(d, Reset(m, csr), cs).0;
    assert EntryOk(s.mem, s.stale, DataCtx(s), s.tlbW[i], Slot(Write, i));
  }

  /** A targeted sfence.vma: no table and no code page translates the page any more, and every other entry is kept. */
  lemma FencePageExact(d: D.Decoder, s: State, va: addr)
    requires Inv(d, s)
    ensures var s' := FenceVma(s, va);
      && s'.code.tag != TagOf(va)
      && (forall i :: 0 <= i < SIZE ==> s'.tlbR[i].tag != TagOf(va) && (s.tlbR[i].tag != TagOf(va) ==> s'.tlbR[i] == s.tlbR[i]))
      && (forall i :: 0 <= i < SIZE ==> s'.tlbW[i].tag != TagOf(va) && (s.tlbW[i].tag != TagOf(va) ==> s'.tlbW[i] == s.tlbW[i]))
      && (forall i :: 0 <= i < SIZE ==> s'.tlbX[i].tag != TagOf(va) && (s.tlbX[i].tag != TagOf(va) ==> s'.tlbX[i] == s.tlbX[i]))
      && (s.code.tag != TagOf(va) ==> s'.code == s.code)
  {
    hide ValidMem, CsrInv, CacheOk, Exclusive, CodeHeld, EntryOk, ContextOf, FlushPage, TagOf;
    NeverInvalid(va, 1);
    FlushPageExact(s.tlbR, va);
    FlushPageExact(s.tlbW, va);
    FlushPageExact(s.tlbX, va);
  }
}
