/** The executor object: cached memory accesses, fetches, code pages and the predecoded loop, on mutable state. */
module CpuExecutor {
  import opened Words
  import opened PhysMemory
  import opened Pte
  import opened Translate
  import opened Csr
  import opened CsrTheorems
  import opened Tlb
  import opened Cpu
  import opened CpuInvariant
  import opened CpuRefinement
  import opened CpuState
  import opened CpuHandlers
  import opened GuestMemory
  import opened MmuClass
  import opened PredecodeClass
  import F = FetchTheorems
  import R = CpuRuns
  import D = Predecode

  const NONE: int := -1

  class Executor {
    const state: HartState
    const memory: Ram
    const cache: PredecodeCache
    const mmu: Mmu
    const csrHandler: CsrHandler
    const exceptionHandler: ExceptionHandler
    /** Its decoder serves throughout; what device registers answer a load is told by the caller. */
    const world: World
    const regs: array<bv64>

    var floats: FloatFile
    var loadReservation: int
    var looks: nat
    var nCycles: int
    var powerDown: bool
    var pendingException: int
    var pendingTval: addr

    ghost var stale: iset<Slot>
    ghost var exposed: bool
    ghost var tainted: set<PageId>

    /** The register file and the RAM buffers are apart from one another and from the other arrays. */
    ghost predicate Separate()
    {
      var x: object := regs;
      && x != state.tlbRead && x != state.tlbWrite && x != state.tlbCode && x != state.pmpCfg && x != state.pmpAddr && x != cache.pages
      && forall i :: 0 <= i < |memory.buffers| ==>
        var b: object := memory.buffers[i];
        && b != state.tlbRead && b != state.tlbWrite && b != state.tlbCode && b != state.pmpCfg && b != state.pmpAddr
        && b != cache.pages && b != regs
    }

    ghost predicate Wired()
      reads memory.memMap
    {
      && state.Valid() && memory.Valid() && cache.Valid() && regs.Length == 32 && Separate()
      && mmu.state == state && mmu.memory == memory && csrHandler.state == state && exceptionHandler.state == state
    }

    /** The value the object stands for. */
    ghost function View(): State
      reads this`stale, this`exposed, this`tainted, state, state.pmpCfg, state.pmpAddr, state.tlbRead, state.tlbWrite, state.tlbCode
      reads memory.memMap, memory.buffers, cache.pages
    {
      State(memory.Contents(), state.Registers(), state.tlbRead[..], state.tlbWrite[..], state.tlbCode[..], state.codePage,
            cache.pages[..], stale, exposed, tainted)
    }

    ghost predicate Valid()
      reads this`stale, this`exposed, this`tainted, state, state.pmpCfg, state.pmpAddr, state.tlbRead, state.tlbWrite, state.tlbCode
      reads memory.memMap, memory.buffers, cache.pages
    {
      Wired() && Inv(world.decoder, View())
    }

    /** The object stands for the state, and its pending exception for the outcome; without one the trap value is still `t`. */
    ghost predicate Reports(r: (State, Outcome), v: bv64, t: addr)
      reads this`stale, this`exposed, this`tainted, this`pendingException, this`pendingTval
      reads state, state.pmpCfg, state.pmpAddr, state.tlbRead, state.tlbWrite, state.tlbCode
      reads memory.memMap, memory.buffers, cache.pages
    {
      && View() == r.0
      && match r.1
         case Done(x) => pendingException == NONE && pendingTval == t && v == x
         case Trapped(cause, tval) => pendingException == cause && pendingTval == tval
         case _ => false
    }

    constructor (memory: Ram, world: World)
      requires memory.Valid() && ValidMem(memory.Contents())
      ensures Valid() && this.memory == memory && this.world == world && pendingException == NONE
      ensures View() == R.Reset(memory.Contents(), state.Registers())
      ensures fresh(state) && fresh(cache) && fresh(regs)
    {
      this.memory := memory;
      this.world := world;
      var hart := new HartState();
      var decoded := new PredecodeCache();
      state := hart;
      cache := decoded;
      mmu := new Mmu(hart, memory);
      csrHandler := new CsrHandler(hart);
      exceptionHandler := new ExceptionHandler(hart);
      regs := new bv64[32](i => 0);
      floats, loadReservation, looks := seq(32, i => 0), -1, 0;
      nCycles, powerDown, pendingException, pendingTval := 0, false, NONE, 0;
      stale, exposed, tainted := iset{}, false, {};
      new;
      hide Inv, View, R.Reset;
      StandsForReset();
      R.ResetCsr(state.Registers());
      R.ResetInv(world.decoder, memory.Contents(), state.Registers());
    }

    lemma StandsForReset()
      requires state.Entries() == (EmptyTable(), EmptyTable(), EmptyTable(), EMPTY) && cache.pages[..] == D.EmptyCache()
      requires stale == iset{} && !exposed && tainted == {}
      ensures View() == R.Reset(memory.Contents(), state.Registers())
    {
      hide HartState.Registers;
    }

    // -------------------------------------------------------------- translation

    /** `translate` in its try block: an address, or the exception left pending. */
    method Resolve(va: addr, acc: Access) returns (ok: bool, pa: nat)
      requires Valid() && pendingException == NONE
      modifies this`pendingException, this`pendingTval, this`tainted, memory.buffers
      ensures Valid()
      ensures var s := old(View()); var c := ContextOf(s.csr, acc != Fetch); var t := Xlate(s.mem, c, va, acc);
        && ok == t.Physical? && (ok ==> pa % PAGE == va % PAGE)
        && (if ok then pa == t.pa && pendingException == NONE && pendingTval == old(pendingTval) && View() == Translated(s, c, va, acc)
            else View() == s && FaultOf(t, acc, va) == Trapped(CauseOf(t, acc), va)
                 && pendingException == CauseOf(t, acc) && pendingTval == va)
    {
      hide View, Wired, Inv, Xlate, Translated, ContextOf, CsrInv, PageOf, Settled, Visits, XlateMem;
      ghost var s := View();
      ghost var c := ContextOf(s.csr, acc != Fetch);
      PageUniform(s.mem, c, va, va, acc);
      InvParts(world.decoder, s);
      NoDeadModes(s.csr, s.mem, acc != Fetch, va, acc);
      TranslatedInv(world.decoder, s, c, va, acc);
      var t := TranslateHere(va, acc);
      if t.Physical? {
        ok, pa := true, t.pa;
      } else {
        FaultTranslated(s, c, va, acc);
        pendingException := CauseOf(t, acc);
        pendingTval := va;
        ok, pa := false, 0;
      }
    }

    /** The translation itself, on the memory the executor stands for. */
    method TranslateHere(va: addr, acc: Access) returns (t: Translation)
      requires Wired()
      modifies this`tainted, memory.buffers
      ensures var s := old(View()); var c := ContextOf(s.csr, acc != Fetch);
        t == Xlate(s.mem, c, va, acc) && View() == Translated(s, c, va, acc)
    {
      hide Xlate, XlateMem, LeafPage, ContextOf, HartState.Registers;
      ghost var s := View();
      t := mmu.Translate(va, acc);
      tainted := tainted + LeafPage(s.mem, ContextOf(s.csr, acc != Fetch), va, acc);
    }

    // -------------------------------------------------------------- single accesses to the parts

    method Locate(pa: nat) returns (p: Place)
      requires Wired()
      ensures p == PlaceOf(View().mem, pa)
    {
      p := memory.Locate(pa);
    }

    method GetBytes(host: nat, off: nat, n: nat) returns (v: bv64)
      requires Wired() && IsSize(n) && InBounds(View().mem, host, off, n)
      ensures v == Peek(View().mem, host, off, n)
    {
      v := memory.Get(host, off, n);
    }

    /** The bytes go to RAM; the pages whose walks they damage become stale. */
    method PutBytes(host: nat, off: nat, bytes: seq<bv8>)
      requires Wired() && InBounds(View().mem, host, off, |bytes|)
      modifies this`stale, memory.buffers
      ensures View() == Stored(old(View()), host, off, bytes)
    {
      hide PokeBytes, Damaged, ContextOf;
      ghost var s := View();
      memory.Put(host, off, bytes);
      stale := Stored(s, host, off, bytes).stale;
    }

    /** A halfword that an odd program counter can put across the end of the buffer; it then reads as zero here. */
    method GetHalf(host: nat, off: nat) returns (v: bv64)
      requires Wired()
      ensures v == Peek(View().mem, host, off, 2)
    {
      if host < |memory.buffers| && off + 2 <= memory.buffers[host].Length {
        v := memory.Get(host, off, 2);
      } else {
        v := 0;
      }
    }

    method ReadEntry(va: addr) returns (e: Entry)
      requires Wired()
      ensures Shaped(View()) && e == View().tlbR[IndexOf(va)]
    {
      e := state.tlbRead[IndexOf(va)];
    }

    method WriteEntry(va: addr) returns (e: Entry)
      requires Wired()
      ensures Shaped(View()) && e == View().tlbW[IndexOf(va)]
    {
      e := state.tlbWrite[IndexOf(va)];
    }

    method CodeEntry(va: addr) returns (e: Entry)
      requires Wired()
      ensures Shaped(View()) && e == View().tlbX[IndexOf(va)]
    {
      e := state.tlbCode[IndexOf(va)];
    }

    /** The context a translation runs under. */
    function CurrentContext(acc: Access): (c: Ctx)
      reads state, state.pmpCfg, state.pmpAddr
      ensures c == ContextOf(state.Registers(), acc != Fetch)
    {
      Ctx(if state.privilege == Machine && acc != Fetch && Mprv(state.mstatus.bits) then PrivOf(Mpp(state.mstatus.bits))
            else state.privilege,
          SumBit(state.mstatus.bits), MxrBit(state.mstatus.bits), SatpMode(state.satp.bits) as nat, SatpPpn(state.satp.bits) as nat)
    }

    /** `_fillReadTlb` */
    method FillRead(va: addr, host: nat, off: nat)
      requires Wired()
      modifies state.tlbRead, this`stale
      ensures Shaped(old(View())) && View() == Filled(old(View()), va, host, off, Read)
    {
      hide ContextOf, PageBase;
      stale := stale - iset{Slot(Read, IndexOf(va))};
      state.tlbRead[IndexOf(va)] := Entry(TagOf(va), host, PageBase(off, va), CurrentContext(Read));
    }

    /** `_fillWriteTlb`, up to its callback. */
    method FillWrite(va: addr, host: nat, off: nat)
      requires Wired()
      modifies state.tlbWrite, this`stale
      ensures Shaped(old(View())) && View() == Filled(old(View()), va, host, off, Write)
    {
      hide ContextOf, PageBase;
      stale := stale - iset{Slot(Write, IndexOf(va))};
      state.tlbWrite[IndexOf(va)] := Entry(TagOf(va), host, PageBase(off, va), CurrentContext(Write));
    }

    /** The fill of `_fetchSlow`. */
    method FillCode(va: addr, host: nat, off: nat)
      requires Wired()
      modifies state.tlbCode, this`stale
      ensures Shaped(old(View())) && View() == Filled(old(View()), va, host, off, Fetch)
    {
      hide ContextOf, PageBase;
      stale := stale - iset{Slot(Fetch, IndexOf(va))};
      state.tlbCode[IndexOf(va)] := Entry(TagOf(va), host, PageBase(off, va), CurrentContext(Fetch));
    }

    /** The history of stale entries, brought up to date. */
    ghost method SetStale(next: iset<Slot>)
      modifies this`stale
      ensures View() == old(View()).(stale := next)
    {
      stale := next;
    }

    /** `_dropDecodedPage`, but for the history. */
    method DropCached(host: int, off: nat)
      requires Wired()
      modifies state`codePage, cache.pages
      ensures Shaped(old(View())) && View() == DropPage(old(View()), host, off).(stale := old(View()).stale)
    {
      hide HartState.Registers, Inv;
      var dropped := cache.InvalidatePage(host, off);
      if dropped && state.codePage.off == off && state.codePage.host == host {
        state.SetCodePage(state.codePage.(tag := INVALID));
      }
    }

    /** `_dropDecodedPage` */
    method DropDecodedPage(host: int, off: nat)
      requires Wired()
      modifies state`codePage, cache.pages, this`stale
      ensures Shaped(old(View())) && View() == DropPage(old(View()), host, off)
    {
      hide View, Wired, DropPage;
      ghost var s := View();
      DropCached(host, off);
      SetStale(DropPage(s, host, off).stale);
    }

    ghost method MarkUsed(k: Slot)
      modifies this`exposed
      ensures View() == Used(old(View()), k)
    {
      exposed := exposed || k in stale;
    }

    // -------------------------------------------------------------- loads

    /** `_memReadU8` to `_memReadU64`; `w` answers for device registers. */
    method MemRead(w: World, va: addr, n: nat) returns (v: bv64)
      requires Valid() && pendingException == NONE && IsSize(n)
      modifies this`pendingException, this`pendingTval, this`tainted, this`exposed, this`stale, memory.buffers, state.tlbRead
      ensures Valid() && Reports(Cpu.MemRead(old(View()), w, va, n), v, old(pendingTval))
      decreases va % n != 0, 2
    {
      hide View, Wired, Inv, ContextOf, Peek, ReadSlow, ReadUnaligned, Used, Leads, Backed, Hit;
      ghost var s := View();
      InvParts(world.decoder, s);
      var e := ReadEntry(va);
      if e.tag == AlignedTag(va, n) {
        HitHolds(e, va, n);
        ReadHit(world.decoder, s, va, n);
        ReadAlignedFollows(world.decoder, s, w, va, n);
        MarkUsed(Slot(Read, IndexOf(va)));
        UsedMem(s, Slot(Read, IndexOf(va)));
        v := GetBytes(e.host, e.off + va % PAGE, n);
      } else {
        HitHolds(e, va, n);
        v := MemReadSlow(w, va, n);
      }
    }

    /** `_fillReadTlb`, and the bytes. */
    method FillAndGet(va: addr, host: nat, off: nat, n: nat) returns (v: bv64)
      requires Wired() && IsSize(n) && InBounds(View().mem, host, off, n)
      modifies this`stale, state.tlbRead
      ensures Shaped(old(View())) && View() == Filled(old(View()), va, host, off, Read)
      ensures v == Peek(old(View()).mem, host, off, n)
    {
      hide View, Wired, Peek, Filled;
      ghost var s := View();
      FillRead(va, host, off);
      FilledMem(s, va, host, off);
      v := GetBytes(host, off, n);
    }

    /** `_memReadSlow` */
    method MemReadSlow(w: World, va: addr, n: nat) returns (v: bv64)
      requires Valid() && pendingException == NONE && IsSize(n)
      modifies this`pendingException, this`pendingTval, this`tainted, this`exposed, this`stale, memory.buffers, state.tlbRead
      ensures Valid()
      ensures Reports(if va % n == 0 then ReadSlow(old(View()), w, va, n) else ReadUnaligned(old(View()), w, va, n),
                      v, old(pendingTval))
      decreases va % n != 0, 1
    {
      hide View, Wired, Inv, Xlate, Translated, ContextOf, PlaceOf, Peek, PageBase, Filled, ReadUnaligned;
      if va % n != 0 {
        v := MemReadUnaligned(w, va, n);
        return;
      }
      ghost var s := View();
      InvParts(world.decoder, s);
      ReadSlowFollows(world.decoder, s, w, va, n);
      ReadSlowUnfold(s, w, va, n);
      var ok, pa := Resolve(va, Read);
      v := 0;
      if ok {
        InvParts(world.decoder, View());
        var p := Locate(pa);
        match p {
          case Nowhere =>
          case InDevice => v := w.readDevice(pa, n);
          case InRam(host, off) =>
            ghost var m := View().mem;
            PlaceInBounds(m, pa, va, n);
            v := FillAndGet(va, host, off, n);
        }
      }
    }

    /** `_memReadUnaligned`: two aligned reads, shifted together. */
    method MemReadUnaligned(w: World, va: addr, n: nat) returns (v: bv64)
      requires Valid() && pendingException == NONE && IsSize(n) && va % n != 0
      modifies this`pendingException, this`pendingTval, this`tainted, this`exposed, this`stale, memory.buffers, state.tlbRead
      ensures Valid() && Reports(ReadUnaligned(old(View()), w, va, n), v, old(pendingTval))
      decreases true, 0
    {
      hide View, Wired, Inv, ReadAligned, Join;
      ghost var s := View();
      InvParts(world.decoder, s);
      PartsAligned(va, n);
      var v0 := MemRead(w, FirstPart(va, n), PartSize(n));
      if pendingException != NONE {
        return 0;
      }
      var v1 := MemRead(w, SecondPart(va, n), PartSize(n));
      if pendingException != NONE {
        return 0;
      }
      v := Join(n, va % n, v0, v1);
    }

    // -------------------------------------------------------------- stores

    /** `_memWriteU8` to `_memWriteU64`. */
    method MemWrite(va: addr, n: nat, v: bv64) returns (ok: bool)
      requires Valid() && pendingException == NONE && IsSize(n)
      modifies this`pendingException, this`pendingTval, this`tainted, this`exposed, this`stale, memory.buffers
      modifies state.tlbWrite, state`codePage, cache.pages
      ensures Valid() && Reports(Cpu.MemWrite(old(View()), va, n, v), 0, old(pendingTval)) && ok == (pendingException == NONE)
      decreases va % n != 0, 2
    {
      hide View, Wired, Inv, ContextOf, WriteSlow, WriteBytes, Used, Leads, Backed, Hit, BytesOf, Stored, IndexOf, TagOf;
      ghost var s := View();
      InvParts(world.decoder, s);
      var e := WriteEntry(va);
      HitHolds(e, va, n);
      if e.tag == AlignedTag(va, n) {
        WriteHit(world.decoder, s, va, n);
        WriteAlignedFollows(world.decoder, s, va, n, v);
        MarkUsed(Slot(Write, IndexOf(va)));
        UsedMem(s, Slot(Write, IndexOf(va)));
        PutBytes(e.host, e.off + va % PAGE, BytesOf(v, n));
        ok := true;
      } else {
        ok := MemWriteSlow(va, n, v);
      }
    }

    /** `_fillWriteTlb` with its callback, and the bytes. */
    method FillAndPut(va: addr, host: nat, off: nat, bytes: seq<bv8>)
      requires Wired() && InBounds(View().mem, host, off, |bytes|)
      modifies this`stale, memory.buffers, state.tlbWrite, state`codePage, cache.pages
      ensures Shaped(old(View()))
      ensures View() == Stored(DropPage(Filled(old(View()), va, host, off, Write), host, PageBase(off, va)), host, off, bytes)
    {
      hide View, Wired, PageBase, Filled, DropPage, Stored;
      ghost var s := View();
      FillWrite(va, host, off);
      FilledMem(s, va, host, off);
      DropDecodedPage(host, PageBase(off, va));
      DropMem(Filled(s, va, host, off, Write), host, PageBase(off, va));
      PutBytes(host, off, bytes);
    }

    /** `_memWriteSlow`, and `_fillWriteTlb` with its callback. */
    method MemWriteSlow(va: addr, n: nat, v: bv64) returns (ok: bool)
      requires Valid() && pendingException == NONE && IsSize(n)
      modifies this`pendingException, this`pendingTval, this`tainted, this`exposed, this`stale, memory.buffers
      modifies state.tlbWrite, state`codePage, cache.pages
      ensures Valid() && ok == (pendingException == NONE)
      ensures Reports(if va % n == 0 then WriteSlow(old(View()), va, n, v) else WriteBytes(old(View()), va, 0, n, v),
                      0, old(pendingTval))
      decreases va % n != 0, 1
    {
      hide View, Wired, Inv, Xlate, Translated, ContextOf, PlaceOf, PageBase, Filled, DropPage, Stored, WriteBytes, BytesOf;
      if va % n != 0 {
        ok := MemWriteUnaligned(va, n, v);
        return;
      }
      ghost var s := View();
      InvParts(world.decoder, s);
      WriteSlowFollows(world.decoder, s, va, n, v);
      WriteSlowUnfold(s, va, n, v);
      var resolved, pa := Resolve(va, Write);
      if !resolved {
        return false;
      }
      ok := true;
      ghost var s1 := View();
      InvParts(world.decoder, s1);
      var p := Locate(pa);
      match p {
        case Nowhere =>
        case InDevice =>
        case InRam(host, off) =>
          PlaceInBounds(s1.mem, pa, va, n);
          FillAndPut(va, host, off, BytesOf(v, n));
      }
    }

    /** `_memWriteUnaligned`: byte by byte, stopping at the first fault. */
    method MemWriteUnaligned(va: addr, n: nat, v: bv64) returns (ok: bool)
      requires Valid() && pendingException == NONE && IsSize(n) && va % n != 0
      modifies this`pendingException, this`pendingTval, this`tainted, this`exposed, this`stale, memory.buffers
      modifies state.tlbWrite, state`codePage, cache.pages
      ensures Valid() && Reports(WriteBytes(old(View()), va, 0, n, v), 0, old(pendingTval)) && ok == (pendingException == NONE)
      decreases true, 0
    {
      hide View, Wired, Inv, WriteAligned, ByteValue, WriteBytes;
      ghost var s := View();
      InvParts(world.decoder, s);
      var i := 0;
      while i < n
        invariant 0 <= i <= n && Valid() && pendingException == NONE && pendingTval == old(pendingTval) && Shaped(View())
        invariant WriteBytes(View(), va, i, n, v) == WriteBytes(s, va, 0, n, v)
      {
        WriteBytesUnfold(View(), va, i, n, v);
        ok := MemWrite(Wrap(va + i), 1, ByteValue(v, i));
        if !ok {
          return;
        }
        InvParts(world.decoder, View());
        i := i + 1;
      }
      WriteBytesUnfold(View(), va, n, n, v);
      ok := true;
    }

    // -------------------------------------------------------------- fetches

    /** What the page offers at an address. */
    method ReadPiece(host: nat, base: nat, pc: addr) returns (piece: Piece)
      requires Wired() && Backed(View().mem, host, base)
      ensures piece == PieceAt(View().mem, host, base, pc)
    {
      hide View, Wired, Peek, D.IsCompressed, LowHalf;
      var remaining := PAGE - pc % PAGE;
      if remaining >= 4 {
        var word := GetBytes(host, base + pc % PAGE, 4);
        piece := Whole(if D.IsCompressed(word) then LowHalf(word) else word);
      } else if remaining >= 2 {
        var low := GetBytes(host, base + pc % PAGE, 2);
        piece := if D.IsCompressed(low) then Whole(low) else Half(low);
      } else {
        piece := Odd;
      }
    }

    /** `_fetchCrossPage` */
    method FetchCrossPage(pc: addr, low: bv64) returns (insn: bv64)
      requires Valid() && pendingException == NONE
      modifies this`pendingException, this`pendingTval, this`tainted, memory.buffers
      ensures Valid() && Reports(CrossPage(old(View()), pc, low), insn, old(pendingTval))
    {
      hide View, Wired, Inv, Xlate, Translated, ContextOf, PlaceOf, Peek, Halves;
      ghost var s := View();
      var next := Wrap(pc + 2);
      InvParts(world.decoder, s);
      F.CrossPageFollows(world.decoder, s, pc, low);
      CrossPageUnfold(s, pc, low);
      var ok, pa := Resolve(next, Fetch);
      insn := 0;
      if ok {
        ghost var s1 := View();
        InvParts(world.decoder, s1);
        var p := Locate(pa);
        if p.InRam? {
          var high := GetHalf(p.host, p.off);
          insn := Halves(low, high);
        } else {
          RaiseFetch(next);
        }
      }
    }

    /** The fetch exceptions raised without a translation. */
    method RaiseFetch(pc: addr)
      modifies this`pendingException, this`pendingTval
      ensures View() == old(View()) && pendingException == FETCH_FAULT && pendingTval == pc
    {
      pendingException := FETCH_FAULT;
      pendingTval := pc;
    }

    /** The instruction at an address whose page is known. */
    method FetchFromPage(host: nat, base: nat, pc: addr) returns (insn: bv64)
      requires Valid() && pendingException == NONE && Backed(View().mem, host, base)
      modifies this`pendingException, this`pendingTval, this`tainted, memory.buffers
      ensures Valid() && Reports(FromPage(old(View()), host, base, pc), insn, old(pendingTval))
    {
      hide View, Wired, Inv, CrossPage, PieceAt;
      ghost var s := View();
      InvParts(world.decoder, s);
      F.FromPageFollows(world.decoder, s, host, base, pc);
      var piece := ReadPiece(host, base, pc);
      match piece {
        case Whole(word) => insn := word;
        case Half(low) => insn := FetchCrossPage(pc, low);
        case Odd =>
          insn := 0;
          RaiseFetch(pc);
      }
    }

    /** `_fetchSlow` */
    method FetchSlow(pc: addr) returns (insn: bv64)
      requires Valid() && pendingException == NONE
      modifies this`pendingException, this`pendingTval, this`tainted, this`stale, memory.buffers, state.tlbCode
      ensures Valid() && Reports(Cpu.FetchSlow(old(View()), pc), insn, old(pendingTval))
    {
      hide View, Wired, Inv, Xlate, XlateMem, Translated, ContextOf, PlaceOf, PageBase, Filled, FromPage, Leads;
      ghost var s := View();
      InvParts(world.decoder, s);
      F.FetchSlowFollows(world.decoder, s, pc);
      FetchSlowUnfold(s, pc);
      var ok, pa := Resolve(pc, Fetch);
      insn := 0;
      if ok {
        ghost var s1 := View();
        InvParts(world.decoder, s1);
        var p := Locate(pa);
        if p.InRam? {
          CodeFilledInv(world.decoder, s, pc);
          FillCode(pc, p.host, p.off);
          FilledMem(s1, pc, p.host, p.off);
          insn := FetchFromPage(p.host, PageBase(p.off, pc), pc);
        } else {
          RaiseFetch(pc);
        }
      }
    }

    /** `_installCodePage`, but for the histories. */
    method InstallCached(e: Entry) returns (held: bool)
      requires Wired()
      modifies state`codePage, state.tlbWrite, cache.pages
      ensures Shaped(old(View())) && held == D.Holds(old(View()).cache, e.host, e.off)
      ensures View() == Install(old(View()), e).(stale := old(View()).stale, tainted := old(View()).tainted)
    {
      hide ContextOf, D.Insert, Purge, IndexOf;
      state.codePage := e;
      held := cache.Lookup(e.host, e.off);
      if !held {
        cache.Insert(e.host, e.off);
        state.PurgeWriteTlb(e.host, e.off);
      }
    }

    /** `_installCodePage` */
    method InstallCodePage(e: Entry)
      requires Wired()
      modifies state`codePage, state.tlbWrite, cache.pages, this`tainted, this`stale
      ensures Shaped(old(View())) && View() == Install(old(View()), e)
    {
      hide View, Wired, Install;
      ghost var s := View();
      var held := InstallCached(e);
      SetStale(Install(s, e).stale);
      SetTainted(Install(s, e).tainted);
    }

    ghost method SetTainted(next: set<PageId>)
      modifies this`tainted
      ensures View() == old(View()).(tainted := next)
    {
      tainted := next;
    }

    /** `_readFromCodePage` */
    method ReadInstalled(pc: addr) returns (insn: bv64)
      requires Valid() && pendingException == NONE && state.codePage.tag == TagOf(pc) && (CodeSlot in stale ==> exposed)
      modifies this`pendingException, this`pendingTval, this`tainted, this`exposed, this`stale, memory.buffers
      modifies state.tlbWrite, state.tlbCode, state`codePage, cache.pages
      ensures Valid() && Reports(Cpu.ReadFromCodePage(old(View()), pc), insn, old(pendingTval))
    {
      hide View, Wired, Inv, PieceAt, FromPage, Cpu.FetchSlow, Backed;
      ghost var s := View();
      InvParts(world.decoder, s);
      CodeIsView();
      CodeBacked(world.decoder, s, pc);
      F.InstalledFollows(world.decoder, s, pc);
      var piece := ReadPiece(state.codePage.host, state.codePage.off, pc);
      if piece.Odd? {
        insn := FetchSlow(pc);
      } else {
        insn := FetchFromPage(state.codePage.host, state.codePage.off, pc);
      }
    }

    lemma RegistersInView()
      ensures var c := View().csr;
        && c.pc == state.pc && c.mepc == state.mepc && c.sepc == state.sepc
        && c.counter == state.instructionCounter && c.priv == state.privilege && c.mip == state.mip && c.mie == state.mie
    {
    }

    lemma CodeIsView()
      ensures View().code == state.codePage && View().stale == stale && View().exposed == exposed && View().csr.pc == state.pc
    {
    }

    /** `_fetchSlowAndCache`, where the code TLB holds the page. */
    method FetchThroughTlb(e: Entry, pc: addr) returns (insn: bv64)
      requires Valid() && pendingException == NONE && Shaped(View()) && e == View().tlbX[IndexOf(pc)] && e.tag == TagOf(pc)
      modifies this`pendingException, this`pendingTval, this`tainted, this`exposed, this`stale, memory.buffers
      modifies state.tlbWrite, state.tlbCode, state`codePage, cache.pages
      ensures Valid() && Reports(ReadFromCodePage(Install(Used(old(View()), Slot(Fetch, IndexOf(pc))), e), pc), insn, old(pendingTval))
      ensures state.codePage == e
    {
      hide View, Wired, Inv, Install, Cpu.FetchSlow, ReadFromCodePage, EntryOk, Used, IndexOf;
      ghost var s, k := View(), Slot(Fetch, IndexOf(pc));
      MarkUsed(k);
      UsedShape(world.decoder, s, k);
      F.CodeEntry(world.decoder, Used(s, k), pc);
      InstallInv(world.decoder, Used(s, k), e);
      InstallCodePage(e);
      F.InstallKeeps(Used(s, k), e);
      CodeIsView();
      insn := ReadInstalled(pc);
      F.ReadKeepsCode(Install(Used(s, k), e), pc);
      CodeIsView();
    }

    /** The page just translated is installed. */
    method InstallFilled(pc: addr)
      requires Valid() && Shaped(View()) && View().tlbX[IndexOf(pc)].tag == TagOf(pc)
      modifies this`tainted, this`stale, state.tlbWrite, state`codePage, cache.pages
      ensures Valid() && Shaped(old(View())) && View() == Install(old(View()), old(View()).tlbX[IndexOf(pc)])
      ensures state.codePage.tag == TagOf(pc)
    {
      hide View, Wired, Inv, Install, EntryOk, IndexOf;
      ghost var s := View();
      var filled := CodeEntry(pc);
      F.CodeEntry(world.decoder, s, pc);
      InstallInv(world.decoder, s, filled);
      InstallCodePage(filled);
      F.InstallKeeps(s, filled);
      CodeIsView();
    }

    /** `_fetchSlowAndCache`, where it does not. */
    method FetchThroughMmu(pc: addr) returns (insn: bv64)
      requires Valid() && pendingException == NONE && Shaped(View()) && View().tlbX[IndexOf(pc)].tag != TagOf(pc)
      modifies this`pendingException, this`pendingTval, this`tainted, this`exposed, this`stale, memory.buffers
      modifies state.tlbWrite, state.tlbCode, state`codePage, cache.pages
      ensures Valid() && Shaped(old(View())) && Reports(FetchAndCache(old(View()), pc), insn, old(pendingTval))
      ensures pendingException == NONE ==> state.codePage.tag == TagOf(pc)
    {
      hide View, Wired, Inv, Install, Cpu.FetchSlow, IndexOf;
      ghost var s := View();
      F.FetchSlowFollows(world.decoder, s, pc);
      insn := FetchSlow(pc);
      if pendingException != NONE {
        return 0;
      }
      InvParts(world.decoder, View());
      InstallFilled(pc);
    }

    /** `_fetchSlowAndCache` */
    method FetchSlowAndCache(pc: addr) returns (insn: bv64)
      requires Valid() && pendingException == NONE
      modifies this`pendingException, this`pendingTval, this`tainted, this`exposed, this`stale, memory.buffers
      modifies state.tlbWrite, state.tlbCode, state`codePage, cache.pages
      ensures Valid() && Reports(FetchAndCache(old(View()), pc), insn, old(pendingTval))
      ensures pendingException == NONE ==> state.codePage.tag == TagOf(pc)
    {
      hide View, Wired, Inv, Install, Cpu.FetchSlow, ReadFromCodePage, Used, IndexOf;
      InvParts(world.decoder, View());
      var e := CodeEntry(pc);
      if e.tag == TagOf(pc) {
        insn := FetchThroughTlb(e, pc);
      } else {
        insn := FetchThroughMmu(pc);
      }
    }

    /** `_fetchInstruction` */
    method FetchInstruction(pc: addr) returns (insn: bv64)
      requires Valid() && pendingException == NONE
      modifies this`pendingException, this`pendingTval, this`tainted, this`exposed, this`stale, memory.buffers
      modifies state.tlbWrite, state.tlbCode, state`codePage, cache.pages
      ensures Valid() && Reports(FetchInsn(old(View()), pc), insn, old(pendingTval))
    {
      hide View, Wired, Inv, PieceAt, FromPage, FetchAndCache, Used, Backed;
      ghost var s := View();
      InvParts(world.decoder, s);
      CodeIsView();
      F.FetchInsnFollows(world.decoder, s, pc);
      if TagOf(pc) == state.codePage.tag {
        CodeBacked(world.decoder, s, pc);
        var piece := ReadPiece(state.codePage.host, state.codePage.off, pc);
        if !piece.Odd? {
          MarkUsed(CodeSlot);
          UsedShape(world.decoder, s, CodeSlot);
          UsedMem(s, CodeSlot);
          insn := FetchFromPage(state.codePage.host, state.codePage.off, pc);
          return;
        }
      }
      insn := FetchSlowAndCache(pc);
    }

    /** The slot of the installed page, decoded on first use. */
    method DispatchInstalled(pc: addr) returns (op: D.MicroOp)
      requires Valid() && pendingException == NONE && state.codePage.tag == TagOf(pc)
      modifies cache.pages, this`exposed
      ensures Valid() && (View(), Dispatched(op)) == Cpu.DispatchSlot(old(View()), world, pc)
    {
      hide Inv, ContextOf, D.DecodeSlot, D.SlotOf, D.CacheIndex;
      ghost var s := View();
      F.SlotDispatched(world.decoder, s, world, pc);
      CodeHeldSlot(world.decoder, s, pc);
      var code := state.codePage;
      var i, slot := D.CacheIndex(code.off), D.SlotOf(pc);
      var page := cache.pages[i].value;
      if page.slots[slot].Some? {
        op := page.slots[slot].value;
        exposed := exposed || (page.host, page.off) in tainted;
      } else {
        op := D.DecodeSlot(world.decoder, memory.buffers[code.host][..], code.off, slot);
        cache.StoreSlot(code.off, slot, op);
      }
    }

    // -------------------------------------------------------------- traps, registers, fences, devices

    /** Whatever flushed the tables also forgets which pages were stale. */
    ghost method ForgetStale(flush: bool)
      modifies this`stale
      ensures stale == if flush then iset{} else old(stale)
    {
      if flush {
        stale := iset{};
      }
    }

    /** The register file lies apart from everything the value covers. */
    lemma RegsApart()
      requires Wired()
      ensures regs.Length == 32
      ensures forall i :: 0 <= i < |memory.buffers| ==> var b: object := memory.buffers[i]; b != regs
      ensures var x: object := regs;
        && x != state.tlbRead && x != state.tlbWrite && x != state.tlbCode && x != state.pmpCfg && x != state.pmpAddr && x != cache.pages
    {
    }

    method SetRegister(i: nat, v: bv64)
      requires Wired() && i < 32
      modifies regs
      ensures regs[..] == old(regs[..])[i := v] && View() == old(View())
    {
      regs[i] := v;
    }

    /** `_hasPendingInterrupt` */
    method Pending() returns (pending: bool)
      requires Wired()
      ensures pending == HasPending(View().csr)
    {
      hide HasPending;
      pending := exceptionHandler.HasPendingInterrupt();
    }

    /** `_handleInterrupt`, when there is one. */
    method HandleInterrupt() returns (ghost cause: bv64)
      requires Valid() && HasPending(View().csr)
      modifies state, state.tlbRead, state.tlbWrite, state.tlbCode, this`stale
      ensures Valid() && View() == Next(old(View()), world, Raise(cause, 0)).0
      ensures cause == InterruptCause(old(View()).csr)
    {
      hide Inv, HartState.Registers, HasPending, InterruptCause, Trap, PrivFlushes;
      ghost var s := View();
      cause := InterruptCause(s.csr);
      R.CsrFollows(world.decoder, s, Raise(cause, 0));
      EnabledIsPending(s.csr);
      exceptionHandler.HandlePendingInterrupt();
      ForgetStale(PrivFlushes(s.csr, Trap(s.csr, cause, 0)));
    }

    /** `raiseException` */
    method RaiseException(cause: bv64, tval: bv64)
      requires Valid()
      modifies state, state.tlbRead, state.tlbWrite, state.tlbCode, this`stale
      ensures Valid() && View() == Next(old(View()), world, Raise(cause, tval)).0
    {
      hide Inv, HartState.Registers, Trap, PrivFlushes;
      ghost var s := View();
      R.CsrFollows(world.decoder, s, Raise(cause, tval));
      exceptionHandler.RaiseException(cause, tval);
      ForgetStale(PrivFlushes(s.csr, Trap(s.csr, cause, tval)));
    }

    /** `handleMret` */
    method MachineReturn()
      requires Valid()
      modifies state, state.tlbRead, state.tlbWrite, state.tlbCode, this`stale
      ensures Valid() && View() == Next(old(View()), world, DoMret).0
    {
      hide Inv, HartState.Registers, Mret, PrivFlushes;
      ghost var s := View();
      R.CsrFollows(world.decoder, s, DoMret);
      exceptionHandler.HandleMret();
      ForgetStale(PrivFlushes(s.csr, Mret(s.csr)));
    }

    /** `handleSret` */
    method SupervisorReturn()
      requires Valid()
      modifies state, state.tlbRead, state.tlbWrite, state.tlbCode, this`stale
      ensures Valid() && View() == Next(old(View()), world, DoSret).0
    {
      hide Inv, HartState.Registers, Sret, PrivFlushes;
      ghost var s := View();
      R.CsrFollows(world.decoder, s, DoSret);
      exceptionHandler.HandleSret();
      ForgetStale(PrivFlushes(s.csr, Sret(s.csr)));
    }

    method ReadCsr(csr: nat, rtc: bv64) returns (r: Got)
      requires Wired()
      ensures r == Csr.Read(View().csr, csr, rtc)
    {
      hide Csr.Read;
      r := csrHandler.Read(csr, rtc);
    }

    /** `csrHandler.write`; `false` is the access exception. */
    method WriteCsr(csr: nat, val: bv64) returns (ok: bool)
      requires Valid()
      modifies state, state.pmpCfg, state.pmpAddr, state.tlbRead, state.tlbWrite, state.tlbCode, this`stale
      ensures Valid() && View() == Next(old(View()), world, CsrWrite(csr, val)).0 && ok == Accessible(old(View()).csr, csr)
    {
      hide Inv, HartState.Registers, Written, WriteFlushes, Accessible;
      ghost var s := View();
      R.CsrFollows(world.decoder, s, CsrWrite(csr, val));
      ok := csrHandler.Write(csr, val);
      ForgetStale(ok && WriteFlushes(s.csr, csr, val));
    }

    /** `sfence.vma` without an address. */
    method FenceAll()
      requires Valid()
      modifies state`codePage, state.tlbRead, state.tlbWrite, state.tlbCode, this`stale
      ensures Valid() && View() == Next(old(View()), world, SfenceAll).0
    {
      hide Inv, HartState.Registers, SameContext, CsrInv;
      ghost var s := View();
      InvParts(world.decoder, s);
      R.SameContextRefl(s.csr);
      FlushInv(world.decoder, s, s.csr, true);
      state.FlushTlb();
      ForgetStale(true);
    }

    /** `sfence.vma` with an address. */
    method FencePage(va: addr)
      requires Valid()
      modifies state`codePage, state.tlbRead, state.tlbWrite, state.tlbCode
      ensures Valid() && View() == Next(old(View()), world, SfencePage(va)).0
    {
      hide Inv, HartState.Registers, FlushPage;
      ghost var s := View();
      FenceVmaInv(world.decoder, s, va);
      state.FlushTlbPage(va);
    }

    /** `_invalidateInstructionCaches`, but for the history. */
    method EmptyCodeCaches()
      requires Wired()
      modifies state`codePage, cache.pages
      ensures Shaped(old(View())) && View() == FenceI(old(View())).(tainted := old(View()).tainted)
    {
      state.codePage := state.codePage.(tag := INVALID);
      cache.InvalidateAll();
    }

    /** `_invalidateInstructionCaches` */
    method InvalidateInstructionCaches()
      requires Valid()
      modifies state`codePage, cache.pages, this`tainted
      ensures Valid() && View() == Next(old(View()), world, DoFenceI).0
    {
      hide View, Wired, Inv, FenceI;
      ghost var s := View();
      InvParts(world.decoder, s);
      FenceIInv(world.decoder, s);
      FenceITaint(s);
      EmptyCodeCaches();
      SetTainted({});
    }

    lemma FloatRegisters()
      ensures View().csr == state.Registers()
      ensures state.Registers().fflags == state.fflags && state.Registers().mstatus == state.mstatus
    {
    }

    /** A floating-point instruction adds its flags and, if it wrote a register, marks the unit dirty. */
    method MarkFloat(flags: bv64, dirty: bool)
      requires Valid()
      modifies state`fflags, state`mstatus
      ensures Valid() && View() == Next(old(View()), world, FloatDone(flags, dirty)).0
    {
      FloatRegisters();
      hide Inv, HartState.Registers, FsDirty, Or64;
      ghost var s := View();
      R.CsrFollows(world.decoder, s, FloatDone(flags, dirty));
      state.SetFflags(Reg(Or64(state.fflags.bits, flags)));
      if dirty {
        state.SetMstatus(Reg(FsDirty(state.mstatus.bits)));
      }
    }

    /** The loop writes its program counter and cycle count back. */
    method SyncBack(pc: Reg, counter: nat)
      requires Valid()
      modifies state`pc, state`instructionCounter
      ensures state.pc == pc && state.instructionCounter == counter
      ensures Valid() && View() == Next(old(View()), world, Sync(pc, counter)).0
    {
      hide Inv, HartState.Registers;
      ghost var s := View();
      R.CsrFollows(world.decoder, s, Sync(pc, counter));
      state.SetPc(pc);
      state.SetCounter(counter);
    }

    /** The transfer, if it fits the buffer. */
    method Transfer(pa: nat, bytes: seq<bv8>)
      requires Wired() && Shaped(View())
      modifies memory.buffers, state`codePage, cache.pages, this`stale
      ensures View() == Dma(old(View()), pa, bytes)
    {
      hide View, Wired, PlaceOf, DropPages, Stored, InBounds, Dma;
      ghost var s := View();
      R.DmaUnfold(s, pa, bytes);
      var p := Locate(pa);
      var fits := Fits(p, |bytes|);
      if fits {
        PutBytes(p.host, p.off, bytes);
        DropStretch(p.host, p.off, |bytes|);
      }
    }

    /** A device writes RAM and calls `_onRamWritten`. */
    method DeviceWrites(pa: nat, bytes: seq<bv8>)
      requires Valid()
      modifies memory.buffers, state`codePage, cache.pages, this`stale
      ensures Valid() && View() == Next(old(View()), world, DeviceWrite(pa, bytes)).0
    {
      hide View, Wired, Inv, PlaceOf, PokeBytes, Dma;
      InvParts(world.decoder, View());
      R.DmaFollows(world.decoder, View(), pa, bytes);
      Transfer(pa, bytes);
    }

    /** `_onRamWritten`: every page of the stretch, one after the other. */
    method DropStretch(host: nat, off: nat, n: nat)
      requires Wired() && Shaped(View())
      modifies state`codePage, cache.pages, this`stale
      ensures var end := off + n - 1;
        View() == DropPages(old(View()), host, off - off % PAGE, end - end % PAGE)
    {
      hide View, Wired, DropPage;
      ghost var s := View();
      var end := off + n - 1;
      var page, last := off - off % PAGE, end - end % PAGE;
      while page <= last
        invariant Shaped(View())
        invariant DropPages(View(), host, page, last) == DropPages(s, host, off - off % PAGE, last)
        decreases last - page
      {
        DropDecodedPage(host, page);
        page := page + PAGE;
      }
    }

    method Fits(p: Place, n: nat) returns (ok: bool)
      ensures ok == (p.InRam? && InBounds(View().mem, p.host, p.off, n))
    {
      ok := p.InRam? && p.host < |memory.buffers| && p.off + n <= memory.buffers[p.host].Length;
    }
  }

  /** `ReadSlow` in terms of what the method's parts do. */
  lemma ReadSlowUnfold(s: State, w: World, va: addr, n: nat)
    requires Shaped(s) && IsSize(n)
    ensures var t := Xlate(s.mem, DataCtx(s), va, Read);
      ReadSlow(s, w, va, n) ==
        if !t.Physical? then (s, FaultOf(t, Read, va))
        else
          var s1 := Translated(s, DataCtx(s), va, Read);
          match PlaceOf(s1.mem, t.pa)
          case Nowhere => (s1, Done(0))
          case InDevice => (s1, Done(w.readDevice(t.pa, n)))
          case InRam(host, off) => (Filled(s1, va, host, off, Read), Done(Peek(s1.mem, host, off, n)))
  {
    hide Xlate, XlateMem, LeafPage, ContextOf, PlaceOf, Peek, PageBase;
  }

  lemma HitHolds(e: Entry, va: addr, n: nat)
    requires IsSize(n)
    ensures Hit(e, va, n) == (e.tag == AlignedTag(va, n))
  {
  }

  /** A read hit is aligned and its bytes exist. */
  lemma ReadHit(d: D.Decoder, s: State, va: addr, n: nat)
    requires Inv(d, s) && IsSize(n) && Hit(s.tlbR[IndexOf(va)], va, n)
    ensures var e := s.tlbR[IndexOf(va)]; va % n == 0 && e.host >= 0 && InBounds(s.mem, e.host, e.off + va % PAGE, n)
  {
    hide ValidMem, CsrInv, Leads, CacheOk, Exclusive, CodeHeld, ContextOf, Hit, TableOk;
    EntryAt(s.mem, s.stale, DataCtx(s), s.tlbR, Read, va, n);
    AlignedInPage(va, n);
  }

  lemma WriteHit(d: D.Decoder, s: State, va: addr, n: nat)
    requires Inv(d, s) && IsSize(n) && Hit(s.tlbW[IndexOf(va)], va, n)
    ensures var e := s.tlbW[IndexOf(va)]; va % n == 0 && e.host >= 0 && InBounds(s.mem, e.host, e.off + va % PAGE, n)
  {
    hide ValidMem, CsrInv, Leads, CacheOk, Exclusive, CodeHeld, ContextOf, Hit, TableOk;
    EntryAt(s.mem, s.stale, DataCtx(s), s.tlbW, Write, va, n);
    AlignedInPage(va, n);
  }

  /** `WriteSlow` in terms of what the method's parts do. */
  lemma WriteSlowUnfold(s: State, va: addr, n: nat, v: bv64)
    requires Shaped(s) && IsSize(n)
    ensures var t := Xlate(s.mem, DataCtx(s), va, Write);
      WriteSlow(s, va, n, v) ==
        if !t.Physical? then (s, FaultOf(t, Write, va))
        else
          var s1 := Translated(s, DataCtx(s), va, Write);
          var p := PlaceOf(s1.mem, t.pa);
          if p.InRam? then
            (Stored(DropPage(Filled(s1, va, p.host, p.off, Write), p.host, PageBase(p.off, va)), p.host, p.off, BytesOf(v, n)), Done(0))
          else (s1, Done(0))
  {
    hide Xlate, XlateMem, LeafPage, ContextOf, PlaceOf, PageBase, Stored, DropPage, BytesOf;
  }

  lemma DropMem(s: State, host: int, off: nat)
    requires Shaped(s)
    ensures DropPage(s, host, off).mem == s.mem
  {
  }

  lemma CrossPageUnfold(s: State, pc: addr, low: bv64)
    requires Shaped(s)
    ensures var t := Xlate(s.mem, FetchCtx(s), Wrap(pc + 2), Fetch);
      CrossPage(s, pc, low) ==
        if !t.Physical? then (s, FaultOf(t, Fetch, Wrap(pc + 2)))
        else
          var s1 := Translated(s, FetchCtx(s), Wrap(pc + 2), Fetch);
          var p := PlaceOf(s1.mem, t.pa);
          if p.InRam? then (s1, Done(Halves(low, Peek(s1.mem, p.host, p.off, 2)))) else (s1, Trapped(FETCH_FAULT, Wrap(pc + 2)))
  {
    hide Xlate, XlateMem, LeafPage, ContextOf, PlaceOf, Peek;
  }

  lemma FetchSlowUnfold(s: State, pc: addr)
    requires Shaped(s)
    ensures var t := Xlate(s.mem, FetchCtx(s), pc, Fetch);
      Cpu.FetchSlow(s, pc) ==
        if !t.Physical? then (s, FaultOf(t, Fetch, pc))
        else
          var s1 := Translated(s, FetchCtx(s), pc, Fetch);
          var p := PlaceOf(s1.mem, t.pa);
          if p.InRam? then FromPage(Filled(s1, pc, p.host, p.off, Fetch), p.host, PageBase(p.off, pc), pc)
          else (s1, Trapped(FETCH_FAULT, pc))
  {
    hide Xlate, XlateMem, LeafPage, ContextOf, PlaceOf, PageBase, FromPage;
  }

  /** Filling the code entry after a translation keeps the invariant. */
  lemma CodeFilledInv(d: D.Decoder, s: State, pc: addr)
    requires Inv(d, s) && Xlate(s.mem, FetchCtx(s), pc, Fetch).Physical?
    requires var s1 := Translated(s, FetchCtx(s), pc, Fetch); PlaceOf(s1.mem, Xlate(s.mem, FetchCtx(s), pc, Fetch).pa).InRam?
    ensures var s1 := Translated(s, FetchCtx(s), pc, Fetch); var p := PlaceOf(s1.mem, Xlate(s.mem, FetchCtx(s), pc, Fetch).pa);
      Shaped(s1) && Inv(d, Filled(s1, pc, p.host, p.off, Fetch)) && Backed(s1.mem, p.host, PageBase(p.off, pc))
  {
    hide ValidMem, CsrInv, Xlate, XlateMem, PlaceOf, ContextOf, TableOk, EntryOk, CacheOk, Exclusive, CodeHeld;
    hide PageBase, Leads, Backed, LeafPage;
    var c := FetchCtx(s);
    TranslatedInv(d, s, c, pc, Fetch);
    FilledLeads(s.mem, c, pc, Fetch);
    var s1 := Translated(s, c, pc, Fetch);
    var p := PlaceOf(s1.mem, Xlate(s.mem, c, pc, Fetch).pa);
    FilledInv(d, s1, pc, p.host, p.off, Fetch);
  }

  lemma CodeBacked(d: D.Decoder, s: State, pc: addr)
    requires Inv(d, s) && s.code.tag == TagOf(pc)
    ensures Backed(s.mem, s.code.host, s.code.off) && s.code.host >= 0
  {
    hide ValidMem, CsrInv, Leads, CacheOk, Exclusive, CodeHeld, ContextOf, TableOk;
    NeverInvalid(pc, 1);
  }

  lemma UsedShape(d: D.Decoder, s: State, k: Slot)
    requires Inv(d, s)
    ensures var s' := Used(s, k);
      && Inv(d, s') && Shaped(s') && s'.tlbX == s.tlbX && s'.code == s.code && s'.csr == s.csr && s'.stale == s.stale
      && (k in s'.stale ==> s'.exposed)
  {
    hide Inv;
    InvParts(d, s);
    F.UsedInv(d, s, k);
  }

  /** The installed page is held, with all its slots and bytes. */
  lemma CodeHeldSlot(d: D.Decoder, s: State, pc: addr)
    requires Inv(d, s) && s.code.tag == TagOf(pc)
    ensures Shaped(s) && D.Holds(s.cache, s.code.host, s.code.off) && s.code.host >= 0 && InBounds(s.mem, s.code.host, s.code.off, PAGE)
    ensures D.SlotOf(pc) < |s.cache[D.CacheIndex(s.code.off)].value.slots|
  {
    hide ValidMem, CsrInv, Leads, Exclusive, ContextOf, TableOk, D.DecodeSlot, D.CacheIndex;
    NeverInvalid(pc, 1);
    assert PageOk(d, s.mem, s.tainted, s.cache[D.CacheIndex(s.code.off)].value);
  }

  lemma FenceITaint(s: State)
    requires Shaped(s)
    ensures FenceI(s).tainted == {}
  {
  }

  lemma UsedMem(s: State, k: Slot)
    ensures Used(s, k).mem == s.mem && Used(s, k).code == s.code && (Shaped(s) ==> Shaped(Used(s, k)))
  {
  }

  lemma PartsAligned(va: addr, n: nat)
    requires IsSize(n) && va % n != 0
    ensures FirstPart(va, n) % PartSize(n) == 0 && SecondPart(va, n) % PartSize(n) == 0
  {
    if n == 4 || n == 8 {
      Remultiple(va, n);
    }
  }

  lemma FilledMem(s: State, va: addr, host: nat, off: nat)
    requires Shaped(s)
    ensures Filled(s, va, host, off, Read).mem == s.mem
    ensures Filled(s, va, host, off, Write).mem == s.mem && Filled(s, va, host, off, Fetch).mem == s.mem
  {
  }

  lemma InvParts(d: D.Decoder, s: State)
    requires Inv(d, s)
    ensures CsrInv(s.csr) && ValidMem(s.mem) && Shaped(s)
  {
  }

  lemma EnabledIsPending(c: Csrs)
    requires HasPending(c)
    ensures Csr.Pending(c) != 0
  {
    hide Both, Mie, Sie;
    ExceptionHandler.NothingTaken(c.mideleg.bits, EnabledAtM(c), EnabledAtS(c));
  }

  lemma FaultTranslated(s: State, c: Ctx, va: addr, acc: Access)
    requires !Xlate(s.mem, c, va, acc).Physical?
    ensures Translated(s, c, va, acc) == s
  {
    hide Xlate, Walk, NeedsUpdate, Poke8;
  }

  lemma PlaceInBounds(m: Mem, pa: nat, va: addr, n: nat)
    requires ValidMem(m) && PlaceOf(m, pa).InRam? && IsSize(n) && pa % PAGE == va % PAGE && va % n == 0
    ensures InBounds(m, PlaceOf(m, pa).host, PlaceOf(m, pa).off, n)
  {
    hide ValidMem, PlaceOf;
    PlaceBounds(m, pa);
    AlignedInPage(va, n);
  }
}
