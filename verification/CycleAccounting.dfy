/** The one cycle in which the predecoded loop does not mirror the classic one: a concrete run. */
module CycleAccounting {
  import opened Words
  import opened PhysMemory
  import opened Pte
  import opened Translate
  import opened Csr
  import opened CsrTheorems
  import opened Tlb
  import opened Cpu
  import opened CpuInvariant
  import opened Fences
  import opened FencedRuns
  import opened Interpreter
  import opened LoopTheorems
  import opened TrapTheorems
  import F = FetchTheorems
  import R = CpuRuns
  import U = Uncached
  import D = Predecode

  /** One page of RAM in which every halfword begins an instruction of four bytes. */
  function Page3(): (b: seq<bv8>)
    ensures |b| == 0x1000 && forall i :: 0 <= i < 0x1000 ==> b[i] == 3
  {
    seq(0x1000, i => 3)
  }

  function Memory(): Mem { Mem([Ram(0, 0x1000, true, 0)], [Page3()]) }

  /** Machine level at the last halfword of the page, no interrupt anywhere. */
  function Registers(): Csrs
  {
    var z := Reg(0);
    Csrs(Machine, RegOf(0xFFE), 0, z, z, Reg(0xA_0000_0000), z, z, z, z, z, z, z, z, z, z, z, z, z, z, z, z, z, z, z, z, z, z, z, [], [])
  }

  lemma Sane()
    ensures ValidMem(Memory()) && CsrInv(Registers()) && !Paging(ContextOf(Registers(), false))
  {
    hide RegOf;
  }

  lemma PlaceAt(pa: nat)
    ensures PlaceOf(Memory(), pa) == if pa < 0x1000 then InRam(0, pa) else Nowhere
  {
    hide Page3;
    assert Memory().ranges[1..] == [];
  }

  lemma Long(low: bv64)
    requires low == Pair(3, 3)
    ensures !D.IsCompressed(low) && !D.IsCompressed(Halves(low, low))
  {
  }

  lemma Pieces()
    ensures PieceAt(Memory(), 0, 0, 0).Whole? && PieceAt(Memory(), 0, 0, 0xFFE).Half?
  {
    hide Pair, Halves, D.IsCompressed, LowHalf;
    Long(Pair(3, 3));
    assert Le2(Page3(), 0xFFE) == Pair(3, 3);
  }

  /** Fetching at the start of the page succeeds, at its last halfword the second half is nowhere. */
  lemma Fetches(c: Ctx)
    requires !Paging(c)
    ensures XlateMem(Memory(), c, 0, Fetch) == Memory()
    ensures U.FetchWord(Memory(), c, 0).0 == Memory() && U.FetchWord(Memory(), c, 0).1.Done?
    ensures U.FetchWord(Memory(), c, 0xFFE) == (Memory(), Trapped(FETCH_FAULT, 0x1000))
  {
    hide Memory, PieceAt, Peek, PlaceOf;
    PlaceAt(0);
    PlaceAt(0xFFE);
    PlaceAt(0x1000);
    Pieces();
  }

  ghost function PlainMach(): Mach { Mach.Plain(U.Plain(Memory(), Registers()), Nothing(), true) }

  /** What the uncached machine does with both. */
  lemma PlainInsn(w: World)
    ensures Advance(PlainMach(), w, Insn(0)).0 == PlainMach() && Advance(PlainMach(), w, Insn(0)).1.Done?
  {
    hide Memory, Registers, ContextOf, U.FetchWord, SeenFetch;
    Sane();
    Fetches(ContextOf(Registers(), false));
    FlatSeen(Nothing(), Memory(), Registers(), 0);
  }

  lemma PlainExecute(w: World)
    ensures Advance(PlainMach(), w, Execute(0xFFE)).1 == Trapped(FETCH_FAULT, 0x1000)
    ensures Advance(PlainMach(), w, Execute(0xFFE)).0.polite
  {
    hide Memory, Registers, ContextOf, U.FetchWord, U.ExecuteWord, SeenExecute;
    Sane();
    Fetches(ContextOf(Registers(), false));
    F.FaultDecodesNothing(Memory(), ContextOf(Registers(), false), w.decoder, 0xFFE);
    FlatSeen(Nothing(), Memory(), Registers(), 0xFFE);
  }

  /** Without paging a fetch marks nothing. */
  lemma FlatSeen(h: History, m: Mem, csr: Csrs, pc: addr)
    requires !Paging(ContextOf(csr, false)) && h == Nothing()
    ensures SeenFetch(h, m, csr, pc) == (h, true)
    ensures pc % 2 == 0 ==> SeenExecute(h, m, csr, pc) == (h, true)
  {
    hide PieceAt, Peek, PlaceOf, ContextOf, Walk;
    assert h.marked + {} == h.marked;
  }

  /** The cached machine once it has fetched from the page: the page is installed. */
  ghost function Installed(w: World): (s: State)
    ensures Shaped(s)
  {
    Next(R.Reset(Memory(), Registers()), w, Insn(0)).0
  }

  lemma InstalledTwin(w: World)
    ensures Twin(w.decoder, Cached(Installed(w)), PlainMach()) && Installed(w).code.tag == 0
  {
    hide Memory, Registers, Inv, Linked, FetchInsn, U.FetchWord, FetchAndCache, R.Reset, Observed, U.PlainStep;
    Sane();
    PlainInsn(w);
    R.ResetInv(w.decoder, Memory(), Registers());
    ResetLinked(Memory(), Registers());
    var s := R.Reset(Memory(), Registers());
    ResetMem();
    StepTwin(w.decoder, Cached(s), PlainMach(), w, Insn(0));
    F.FetchAndCacheFollows(w.decoder, s, 0);
    NothingInstalled(w);
  }

  lemma ResetMem()
    ensures var s := R.Reset(Memory(), Registers()); s.mem == Memory() && s.csr == Registers()
  {
    hide Memory, Registers;
  }

  lemma NothingInstalled(w: World)
    ensures Installed(w) == FetchAndCache(R.Reset(Memory(), Registers()), 0).0
    ensures Next(R.Reset(Memory(), Registers()), w, Insn(0)).1 == FetchAndCache(R.Reset(Memory(), Registers()), 0).1
  {
    hide Memory, Registers, FetchAndCache, FromPage, PieceAt;
  }

  lemma StartPc()
    ensures AddrOf(RegOf(0xFFE)) == 0xFFE
  {
  }

  lemma Quiet()
    ensures !HasPending(Registers()) && Registers().pc == RegOf(0xFFE) && Registers().counter == 0
  {
    hide RegOf;
  }

  /** What an instruction that cannot be fetched makes of one cycle. */
  lemma OneCycle(h: Hart, w: Outside, arms: Arms)
    requires Ready(h) && CsrOf(h.mach) == Registers() && Instruction(h, w, arms, 0xFFE).1.Faulted?
    ensures var (h1, e) := Instruction(h, w, arms, 0xFFE); var (h', l) := Executed(h, w, arms, 1);
      l == Excepted(e.cost, e.half) && CsrOf(h'.mach).counter == e.cost
  {
    StartPc();
    Quiet();
    hide Registers, Instruction, HasPending, RegOf, AddrOf, Word64, Loop, Saves;
    FaultPrecise(h, w, arms, 0xFFE, 1, 1);
  }

  /** A hart that has done nothing yet. */
  ghost function Awake(m: Mach, regs: seq<bv64>): Hart
  {
    Hart(m, regs, seq(32, i => 0), 0, false, NO_RESERVATION, 0)
  }

  /**
   * One cycle given to either loop at the last halfword of the page, from states that agree and that one fetch leads to from
   * reset: the predecoded loop counts two, the classic loop one.
   */
  lemma CyclesDiffer(w: Outside, arms: Arms, regs: seq<bv64>)
    requires |regs| == 32
    ensures var x, y := Awake(Cached(Installed(At(w, 0))), regs), Awake(PlainMach(), regs);
      var (x1, l) := Executed(x, w, arms, 1); var (y1, l') := Executed(y, w, arms, 1);
      && Twins(w.decoder, x, y) && l == Excepted(2, true) && l' == Excepted(1, true)
      && CsrOf(x1.mach).counter == 2 && CsrOf(y1.mach).counter == 1
  {
    InstalledTwin(At(w, 0));
    var x, y := Awake(Cached(Installed(At(w, 0))), regs), Awake(PlainMach(), regs);
    assert Twins(w.decoder, x, y);
    PlainEnds(y, w, arms);
    TwinsAlike(w.decoder, x, y);
    hide Twins, Instruction, Executed, Registers, Memory, Installed, At;
    InstructionTwins(w.decoder, x, y, w, arms, 0xFFE);
    OneCycle(x, w, arms);
    OneCycle(y, w, arms);
  }

  lemma PlainEnds(y: Hart, w: Outside, arms: Arms)
    requires Ready(y) && y.mach == PlainMach()
    ensures Instruction(y, w, arms, 0xFFE).1 == Faulted(1, 1, true) && Instruction(y, w, arms, 0xFFE).0.mach.polite
  {
    hide Memory, Registers, Advance, At;
    PlainExecute(At(w, y.looks));
  }
}
