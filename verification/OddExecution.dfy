/** An odd program counter on which the predecoded loop and the classic interpreter run different instructions. */
module OddExecution {
  import opened Words
  import opened PhysMemory
  import opened Pte
  import opened Translate
  import opened Csr
  import opened CsrTheorems
  import opened Tlb
  import opened Cpu
  import opened CpuInvariant
  import opened Fences
  import opened FencedRuns
  import A = CycleAccounting
  import F = FetchTheorems
  import R = CpuRuns
  import U = Uncached
  import D = Predecode

  /** The ops the predecoder makes of 0x0285, `c.addi x5, 1`, and of 0x8502, `c.jr x10`. */
  const ADDI_OP: D.MicroOp := D.MicroOp(5 + 5 * 0x100 + 5 * 0x2000, 1)
  const JR_OP: D.MicroOp := D.MicroOp(38 + 10 * 0x2000, 0)

  /** A decoder that decodes these two as the source does, its fallback being op 1. */
  predicate Faithful(d: D.Decoder)
  {
    d.compressed(0x0285) == ADDI_OP && d.compressed(0x8502) == JR_OP && d.fallback.meta % 256 == 1
  }

  /** `c.addi x5, 1` twice: read one byte further on, it is `c.jr x10`. */
  function Code(): (b: seq<bv8>)
    ensures |b| == 0x1000 && b[0] == 0x85 && b[1] == 0x02 && b[2] == 0x85 && b[3] == 0x02
    ensures forall i :: 4 <= i < 0x1000 ==> b[i] == 0
  {
    seq(0x1000, i => if i == 0 || i == 2 then 0x85 else if i == 1 || i == 3 then 0x02 else 0)
  }

  function Memory(): Mem { Mem([Ram(0, 0x1000, true, 0)], [Code()]) }

  lemma At(pa: nat)
    requires pa < 0x1000
    ensures PlaceOf(Memory(), pa) == InRam(0, pa)
  {
  }

  function Registers(): Csrs
  {
    var z := Reg(0);
    Csrs(Machine, z, 0, z, z, Reg(0xA_0000_0000), z, z, z, z, z, z, z, z, z, z, z, z, z, z, z, z, z, z, z, z, z, z, z, [], [])
  }

  lemma Sane()
    ensures ValidMem(Memory()) && CsrInv(Registers()) && !Paging(ContextOf(Registers(), false))
  {
  }

  lemma Bits()
    ensures D.IsCompressed(Halves(Pair(0x85, 2), Pair(0x85, 2))) && LowHalf(Halves(Pair(0x85, 2), Pair(0x85, 2))) == 0x0285
    ensures D.IsCompressed(Halves(Pair(2, 0x85), Pair(2, 0))) && LowHalf(Halves(Pair(2, 0x85), Pair(2, 0))) == 0x8502
    ensures D.IsCompressed(0x0285) && D.IsCompressed(0x8502)
  {
  }

  lemma PiecesAt()
    ensures PieceAt(Memory(), 0, 0, 0) == Whole(0x0285) && PieceAt(Memory(), 0, 0, 1) == Whole(0x8502)
  {
    hide Pair, Halves, D.IsCompressed, LowHalf;
    Bits();
    var b := Code();
    assert b[1 + 1] == 0x85 && b[1 + 2] == 2 && b[1 + 2 + 1] == 0 && b[2 + 1] == 2;
  }

  lemma Common(d: D.Decoder)
    requires Faithful(d)
    ensures !D.Uncommon(d, ADDI_OP) && !D.Uncommon(d, JR_OP) && ADDI_OP != JR_OP
  {
  }

  lemma PlainDispatch(d: D.Decoder, c: Ctx)
    requires Faithful(d) && !Paging(c)
    ensures U.FetchWord(Memory(), c, 0) == (Memory(), Done(0x0285))
    ensures U.ExecuteWord(Memory(), c, d, 0) == (Memory(), Dispatched(ADDI_OP))
    ensures U.ExecuteWord(Memory(), c, d, 1) == (Memory(), Dispatched(JR_OP))
  {
    hide Memory, PieceAt, PlaceOf, D.IsCompressed, LowHalf, D.Uncommon;
    At(0);
    At(1);
    PiecesAt();
    Bits();
    Common(d);
  }

  /** The state after one fetch from reset: the page is installed. */
  ghost function Started(w: World): (s: State)
    ensures Shaped(s)
  {
    Next(R.Reset(Memory(), Registers()), w, Insn(0)).0
  }

  lemma StartedLinked(w: World)
    requires Faithful(w.decoder)
    ensures var s := Started(w);
      && Inv(w.decoder, s) && Linked(s, Nothing()) && s.mem == Memory() && s.csr == Registers() && s.code.tag == 0
  {
    hide Memory, Registers, Inv, Linked, FetchInsn, U.FetchWord, FetchAndCache, SeenFetch, ContextOf;
    var s := R.Reset(Memory(), Registers());
    Sane();
    PlainDispatch(w.decoder, ContextOf(Registers(), false));
    A.FlatSeen(Nothing(), Memory(), Registers(), 0);
    R.ResetInv(w.decoder, Memory(), Registers());
    ResetLinked(Memory(), Registers());
    R.StepRefines(w.decoder, s, w, Insn(0));
    StepLinked(w.decoder, s, Nothing(), w, Insn(0));
    NotExposed(Started(w), Nothing());
    F.FetchAndCacheFollows(w.decoder, s, 0);
    FirstFetch(w);
  }

  lemma FirstFetch(w: World)
    ensures var s := R.Reset(Memory(), Registers());
      Started(w) == FetchAndCache(s, 0).0 && Next(s, w, Insn(0)).1 == FetchAndCache(s, 0).1
  {
    hide Memory, Registers, FetchAndCache, FromPage, PieceAt;
  }

  /** At address 1 the loop adds one to x5; the classic interpreter would jump through x10. */
  lemma OddPcDiffers(w: World)
    requires Faithful(w.decoder)
    ensures var s := Started(w);
      && Turn(s, w, 1).1 == Dispatched(ADDI_OP)
      && U.ExecuteWord(s.mem, FetchCtx(s), w.decoder, 1).1 == Dispatched(JR_OP) && ADDI_OP != JR_OP
  {
    var s := Started(w);
    StartedLinked(w);
    Sane();
    hide Memory, Registers, Coherent, ValidMem, CsrInv, Linked, SeenFetch, SeenExecute, ContextOf, U.ExecuteWord, U.FetchWord,
      DispatchSlot, FetchInsn, Started, TagOf, Paging, Faithful;
    PlainDispatch(w.decoder, FetchCtx(s));
    Common(w.decoder);
    A.FlatSeen(Nothing(), s.mem, s.csr, 0);
    F.TurnFollows(w.decoder, s, w, 0);
    TurnLinked(w.decoder, s, Nothing(), w, 0);
    ExecuteSeen(s, 0);
    NotExposed(Turn(s, w, 0).0, Nothing());
    F.OddDispatch(s, w, 1, 0);
    SameTurn(s, w);
  }

  lemma ExecuteSeen(s: State, pc: addr)
    ensures SeenExecute(Nothing(), s.mem, s.csr, pc).0 == SeenFetch(Nothing(), s.mem, s.csr, pc).0
  {
    hide SeenFetch, CodeFrame;
  }

  lemma SameTurn(s: State, w: World)
    requires Shaped(s) && s.code.tag == 0 && !D.Uncommon(w.decoder, ADDI_OP) && Turn(s, w, 0).1 == Dispatched(ADDI_OP)
    requires DispatchSlot(Used(s, CodeSlot), w, 1) == DispatchSlot(Used(s, CodeSlot), w, 0)
    ensures Turn(s, w, 1).1 == Dispatched(ADDI_OP)
  {
    hide DispatchSlot, FetchInsn, FetchAndCache, D.Uncommon;
    assert TagOf(0) == 0 && TagOf(1) == 0;
  }
}
