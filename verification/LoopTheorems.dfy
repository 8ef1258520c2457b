/** The predecoded loop over the caches against the classic loop without them. */
module LoopTheorems {
  import opened Words
  import opened PhysMemory
  import opened Translate
  import opened Csr
  import opened CsrTheorems
  import opened Tlb
  import opened Cpu
  import opened CpuInvariant
  import opened Fences
  import opened FencedRuns
  import opened Interpreter
  import F = FetchTheorems
  import R = CpuRuns
  import U = Uncached
  import D = Predecode

  /** The cached machine `a` stands where the uncached machine `b` stands, as long as `b` has been polite. */
  ghost predicate Twin(d: D.Decoder, a: Mach, b: Mach)
  {
    && a.Cached? && b.Plain? && Fit(a)
    && (b.polite ==> Inv(d, a.s) && Linked(a.s, b.h) && U.Plain(a.s.mem, a.s.csr) == b.p)
  }

  /** The same with the registers. */
  ghost predicate Twins(d: D.Decoder, x: Hart, y: Hart)
  {
    Ready(x) && Ready(y) && Twin(d, x.mach, y.mach) && (y.mach.polite ==> x == y.(mach := x.mach))
  }

  /** Both sides of an operation end as twins, and alike. */
  ghost predicate Paired<T>(d: D.Decoder, x: (Hart, T), y: (Hart, T))
  {
    Twins(d, x.0, y.0) && (y.0.mach.polite ==> x.1 == y.1)
  }

  // ---------------------------------------------------------------- one event

  lemma StepTwin(d: D.Decoder, a: Mach, b: Mach, w: World, e: Event)
    requires Twin(d, a, b) && d == w.decoder && Sensible(e)
    ensures var (a1, o) := Advance(a, w, e); var (b1, o') := Advance(b, w, e);
      Twin(d, a1, b1) && (b1.polite ==> b.polite && o == o' && o != Crash && (o.Dispatched? ==> e.Execute?))
  {
    hide Inv, Linked, Next, U.PlainStep, Observed;
    OnlyExecuteDispatches(b.p, w, e);
    if Advance(b, w, e).0.polite {
      R.StepRefines(d, a.s, w, e);
      StepLinked(d, a.s, b.h, w, e);
      PoliteEven(b.h, b.p, w, e);
      NotExposed(Next(a.s, w, e).0, Observed(b.h, b.p, w, e).0);
    }
  }

  lemma OnlyExecuteDispatches(p: U.Plain, w: World, e: Event)
    requires Sensible(e)
    ensures U.PlainStep(p, w, e).1.Dispatched? ==> e.Execute?
  {
    hide Xlate, XlateMem, PlaceOf, PokeBytes, Peek, U.StoreAligned, U.StoreBytes, ContextOf;
    match e {
      case Store(va, n, v) => StoresAnswer(p.mem, ContextOf(p.csr, true), va, 0, n, v);
      case _ =>
    }
  }

  lemma {:induction false} StoresAnswer(m: Mem, c: Ctx, va: addr, i: nat, n: nat, v: bv64)
    requires i <= n
    ensures !U.StoreBytes(m, c, va, i, n, v).1.Dispatched?
    ensures IsSize(n) ==> !U.StoreAligned(m, c, va, n, v).1.Dispatched?
    decreases n - i
  {
    hide Xlate, XlateMem, PlaceOf, PokeBytes, ByteValue, BytesOf;
    if i < n {
      StoresAnswer(U.StoreAligned(m, c, Wrap(va + i), 1, ByteValue(v, i)).0, c, va, i + 1, n, v);
    }
  }

  lemma ServeTwins(d: D.Decoder, x: Hart, y: Hart, w: Outside, e: Event)
    requires Twins(d, x, y) && d == w.decoder && Sensible(e)
    ensures Twins(d, Serve(x, w, e), Serve(y, w, e))
  {
    hide Twin, Advance, At;
    TwinsAlike(d, x, y);
    if y.mach.polite {
      StepTwin(d, x.mach, y.mach, At(w, y.looks), e);
      PoliteBefore(d, x.mach, y.mach, At(w, y.looks), e);
    } else {
      ImpoliteTwins(d, x, y, Serve(x, w, e), Serve(y, w, e));
    }
  }

  lemma AccessTwins(d: D.Decoder, x: Hart, y: Hart, w: Outside, e: Event)
    requires Twins(d, x, y) && d == w.decoder && (e.Load? || e.Store?) && Sensible(e)
    ensures Paired(d, Access(x, w, e), Access(y, w, e))
    ensures Access(y, w, e).0.mach.polite ==> Access(y, w, e).1.Done? || Access(y, w, e).1.Trapped?
  {
    hide Twin, Advance, At;
    TwinsAlike(d, x, y);
    if y.mach.polite {
      StepTwin(d, x.mach, y.mach, At(w, y.looks), e);
      PoliteBefore(d, x.mach, y.mach, At(w, y.looks), e);
    } else {
      ImpoliteTwins(d, x, y, Access(x, w, e).0, Access(y, w, e).0);
    }
  }

  lemma PoliteBefore(d: D.Decoder, a: Mach, b: Mach, w: World, e: Event)
    requires Twin(d, a, b) && Sensible(e)
    ensures b.Plain? && Advance(b, w, e).0.Plain? && (Advance(b, w, e).0.polite ==> b.polite)
  {
    hide Observed, U.PlainStep;
  }

  lemma TwinsAlike(d: D.Decoder, x: Hart, y: Hart)
    requires Twins(d, x, y)
    ensures y.mach.Plain? && x.mach.Cached?
    ensures y.mach.polite ==> x == y.(mach := x.mach) && CsrOf(x.mach) == CsrOf(y.mach)
  {
    hide Inv, Linked;
  }

  lemma RegisteredTwins(d: D.Decoder, x: Hart, y: Hart, rd: nat, v: bv64, v': bv64)
    requires Twins(d, x, y) && rd < 32 && (y.mach.polite ==> v == v')
    ensures Twins(d, Registered(x, rd, v), Registered(y, rd, v'))
  {
    hide Twin;
    TwinsAlike(d, x, y);
  }

  /** Nothing is promised of what has been impolite. */
  lemma ImpoliteTwins(d: D.Decoder, x: Hart, y: Hart, x': Hart, y': Hart)
    requires Twins(d, x, y) && Onward(x, x') && Onward(y, y') && !y.mach.polite
    ensures Twins(d, x', y') && !y'.mach.polite
  {
    hide Inv, Linked;
  }

  // ---------------------------------------------------------------- the arms

  lemma LoadTwins(d: D.Decoder, x: Hart, y: Hart, w: Outside, op: D.MicroOp, pc: addr)
    requires Twins(d, x, y) && d == w.decoder && IsLoad(OpCode(op))
    ensures LoadOp(y, w, op, pc).0.mach.polite ==> LoadOp(y, w, op, pc).1 != Broken
    ensures Paired(d, LoadOp(x, w, op, pc), LoadOp(y, w, op, pc))
  {
    hide Inv, Linked, Access, OpCode, Rs1, Rd, Size, Extend, Offset;
    if y.mach.polite {
      AccessTwins(d, x, y, w, Load(Offset(y.regs[Rs1(op)], op.imm), LoadSize(OpCode(op))));
    } else {
      ImpoliteTwins(d, x, y, LoadOp(x, w, op, pc).0, LoadOp(y, w, op, pc).0);
    }
  }

  lemma StoreTwins(d: D.Decoder, x: Hart, y: Hart, w: Outside, op: D.MicroOp, pc: addr)
    requires Twins(d, x, y) && d == w.decoder && IsStore(OpCode(op))
    ensures StoreOp(y, w, op, pc).0.mach.polite ==> StoreOp(y, w, op, pc).1 != Broken
    ensures Paired(d, StoreOp(x, w, op, pc), StoreOp(y, w, op, pc))
  {
    hide Inv, Linked, Access, OpCode, Rs1, Rs2, Size, Offset;
    if y.mach.polite {
      AccessTwins(d, x, y, w, Store(Offset(y.regs[Rs1(op)], op.imm), StoreSize(OpCode(op)), y.regs[Rs2(op)]));
    } else {
      ImpoliteTwins(d, x, y, StoreOp(x, w, op, pc).0, StoreOp(y, w, op, pc).0);
    }
  }

  lemma AluTwins(d: D.Decoder, x: Hart, y: Hart, arms: Arms, op: D.MicroOp, pc: addr)
    requires Twins(d, x, y)
    ensures Paired(d, AluOp(x, arms, op, pc), AluOp(y, arms, op, pc))
  {
    hide Inv, Linked, OpCode, Rs1, Rs2, Rd, Size, Plus, Sum;
  }

  // ---------------------------------------------------------------- the classic interpreter

  lemma WithPcTwins(d: D.Decoder, x: Hart, y: Hart, w: Outside, a: addr)
    requires Twins(d, x, y) && d == w.decoder
    ensures Twins(d, WithPc(x, w, a), WithPc(y, w, a))
  {
    hide Inv, Linked, Advance, RegOf;
    if y.mach.polite {
      ServeTwins(d, x, y, w, Sync(RegOf(a), CsrOf(y.mach).counter));
    } else {
      ImpoliteTwins(d, x, y, WithPc(x, w, a), WithPc(y, w, a));
    }
  }

  lemma LevelTwins(d: D.Decoder, x: Hart, y: Hart, w: Outside, classic: Classic, insn: bv64)
    requires Twins(d, x, y) && d == w.decoder
    ensures Paired(d, LevelOp(x, w, classic, insn), LevelOp(y, w, classic, insn))
  {
    hide Inv, Linked, Serve, AsAddr;
    if y.mach.polite {
      ServeTwins(d, x, y, w, DoMret);
      ServeTwins(d, x, y, w, DoSret);
    } else {
      ImpoliteTwins(d, x, y, LevelOp(x, w, classic, insn).0, LevelOp(y, w, classic, insn).0);
    }
  }

  lemma FenceTwins(d: D.Decoder, x: Hart, y: Hart, w: Outside, classic: Classic, insn: bv64)
    requires Twins(d, x, y) && d == w.decoder
    ensures Paired(d, FenceOp(x, w, classic, insn), FenceOp(y, w, classic, insn))
  {
    hide Inv, Linked, Serve, AsAddr, Pending;
    if y.mach.polite {
      ServeTwins(d, x, y, w, DoFenceI);
      ServeTwins(d, x, y, w, SfenceAll);
      if classic.FenceVmaAt? {
        ServeTwins(d, x, y, w, SfencePage(AsAddr(y.regs[classic.rs1])));
      }
    } else {
      ImpoliteTwins(d, x, y, FenceOp(x, w, classic, insn).0, FenceOp(y, w, classic, insn).0);
    }
  }

  lemma PutTwins(d: D.Decoder, x: Hart, y: Hart, w: Outside, csr: nat, writes: bool, val: bv64, rd: reg, was: bv64, insn: bv64)
    requires Twins(d, x, y) && d == w.decoder
    ensures Paired(d, CsrPut(x, w, csr, writes, val, rd, was, insn), CsrPut(y, w, csr, writes, val, rd, was, insn))
  {
    hide Inv, Linked, Serve, AsAddr, Accessible;
    if y.mach.polite {
      ServeTwins(d, x, y, w, CsrWrite(csr, val));
    } else {
      ImpoliteTwins(d, x, y, CsrPut(x, w, csr, writes, val, rd, was, insn).0, CsrPut(y, w, csr, writes, val, rd, was, insn).0);
    }
  }

  lemma LookedTwins(d: D.Decoder, x: Hart, y: Hart)
    requires Twins(d, x, y)
    ensures Twins(d, x.(looks := x.looks + 1), y.(looks := y.looks + 1))
  {
    hide Twin;
  }

  lemma CsrTwins(d: D.Decoder, x: Hart, y: Hart, w: Outside,
                 kind: CsrKind, csr: nat, rd: reg, rs1: reg, immediate: bool, insn: bv64)
    requires Twins(d, x, y) && d == w.decoder
    ensures Paired(d, CsrOp(x, w, kind, csr, rd, rs1, immediate, insn), CsrOp(y, w, kind, csr, rd, rs1, immediate, insn))
  {
    hide Inv, Linked, CsrPut, AsAddr, Csr.Read, NewCsr, Word64;
    LookedTwins(d, x, y);
    if y.mach.polite {
      var was := Csr.Read(CsrOf(y.mach), csr, w.clock(y.looks));
      if was.Value? {
        var val := if immediate then Word64(rs1) else y.regs[rs1];
        PutTwins(d, x.(looks := x.looks + 1), y.(looks := y.looks + 1), w, csr, kind == ReadWrite || rs1 != 0,
                 NewCsr(kind, was.v, val), rd, was.v, insn);
      }
    } else {
      ImpoliteTwins(d, x, y, CsrOp(x, w, kind, csr, rd, rs1, immediate, insn).0,
                    CsrOp(y, w, kind, csr, rd, rs1, immediate, insn).0);
    }
  }

  /** The end of a plain instruction. */
  lemma FinishedTwins(d: D.Decoder, x: Hart, y: Hart, w: Outside, rd: reg, val: bv64, reserved: int, floating: Floating)
    requires Twins(d, x, y) && d == w.decoder
    ensures Twins(d, Finished(x, w, rd, val, reserved, floating), Finished(y, w, rd, val, reserved, floating))
  {
    hide Twin, Serve;
    RegisteredTwins(d, x, y, rd, val, val);
    var x1 := (if rd != 0 then Registered(x, rd, val) else x).(reserved := reserved);
    var y1 := (if rd != 0 then Registered(y, rd, val) else y).(reserved := reserved);
    assert Twins(d, x1, y1);
    if floating.Floating? {
      var write := floating.write;
      var x2 := if write.Some? then x1.(floats := x1.floats[write.value.0 := write.value.1]) else x1;
      var y2 := if write.Some? then y1.(floats := y1.floats[write.value.0 := write.value.1]) else y1;
      assert Twins(d, x2, y2);
      ServeTwins(d, x2, y2, w, FloatDone(floating.flags, write.Some?));
    }
  }

  lemma ReservedTwins(d: D.Decoder, x: Hart, y: Hart, reserved: int)
    requires Twins(d, x, y)
    ensures Twins(d, x.(reserved := reserved), y.(reserved := reserved))
  {
    hide Twin;
  }

  /** A plain instruction, whatever it computes from registers, program counter and what it has read. */
  lemma {:induction false} PlainTwins(d: D.Decoder, x: Hart, y: Hart, w: Outside, arms: Arms, insn: bv64, pc: addr, read: seq<bv64>)
    requires Twins(d, x, y) && d == w.decoder && |read| <= ACCESSES
    ensures Paired(d, PlainOp(x, w, arms, insn, pc, read), PlainOp(y, w, arms, insn, pc, read))
    ensures PlainOp(y, w, arms, insn, pc, read).0.mach.polite ==> !PlainOp(y, w, arms, insn, pc, read).1.Wrecked?
    decreases ACCESSES - |read|
  {
    hide Twin, WithPc, Access, Finished, Went, Onward, AsAddr;
    TwinsAlike(d, x, y);
    if !y.mach.polite {
      ImpolitePair(d, x, y, PlainOp(x, w, arms, insn, pc, read), PlainOp(y, w, arms, insn, pc, read));
    } else {
      match arms.classic(insn, OperandsOf(y, pc, read)) {
        case Finish(rd, val, next, reserved, floating) =>
          FinishedTwins(d, x, y, w, rd, val, reserved, floating);
          WithPcTwins(d, Finished(x, w, rd, val, reserved, floating), Finished(y, w, rd, val, reserved, floating), w, next);
        case Reading(va, size, reserved) =>
          if |read| < ACCESSES {
            ReservedTwins(d, x, y, reserved);
            AccessTwins(d, x.(reserved := reserved), y.(reserved := reserved), w, Load(va, size));
            WentTwins(d, Access(x.(reserved := reserved), w, Load(va, size)), Access(y.(reserved := reserved), w, Load(va, size)),
                      w, arms, insn, pc, read);
          }
        case Writing(va, size, v) =>
          if |read| < ACCESSES {
            AccessTwins(d, x, y, w, Store(va, size, v));
            WentTwins(d, Access(x, w, Store(va, size, v)), Access(y, w, Store(va, size, v)), w, arms, insn, pc, read);
          }
        case _ =>
      }
    }
  }

  lemma {:induction false} WentTwins(d: D.Decoder, x: (Hart, Outcome), y: (Hart, Outcome),
                                     w: Outside, arms: Arms, insn: bv64, pc: addr, read: seq<bv64>)
    requires Paired(d, x, y) && d == w.decoder && |read| < ACCESSES
    requires y.0.mach.polite ==> y.1.Done? || y.1.Trapped?
    ensures Paired(d, Went(x, w, arms, insn, pc, read), Went(y, w, arms, insn, pc, read))
    ensures Went(y, w, arms, insn, pc, read).0.mach.polite ==> !Went(y, w, arms, insn, pc, read).1.Wrecked?
    decreases ACCESSES - |read|, 0
  {
    hide Twin, PlainOp, Onward;
    TwinsAlike(d, x.0, y.0);
    if !y.0.mach.polite {
      ImpolitePair(d, x.0, y.0, Went(x, w, arms, insn, pc, read), Went(y, w, arms, insn, pc, read));
    } else if y.1.Done? {
      PlainTwins(d, x.0, y.0, w, arms, insn, pc, read + [y.1.v]);
    }
  }

  lemma ImpolitePair<T>(d: D.Decoder, x: Hart, y: Hart, r: (Hart, T), r': (Hart, T))
    requires Twins(d, x, y) && Onward(x, r.0) && Onward(y, r'.0) && !y.mach.polite
    ensures Paired(d, r, r') && !r'.0.mach.polite
  {
    hide Twin, Onward;
    ImpoliteTwins(d, x, y, r.0, r'.0);
  }

  lemma MovedTwins(d: D.Decoder, x: Did, y: Did, w: Outside, next: addr)
    requires Paired(d, x, y) && d == w.decoder
    ensures Paired(d, MovedOn(x, w, next), MovedOn(y, w, next))
  {
    hide Inv, Linked, WithPc;
    if y.0.mach.polite {
      WithPcTwins(d, x.0, y.0, w, next);
    } else {
      ImpoliteTwins(d, x.0, y.0, MovedOn(x, w, next).0, MovedOn(y, w, next).0);
    }
  }

  lemma WithPcPolite(y: Hart, w: Outside, a: addr)
    requires Ready(y) && y.mach.Plain?
    ensures WithPc(y, w, a).mach.Plain? && WithPc(y, w, a).mach.polite == y.mach.polite
  {
    hide RegOf, At;
  }

  lemma ClassicTwins(d: D.Decoder, x: Hart, y: Hart, w: Outside, arms: Arms, insn: bv64, pc: addr)
    requires Twins(d, x, y) && d == w.decoder
    ensures Paired(d, ClassicOp(x, w, arms, insn, pc), ClassicOp(y, w, arms, insn, pc))
    ensures ClassicOp(y, w, arms, insn, pc).0.mach.polite ==> !ClassicOp(y, w, arms, insn, pc).1.Wrecked?
  {
    hide Twin, WithPc, FenceOp, LevelOp, CsrOp, PlainOp, MovedOn, D.IsCompressed, Registered, Onward;
    WithPcTwins(d, x, y, w, pc);
    var x0, y0, size := WithPc(x, w, pc), WithPc(y, w, pc), if D.IsCompressed(insn) then 2 else 4;
    TwinsAlike(d, x, y);
    TwinsAlike(d, x0, y0);
    WithPcPolite(y, w, pc);
    if !y.mach.polite {
      ImpolitePair(d, x, y, ClassicOp(x, w, arms, insn, pc), ClassicOp(y, w, arms, insn, pc));
    } else {
      var c := arms.classic(insn, OperandsOf(y0, pc, []));
      if c.CsrInsn? {
        CsrTwins(d, x0, y0, w, c.kind, c.csr, c.rd, c.rs1, c.immediate, insn);
        MovedTwins(d, CsrOp(x0, w, c.kind, c.csr, c.rd, c.rs1, c.immediate, insn),
                   CsrOp(y0, w, c.kind, c.csr, c.rd, c.rs1, c.immediate, insn), w, Wrap(pc + size));
      } else if c.Wfi? || c.FenceVmaAll? || c.FenceVmaAt? || c.FenceInsn? {
        FenceTwins(d, x0, y0, w, c, insn);
        MovedTwins(d, FenceOp(x0, w, c, insn), FenceOp(y0, w, c, insn), w, Wrap(pc + size));
      } else if c.Reading? || c.Writing? || c.Finish? {
        PlainTwins(d, x0, y0, w, arms, insn, pc, []);
      } else {
        LevelTwins(d, x0, y0, w, c, insn);
      }
    }
  }

  // ---------------------------------------------------------------- one instruction

  lemma PerformTwins(d: D.Decoder, x: Hart, y: Hart, w: Outside, arms: Arms, op: D.MicroOp, pc: addr)
    requires Twins(d, x, y) && d == w.decoder
    ensures Perform(y, w, arms, op, pc).0.mach.polite ==> Perform(y, w, arms, op, pc).1 != Broken
    ensures Paired(d, Perform(x, w, arms, op, pc), Perform(y, w, arms, op, pc))
  {
    hide Twins, LoadOp, StoreOp, AluOp, OpCode;
    if IsLoad(OpCode(op)) {
      LoadTwins(d, x, y, w, op, pc);
    } else if IsStore(OpCode(op)) {
      StoreTwins(d, x, y, w, op, pc);
    } else {
      AluTwins(d, x, y, arms, op, pc);
    }
  }

  lemma ClassicallyTwins(d: D.Decoder, x: Hart, y: Hart, w: Outside, arms: Arms, insn: bv64, pc: addr)
    requires Twins(d, x, y) && d == w.decoder
    ensures Classically(y, w, arms, insn, pc).0.mach.polite ==> Classically(y, w, arms, insn, pc).1 != Broken
    ensures Paired(d, Classically(x, w, arms, insn, pc), Classically(y, w, arms, insn, pc))
  {
    hide Twin, ClassicOp, AddrOf;
    ClassicTwins(d, x, y, w, arms, insn, pc);
    TwinsAlike(d, ClassicOp(x, w, arms, insn, pc).0, ClassicOp(y, w, arms, insn, pc).0);
  }

  /** At an even address of an installed page that is not stale, a fetch can only fault at its second half. */
  lemma InstalledFault(d: D.Decoder, s: State, h: History, w: World, pc: addr)
    requires Inv(d, s) && Linked(s, h) && s.code.tag == TagOf(pc) && SeenExecute(h, s.mem, s.csr, pc).1
    ensures var o := U.ExecuteWord(s.mem, ContextOf(s.csr, false), d, pc).1; o.Trapped? ==> o.tval == Wrap(pc + 2)
  {
    hide Coherent, ValidMem, CsrInv, Linked, ContextOf, SeenFetch, CodeFrame, U.FetchWord, PieceAt, Leads, U.Decode, D.Uncommon;
    SeenFetchClean(h, s.mem, s.csr, pc);
    HitClean(s, h, CodeSlot, pc);
    F.CodeLeads(d, s, pc);
    F.FetchThrough(s.mem, FetchCtx(s), s.code, pc);
    EvenPiece(s.mem, s.code.host, s.code.off, pc);
    HalfFaults(s.mem, FetchCtx(s), s.code.host, s.code.off, pc);
  }

  /** Where the page could not be installed, the loop has not counted the instruction. */
  lemma FaultNotCounted(d: D.Decoder, s: State, h: History, w: World, pc: addr)
    requires Inv(d, s) && d == w.decoder && Linked(s, h) && SeenExecute(h, s.mem, s.csr, pc).1
    requires U.ExecuteWord(s.mem, ContextOf(s.csr, false), d, pc).1.Trapped?
    ensures Counted(Cached(s), pc) <==> s.code.tag == TagOf(pc)
  {
    hide Coherent, ValidMem, CsrInv, Linked, ContextOf, SeenFetch, CodeFrame, U.FetchWord, U.Decode, D.Uncommon, FetchAndCache, TagOf;
    SeenFetchClean(h, s.mem, s.csr, pc);
    FetchAndCacheLinked(d, s, h, pc);
    F.FetchAndCacheFollows(d, s, pc);
    NotExposed(FetchAndCache(s, pc).0, SeenFetch(h, s.mem, s.csr, pc).0);
  }

  lemma EvenPiece(m: Mem, host: int, base: nat, pc: addr)
    requires pc % 2 == 0
    ensures !PieceAt(m, host, base, pc).Odd?
  {
    hide Peek;
    assert pc % PAGE % 2 == 0;
  }

  lemma HalfFaults(m: Mem, c: Ctx, host: int, base: nat, pc: addr)
    requires !PieceAt(m, host, base, pc).Odd?
    ensures var o := U.FetchAt(m, c, host, base, pc).1; o.Trapped? ==> o.tval == Wrap(pc + 2)
  {
    hide PieceAt, Xlate, XlateMem, PlaceOf, Peek;
  }

  /** The one way two ends, or two leaves, differ: a second half that faults is charged once more from an installed page. */
  predicate SameEnd(e: End, e': End)
  {
    e == e' || (e'.Faulted? && e' == Faulted(e'.cause, 1, true) && e == Faulted(e'.cause, 2, true))
  }

  /**
   * One instruction on the two machines: the same state and the same end, except that a second half that cannot be fetched is
   * charged once more exactly where the page of the first half was already installed.
   */
  lemma InstructionTwins(d: D.Decoder, x: Hart, y: Hart, w: Outside, arms: Arms, pc: addr)
    requires Twins(d, x, y) && d == w.decoder
    ensures var (x1, e) := Instruction(x, w, arms, pc); var (y1, e') := Instruction(y, w, arms, pc);
      && Twins(d, x1, y1)
      && (y1.mach.polite ==>
            && e != Broken && SameEnd(e, e')
            && (e != e' <==> e'.Faulted? && e'.half && x.mach.s.code.tag == TagOf(pc)))
  {
    hide Inv, Linked, Advance, Perform, Classically, TagOf, U.ExecuteWord, SeenExecute, At;
    var e := Execute(pc);
    TwinsAlike(d, x, y);
    if !y.mach.polite {
      ImpoliteTwins(d, x, y, Instruction(x, w, arms, pc).0, Instruction(y, w, arms, pc).0);
      return;
    }
    var v := At(w, y.looks);
    StepTwin(d, x.mach, y.mach, v, e);
    ServeTwins(d, x, y, w, e);
    var (m, o) := Advance(x.mach, v, e);
    var (m', o') := Advance(y.mach, v, e);
    if Instruction(y, w, arms, pc).0.mach.polite {
      match o' {
        case Dispatched(op) => PerformTwins(d, x.(mach := m), y.(mach := m'), w, arms, op, pc);
        case Done(insn) => ClassicallyTwins(d, x.(mach := m), y.(mach := m'), w, arms, insn, pc);
        case Trapped(_, _) =>
          ExecutePlain(y.mach, v, pc);
          FaultNotCounted(d, x.mach.s, y.mach.h, v, pc);
          if x.mach.s.code.tag == TagOf(pc) {
            InstalledFault(d, x.mach.s, y.mach.h, v, pc);
          }
        case Crash =>
      }
    }
  }

  lemma ExecutePlain(b: Mach, w: World, pc: addr)
    requires b.Plain?
    ensures Advance(b, w, Execute(pc)).1 == U.ExecuteWord(b.p.mem, ContextOf(b.p.csr, false), w.decoder, pc).1
    ensures Advance(b, w, Execute(pc)).0.polite ==> SeenExecute(b.h, b.p.mem, b.p.csr, pc).1
  {
    hide U.ExecuteWord, SeenExecute;
  }

  // ---------------------------------------------------------------- the loop

  /** Twins but for the instruction counter. */
  ghost predicate NearTwins(d: D.Decoder, x: Hart, y: Hart)
  {
    && Ready(x) && Ready(y) && x.mach.Cached? && y.mach.Plain?
    && (y.mach.polite ==>
          && Inv(d, x.mach.s) && Linked(x.mach.s, y.mach.h) && x.mach.s.mem == y.mach.p.mem
          && x.mach.s.csr == y.mach.p.csr.(counter := x.mach.s.csr.counter)
          && x == y.(mach := x.mach))
  }

  /** Writing different counters back. */
  lemma SyncNear(d: D.Decoder, x: Hart, y: Hart, w: Outside, pc: Reg, counter: nat, counter': nat)
    requires Twins(d, x, y) && d == w.decoder
    ensures var x1, y1 := Serve(x, w, Sync(pc, counter)), Serve(y, w, Sync(pc, counter'));
      && NearTwins(d, x1, y1)
      && (y1.mach.polite ==> CsrOf(x1.mach).counter == counter && CsrOf(y1.mach).counter == counter')
  {
    hide Inv, Linked, Observed, Next, At;
    TwinsAlike(d, x, y);
    if y.mach.polite {
      var v := At(w, y.looks);
      StepTwin(d, x.mach, y.mach, v, Sync(pc, counter'));
      R.StepRefines(d, x.mach.s, v, Sync(pc, counter));
      SyncSteps(x.mach.s, y.mach.h, y.mach.p, v, pc, counter);
      SyncSteps(x.mach.s, y.mach.h, y.mach.p, v, pc, counter');
    } else {
      Impolite(d, x, y, Serve(x, w, Sync(pc, counter)), Serve(y, w, Sync(pc, counter')));
    }
  }

  lemma SyncSteps(s: State, h: History, p: U.Plain, w: World, pc: Reg, counter: nat)
    requires Shaped(s)
    ensures Next(s, w, Sync(pc, counter)).0 == s.(csr := s.csr.(pc := pc, counter := counter))
    ensures U.PlainStep(p, w, Sync(pc, counter)).0 == p.(csr := p.csr.(pc := pc, counter := counter))
    ensures Observed(h, p, w, Sync(pc, counter)) == (h, true)
    ensures Linked(s, h) ==> Linked(s.(csr := s.csr.(pc := pc, counter := counter)), h)
  {
    var s' := s.(csr := s.csr.(pc := pc, counter := counter));
    if Linked(s, h) {
      forall k: Slot ensures Covered(s', h, k) {
        assert Covered(s, h, k);
      }
    }
  }

  lemma TrappingNear(d: D.Decoder, x: Hart, y: Hart, w: Outside, pc: addr, cause: bv64, tval: bv64, counter: nat, counter': nat)
    requires Twins(d, x, y) && d == w.decoder
    ensures var x1, y1 := Trapping(x, w, pc, cause, tval, counter), Trapping(y, w, pc, cause, tval, counter');
      && NearTwins(d, x1, y1)
      && (y1.mach.polite ==> CsrOf(x1.mach).counter == counter && CsrOf(y1.mach).counter == counter')
  {
    hide Twin, WithPc, NearTwins;
    WithPcTwins(d, x, y, w, pc);
    ServeTwins(d, WithPc(x, w, pc), WithPc(y, w, pc), w, Raise(cause, tval));
    var x2, y2 := Serve(WithPc(x, w, pc), w, Raise(cause, tval)), Serve(WithPc(y, w, pc), w, Raise(cause, tval));
    TwinsAlike(d, x2, y2);
    SyncNear(d, x2, y2, w, CsrOf(x2.mach).pc, counter, counter');
    if !y2.mach.polite {
      Impolite(d, x2, y2, Serve(x2, w, Sync(CsrOf(x2.mach).pc, counter)), Serve(y2, w, Sync(CsrOf(y2.mach).pc, counter')));
    }
  }

  lemma Impolite(d: D.Decoder, x: Hart, y: Hart, x': Hart, y': Hart)
    requires Twins(d, x, y) && Onward(x, x') && Onward(y, y') && !y.mach.polite
    ensures NearTwins(d, x', y') && !y'.mach.polite
  {
    hide Inv, Linked;
  }

  /** Leaves as ends: they differ only by the extra charge. */
  predicate SameLeave(l: Leave, l': Leave) { l == l' || (l' == Excepted(1, true) && l == Excepted(2, true)) }

  function Extra(l: Leave, l': Leave): nat { if l == l' then 0 else 1 }

  /** What the two loops have in common in the end. */
  ghost predicate LoopsMatch(d: D.Decoder, x: (Hart, Leave), y: (Hart, Leave))
  {
    && NearTwins(d, x.0, y.0)
    && (y.0.mach.polite ==>
          && x.1 != Stuck && SameLeave(x.1, y.1)
          && CsrOf(x.0.mach).counter == CsrOf(y.0.mach).counter + Extra(x.1, y.1))
  }

  /** The way a loop that is left at once ends. */
  lemma LeavesMatch(d: D.Decoder, x: Hart, y: Hart, w: Outside, pc: addr, cause: bv64, tval: bv64, l: Leave, l': Leave, counter: nat)
    requires Twins(d, x, y) && d == w.decoder && l != Stuck && SameLeave(l, l')
    ensures LoopsMatch(d, (Trapping(x, w, pc, cause, tval, counter + Extra(l, l')), l), (Trapping(y, w, pc, cause, tval, counter), l'))
    ensures l == l' ==> LoopsMatch(d, (Synced(x, w, pc, counter), l), (Synced(y, w, pc, counter), l'))
  {
    hide Twins, Trapping, NearTwins, RegOf, Serve;
    TrappingNear(d, x, y, w, pc, cause, tval, counter + Extra(l, l'), counter);
    TwinsReady(d, x, y);
    SyncNear(d, x, y, w, RegOf(pc), counter, counter);
  }

  lemma TwinsReady(d: D.Decoder, x: Hart, y: Hart)
    requires Twins(d, x, y)
    ensures Ready(x) && Ready(y)
  {
    hide Twin;
  }

  lemma ImpoliteMatch(d: D.Decoder, x: Hart, y: Hart, r: (Hart, Leave), r': (Hart, Leave))
    requires Twins(d, x, y) && !y.mach.polite && Onward(x, r.0) && Onward(y, r'.0)
    ensures LoopsMatch(d, r, r')
  {
    hide Twin;
    Impolite(d, x, y, r.0, r'.0);
  }

  lemma {:induction false} LoopTwins(d: D.Decoder, x: Hart, y: Hart, w: Outside, arms: Arms, pc: addr, cycles: nat, target: nat)
    requires Twins(d, x, y) && d == w.decoder && target >= cycles
    ensures LoopsMatch(d, Loop(x, w, arms, pc, cycles, target), Loop(y, w, arms, pc, cycles, target))
    decreases cycles, 1
  {
    hide Twin, Instruction, Trapping, Synced, HasPending, InterruptCause, LoopsMatch, Continued, Onward, SameEnd;
    TwinsAlike(d, x, y);
    if !y.mach.polite {
      ImpoliteMatch(d, x, y, Loop(x, w, arms, pc, cycles, target), Loop(y, w, arms, pc, cycles, target));
    } else if cycles == 0 {
      LeavesMatch(d, x, y, w, pc, 0, 0, Spent, Spent, target);
    } else if HasPending(CsrOf(y.mach)) {
      LeavesMatch(d, x, y, w, pc, InterruptCause(CsrOf(y.mach)), 0, Interrupted, Interrupted, target - (cycles - 1));
    } else {
      InstructionTwins(d, x, y, w, arms, pc);
      var (x1, e) := Instruction(x, w, arms, pc);
      var (y1, e') := Instruction(y, w, arms, pc);
      ContinuedTwins(d, x1, y1, e, e', w, arms, pc, cycles, target);
    }
  }

  lemma {:induction false} ContinuedTwins(d: D.Decoder, x: Hart, y: Hart, e: End, e': End,
                                          w: Outside, arms: Arms, pc: addr, cycles: nat, target: nat)
    requires Twins(d, x, y) && d == w.decoder && target >= cycles > 0
    requires y.mach.polite ==> e != Broken && SameEnd(e, e')
    ensures LoopsMatch(d, Continued(x, e, w, arms, pc, cycles, target), Continued(y, e', w, arms, pc, cycles, target))
    decreases cycles, 0
  {
    hide Twin, Trapping, Synced, LoopsMatch, Loop, Onward, Word64;
    TwinsAlike(d, x, y);
    if !y.mach.polite {
      ImpoliteMatch(d, x, y, Continued(x, e, w, arms, pc, cycles, target), Continued(y, e', w, arms, pc, cycles, target));
    } else {
      match e' {
        case Going(next) =>
          LeavesMatch(d, x, y, w, next, 0, 0, Slept, Slept, target - (cycles - 1));
          LoopTwins(d, x, y, w, arms, next, cycles - 1, target);
        case Faulted(cause, cost, half) =>
          LeavesMatch(d, x, y, w, pc, Word64(cause), Word64(y.tval), Excepted(e.cost, half), Excepted(cost, half), target - cycles + cost);
        case Broken =>
      }
    }
  }

  // ---------------------------------------------------------------- execute, and whole sessions

  /**
   * The predecoded loop over TLBs, code page and decoded pages against the classic loop without them: as long as the guest is
   * polite, both leave the same memory, control registers, integer registers, trap value and sleep flag, for the same reason,
   * and the same cycle count but for one cycle when the second half of an instruction could not be fetched.
   */
  lemma ExecuteRefines(d: D.Decoder, x: Hart, y: Hart, w: Outside, arms: Arms, maxCycles: int)
    requires Twins(d, x, y) && d == w.decoder
    ensures LoopsMatch(d, Executed(x, w, arms, maxCycles), Executed(y, w, arms, maxCycles))
  {
    hide Loop, AddrOf, Twin, NearTwins, Onward;
    TwinsAlike(d, x, y);
    if maxCycles <= 0 {
      TwinsNear(d, x, y);
    } else if y.mach.polite {
      LoopTwins(d, x, y, w, arms, AddrOf(CsrOf(x.mach).pc), maxCycles, CsrOf(x.mach).counter + maxCycles);
    } else {
      ImpoliteMatch(d, x, y, Executed(x, w, arms, maxCycles), Executed(y, w, arms, maxCycles));
    }
  }

  lemma TwinsNear(d: D.Decoder, x: Hart, y: Hart)
    requires Twins(d, x, y)
    ensures NearTwins(d, x, y) && (y.mach.polite ==> CsrOf(x.mach).counter == CsrOf(y.mach).counter)
  {
    hide Inv, Linked;
  }

  /** One cycle more on the clock of a machine that came back because the second half of an instruction could not be fetched. */
  ghost function Charged(r: (Hart, Leave), w: Outside, more: bool): (r': (Hart, Leave))
    requires Ready(r.0)
    ensures Onward(r.0, r'.0)
  {
    if more && r.1 == Excepted(1, true) then (CounterSynced(r.0, w, CsrOf(r.0.mach).counter + 1), Excepted(2, true)) else r
  }

  lemma {:induction false} ChargeTwins(d: D.Decoder, x: (Hart, Leave), y: (Hart, Leave), w: Outside)
    requires LoopsMatch(d, x, y) && d == w.decoder
    ensures Paired(d, x, Charged(y, w, x.1 == Excepted(2, true)))
  {
    hide Inv, Linked, At, Observed;
    var c := CsrOf(y.0.mach);
    if y.0.mach.polite && x.1 != y.1 {
      SyncSteps(x.0.mach.s, y.0.mach.h, y.0.mach.p, At(w, y.0.looks), c.pc, c.counter + 1);
    }
  }

  lemma SteppedTwins(d: D.Decoder, x: Hart, y: Hart, w: Outside, arms: Arms, n: int)
    requires Twins(d, x, y) && d == w.decoder
    ensures var r, r' := Stepped(x, w, arms, n), Stepped(y, w, arms, n);
      Paired(d, r, Charged(r', w, r.1 == Excepted(2, true)))
  {
    hide Executed, Twin, NearTwins, Pending, LoopsMatch, Charged, Fit;
    TwinsAlike(d, x, y);
    AwakeTwins(d, x, y);
    var r, r' := Stepped(x, w, arms, n), Stepped(y, w, arms, n);
    if !y.mach.polite {
      ImpolitePair(d, x, y, r, Charged(r', w, r.1 == Excepted(2, true)));
    } else if y.down && Pending(CsrOf(y.mach)) == 0 {
      Uncharged(r', w, r.1 == Excepted(2, true));
    } else {
      ExecuteRefines(d, x.(down := false), y.(down := false), w, arms, n);
      ChargeTwins(d, r, r', w);
    }
  }

  lemma Uncharged(r: (Hart, Leave), w: Outside, more: bool)
    requires Ready(r.0) && (r.1 != Excepted(1, true) || !more)
    ensures Charged(r, w, more) == r
  {
  }

  ghost function ChargedCall(h: Hart, w: Outside, arms: Arms, c: Call, more: bool): (r: (Hart, Leave))
    requires Ready(h)
    ensures Onward(h, r.0)
  {
    Charged(Called(h, w, arms, c), w, more)
  }

  lemma CallTwins(d: D.Decoder, x: Hart, y: Hart, w: Outside, arms: Arms, c: Call)
    requires Twins(d, x, y) && d == w.decoder
    ensures var r := Called(x, w, arms, c); Paired(d, r, ChargedCall(y, w, arms, c, r.1 == Excepted(2, true)))
  {
    hide Stepped, Twin, Serve, Onward, Charged;
    match c {
      case Cycles(n) => SteppedTwins(d, x, y, w, arms, n);
      case Dma(pa, bytes) =>
        ServeTwins(d, x, y, w, DeviceWrite(pa, bytes));
        Uncharged(Called(y, w, arms, c), w, false);
      case Lines(mip) =>
        ServeTwins(d, x, y, w, SetMip(mip));
        Uncharged(Called(y, w, arms, c), w, false);
    }
  }

  lemma AwakeTwins(d: D.Decoder, x: Hart, y: Hart)
    requires Twins(d, x, y)
    ensures Twins(d, x.(down := false), y.(down := false))
  {
    hide Twin;
  }

  /** A session in which some of the calls that met such a second half are charged one cycle more. */
  ghost function ChargedSession(h: Hart, w: Outside, arms: Arms, calls: seq<Call>, more: seq<bool>): (r: (Hart, seq<Leave>))
    requires Ready(h) && |more| == |calls|
    ensures Onward(h, r.0) && |r.1| == |calls|
    decreases |calls|
  {
    if calls == [] then (h, [])
    else
      var (h1, l) := ChargedCall(h, w, arms, calls[0], more[0]);
      var (h2, ls) := ChargedSession(h1, w, arms, calls[1..], more[1..]);
      (h2, [l] + ls)
  }

  /** The calls of the predecoded loop that were charged the extra cycle. */
  function Extras(ls: seq<Leave>): (more: seq<bool>)
    ensures |more| == |ls| && forall i :: 0 <= i < |ls| ==> more[i] == (ls[i] == Excepted(2, true))
  {
    seq(|ls|, i requires 0 <= i < |ls| => ls[i] == Excepted(2, true))
  }

  lemma ExtrasUnfold(l: Leave, ls: seq<Leave>)
    ensures Extras([l] + ls) == [l == Excepted(2, true)] + Extras(ls)
    ensures Extras([l] + ls)[0] == (l == Excepted(2, true)) && Extras([l] + ls)[1..] == Extras(ls)
  {
    assert Extras([l] + ls) == [l == Excepted(2, true)] + Extras(ls);
  }

  lemma SessionUnfold(h: Hart, w: Outside, arms: Arms, calls: seq<Call>)
    requires Ready(h)
    ensures calls == [] ==> Session(h, w, arms, calls) == (h, [])
    ensures calls != [] ==>
      var (h1, l) := Called(h, w, arms, calls[0]);
      Session(h, w, arms, calls) == (Session(h1, w, arms, calls[1..]).0, [l] + Session(h1, w, arms, calls[1..]).1)
  {
    hide Called;
  }

  lemma ChargedUnfold(h: Hart, w: Outside, arms: Arms, calls: seq<Call>, more: seq<bool>)
    requires Ready(h) && |more| == |calls|
    ensures calls == [] ==> ChargedSession(h, w, arms, calls, more) == (h, [])
    ensures calls != [] ==>
      var (h1, l) := ChargedCall(h, w, arms, calls[0], more[0]);
      var r := ChargedSession(h1, w, arms, calls[1..], more[1..]);
      ChargedSession(h, w, arms, calls, more) == (r.0, [l] + r.1)
  {
    hide ChargedCall;
  }

  /**
   * A whole session of `step` calls with device writes and interrupt lines between them: a polite guest, and its host, cannot tell
   * the machine with caches from the one without, once the latter counts the cycles the former counted on top for second halves.
   */
  lemma {:induction false} SessionRefines(d: D.Decoder, x: Hart, y: Hart, w: Outside, arms: Arms, calls: seq<Call>)
    requires Twins(d, x, y) && d == w.decoder
    requires ChargedSession(y, w, arms, calls, Extras(Session(x, w, arms, calls).1)).0.mach.polite
    ensures var (x1, ls) := Session(x, w, arms, calls); var (y1, ls') := ChargedSession(y, w, arms, calls, Extras(ls));
      Twins(d, x1, y1) && ls == ls'
    decreases |calls|
  {
    hide Called, ChargedCall, Twin, Session, ChargedSession, Extras, Fit;
    TwinsReady(d, x, y);
    TwinsAlike(d, x, y);
    SessionUnfold(x, w, arms, calls);
    var more := Extras(Session(x, w, arms, calls).1);
    ChargedUnfold(y, w, arms, calls, more);
    if calls != [] {
      var (x1, l) := Called(x, w, arms, calls[0]);
      CallTwins(d, x, y, w, arms, calls[0]);
      ExtrasUnfold(l, Session(x1, w, arms, calls[1..]).1);
      var y1 := ChargedCall(y, w, arms, calls[0], more[0]).0;
      PoliteOnward(y1, ChargedSession(y1, w, arms, calls[1..], more[1..]).0);
      SessionRefines(d, x1, y1, w, arms, calls[1..]);
    }
  }

  lemma PoliteOnward(h: Hart, h': Hart)
    requires Onward(h, h') && h.mach.Plain? && h'.mach.polite
    ensures h.mach.polite
  {
  }

  /** No call came back because the second half of an instruction could not be fetched. */
  predicate NoHalf(ls: seq<Leave>) { forall i :: 0 <= i < |ls| ==> ls[i] != Excepted(1, true) }

  lemma HalfSplit(l: Leave, ls: seq<Leave>)
    requires NoHalf([l] + ls)
    ensures l != Excepted(1, true) && NoHalf(ls)
  {
    assert ([l] + ls)[0] == l;
    forall i | 0 <= i < |ls| ensures ls[i] != Excepted(1, true) {
      assert ([l] + ls)[i + 1] == ls[i];
    }
  }

  /** Where that never happens nothing is charged. */
  lemma {:induction false} NothingCharged(h: Hart, w: Outside, arms: Arms, calls: seq<Call>, more: seq<bool>)
    requires Ready(h) && |more| == |calls| && NoHalf(Session(h, w, arms, calls).1)
    ensures ChargedSession(h, w, arms, calls, more) == Session(h, w, arms, calls)
    decreases |calls|
  {
    hide Called, Charged, Session, ChargedSession, NoHalf, Fit;
    SessionUnfold(h, w, arms, calls);
    ChargedUnfold(h, w, arms, calls, more);
    if calls != [] {
      var (h1, l) := Called(h, w, arms, calls[0]);
      HalfSplit(l, Session(h1, w, arms, calls[1..]).1);
      Uncharged((h1, l), w, more[0]);
      NothingCharged(h1, w, arms, calls[1..], more[1..]);
    }
  }

  /** Both machines after reset. */
  ghost function ResetHart(m: Mem, csr: Csrs, cached: bool): (h: Hart)
    ensures Ready(h)
  {
    var mach := if cached then Cached(R.Reset(m, csr)) else Mach.Plain(U.Plain(m, csr), Nothing(), true);
    Hart(mach, seq(32, i => 0), seq(32, i => 0), 0, false, NO_RESERVATION, 0)
  }

  lemma ResetTwins(d: D.Decoder, m: Mem, csr: Csrs)
    requires ValidMem(m) && CsrInv(csr)
    ensures Twins(d, ResetHart(m, csr, true), ResetHart(m, csr, false))
  {
    hide ValidMem, CsrInv, Linked, Inv;
    R.ResetInv(d, m, csr);
    ResetLinked(m, csr);
  }

  /** From reset on; the counter agrees as it stands when no second half has failed. */
  lemma SessionFromReset(w: Outside, m: Mem, csr: Csrs, arms: Arms, calls: seq<Call>)
    requires ValidMem(m) && CsrInv(csr)
    requires var ls := Session(ResetHart(m, csr, true), w, arms, calls).1;
      ChargedSession(ResetHart(m, csr, false), w, arms, calls, Extras(ls)).0.mach.polite
    ensures var (x, ls) := Session(ResetHart(m, csr, true), w, arms, calls);
      var (y, ls') := ChargedSession(ResetHart(m, csr, false), w, arms, calls, Extras(ls));
      && ls == ls' && x == y.(mach := x.mach) && x.mach.s.csr == y.mach.p.csr && x.mach.s.mem == y.mach.p.mem
      && (NoHalf(Session(ResetHart(m, csr, false), w, arms, calls).1) ==>
            (y, ls') == Session(ResetHart(m, csr, false), w, arms, calls))
  {
    hide ValidMem, CsrInv, Session, ChargedSession, NoHalf, Linked, Inv, ResetHart, Extras;
    ResetTwins(w.decoder, m, csr);
    var ls := Session(ResetHart(m, csr, true), w, arms, calls).1;
    SessionRefines(w.decoder, ResetHart(m, csr, true), ResetHart(m, csr, false), w, arms, calls);
    if NoHalf(Session(ResetHart(m, csr, false), w, arms, calls).1) {
      NothingCharged(ResetHart(m, csr, false), w, arms, calls, Extras(ls));
    }
  }
}
