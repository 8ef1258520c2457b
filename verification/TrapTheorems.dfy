/** What the loop saves when it traps, what it leaves alone, and how it counts; and the one cycle the two loops disagree about. */
module TrapTheorems {
  import opened Words
  import opened PhysMemory
  import opened Translate
  import opened Csr
  import opened CsrTheorems
  import opened Tlb
  import opened Cpu
  import opened CpuInvariant
  import opened Fences
  import opened FencedRuns
  import opened Interpreter
  import opened LoopTheorems
  import R = CpuRuns
  import U = Uncached
  import D = Predecode

  /** On either machine the registers after an event that is no access are those of the event. */
  lemma ServedCsr(h: Hart, w: Outside, e: Event)
    requires Ready(h) && (e.Raise? || e.Sync? || e.CsrWrite? || e.DoMret? || e.DoSret? || e.FloatDone?)
    ensures CsrOf(Serve(h, w, e).mach) == CsrAfter(CsrOf(h.mach), e)
    ensures Serve(h, w, e) == h.(mach := Serve(h, w, e).mach)
  {
    hide Flushes, CsrAfter;
  }

  /**
   * The side a cause is delegated to has the address, the cause and the trap value and goes on at its vector; the other side is
   * left alone.
   */
  predicate Saves(c: Csrs, c': Csrs, pc: addr, cause: bv64, tval: bv64)
  {
    if Delegated(c, cause) then
      && c'.priv == Supervisor && c'.pc == c.stvec && c'.sepc == RegOf(pc) && c'.scause == Reg(cause) && c'.stval == Reg(tval)
      && c'.mepc == c.mepc && c'.mcause == c.mcause && c'.mtval == c.mtval
    else
      && c'.priv == Machine && c'.pc == c.mtvec && c'.mepc == RegOf(pc) && c'.mcause == Reg(cause) && c'.mtval == Reg(tval)
      && c'.sepc == c.sepc && c'.scause == c.scause && c'.stval == c.stval
  }

  /** A trap changes nothing but the machine: no register, no reservation. */
  lemma TrapSaves(h: Hart, w: Outside, pc: addr, cause: bv64, tval: bv64, counter: nat)
    requires Ready(h)
    ensures var h' := Trapping(h, w, pc, cause, tval, counter);
      h' == h.(mach := h'.mach) && CsrOf(h'.mach).counter == counter && Saves(CsrOf(h.mach), CsrOf(h'.mach), pc, cause, tval)
  {
    hide Serve, RegOf, BitSet, IsInterrupt, ExceptionCode, MstatusTrapM, MstatusTrapS;
    var e := Sync(RegOf(pc), CsrOf(h.mach).counter);
    ServedCsr(h, w, e);
    var h1 := WithPc(h, w, pc);
    ServedCsr(h1, w, Raise(cause, tval));
    var h2 := Serve(h1, w, Raise(cause, tval));
    ServedCsr(h2, w, Sync(CsrOf(h2.mach).pc, counter));
  }

  lemma WithPcKeeps(h: Hart, w: Outside, a: addr)
    requires Ready(h)
    ensures WithPc(h, w, a).regs == h.regs && WithPc(h, w, a).floats == h.floats
  {
    hide Advance;
  }

  /** An instruction that faults, in its fetch, its access or its decoding, has written no register. */
  lemma FaultKeepsRegisters(h: Hart, w: Outside, arms: Arms, pc: addr)
    requires Ready(h) && Instruction(h, w, arms, pc).1.Faulted?
    ensures Instruction(h, w, arms, pc).0.regs == h.regs && Instruction(h, w, arms, pc).0.floats == h.floats
  {
    hide Advance, Access, At, OpCode, Rd, Rs1, Rs2, Size, Extend, Offset, ClassicOp;
    var (m, o) := Advance(h.mach, At(w, h.looks), Execute(pc));
    if o.Dispatched? {
      var op := o.op;
      if IsLoad(OpCode(op)) {
        AccessKeeps(h.(mach := m), w, Load(Offset(h.regs[Rs1(op)], op.imm), LoadSize(OpCode(op))));
      } else if IsStore(OpCode(op)) {
        AccessKeeps(h.(mach := m), w, Store(Offset(h.regs[Rs1(op)], op.imm), StoreSize(OpCode(op)), h.regs[Rs2(op)]));
      }
    }
    if o.Done? {
      ClassicKeeps(h.(mach := m), w, arms, o.v, pc);
    }
  }

  /** An access changes no register of the hart. */
  lemma AccessKeeps(h: Hart, w: Outside, e: Event)
    requires Ready(h) && (e.Load? || e.Store?) && Sensible(e)
    ensures Access(h, w, e).0.regs == h.regs && Access(h, w, e).0.floats == h.floats
  {
    hide Advance;
  }

  lemma ClassicKeeps(h: Hart, w: Outside, arms: Arms, insn: bv64, pc: addr)
    requires Ready(h) && ClassicOp(h, w, arms, insn, pc).1.Pended?
    ensures ClassicOp(h, w, arms, insn, pc).0.regs == h.regs && ClassicOp(h, w, arms, insn, pc).0.floats == h.floats
  {
    hide Advance, WithPc, PlainOp, Csr.Read, NewCsr, Accessible, D.IsCompressed, Word64, AsAddr, Pending;
    WithPcKeeps(h, w, pc);
    var h0 := WithPc(h, w, pc);
    var c := arms.classic(insn, OperandsOf(h0, pc, []));
    if c.Reading? || c.Writing? || c.Finish? {
      PlainKeeps(h0, w, arms, insn, pc, []);
    }
  }

  /** A plain instruction that faults at one of its accesses has written nothing. */
  lemma {:induction false} PlainKeeps(h: Hart, w: Outside, arms: Arms, insn: bv64, pc: addr, read: seq<bv64>)
    requires Ready(h) && |read| <= ACCESSES && PlainOp(h, w, arms, insn, pc, read).1.Pended?
    ensures PlainOp(h, w, arms, insn, pc, read).0.regs == h.regs && PlainOp(h, w, arms, insn, pc, read).0.floats == h.floats
    decreases ACCESSES - |read|
  {
    hide Access, WithPc, Finished, AsAddr;
    match arms.classic(insn, OperandsOf(h, pc, read)) {
      case Reading(va, size, reserved) =>
        if |read| < ACCESSES {
          AccessKeeps(h.(reserved := reserved), w, Load(va, size));
          WentKeeps(Access(h.(reserved := reserved), w, Load(va, size)), w, arms, insn, pc, read);
        }
      case Writing(va, size, v) =>
        if |read| < ACCESSES {
          AccessKeeps(h, w, Store(va, size, v));
          WentKeeps(Access(h, w, Store(va, size, v)), w, arms, insn, pc, read);
        }
      case _ =>
    }
  }

  lemma {:induction false} WentKeeps(r: (Hart, Outcome), w: Outside, arms: Arms, insn: bv64, pc: addr, read: seq<bv64>)
    requires Ready(r.0) && |read| < ACCESSES && Went(r, w, arms, insn, pc, read).1.Pended?
    ensures Went(r, w, arms, insn, pc, read).0.regs == r.0.regs && Went(r, w, arms, insn, pc, read).0.floats == r.0.floats
    decreases ACCESSES - |read|, 0
  {
    hide PlainOp;
    if r.1.Done? {
      PlainKeeps(r.0, w, arms, insn, pc, read + [r.1.v]);
    }
  }

  /** The loop always comes back with the counter between one past where it was and one past the cycles it was given. */
  lemma {:induction false} CounterBounds(h: Hart, w: Outside, arms: Arms, pc: addr, cycles: nat, target: nat)
    requires Ready(h) && target >= cycles
    ensures var (h', l) := Loop(h, w, arms, pc, cycles, target);
      l != Stuck ==>
        && (cycles > 0 ==> target - cycles + 1 <= CsrOf(h'.mach).counter) && target - cycles <= CsrOf(h'.mach).counter <= target + 1
    decreases cycles
  {
    hide Instruction, HasPending, InterruptCause, Word64, RegOf, Serve, Trapping, Saves, Trap, Mret, Sret, Written, WithFlags, Accessible;
    ServedCsr(h, w, Sync(RegOf(pc), target));
    if cycles > 0 && HasPending(CsrOf(h.mach)) {
      TrapSaves(h, w, pc, InterruptCause(CsrOf(h.mach)), 0, target - (cycles - 1));
    } else if cycles > 0 {
      var (h1, e) := Instruction(h, w, arms, pc);
      match e {
        case Going(next) =>
          ServedCsr(h1, w, Sync(RegOf(next), target - (cycles - 1)));
          CounterBounds(h1, w, arms, next, cycles - 1, target);
        case Faulted(cause, cost, _) =>
          CostBounds(h, w, arms, pc);
          TrapSaves(h1, w, pc, Word64(cause), Word64(h1.tval), target - cycles + cost);
        case Broken =>
      }
    }
  }

  lemma CostBounds(h: Hart, w: Outside, arms: Arms, pc: addr)
    requires Ready(h) && Instruction(h, w, arms, pc).1.Faulted?
    ensures 1 <= Instruction(h, w, arms, pc).1.cost <= 2
  {
    hide Advance, Perform, Classically, TagOf;
  }

  lemma LoopFaults(h: Hart, w: Outside, arms: Arms, pc: addr, cycles: nat, target: nat)
    requires Ready(h) && target >= cycles > 0 && !HasPending(CsrOf(h.mach)) && Instruction(h, w, arms, pc).1.Faulted?
    ensures var (h1, e) := Instruction(h, w, arms, pc);
      Loop(h, w, arms, pc, cycles, target) ==
        (Trapping(h1, w, pc, Word64(e.cause), Word64(h1.tval), target - cycles + e.cost), Excepted(e.cost, e.half))
  {
    hide Instruction, Trapping, HasPending, Word64;
  }

  /**
   * Precise exceptions: the loop that meets a faulting instruction leaves with the registers as they were before it,
   * its address, cause and value saved where the cause is delegated, and the counter moved by the charge.
   */
  lemma FaultPrecise(h: Hart, w: Outside, arms: Arms, pc: addr, cycles: nat, target: nat)
    requires Ready(h) && target >= cycles > 0 && !HasPending(CsrOf(h.mach)) && Instruction(h, w, arms, pc).1.Faulted?
    ensures var (h1, e) := Instruction(h, w, arms, pc); var (h', l) := Loop(h, w, arms, pc, cycles, target);
      && h'.regs == h.regs && h'.floats == h.floats && l == Excepted(e.cost, e.half) && CsrOf(h'.mach).counter == target - cycles + e.cost
      && Saves(CsrOf(h1.mach), CsrOf(h'.mach), pc, Word64(e.cause), Word64(h1.tval))
  {
    hide Instruction, Trapping, HasPending, RegOf, Word64, Loop, Saves;
    FaultKeepsRegisters(h, w, arms, pc);
    LoopFaults(h, w, arms, pc, cycles, target);
    var (h1, e) := Instruction(h, w, arms, pc);
    TrapSaves(h1, w, pc, Word64(e.cause), Word64(h1.tval), target - cycles + e.cost);
  }
}
