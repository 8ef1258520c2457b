/** The predecoded dispatch loop of `_CpuExecutor64.execute` on the executor object, and the traps it takes. */
module DispatchLoop {
  import opened Words
  import opened PhysMemory
  import opened Translate
  import opened Csr
  import opened CsrTheorems
  import opened Tlb
  import opened Cpu
  import opened CpuInvariant
  import opened CpuExecutor
  import opened CpuState
  import I = Interpreter
  import F = FetchTheorems
  import T = TrapTheorems
  import D = Predecode

  class Rv64 {
    const cpu: Executor
    const arms: I.Arms
    const device: (nat, nat, nat) -> bv64
    const clock: nat -> bv64

    constructor (cpu: Executor, arms: I.Arms, device: (nat, nat, nat) -> bv64, clock: nat -> bv64)
      ensures this.cpu == cpu && this.arms == arms && this.device == device && this.clock == clock
    {
      this.cpu, this.arms, this.device, this.clock := cpu, arms, device, clock;
    }

    /** What the hart is told from outside. */
    function Out(): (w: I.Outside)
      ensures w.decoder == cpu.world.decoder
    {
      I.Outside(device, clock, cpu.world.decoder)
    }

    /** The hart with the memory side `s`. */
    ghost function Before(s: State): I.Hart
      reads cpu`floats, cpu`pendingTval, cpu`powerDown, cpu`loadReservation, cpu`looks, cpu.regs
    {
      I.Hart(I.Cached(s), cpu.regs[..], cpu.floats, cpu.pendingTval, cpu.powerDown, cpu.loadReservation, cpu.looks)
    }

    /** The hart the object stands for. */
    ghost function Self(): I.Hart
      reads cpu`floats, cpu`pendingTval, cpu`powerDown, cpu`loadReservation, cpu`looks, cpu.regs
      reads cpu`stale, cpu`exposed, cpu`tainted
      reads cpu.state, cpu.state.pmpCfg, cpu.state.pmpAddr, cpu.state.tlbRead, cpu.state.tlbWrite, cpu.state.tlbCode
      reads cpu.memory.memMap, cpu.memory.buffers, cpu.cache.pages
    {
      Before(cpu.View())
    }

    lemma SelfReady()
      requires cpu.Valid()
      ensures I.Ready(Self()) && Shaped(cpu.View()) && cpu.Wired()
    {
      InvParts(cpu.world.decoder, cpu.View());
    }

    /** An instruction that has got past its fetch ended here. */
    function Ending(next: addr): I.End
      reads cpu`pendingException
    {
      if cpu.pendingException == NONE then I.Going(next)
      else if cpu.pendingException >= 0 then I.Faulted(cpu.pendingException, 2, false)
      else I.Broken
    }

    static lemma ServeUnfold(h: I.Hart, w: I.Outside, v: World, e: Event)
      requires I.Ready(h) && h.mach.Cached? && Sensible(e) && !e.Load? && w.decoder == v.decoder
      ensures I.Serve(h, w, e) == h.(mach := I.Cached(Next(h.mach.s, v, e).0))
    {
      hide Next, I.At;
      F.AnyWorld(h.mach.s, I.At(w, h.looks), v, e);
    }

    // -------------------------------------------------------------- program counter, traps and interrupts

    /** `state.pc = pc`, and the instruction counter. */
    method Sync(pc: Reg, counter: nat)
      requires cpu.Valid()
      modifies cpu.state`pc, cpu.state`instructionCounter
      ensures cpu.Valid() && I.Ready(old(Self())) && Self() == I.Serve(old(Self()), Out(), Event.Sync(pc, counter))
      ensures cpu.state.pc == pc && cpu.state.instructionCounter == counter
    {
      hide Executor.View, Executor.Wired, Inv, Next;
      SelfReady();
      ServeUnfold(Self(), Out(), cpu.world, Event.Sync(pc, counter));
      cpu.SyncBack(pc, counter);
    }

    method SetPc(a: addr)
      requires cpu.Valid()
      modifies cpu.state`pc, cpu.state`instructionCounter
      ensures cpu.Valid() && I.Ready(old(Self())) && Self() == I.WithPc(old(Self()), Out(), a)
    {
      hide Executor.View, Executor.Wired, Inv, Next, I.RegOf, I.Serve;
      SelfReady();
      cpu.RegistersInView();
      Sync(I.RegOf(a), cpu.state.instructionCounter);
    }

    /** `raiseException` */
    method RaiseException(cause: bv64, tval: bv64)
      requires cpu.Valid()
      modifies cpu`stale, cpu.state, cpu.state.tlbRead, cpu.state.tlbWrite, cpu.state.tlbCode
      ensures cpu.Valid() && I.Ready(old(Self())) && Self() == I.Serve(old(Self()), Out(), Raise(cause, tval))
    {
      hide Executor.View, Executor.Wired, Inv, Next;
      SelfReady();
      cpu.RegsApart();
      ServeUnfold(Self(), Out(), cpu.world, Raise(cause, tval));
      cpu.RaiseException(cause, tval);
    }

    /** `_handleInterrupt`, when there is one. */
    method Interrupt() returns (ghost cause: bv64)
      requires cpu.Valid() && HasPending(cpu.View().csr)
      modifies cpu`stale, cpu.state, cpu.state.tlbRead, cpu.state.tlbWrite, cpu.state.tlbCode
      ensures cpu.Valid() && I.Ready(old(Self())) && Self() == I.Serve(old(Self()), Out(), Raise(cause, 0))
      ensures cause == InterruptCause(old(cpu.View()).csr)
    {
      hide Executor.View, Executor.Wired, Inv, Next, HasPending, InterruptCause;
      SelfReady();
      cpu.RegsApart();
      ghost var h := Self();
      cause := cpu.HandleInterrupt();
      ServeUnfold(h, Out(), cpu.world, Raise(cause, 0));
    }

    /** The instruction counter, from the cycles left. */
    method SyncCounter(counterTarget: nat, cycles: int)
      requires cpu.Valid() && counterTarget >= cycles
      modifies cpu`nCycles, cpu.state`pc, cpu.state`instructionCounter
      ensures cpu.Valid() && I.Ready(old(Self()))
      ensures Self() == I.CounterSynced(old(Self()), Out(), counterTarget - cycles)
    {
      hide Executor.View, Executor.Wired, Inv, I.Serve;
      SelfReady();
      cpu.RegistersInView();
      cpu.nCycles := cycles;
      Sync(cpu.state.pc, counterTarget - cpu.nCycles);
    }

    /** `_handlePendingException` after `state.pc = pc`, for an exception that is pending. */
    method Fault(pc: addr, counterTarget: nat, cycles: int)
      requires cpu.Valid() && counterTarget >= cycles && cpu.pendingException >= 0
      modifies cpu`nCycles, cpu`stale, cpu.state, cpu.state.tlbRead, cpu.state.tlbWrite, cpu.state.tlbCode
      ensures cpu.Valid() && I.Ready(old(Self()))
      ensures Self() == I.Trapping(old(Self()), Out(), pc, I.Word64(cpu.pendingException), I.Word64(cpu.pendingTval),
                                   counterTarget - (cycles - 1))
    {
      hide Executor.Valid, Self, I.Serve, I.WithPc, I.Word64, I.CounterSynced;
      SetPc(pc);
      RaiseException(I.Word64(cpu.pendingException), I.Word64(cpu.pendingTval));
      SyncCounter(counterTarget, cycles - 1);
    }

    /** The interrupt branch of the loop. */
    method LeaveForInterrupt(pc: addr, counterTarget: nat, cycles: int)
      requires cpu.Valid() && counterTarget >= cycles && HasPending(cpu.View().csr)
      modifies cpu`nCycles, cpu`stale, cpu.state, cpu.state.tlbRead, cpu.state.tlbWrite, cpu.state.tlbCode
      ensures cpu.Valid() && I.Ready(old(Self()))
      ensures Self() == I.Trapping(old(Self()), Out(), pc, InterruptCause(old(cpu.View()).csr), 0, counterTarget - (cycles - 1))
    {
      hide Executor.Valid, Executor.View, I.Serve, I.WithPc, I.CounterSynced, HasPending, InterruptCause;
      SelfReady();
      PendingStays(Self(), Out(), pc);
      SetPc(pc);
      ghost var cause := Interrupt();
      SyncCounter(counterTarget, cycles - 1);
    }

    static lemma PendingStays(h: I.Hart, w: I.Outside, pc: addr)
      requires I.Ready(h)
      ensures var c, c' := I.CsrOf(h.mach), I.CsrOf(I.WithPc(h, w, pc).mach);
        HasPending(c') == HasPending(c) && InterruptCause(c') == InterruptCause(c)
    {
      hide I.Serve, I.RegOf, Taken, Mie, Sie, Both, Ctz32, InterruptWord;
      T.ServedCsr(h, w, Event.Sync(I.RegOf(pc), I.CsrOf(h.mach).counter));
    }

    // -------------------------------------------------------------- the arms

    static lemma AccessUnfold(h: I.Hart, w: I.Outside, e: Event)
      requires I.Ready(h) && h.mach.Cached? && (e.Load? || e.Store?) && Sensible(e)
      ensures var (s, o) := Next(h.mach.s, I.At(w, h.looks), e);
        I.Access(h, w, e) == (h.(mach := I.Cached(s), looks := if e.Load? then h.looks + 1 else h.looks), o)
    {
      hide Next, I.At;
    }

    /** The object stands for the hart after an access, or for that hart with the fault of the access pending. */
    ghost predicate Met(r: (I.Hart, Outcome), v: bv64)
      reads cpu`floats, cpu`pendingTval, cpu`powerDown, cpu`loadReservation, cpu`looks, cpu`pendingException, cpu.regs
      reads cpu`stale, cpu`exposed, cpu`tainted
      reads cpu.state, cpu.state.pmpCfg, cpu.state.pmpAddr, cpu.state.tlbRead, cpu.state.tlbWrite, cpu.state.tlbCode
      reads cpu.memory.memMap, cpu.memory.buffers, cpu.cache.pages
    {
      match r.1
      case Done(x) => cpu.pendingException == NONE && v == x && Self() == r.0
      case Trapped(cause, tval) => cpu.pendingException == cause && Self() == r.0.(tval := tval)
      case _ => false
    }

    /** A load, with what the device registers answer this time. */
    method Read(va: addr, n: nat) returns (v: bv64)
      requires cpu.Valid() && cpu.pendingException == NONE && IsSize(n)
      modifies cpu`pendingException, cpu`pendingTval, cpu`tainted, cpu`exposed, cpu`stale, cpu`looks, cpu.memory.buffers
      modifies cpu.state.tlbRead
      ensures cpu.Valid() && I.Ready(old(Self())) && Met(I.Access(old(Self()), Out(), Load(va, n)), v)
    {
      hide Executor.View, Executor.Wired, Inv, MemRead, I.At;
      SelfReady();
      cpu.RegsApart();
      AccessUnfold(Self(), Out(), Load(va, n));
      v := cpu.MemRead(I.At(Out(), cpu.looks), va, n);
      cpu.looks := cpu.looks + 1;
    }

    method Write(va: addr, n: nat, v: bv64) returns (ok: bool)
      requires cpu.Valid() && cpu.pendingException == NONE && IsSize(n)
      modifies cpu`pendingException, cpu`pendingTval, cpu`tainted, cpu`exposed, cpu`stale, cpu.memory.buffers
      modifies cpu.state.tlbWrite, cpu.state`codePage, cpu.cache.pages
      ensures cpu.Valid() && I.Ready(old(Self())) && ok == (cpu.pendingException == NONE)
      ensures var r := I.Access(old(Self()), Out(), Store(va, n, v)); (r.1.Done? ==> r.1.v == 0) && Met(r, 0)
    {
      hide Executor.View, Executor.Wired, Inv, MemWrite, I.At;
      SelfReady();
      cpu.RegsApart();
      AccessUnfold(Self(), Out(), Store(va, n, v));
      ok := cpu.MemWrite(va, n, v);
    }

    /** A register written, the zero register included. */
    method SetReg(rd: nat, v: bv64)
      requires cpu.Valid() && rd < 32
      modifies cpu.regs
      ensures cpu.Valid() && I.Ready(old(Self())) && Self() == I.Registered(old(Self()), rd, v)
    {
      hide Executor.View, Executor.Wired, Inv;
      SelfReady();
      cpu.RegsApart();
      cpu.SetRegister(rd, v);
    }

    /** A load op; one that traps writes no register. */
    method PerformLoad(op: D.MicroOp, pc: addr) returns (next: addr)
      requires cpu.Valid() && cpu.pendingException == NONE && I.IsLoad(I.OpCode(op))
      modifies cpu`pendingException, cpu`pendingTval, cpu`tainted, cpu`exposed, cpu`stale, cpu`looks, cpu.memory.buffers
      modifies cpu.state.tlbRead, cpu.regs
      ensures cpu.Valid() && I.Ready(old(Self())) && cpu.pendingException >= NONE
      ensures (Self(), Ending(next)) == I.LoadOp(old(Self()), Out(), op, pc)
    {
      hide Executor.Valid, Executor.View, Self, I.Access, I.Extend, I.Offset, I.Rd, I.Rs1, I.Size, I.OpCode, I.Registered;
      SelfParts();
      var v := Read(I.Offset(cpu.regs[I.Rs1(op)], op.imm), I.LoadSize(I.OpCode(op)));
      next := pc;
      if cpu.pendingException == NONE {
        SetReg(I.Rd(op), I.Extend(I.OpCode(op), v));
        next := Wrap(pc + I.Size(op));
      }
    }

    /** A store op; it writes no register at all. */
    method PerformStore(op: D.MicroOp, pc: addr) returns (next: addr)
      requires cpu.Valid() && cpu.pendingException == NONE && I.IsStore(I.OpCode(op))
      modifies cpu`pendingException, cpu`pendingTval, cpu`tainted, cpu`exposed, cpu`stale, cpu.memory.buffers
      modifies cpu.state.tlbWrite, cpu.state`codePage, cpu.cache.pages
      ensures cpu.Valid() && I.Ready(old(Self())) && cpu.pendingException >= NONE
      ensures (Self(), Ending(next)) == I.StoreOp(old(Self()), Out(), op, pc)
    {
      hide Executor.Valid, Executor.View, Self, I.Access, I.Offset, I.Rs1, I.Rs2, I.Size, I.OpCode;
      SelfParts();
      var ok := Write(I.Offset(cpu.regs[I.Rs1(op)], op.imm), I.StoreSize(I.OpCode(op)), cpu.regs[I.Rs2(op)]);
      next := if ok then Wrap(pc + I.Size(op)) else pc;
    }

    /** The ops that stay among registers. */
    method PerformAlu(op: D.MicroOp, pc: addr) returns (next: addr)
      requires cpu.Valid()
      modifies cpu.regs
      ensures cpu.Valid() && I.Ready(old(Self())) && (Self(), I.Going(next)) == I.AluOp(old(Self()), arms, op, pc)
    {
      hide Executor.View, Executor.Wired, Inv, I.Plus, I.Sum, I.Rd, I.Rs1, I.Rs2, I.Size, I.OpCode;
      SelfReady();
      cpu.RegsApart();
      var a, b, code := cpu.regs[I.Rs1(op)], cpu.regs[I.Rs2(op)], I.OpCode(op);
      next := Wrap(pc + I.Size(op));
      if code == I.NOP {
      } else if code == I.ADDI {
        cpu.SetRegister(I.Rd(op), I.Plus(a, op.imm));
      } else if code == I.ADD {
        cpu.SetRegister(I.Rd(op), I.Sum(a, b));
      } else if code == I.BEQ {
        next := if a == b then Wrap(pc + op.imm) else next;
      } else {
        if I.Rd(op) != 0 {
          cpu.SetRegister(I.Rd(op), arms.value(op, a, b, pc));
        }
        next := arms.next(op, a, b, pc);
      }
    }

    // -------------------------------------------------------------- the classic interpreter

    /** How a classic instruction left the object: `true`, or an exception pending. */
    function Done(ok: bool): I.Way
      reads cpu`pendingException
    {
      if ok || cpu.pendingException < 0 then I.Well else I.Pended(cpu.pendingException)
    }

    /** `_raiseIllegalInsn` */
    method RaiseIllegal(insn: bv64)
      requires cpu.Valid()
      modifies cpu`pendingException, cpu`pendingTval
      ensures cpu.Valid() && cpu.pendingException == I.ILLEGAL
      ensures Self() == I.Illegally(old(Self()), insn).0
    {
      hide Executor.View, Executor.Wired, Inv, I.AsAddr;
      cpu.pendingException := I.ILLEGAL;
      cpu.pendingTval := I.AsAddr(insn);
    }

    /** `handleMret` */
    method MachineReturn()
      requires cpu.Valid()
      modifies cpu`stale, cpu.state, cpu.state.tlbRead, cpu.state.tlbWrite, cpu.state.tlbCode
      ensures cpu.Valid() && I.Ready(old(Self())) && Self() == I.Serve(old(Self()), Out(), DoMret)
    {
      hide Executor.View, Executor.Wired, Inv, Next;
      SelfReady();
      cpu.RegsApart();
      ServeUnfold(Self(), Out(), cpu.world, DoMret);
      cpu.MachineReturn();
    }

    /** `handleSret` */
    method SupervisorReturn()
      requires cpu.Valid()
      modifies cpu`stale, cpu.state, cpu.state.tlbRead, cpu.state.tlbWrite, cpu.state.tlbCode
      ensures cpu.Valid() && I.Ready(old(Self())) && Self() == I.Serve(old(Self()), Out(), DoSret)
    {
      hide Executor.View, Executor.Wired, Inv, Next;
      SelfReady();
      cpu.RegsApart();
      ServeUnfold(Self(), Out(), cpu.world, DoSret);
      cpu.SupervisorReturn();
    }

    /** `fence.i` */
    method FenceInsn()
      requires cpu.Valid()
      modifies cpu.state`codePage, cpu.cache.pages, cpu`tainted
      ensures cpu.Valid() && I.Ready(old(Self())) && Self() == I.Serve(old(Self()), Out(), DoFenceI)
    {
      hide Executor.View, Executor.Wired, Inv, Next;
      SelfReady();
      cpu.RegsApart();
      ServeUnfold(Self(), Out(), cpu.world, DoFenceI);
      cpu.InvalidateInstructionCaches();
    }

    /** `sfence.vma` without an address. */
    method FenceAll()
      requires cpu.Valid()
      modifies cpu`stale, cpu.state`codePage, cpu.state.tlbRead, cpu.state.tlbWrite, cpu.state.tlbCode
      ensures cpu.Valid() && I.Ready(old(Self())) && Self() == I.Serve(old(Self()), Out(), SfenceAll)
    {
      hide Executor.View, Executor.Wired, Inv, Next;
      SelfReady();
      cpu.RegsApart();
      ServeUnfold(Self(), Out(), cpu.world, SfenceAll);
      cpu.FenceAll();
    }

    /** `sfence.vma` with one. */
    method FencePage(va: addr)
      requires cpu.Valid()
      modifies cpu`stale, cpu.state`codePage, cpu.state.tlbRead, cpu.state.tlbWrite, cpu.state.tlbCode
      ensures cpu.Valid() && I.Ready(old(Self())) && Self() == I.Serve(old(Self()), Out(), SfencePage(va))
    {
      hide Executor.View, Executor.Wired, Inv, Next;
      SelfReady();
      cpu.RegsApart();
      ServeUnfold(Self(), Out(), cpu.world, SfencePage(va));
      cpu.FencePage(va);
    }

    /** What the object's registers are in the hart. */
    lemma SelfRegisters()
      requires cpu.Valid()
      ensures var h := Self();
        && I.CsrOf(h.mach).priv == cpu.state.privilege && h.regs == cpu.regs[..] && |h.regs| == 32
        && Pending(I.CsrOf(h.mach)) == Both(cpu.state.mip.bits, cpu.state.mie.bits)
    {
      SelfReady();
      hide Inv, Both;
      cpu.RegistersInView();
    }

    lemma SelfParts()
      requires cpu.Valid()
      ensures I.Ready(Self()) && I.CsrOf(Self().mach) == cpu.View().csr && Self().regs == cpu.regs[..] && cpu.Wired()
      ensures cpu.regs.Length == 32 && Self().looks == cpu.looks && Self().mach.Cached?
    {
      SelfReady();
      cpu.RegsApart();
    }

    /** `_executePrivileged` but for the fences: calls into higher levels, and returns from them. */
    method ExecuteLevel(classic: I.Classic, insn: bv64) returns (ok: bool)
      requires cpu.Valid() && cpu.pendingException == NONE
      modifies cpu`pendingException, cpu`pendingTval, cpu`stale, cpu.state, cpu.state.tlbRead, cpu.state.tlbWrite, cpu.state.tlbCode
      ensures cpu.Valid() && I.Ready(old(Self())) && (if ok then cpu.pendingException == NONE else cpu.pendingException >= 0)
      ensures (Self(), Done(ok)) == I.LevelOp(old(Self()), Out(), classic, insn)
    {
      hide Executor.View, Executor.Wired, Inv, I.Serve, I.AsAddr, Both;
      SelfReady();
      SelfRegisters();
      var level := PrivLevel(cpu.state.privilege);
      ok := false;
      if classic.Ecall? {
        cpu.pendingException := I.USER_ECALL + level;
      } else if classic.Ebreak? {
        cpu.pendingException := I.BREAKPOINT;
      } else if classic.MachineRet? && level >= 3 {
        MachineReturn();
        ok := true;
      } else if classic.SupervisorRet? && level >= 1 {
        SupervisorReturn();
        ok := true;
      } else {
        RaiseIllegal(insn);
      }
    }

    /** wfi, sfence.vma and fence.i; all but the last are for supervisors. */
    method ExecuteFence(classic: I.Classic, insn: bv64) returns (ok: bool)
      requires cpu.Valid() && cpu.pendingException == NONE
      modifies cpu`pendingException, cpu`pendingTval, cpu`powerDown, cpu`stale, cpu`tainted
      modifies cpu.state`codePage, cpu.state.tlbRead, cpu.state.tlbWrite, cpu.state.tlbCode, cpu.cache.pages
      ensures cpu.Valid() && I.Ready(old(Self())) && (if ok then cpu.pendingException == NONE else cpu.pendingException >= 0)
      ensures (Self(), Done(ok)) == I.FenceOp(old(Self()), Out(), classic, insn)
    {
      hide Executor.View, Executor.Wired, Inv, Both, I.AsAddr, I.Serve;
      SelfReady();
      SelfRegisters();
      ok := true;
      if classic.FenceInsn? {
        FenceInsn();
      } else if cpu.state.privilege == User {
        RaiseIllegal(insn);
        ok := false;
      } else if classic.Wfi? {
        if Both(cpu.state.mip.bits, cpu.state.mie.bits) == 0 {
          cpu.powerDown := true;
        }
      } else if classic.FenceVmaAll? {
        FenceAll();
      } else if classic.FenceVmaAt? {
        FencePage(I.AsAddr(cpu.regs[classic.rs1]));
      }
    }

    /** `csrHandler.write` */
    method WriteCsr(csr: nat, val: bv64) returns (ok: bool)
      requires cpu.Valid()
      modifies cpu`stale, cpu.state, cpu.state.pmpCfg, cpu.state.pmpAddr, cpu.state.tlbRead, cpu.state.tlbWrite, cpu.state.tlbCode
      ensures cpu.Valid() && I.Ready(old(Self())) && Self() == I.Serve(old(Self()), Out(), CsrWrite(csr, val))
      ensures ok == Accessible(old(cpu.View()).csr, csr)
    {
      hide Executor.View, Executor.Wired, Inv, Next, Accessible;
      SelfReady();
      cpu.RegsApart();
      ServeUnfold(Self(), Out(), cpu.world, CsrWrite(csr, val));
      ok := cpu.WriteCsr(csr, val);
    }

    /** `_writeReg`, for a register that is not the zero register. */
    method WriteReg(rd: I.reg, v: bv64)
      requires cpu.Valid()
      modifies cpu.regs
      ensures cpu.Valid() && I.Ready(old(Self())) && Self() == if rd != 0 then I.Registered(old(Self()), rd, v) else old(Self())
    {
      hide Executor.View, Executor.Wired, Inv;
      SelfReady();
      cpu.RegsApart();
      if rd != 0 {
        cpu.SetRegister(rd, v);
      }
    }

    /** The write of a register instruction that has read `was`, and its result. */
    method PutCsr(csr: nat, writes: bool, val: bv64, rd: I.reg, was: bv64, insn: bv64) returns (ok: bool)
      requires cpu.Valid() && cpu.pendingException == NONE
      modifies cpu`pendingException, cpu`pendingTval, cpu`stale
      modifies cpu.state, cpu.state.pmpCfg, cpu.state.pmpAddr, cpu.state.tlbRead, cpu.state.tlbWrite, cpu.state.tlbCode, cpu.regs
      ensures cpu.Valid() && I.Ready(old(Self())) && (if ok then cpu.pendingException == NONE else cpu.pendingException >= 0)
      ensures (Self(), Done(ok)) == I.CsrPut(old(Self()), Out(), csr, writes, val, rd, was, insn)
    {
      hide Executor.Valid, Executor.View, Self, I.Serve, Accessible, I.Registered, I.AsAddr;
      SelfParts();
      if writes {
        var written := WriteCsr(csr, val);
        if !written {
          RaiseIllegal(insn);
          return false;
        }
      }
      WriteReg(rd, was);
      ok := true;
    }

    /** The clock is looked at. */
    method Look() returns (rtc: bv64)
      requires cpu.Valid()
      modifies cpu`looks
      ensures cpu.Valid() && I.Ready(old(Self())) && rtc == Out().clock(old(Self()).looks)
      ensures Self() == old(Self()).(looks := old(Self()).looks + 1)
    {
      hide Executor.View, Executor.Wired, Inv;
      SelfReady();
      rtc := clock(cpu.looks);
      cpu.looks := cpu.looks + 1;
    }

    /** `_executeCsr` */
    method ExecuteCsr(kind: I.CsrKind, csr: nat, rd: I.reg, rs1: I.reg, immediate: bool, insn: bv64) returns (ok: bool)
      requires cpu.Valid() && cpu.pendingException == NONE
      modifies cpu`pendingException, cpu`pendingTval, cpu`stale, cpu`looks
      modifies cpu.state, cpu.state.pmpCfg, cpu.state.pmpAddr, cpu.state.tlbRead, cpu.state.tlbWrite, cpu.state.tlbCode, cpu.regs
      ensures cpu.Valid() && I.Ready(old(Self())) && (if ok then cpu.pendingException == NONE else cpu.pendingException >= 0)
      ensures (Self(), Done(ok)) == I.CsrOp(old(Self()), Out(), kind, csr, rd, rs1, immediate, insn)
    {
      hide Executor.Valid, Executor.View, Self, Out, Csr.Read, I.NewCsr, I.Word64, I.AsAddr, I.CsrPut;
      SelfParts();
      var rtc := Look();
      SelfParts();
      var was := cpu.ReadCsr(csr, rtc);
      if was.Refused? {
        RaiseIllegal(insn);
        return false;
      }
      var val := if immediate then I.Word64(rs1) else cpu.regs[rs1];
      ok := PutCsr(csr, kind == I.ReadWrite || rs1 != 0, I.NewCsr(kind, was.v, val), rd, was.v, insn);
    }

    /** The reservation, and the floating-point registers. */
    method Reserve(reserved: int)
      requires cpu.Valid()
      modifies cpu`loadReservation
      ensures cpu.Valid() && I.Ready(old(Self())) && Self() == old(Self()).(reserved := reserved)
    {
      hide Executor.View, Executor.Wired, Inv;
      SelfReady();
      cpu.loadReservation := reserved;
    }

    method WriteFloat(rd: I.reg, v: bv64)
      requires cpu.Valid()
      modifies cpu`floats
      ensures cpu.Valid() && I.Ready(old(Self())) && Self() == old(Self()).(floats := old(Self()).floats[rd := v])
    {
      hide Executor.View, Executor.Wired, Inv;
      SelfReady();
      cpu.floats := cpu.floats[rd := v];
    }

    method MarkFloat(flags: bv64, dirty: bool)
      requires cpu.Valid()
      modifies cpu.state`fflags, cpu.state`mstatus
      ensures cpu.Valid() && I.Ready(old(Self())) && Self() == I.Serve(old(Self()), Out(), FloatDone(flags, dirty))
    {
      hide Executor.View, Executor.Wired, Inv, Next;
      SelfReady();
      ServeUnfold(Self(), Out(), cpu.world, FloatDone(flags, dirty));
      cpu.MarkFloat(flags, dirty);
    }

    /** The registers, the float unit and the reservation at the end of an instruction. */
    method FinishPlain(rd: I.reg, val: bv64, reserved: int, floating: I.Floating)
      requires cpu.Valid()
      modifies cpu`floats, cpu`loadReservation, cpu.regs, cpu.state`fflags, cpu.state`mstatus
      ensures cpu.Valid() && I.Ready(old(Self())) && Self() == I.Finished(old(Self()), Out(), rd, val, reserved, floating)
    {
      hide Executor.Valid, Self, I.Registered, I.Serve;
      WriteReg(rd, val);
      Reserve(reserved);
      if floating.Floating? {
        if floating.write.Some? {
          WriteFloat(floating.write.value.0, floating.write.value.1);
        }
        MarkFloat(floating.flags, floating.write.Some?);
      }
    }

    /** What the classic interpreter looks at. */
    lemma SelfOperands(pc: addr, read: seq<bv64>)
      requires cpu.Valid()
      ensures I.OperandsOf(Self(), pc, read)
        == I.Operands(pc, cpu.regs[..], cpu.floats, cpu.state.mstatus.bits, cpu.state.frm.bits, cpu.loadReservation, read)
    {
      hide Inv;
      cpu.RegistersInView();
    }

    /** The end of a plain instruction. */
    method EndPlain(c: I.Classic)
      requires cpu.Valid() && c.Finish?
      modifies cpu`floats, cpu`loadReservation, cpu.regs, cpu.state`fflags, cpu.state`mstatus
      modifies cpu.state`pc, cpu.state`instructionCounter
      ensures cpu.Valid() && I.Ready(old(Self()))
      ensures Self() == I.WithPc(I.Finished(old(Self()), Out(), c.rd, c.val, c.reserved, c.floating), Out(), c.next)
    {
      hide Executor.Valid, Self, I.WithPc, I.Finished;
      FinishPlain(c.rd, c.val, c.reserved, c.floating);
      SetPc(c.next);
    }

    /** A load of a plain instruction, which may move the reservation first. */
    method ReadPlain(c: I.Classic) returns (v: bv64)
      requires cpu.Valid() && cpu.pendingException == NONE && c.Reading?
      modifies cpu`pendingException, cpu`pendingTval, cpu`tainted, cpu`exposed, cpu`stale, cpu`looks, cpu`loadReservation
      modifies cpu.memory.buffers, cpu.state.tlbRead
      ensures cpu.Valid() && I.Ready(old(Self()))
      ensures Met(I.Access(old(Self()).(reserved := c.reserved), Out(), Load(c.va, c.size)), v)
    {
      hide Executor.Valid, Self, I.Access;
      Reserve(c.reserved);
      v := Read(c.va, c.size);
    }

    static lemma PlainUnfold(h: I.Hart, w: I.Outside, arms: I.Arms, insn: bv64, pc: addr, read: seq<bv64>, c: I.Classic)
      requires I.Ready(h) && |read| <= I.ACCESSES && c == arms.classic(insn, I.OperandsOf(h, pc, read))
      ensures I.PlainOp(h, w, arms, insn, pc, read) ==
        if c.Finish? then (I.WithPc(I.Finished(h, w, c.rd, c.val, c.reserved, c.floating), w, c.next), I.Well)
        else if c.Reading? && |read| < I.ACCESSES then
          I.Went(I.Access(h.(reserved := c.reserved), w, Load(c.va, c.size)), w, arms, insn, pc, read)
        else if c.Writing? && |read| < I.ACCESSES then I.Went(I.Access(h, w, Store(c.va, c.size, c.v)), w, arms, insn, pc, read)
        else I.Illegally(h, insn)
    {
      hide I.WithPc, I.Access, I.Finished, I.Went, I.AsAddr;
    }

    /** A plain instruction that has read `read`: its next access, and what comes after it; or its end. */
    method ExecutePlain(insn: bv64, pc: addr, read: seq<bv64>) returns (ok: bool)
      requires cpu.Valid() && cpu.pendingException == NONE && |read| <= I.ACCESSES
      modifies cpu`pendingException, cpu`pendingTval, cpu`tainted, cpu`exposed, cpu`stale, cpu`looks, cpu`floats, cpu`loadReservation
      modifies cpu.memory.buffers, cpu.regs, cpu.state, cpu.state.tlbRead, cpu.state.tlbWrite, cpu.cache.pages
      ensures cpu.Valid() && I.Ready(old(Self())) && (if ok then cpu.pendingException == NONE else cpu.pendingException >= 0)
      ensures (Self(), Done(ok)) == I.PlainOp(old(Self()), Out(), arms, insn, pc, read)
      decreases I.ACCESSES - |read|, 1
    {
      hide Executor.Valid, Self, Met, I.PlainOp, I.WithPc, I.Access, I.Finished, I.Went, I.OperandsOf;
      SelfParts();
      SelfOperands(pc, read);
      ghost var h := Self();
      var c := arms.classic(insn,
        I.Operands(pc, cpu.regs[..], cpu.floats, cpu.state.mstatus.bits, cpu.state.frm.bits, cpu.loadReservation, read));
      PlainUnfold(h, Out(), arms, insn, pc, read, c);
      if c.Finish? {
        EndPlain(c);
        ok := true;
      } else if c.Reading? && |read| < I.ACCESSES {
        var v := ReadPlain(c);
        ok := GoOn(insn, pc, read, v, I.Access(h.(reserved := c.reserved), Out(), Load(c.va, c.size)));
      } else if c.Writing? && |read| < I.ACCESSES {
        var written := Write(c.va, c.size, c.v);
        ok := GoOn(insn, pc, read, 0, I.Access(h, Out(), Store(c.va, c.size, c.v)));
      } else {
        RaiseIllegal(insn);
        ok := false;
      }
    }

    /** What follows an access of a plain instruction; a fault ends it. */
    method GoOn(insn: bv64, pc: addr, read: seq<bv64>, v: bv64, ghost r: (I.Hart, Outcome)) returns (ok: bool)
      requires cpu.Valid() && I.Ready(r.0) && Met(r, v) && |read| < I.ACCESSES
      modifies cpu`pendingException, cpu`pendingTval, cpu`tainted, cpu`exposed, cpu`stale, cpu`looks, cpu`floats, cpu`loadReservation
      modifies cpu.memory.buffers, cpu.regs, cpu.state, cpu.state.tlbRead, cpu.state.tlbWrite, cpu.cache.pages
      ensures cpu.Valid() && (if ok then cpu.pendingException == NONE else cpu.pendingException >= 0)
      ensures (Self(), Done(ok)) == I.Went(r, Out(), arms, insn, pc, read)
      decreases I.ACCESSES - |read|, 0
    {
      hide Executor.Valid, Self, I.PlainOp;
      ok := false;
      if cpu.pendingException == NONE {
        ok := ExecutePlain(insn, pc, read + [v]);
      }
    }

    /** `_executeInstruction`; `false` leaves an exception pending. */
    method ExecuteClassic(insn: bv64, pc: addr) returns (ok: bool)
      requires cpu.Valid() && cpu.pendingException == NONE
      modifies cpu, cpu.state, cpu.state.pmpCfg, cpu.state.pmpAddr, cpu.state.tlbRead, cpu.state.tlbWrite, cpu.state.tlbCode
      modifies cpu.memory.buffers, cpu.cache.pages, cpu.regs
      ensures cpu.Valid() && I.Ready(old(Self())) && (if ok then cpu.pendingException == NONE else cpu.pendingException >= 0)
      ensures (Self(), Done(ok)) == I.ClassicOp(old(Self()), Out(), arms, insn, pc)
    {
      hide Executor.Valid, Self, I.WithPc, I.FenceOp, I.LevelOp, I.CsrOp, I.PlainOp, D.IsCompressed;
      SetPc(pc);
      SelfOperands(pc, []);
      var classic := arms.classic(insn,
        I.Operands(pc, cpu.regs[..], cpu.floats, cpu.state.mstatus.bits, cpu.state.frm.bits, cpu.loadReservation, []));
      if classic.CsrInsn? {
        ok := ExecuteCsr(classic.kind, classic.csr, classic.rd, classic.rs1, classic.immediate, insn);
        MoveOn(ok, insn, pc);
      } else if classic.Wfi? || classic.FenceVmaAll? || classic.FenceVmaAt? || classic.FenceInsn? {
        ok := ExecuteFence(classic, insn);
        MoveOn(ok, insn, pc);
      } else if classic.Reading? || classic.Writing? || classic.Finish? {
        ok := ExecutePlain(insn, pc, []);
      } else {
        ok := ExecuteLevel(classic, insn);
      }
    }

    /** `state.pc += instrSize`, for an instruction that went well. */
    method MoveOn(ok: bool, insn: bv64, pc: addr)
      requires cpu.Valid() && (if ok then cpu.pendingException == NONE else cpu.pendingException >= 0)
      modifies cpu.state`pc, cpu.state`instructionCounter
      ensures cpu.Valid() && I.Ready(old(Self()))
      ensures var next := Wrap(pc + if D.IsCompressed(insn) then 2 else 4);
        (Self(), Done(ok)) == I.MovedOn((old(Self()), Done(ok)), Out(), next)
    {
      hide Executor.Valid, Self, I.WithPc, D.IsCompressed;
      SelfParts();
      if ok {
        SetPc(Wrap(pc + if D.IsCompressed(insn) then 2 else 4));
      }
    }

    // -------------------------------------------------------------- one turn

    /** Between two turns the executor stands for `before`, or it has just installed the page of the next turn. */
    ghost predicate Phase(before: State, ready: bool, pc: addr)
      reads cpu`stale, cpu`exposed, cpu`tainted, cpu.state, cpu.state.pmpCfg, cpu.state.pmpAddr
      reads cpu.state.tlbRead, cpu.state.tlbWrite, cpu.state.tlbCode
      reads cpu.memory.memMap, cpu.memory.buffers, cpu.cache.pages
    {
      && Shaped(before) && cpu.Valid()
      && (if ready then cpu.View() == FetchAndCache(before, pc).0 && FetchAndCache(before, pc).1.Done? && before.code.tag != TagOf(pc)
            && cpu.View().csr == before.csr
          else cpu.View() == before)
    }

    /** The turn's answer: an op to dispatch, an instruction for the classic interpreter, or a pending exception. */
    ghost predicate Answers(r: (State, Outcome), op: D.MicroOp, insn: bv64, t: addr)
      reads cpu`stale, cpu`exposed, cpu`tainted, cpu`pendingException, cpu`pendingTval
      reads cpu.state, cpu.state.pmpCfg, cpu.state.pmpAddr, cpu.state.tlbRead, cpu.state.tlbWrite, cpu.state.tlbCode
      reads cpu.memory.memMap, cpu.memory.buffers, cpu.cache.pages
    {
      && cpu.View() == r.0
      && match r.1
         case Dispatched(o) => cpu.pendingException == NONE && cpu.pendingTval == t && op == o && !D.Uncommon(cpu.world.decoder, op)
         case Done(i) => cpu.pendingException == NONE && cpu.pendingTval == t && insn == i && D.Uncommon(cpu.world.decoder, op)
         case Trapped(cause, tval) => cpu.pendingException == cause && cpu.pendingTval == tval
         case Crash => false
    }

    static lemma TurnIs(before: State, s: State, w: World, pc: addr, ready: bool)
      requires Shaped(before) && Shaped(s)
      requires if ready then s == FetchAndCache(before, pc).0 && FetchAndCache(before, pc).1.Done? && before.code.tag != TagOf(pc)
        else s == before && s.code.tag == TagOf(pc)
      ensures Next(before, w, Event.Execute(pc)) == F.InstalledTurn(s, w, pc)
    {
      hide FetchAndCache, DispatchSlot, FetchInsn, D.Uncommon, Used;
    }

    static lemma InstalledTurnUnfold(s: State, w: World, pc: addr)
      requires Shaped(s)
      ensures Shaped(Used(s, CodeSlot))
      ensures var r := DispatchSlot(Used(s, CodeSlot), w, pc);
        F.InstalledTurn(s, w, pc) == if r.1.Dispatched? && D.Uncommon(w.decoder, r.1.op) then FetchInsn(r.0, pc) else r
    {
      hide DispatchSlot, FetchInsn, D.Uncommon;
    }

    /** The slot of the installed page, and the instruction word if the op is an uncommon one. */
    method Turn(pc: addr, ghost before: State, ghost ready: bool) returns (op: D.MicroOp, insn: bv64)
      requires Phase(before, ready, pc) && cpu.pendingException == NONE && cpu.state.codePage.tag == TagOf(pc)
      modifies cpu`pendingException, cpu`pendingTval, cpu`tainted, cpu`exposed, cpu`stale, cpu.memory.buffers
      modifies cpu.state.tlbWrite, cpu.state.tlbCode, cpu.state`codePage, cpu.cache.pages
      ensures cpu.Valid() && Shaped(before)
      ensures Answers(Next(before, cpu.world, Event.Execute(pc)), op, insn, old(cpu.pendingTval))
    {
      hide Executor.View, Executor.Wired, Inv, FetchAndCache, DispatchSlot, FetchInsn, D.Uncommon, Used, Next, F.InstalledTurn;
      ghost var s, w := cpu.View(), cpu.world;
      InvParts(w.decoder, s);
      cpu.CodeIsView();
      TurnIs(before, s, w, pc, ready);
      InstalledTurnUnfold(s, w, pc);
      cpu.MarkUsed(CodeSlot);
      UsedShape(w.decoder, s, CodeSlot);
      op := cpu.DispatchInstalled(pc);
      insn := 0;
      if D.Uncommon(cpu.world.decoder, op) {
        insn := cpu.FetchInstruction(pc);
      }
    }

    /** The page of the turn is not installed: fetch through the slow path, which installs it or faults. */
    method Prepare(pc: addr, ghost before: State)
      requires Shaped(before) && Phase(before, false, pc) && cpu.pendingException == NONE && cpu.state.codePage.tag != TagOf(pc)
      modifies cpu`pendingException, cpu`pendingTval, cpu`tainted, cpu`exposed, cpu`stale, cpu.memory.buffers
      modifies cpu.state.tlbWrite, cpu.state.tlbCode, cpu.state`codePage, cpu.cache.pages
      ensures cpu.Valid() && before.code.tag != TagOf(pc) && cpu.pendingException >= NONE
      ensures cpu.pendingException == NONE ==>
        Phase(before, true, pc) && cpu.state.codePage.tag == TagOf(pc) && cpu.pendingTval == old(cpu.pendingTval)
      ensures cpu.pendingException != NONE ==>
        && !FetchAndCache(before, pc).1.Done?
        && Next(before, cpu.world, Event.Execute(pc)) == (cpu.View(), Trapped(cpu.pendingException, cpu.pendingTval))
    {
      hide Executor.View, Executor.Wired, Inv, FetchAndCache, DispatchSlot, FetchInsn, D.Uncommon, Next;
      cpu.CodeIsView();
      F.FetchAndCacheFollows(cpu.world.decoder, before, pc);
      TurnFaults(before, cpu.world, pc);
      var insn := cpu.FetchSlowAndCache(pc);
    }

    static lemma TurnFaults(before: State, w: World, pc: addr)
      requires Shaped(before) && before.code.tag != TagOf(pc)
      ensures !FetchAndCache(before, pc).1.Done? ==> Next(before, w, Event.Execute(pc)) == FetchAndCache(before, pc)
    {
      hide FetchAndCache, DispatchSlot, FetchInsn, D.Uncommon;
    }

    // -------------------------------------------------------------- one instruction

    /** What comes after the fetch. */
    method Perform(op: D.MicroOp, insn: bv64, pc: addr) returns (next: addr)
      requires cpu.Valid() && cpu.pendingException == NONE
      modifies cpu, cpu.regs, cpu.memory.buffers, cpu.cache.pages
      modifies cpu.state, cpu.state.pmpCfg, cpu.state.pmpAddr, cpu.state.tlbRead, cpu.state.tlbWrite, cpu.state.tlbCode
      ensures cpu.Valid() && I.Ready(old(Self())) && cpu.pendingException >= NONE
      ensures (Self(), Ending(next)) ==
        if D.Uncommon(cpu.world.decoder, op) then I.Classically(old(Self()), Out(), arms, insn, pc)
        else I.Perform(old(Self()), Out(), arms, op, pc)
    {
      hide Executor.Valid, Executor.View, I.AddrOf, I.OpCode, D.Uncommon, I.LoadOp, I.StoreOp, I.AluOp, I.ClassicOp;
      var code := I.OpCode(op);
      if D.Uncommon(cpu.world.decoder, op) {
        var ok := ExecuteClassic(insn, pc);
        SelfReady();
        cpu.RegistersInView();
        next := I.AddrOf(cpu.state.pc);
      } else if I.IsLoad(code) {
        next := PerformLoad(op, pc);
      } else if I.IsStore(code) {
        next := PerformStore(op, pc);
      } else {
        next := PerformAlu(op, pc);
      }
    }

    static lemma InstructionUnfold(h: I.Hart, w: I.Outside, v: World, arms: I.Arms, pc: addr)
      requires I.Ready(h) && h.mach.Cached? && w.decoder == v.decoder
      ensures var (s, o) := Next(h.mach.s, v, Event.Execute(pc)); var h1 := h.(mach := I.Cached(s));
        I.Instruction(h, w, arms, pc) ==
          match o
          case Dispatched(op) => I.Perform(h1, w, arms, op, pc)
          case Done(insn) => I.Classically(h1, w, arms, insn, pc)
          case Trapped(cause, tval) => (h1.(tval := tval), I.Faulted(cause, I.FetchCost(h.mach, pc), tval == Wrap(pc + 2)))
          case Crash => (h1, I.Broken)
    {
      hide Next, I.Perform, I.Classically, I.Counted, I.At;
      F.AnyWorld(h.mach.s, I.At(w, h.looks), v, Event.Execute(pc));
    }

    /** How the instruction ended, its fetch included. */
    function Ended(next: addr, half: bool): I.End
      reads cpu`pendingException
    {
      if cpu.pendingException == NONE then I.Going(next)
      else if cpu.pendingException >= 0 then I.Faulted(cpu.pendingException, 2, half)
      else I.Broken
    }

    /** The turn, with nothing changed in the registers. */
    method Begin(pc: addr, ghost before: State, ghost ready: bool) returns (op: D.MicroOp, insn: bv64)
      requires Shaped(before) && Phase(before, ready, pc) && cpu.pendingException == NONE && cpu.state.codePage.tag == TagOf(pc)
      modifies cpu`pendingException, cpu`pendingTval, cpu`tainted, cpu`exposed, cpu`stale, cpu.memory.buffers
      modifies cpu.state.tlbWrite, cpu.state.tlbCode, cpu.state`codePage, cpu.cache.pages
      ensures cpu.Valid() && I.Ready(old(Before(before))) && I.Counted(I.Cached(before), pc)
      ensures Answers(Next(before, cpu.world, Event.Execute(pc)), op, insn, old(cpu.pendingTval)) && cpu.pendingException >= NONE
      ensures cpu.regs[..] == old(cpu.regs[..])
    {
      hide Executor.View, Executor.Wired, Inv, FetchAndCache, Next, D.Uncommon;
      SelfReady();
      cpu.RegsApart();
      cpu.CodeIsView();
      op, insn := Turn(pc, before, ready);
    }

    /** One instruction from the installed page, or an exception left pending. */
    method Once(pc: addr, ghost before: State, ghost ready: bool) returns (next: addr, ghost half: bool)
      requires Shaped(before) && Phase(before, ready, pc) && cpu.pendingException == NONE && cpu.state.codePage.tag == TagOf(pc)
      modifies cpu, cpu.regs, cpu.memory.buffers, cpu.cache.pages
      modifies cpu.state, cpu.state.pmpCfg, cpu.state.pmpAddr, cpu.state.tlbRead, cpu.state.tlbWrite, cpu.state.tlbCode
      ensures cpu.Valid() && I.Ready(old(Before(before))) && cpu.pendingException >= NONE
      ensures (Self(), Ended(next, half)) == I.Instruction(old(Before(before)), Out(), arms, pc)
    {
      hide Executor.Valid, Executor.View, Phase, I.Counted, I.Instruction, I.Perform, I.Classically, D.Uncommon, Next;
      ghost var h := Before(before);
      var op, insn := Begin(pc, before, ready);
      InstructionUnfold(h, Out(), cpu.world, arms, pc);
      if cpu.pendingException == NONE {
        next := Perform(op, insn, pc);
        half := false;
      } else {
        next, half := pc, cpu.pendingTval == Wrap(pc + 2);
      }
    }

    // -------------------------------------------------------------- the loop

    /** An instruction whose page could not be installed is charged one cycle. */
    static lemma PrepareFault(h: I.Hart, w: I.Outside, v: World, arms: I.Arms, pc: addr, s: State, cause: nat, tval: addr)
      requires I.Ready(h) && h.mach.Cached? && h.mach.s.code.tag != TagOf(pc) && !FetchAndCache(h.mach.s, pc).1.Done?
      requires w.decoder == v.decoder && Next(h.mach.s, v, Event.Execute(pc)) == (s, Trapped(cause, tval))
      ensures I.Instruction(h, w, arms, pc) == (h.(mach := I.Cached(s), tval := tval), I.Faulted(cause, 1, tval == Wrap(pc + 2)))
    {
      hide Next, FetchAndCache, I.Perform, I.Classically, TagOf;
      InstructionUnfold(h, w, v, arms, pc);
    }

    static lemma LoopUnfold(h: I.Hart, w: I.Outside, arms: I.Arms, pc: addr, cycles: nat, target: nat)
      requires I.Ready(h) && target >= cycles
      ensures cycles == 0 ==> I.Loop(h, w, arms, pc, cycles, target).0 == I.Serve(h, w, Event.Sync(I.RegOf(pc), target))
      ensures cycles > 0 && HasPending(I.CsrOf(h.mach)) ==>
        I.Loop(h, w, arms, pc, cycles, target).0 == I.Trapping(h, w, pc, InterruptCause(I.CsrOf(h.mach)), 0, target - (cycles - 1))
      ensures cycles > 0 && !HasPending(I.CsrOf(h.mach)) ==>
        var (h1, e) := I.Instruction(h, w, arms, pc);
        I.Loop(h, w, arms, pc, cycles, target) == I.Continued(h1, e, w, arms, pc, cycles, target)
    {
      hide I.Instruction, I.Trapping, HasPending, InterruptCause, I.Serve, I.RegOf, I.Continued;
    }

    static lemma ContinuedUnfold(h: I.Hart, e: I.End, w: I.Outside, arms: I.Arms, pc: addr, cycles: nat, target: nat)
      requires I.Ready(h) && target >= cycles > 0
      ensures e.Going? && h.down ==>
        I.Continued(h, e, w, arms, pc, cycles, target).0 == I.Serve(h, w, Event.Sync(I.RegOf(e.next), target - (cycles - 1)))
      ensures e.Going? && !h.down ==>
        I.Continued(h, e, w, arms, pc, cycles, target) == I.Loop(h, w, arms, e.next, cycles - 1, target)
      ensures e.Faulted? ==>
        I.Continued(h, e, w, arms, pc, cycles, target).0
          == I.Trapping(h, w, pc, I.Word64(e.cause), I.Word64(h.tval), target - cycles + e.cost)
    {
      hide I.Trapping, I.Serve, I.RegOf, I.Loop, I.Word64;
    }

    /** The installed instruction, and its trap if it has one. */
    method TakeTurn(pc: addr, counterTarget: nat, cycles: nat, ghost before: State, ghost ready: bool) returns (alive: bool, next: addr)
      requires Shaped(before) && Phase(before, ready, pc) && cpu.pendingException == NONE && cpu.state.codePage.tag == TagOf(pc)
      requires counterTarget >= cycles > 0 && !HasPending(before.csr)
      modifies cpu, cpu.regs, cpu.memory.buffers, cpu.cache.pages
      modifies cpu.state, cpu.state.pmpCfg, cpu.state.pmpAddr, cpu.state.tlbRead, cpu.state.tlbWrite, cpu.state.tlbCode
      ensures cpu.Valid() && I.Ready(old(Before(before))) && alive == (cpu.pendingException == NONE)
      ensures alive ==>
        && I.Ready(Self())
        && I.Loop(old(Before(before)), Out(), arms, pc, cycles, counterTarget)
             == I.Continued(Self(), I.Going(next), Out(), arms, pc, cycles, counterTarget)
      ensures !alive ==> Self() == I.Loop(old(Before(before)), Out(), arms, pc, cycles, counterTarget).0
    {
      hide Executor.Valid, Executor.View, Self, Phase, HasPending, InterruptCause, I.Loop, I.Continued, I.Trapping, I.Instruction,
        I.Serve, I.RegOf, I.Word64;
      ghost var h, w := Before(before), Out();
      ghost var half;
      next, half := Once(pc, before, ready);
      SelfReady();
      LoopUnfold(h, w, arms, pc, cycles, counterTarget);
      ContinuedUnfold(Self(), Ended(next, half), w, arms, pc, cycles, counterTarget);
      alive := cpu.pendingException == NONE;
      if !alive {
        SelfTval();
        Fault(pc, counterTarget, cycles - 1);
      }
    }

    lemma SelfTval()
      ensures Self().tval == cpu.pendingTval && Self().down == cpu.powerDown
    {
    }

    /** The trap of an instruction whose page could not be installed. */
    method FetchFault(pc: addr, counterTarget: nat, cycles: nat, ghost h: I.Hart)
      requires cpu.Valid() && cpu.pendingException >= 0 && counterTarget >= cycles > 0
      requires I.Ready(h) && h.mach.Cached? && !HasPending(h.mach.s.csr) && h.mach.s.code.tag != TagOf(pc)
      requires !FetchAndCache(h.mach.s, pc).1.Done? && h == Before(h.mach.s).(tval := h.tval)
      requires Next(h.mach.s, cpu.world, Event.Execute(pc)) == (cpu.View(), Trapped(cpu.pendingException, cpu.pendingTval))
      modifies cpu`nCycles, cpu`stale, cpu.state, cpu.state.tlbRead, cpu.state.tlbWrite, cpu.state.tlbCode
      ensures cpu.Valid() && Self() == I.Loop(h, Out(), arms, pc, cycles, counterTarget).0
    {
      hide Executor.Valid, Executor.View, HasPending, InterruptCause, I.Loop, I.Continued, I.Trapping, I.Instruction, I.Word64, Next,
        FetchAndCache, I.Serve, I.RegOf;
      ghost var w := Out();
      PrepareFault(h, w, cpu.world, arms, pc, cpu.View(), cpu.pendingException, cpu.pendingTval);
      LoopUnfold(h, w, arms, pc, cycles, counterTarget);
      ContinuedUnfold(Self(), I.Faulted(cpu.pendingException, 1, cpu.pendingTval == Wrap(pc + 2)), w, arms, pc, cycles, counterTarget);
      Fault(pc, counterTarget, cycles);
    }

    /** The page of the next turn, or the trap of its fetch. */
    method TakePage(pc: addr, counterTarget: nat, cycles: nat, ghost before: State) returns (alive: bool)
      requires Shaped(before) && Phase(before, false, pc) && cpu.pendingException == NONE && cpu.state.codePage.tag != TagOf(pc)
      requires counterTarget >= cycles > 0 && !HasPending(before.csr)
      modifies cpu`nCycles, cpu`pendingException, cpu`pendingTval, cpu`tainted, cpu`exposed, cpu`stale, cpu.memory.buffers
      modifies cpu.cache.pages, cpu.state, cpu.state.tlbRead, cpu.state.tlbWrite, cpu.state.tlbCode
      ensures cpu.Valid() && I.Ready(old(Before(before))) && alive == (cpu.pendingException == NONE)
      ensures alive ==> Phase(before, true, pc) && cpu.state.codePage.tag == TagOf(pc) && Before(before) == old(Before(before))
      ensures !alive ==> Self() == I.Loop(old(Before(before)), Out(), arms, pc, cycles, counterTarget).0
    {
      hide Executor.Valid, Executor.View, Phase, HasPending, I.Loop, Next, FetchAndCache;
      ghost var h := Before(before);
      BeforeReady(before, pc);
      Prepare(pc, before);
      alive := cpu.pendingException == NONE;
      if !alive {
        FetchFault(pc, counterTarget, cycles, h);
      }
    }

    lemma BeforeReady(before: State, pc: addr)
      requires Shaped(before) && Phase(before, false, pc)
      ensures I.Ready(Before(before)) && cpu.Valid() && cpu.Wired()
      ensures forall i :: 0 <= i < |cpu.memory.buffers| ==> var b: object := cpu.memory.buffers[i]; b != cpu.regs
      ensures var x: object := cpu.regs; x != cpu.state.tlbWrite && x != cpu.state.tlbCode && x != cpu.cache.pages
    {
      cpu.RegsApart();
    }

    /** The turn, and sleep if the instruction asked for it. */
    method TurnOrSleep(pc: addr, counterTarget: nat, cycles: nat, ghost before: State, ghost ready: bool) returns (left: bool, next: addr)
      requires Shaped(before) && Phase(before, ready, pc) && cpu.pendingException == NONE && cpu.state.codePage.tag == TagOf(pc)
      requires counterTarget >= cycles > 0 && !HasPending(before.csr)
      modifies cpu, cpu.regs, cpu.memory.buffers, cpu.cache.pages
      modifies cpu.state, cpu.state.pmpCfg, cpu.state.pmpAddr, cpu.state.tlbRead, cpu.state.tlbWrite, cpu.state.tlbCode
      ensures cpu.Valid() && I.Ready(old(Before(before))) && I.Ready(Self())
      ensures left ==> Self() == I.Loop(old(Before(before)), Out(), arms, pc, cycles, counterTarget).0
      ensures !left ==>
        && cpu.pendingException == NONE
        && I.Loop(Self(), Out(), arms, next, cycles - 1, counterTarget)
             == I.Loop(old(Before(before)), Out(), arms, pc, cycles, counterTarget)
    {
      hide Executor.Valid, Self, Phase, HasPending, I.Loop, I.Continued, I.Serve, I.RegOf;
      var alive;
      alive, next := TakeTurn(pc, counterTarget, cycles, before, ready);
      SelfTval();
      SelfReady();
      left := !alive || cpu.powerDown;
      if alive {
        ContinuedUnfold(Self(), I.Going(next), Out(), arms, pc, cycles, counterTarget);
        if cpu.powerDown {
          Sync(I.RegOf(next), counterTarget - (cycles - 1));
          SelfReady();
        }
      }
    }

    /** Once around the loop: left, or the page of the next turn installed, or the turn done. */
    method Around(pc: addr, counterTarget: nat, cycles: nat, ghost before: State, ghost ready: bool)
      returns (left: bool, next: addr, rest: nat, ghost after: State, ghost installed: bool)
      requires Shaped(before) && Phase(before, ready, pc) && cpu.pendingException == NONE && counterTarget >= cycles > 0
      requires ready ==> cpu.state.codePage.tag == TagOf(pc) && !HasPending(before.csr)
      modifies cpu, cpu.regs, cpu.memory.buffers, cpu.cache.pages
      modifies cpu.state, cpu.state.pmpCfg, cpu.state.pmpAddr, cpu.state.tlbRead, cpu.state.tlbWrite, cpu.state.tlbCode
      ensures cpu.Valid() && I.Ready(old(Before(before)))
      ensures left ==> Self() == I.Loop(old(Before(before)), Out(), arms, pc, cycles, counterTarget).0
      ensures !left ==>
        && cpu.pendingException == NONE && Shaped(after) && Phase(after, installed, next) && I.Ready(Before(after))
        && (if installed then !ready && rest == cycles else rest == cycles - 1)
      ensures !left ==>
        I.Loop(Before(after), Out(), arms, next, rest, counterTarget)
          == I.Loop(old(Before(before)), Out(), arms, pc, cycles, counterTarget)
      ensures !left && installed ==> cpu.state.codePage.tag == TagOf(next) && !HasPending(after.csr)
    {
      hide Executor.Valid, Executor.View, Phase, HasPending, InterruptCause, I.Loop, I.Trapping, FetchAndCache;
      left, next, rest, after, installed := true, pc, cycles, before, false;
      PhaseParts(before, ready, pc);
      var pending := cpu.Pending();
      if pending {
        LoopInterrupted(Before(before), Out(), arms, pc, cycles, counterTarget);
        LeaveForInterrupt(pc, counterTarget, cycles);
      } else if TagOf(pc) != cpu.state.codePage.tag {
        var alive := TakePage(pc, counterTarget, cycles, before);
        left, installed := !alive, alive;
      } else {
        left, next := TurnOrSleep(pc, counterTarget, cycles, before, ready);
        rest, after := cycles - 1, cpu.View();
        NowBefore();
      }
    }

    static lemma LoopInterrupted(h: I.Hart, w: I.Outside, arms: I.Arms, pc: addr, cycles: nat, target: nat)
      requires I.Ready(h) && target >= cycles > 0 && HasPending(I.CsrOf(h.mach))
      ensures I.Loop(h, w, arms, pc, cycles, target).0
        == I.Trapping(h, w, pc, InterruptCause(I.CsrOf(h.mach)), 0, target - (cycles - 1))
    {
      hide I.Instruction, I.Trapping, HasPending, InterruptCause, I.Continued;
    }

    lemma NowBefore()
      requires cpu.Valid()
      ensures Shaped(cpu.View()) && Self() == Before(cpu.View()) && forall pc :: Phase(cpu.View(), false, pc)
    {
      SelfReady();
      hide Inv, Executor.Wired, Executor.View, FetchAndCache;
    }

    /** The loop of `execute`, and what it writes back when its cycles are spent. */
    method RunLoop(start: addr, counterTarget: nat, maxCycles: nat)
      requires cpu.Valid() && I.Ready(Self()) && cpu.pendingException == NONE && counterTarget >= maxCycles
      modifies cpu, cpu.regs, cpu.memory.buffers, cpu.cache.pages
      modifies cpu.state, cpu.state.pmpCfg, cpu.state.pmpAddr, cpu.state.tlbRead, cpu.state.tlbWrite, cpu.state.tlbCode
      ensures cpu.Valid() && Self() == I.Loop(old(Self()), Out(), arms, start, maxCycles, counterTarget).0
    {
      hide Executor.Valid, Executor.View, HasPending, I.Loop, I.Serve, I.RegOf, Phase, Self, Before;
      NowBefore();
      var pc, cycles := start, maxCycles;
      ghost var before, ready, w := cpu.View(), false, Out();
      ghost var goal := I.Loop(Self(), w, arms, pc, cycles, counterTarget).0;
      while cycles > 0
        invariant 0 <= cycles <= maxCycles && counterTarget >= cycles && cpu.pendingException == NONE
        invariant Shaped(before) && Phase(before, ready, pc) && I.Ready(Before(before))
        invariant I.Loop(Before(before), w, arms, pc, cycles, counterTarget).0 == goal
        invariant ready ==> cycles > 0 && cpu.state.codePage.tag == TagOf(pc) && !HasPending(before.csr)
        decreases cycles, if ready then 0 else 1
      {
        var left;
        left, pc, cycles, before, ready := Around(pc, counterTarget, cycles, before, ready);
        if left {
          return;
        }
      }
      PhaseParts(before, ready, pc);
      LoopUnfold(Before(before), w, arms, pc, 0, counterTarget);
      Sync(I.RegOf(pc), counterTarget);
    }

    /** `execute`: the predecoded loop, its interrupts, its faults and its cycle count. */
    method Execute(maxCycles: int)
      requires cpu.Valid()
      modifies cpu, cpu.regs, cpu.memory.buffers, cpu.cache.pages
      modifies cpu.state, cpu.state.pmpCfg, cpu.state.pmpAddr, cpu.state.tlbRead, cpu.state.tlbWrite, cpu.state.tlbCode
      ensures cpu.Valid() && I.Ready(old(Self())) && Self() == I.Executed(old(Self()), Out(), arms, maxCycles).0
    {
      hide Executor.Valid, Executor.View, I.Loop, I.AddrOf;
      ExecuteStarts();
      if maxCycles <= 0 {
        return;
      }
      cpu.pendingException := NONE;
      RunLoop(I.AddrOf(cpu.state.pc), cpu.state.instructionCounter + maxCycles, maxCycles);
    }

    lemma ExecuteStarts()
      requires cpu.Valid()
      ensures I.Ready(Self()) && Shaped(cpu.View()) && cpu.Wired() && Self() == Before(cpu.View())
      ensures I.CsrOf(Self().mach).pc == cpu.state.pc && I.CsrOf(Self().mach).counter == cpu.state.instructionCounter
      ensures Self().down == cpu.powerDown
    {
      SelfReady();
      cpu.RegistersInView();
    }

    lemma PhaseParts(before: State, ready: bool, pc: addr)
      requires Shaped(before) && Phase(before, ready, pc)
      ensures cpu.Valid() && cpu.Wired() && cpu.View().csr == before.csr
      ensures !ready ==> cpu.View() == before && Self() == Before(before) && before.code == cpu.state.codePage
    {
      cpu.CodeIsView();
    }
  }
}
