/** Traps, returns and register accesses, step by step on the mutable state. */
module CpuHandlers {
  import opened Words
  import opened PhysMemory
  import opened Translate
  import opened Csr
  import opened Tlb
  import opened CpuState

  function PutMpp(ms: bv64, level: bv64): bv64 { (ms & !0x1800) | (level << 11) }
  function PutMpie(ms: bv64, bit: bv64): bv64 { (ms & !0x80) | (bit << 7) }
  function ClearMie(ms: bv64): bv64 { ms & !0x08 }
  function PutSpp(ms: bv64, level: bv64): bv64 { (ms & !0x100) | (level << 8) }
  function PutSpie(ms: bv64, bit: bv64): bv64 { (ms & !0x20) | (bit << 5) }
  function ClearSie(ms: bv64): bv64 { ms & !0x02 }

  lemma EnterMSteps(ms: bv64, level: bv64, bit: bv64)
    ensures ClearMie(PutMpie(PutMpp(ms, level), bit)) == EnterM(ms, level, bit)
  {
  }

  lemma EnterSSteps(ms: bv64, level: bv64, bit: bv64)
    ensures ClearSie(PutSpie(PutSpp(ms, level), bit)) == EnterS(ms, level, bit)
  {
  }

  class ExceptionHandler {
    const state: HartState

    constructor (state: HartState)
      ensures this.state == state
    {
      this.state := state;
    }

    /** `raiseException` */
    method RaiseException(cause: bv64, tval: bv64)
      requires state.Valid()
      modifies state, state.tlbRead, state.tlbWrite, state.tlbCode
      ensures state.Valid() && state.Registers() == Trap(old(state.Registers()), cause, tval)
      ensures state.FlushedIf(PrivFlushes(old(state.Registers()), state.Registers()))
    {
      hide HartState.Registers, IsInterrupt, ExceptionCode, BitSet, TrapM, TrapS, Mprv;
      state.InRegisters();
      var isInterrupt := IsInterrupt(cause);
      var exceptionCode := ExceptionCode(cause);
      var deleg := if isInterrupt then state.mideleg.bits else state.medeleg.bits;
      if PrivLevel(state.privilege) <= 1 && BitSet(deleg, exceptionCode) {
        TrapToSupervisor(Reg(cause), Reg(tval));
      } else {
        TrapToMachine(Reg(cause), Reg(tval));
      }
    }

    /** `_trapToMachine` */
    method TrapToMachine(cause: Reg, tval: Reg)
      requires state.Valid()
      modifies state, state.tlbRead, state.tlbWrite, state.tlbCode
      ensures state.Valid() && state.Registers() == TrapM(old(state.Registers()), cause, tval)
      ensures state.FlushedIf(PrivFlushes(old(state.Registers()), state.Registers()))
    {
      hide HartState.Registers, MstatusTrapM, Mprv;
      state.InRegisters();
      state.SetMepc(state.pc);
      state.SetMcause(cause);
      state.SetMtval(tval);
      state.InRegisters();
      var entered := EnteredM(state.mstatus, state.privilege);
      state.SetMstatus(entered);
      SetPrivilege(Machine);
      state.InRegisters();
      state.SetPc(state.mtvec);
    }

    /** The assignments to mstatus on the way into machine level: MPP, MPIE, MIE. */
    static method EnteredM(ms: Reg, level: Priv) returns (ms': Reg)
      ensures ms' == Reg(MstatusTrapM(ms.bits, level))
    {
      hide EnableBit, EnterM, PutMpp, PutMpie, ClearMie;
      var prevIe := EnableBit(ms.bits, level);
      var x := PutMpp(ms.bits, PrivBits(level));
      x := PutMpie(x, prevIe);
      x := ClearMie(x);
      ms' := Reg(x);
      EnterMSteps(ms.bits, PrivBits(level), prevIe);
    }

    /** `_trapToSupervisor` */
    method TrapToSupervisor(cause: Reg, tval: Reg)
      requires state.Valid()
      modifies state, state.tlbRead, state.tlbWrite, state.tlbCode
      ensures state.Valid() && state.Registers() == TrapS(old(state.Registers()), cause, tval)
      ensures state.FlushedIf(PrivFlushes(old(state.Registers()), state.Registers()))
    {
      hide HartState.Registers, MstatusTrapS, Mprv;
      state.InRegisters();
      state.SetSepc(state.pc);
      state.SetScause(cause);
      state.SetStval(tval);
      state.InRegisters();
      var entered := EnteredS(state.mstatus, state.privilege);
      state.SetMstatus(entered);
      SetPrivilege(Supervisor);
      state.InRegisters();
      state.SetPc(state.stvec);
    }

    static method EnteredS(ms: Reg, level: Priv) returns (ms': Reg)
      ensures ms' == Reg(MstatusTrapS(ms.bits, level))
    {
      hide EnableBit, EnterS, PutSpp, PutSpie, ClearSie;
      var prevIe := EnableBit(ms.bits, level);
      var x := PutSpp(ms.bits, PrivBits(level));
      x := PutSpie(x, prevIe);
      x := ClearSie(x);
      ms' := Reg(x);
      EnterSSteps(ms.bits, PrivBits(level), prevIe);
    }

    /** `handleMret` */
    method HandleMret()
      requires state.Valid()
      modifies state, state.tlbRead, state.tlbWrite, state.tlbCode
      ensures state.Valid() && state.Registers() == Mret(old(state.Registers()))
      ensures state.FlushedIf(PrivFlushes(old(state.Registers()), state.Registers()))
    {
      hide HartState.Registers, WithEnableBit, LeaveM, Mpp, Mpie, PrivOf, Mprv;
      state.InRegisters();
      var mpp := PrivOf(Mpp(state.mstatus.bits));
      var mpie := Mpie(state.mstatus.bits);
      state.SetMstatus(Reg(WithEnableBit(state.mstatus.bits, mpp, mpie)));
      state.InRegisters();
      state.SetMstatus(Reg(LeaveM(state.mstatus.bits)));
      SetPrivilege(mpp);
      state.InRegisters();
      state.SetPc(state.mepc);
    }

    /** `handleSret` */
    method HandleSret()
      requires state.Valid()
      modifies state, state.tlbRead, state.tlbWrite, state.tlbCode
      ensures state.Valid() && state.Registers() == Sret(old(state.Registers()))
      ensures state.FlushedIf(PrivFlushes(old(state.Registers()), state.Registers()))
    {
      hide HartState.Registers, WithEnableBit, LeaveS, Spp, Spie, PrivOf, Mprv;
      state.InRegisters();
      var spp := PrivOf(Spp(state.mstatus.bits));
      var spie := Spie(state.mstatus.bits);
      state.SetMstatus(Reg(WithEnableBit(state.mstatus.bits, spp, spie)));
      state.InRegisters();
      state.SetMstatus(Reg(LeaveS(state.mstatus.bits)));
      SetPrivilege(spp);
      state.InRegisters();
      state.SetPc(state.sepc);
    }

    /** `_setPrivilege`: the tables go when the level changes, or while MPRV is on. */
    method SetPrivilege(newPriv: Priv)
      requires state.Valid()
      modifies state`privilege, state`codePage, state.tlbRead, state.tlbWrite, state.tlbCode
      ensures state.Valid() && state.Registers() == old(state.Registers()).(priv := newPriv)
      ensures state.FlushedIf(newPriv != old(state.privilege) || Mprv(state.mstatus.bits))
    {
      hide HartState.Registers, Mprv;
      if newPriv != state.privilege || Mprv(state.mstatus.bits) {
        state.FlushTlb();
      }
      state.SetPrivilege(newPriv);
    }

    /** `hasPendingInterrupt` */
    method HasPendingInterrupt() returns (pending: bool)
      ensures pending == HasPending(state.Registers())
    {
      hide HartState.Registers, Mie, Sie, Taken, Both;
      state.InRegisters();
      var mask := Both(state.mip.bits, state.mie.bits);
      if mask == 0 {
        NothingTaken(state.mideleg.bits, EnabledAtM(state.Registers()), EnabledAtS(state.Registers()));
        return false;
      }
      var enabledAtM := PrivLevel(state.privilege) < 3 || Mie(state.mstatus.bits);
      var enabledAtS := PrivLevel(state.privilege) < 1 || (state.privilege == Supervisor && Sie(state.mstatus.bits));
      pending := Taken(mask, state.mideleg.bits, enabledAtM, enabledAtS) != 0;
    }

    /** `handlePendingInterrupt` */
    method HandlePendingInterrupt()
      requires state.Valid()
      modifies state, state.tlbRead, state.tlbWrite, state.tlbCode
      ensures state.Valid() && state.Registers() == TakeInterrupt(old(state.Registers()))
      ensures state.FlushedIf(old(Pending(state.Registers())) != 0 && PrivFlushes(old(state.Registers()), state.Registers()))
    {
      hide HartState.Registers, Trap, PrivFlushes, Ctz32, Both, InterruptWord;
      state.InRegisters();
      var mask := Both(state.mip.bits, state.mie.bits);
      if mask == 0 {
        return;
      }
      var irq := Ctz32(mask);
      RaiseException(InterruptWord(irq), 0);
    }

    static lemma NothingTaken(mideleg: bv64, atM: bool, atS: bool)
      ensures Taken(0, mideleg, atM, atS) == 0
    {
    }
  }

  class CsrHandler {
    const state: HartState

    constructor (state: HartState)
      ensures this.state == state
    {
      this.state := state;
    }

    /** `_readPmp`: nothing outside the two windows. */
    method ReadPmp(csr: nat) returns (v: Option<bv64>)
      requires state.Valid()
      ensures v.Some? == IsPmp(csr)
      ensures v.Some? ==> v.value == PmpBits(state.Registers(), csr)
    {
      state.PmpInRegisters();
      hide HartState.Registers;
      v := None;
      if 0x3A0 <= csr <= 0x3AF {
        var slot := (csr - 0x3A0) / 2;
        v := Some(if csr % 2 == 0 && slot < PMP_CFGS then state.pmpCfg[slot].bits else 0);
      } else if 0x3B0 <= csr <= 0x3EF {
        v := Some(if csr - 0x3B0 < PMP_ADDRS then state.pmpAddr[csr - 0x3B0].bits else 0);
      }
    }

    /** `_checkCounterAccess`: each level hands on to the one below what it was itself given. */
    method CheckCounter(csr: nat) returns (granted: bool)
      ensures granted == CounterGranted(state.Registers(), csr)
    {
      state.AllInRegisters();
      hide HartState.Registers;
      if PrivLevel(state.privilege) >= 3 {
        return true;
      }
      granted := Grants(state.mcounteren.bits, csr);
      if PrivLevel(state.privilege) < 1 {
        granted := granted && Grants(state.scounteren.bits, csr);
      }
    }

    /** `read`, given the clock. */
    method Read(csr: nat, rtc: bv64) returns (r: Got)
      requires state.Valid()
      ensures r == Csr.Read(state.Registers(), csr, rtc)
    {
      hide PmpBits, Csr.ReadUser, Csr.ReadSupervisor, Csr.ReadMachine;
      state.InRegisters();
      hide HartState.Registers;
      if PrivLevel(state.privilege) < RequiredLevel(csr) {
        return Refused;
      }
      var pmp := ReadPmp(csr);
      if pmp.Some? {
        return Value(pmp.value);
      }
      if csr < 0x100 || 0xC00 <= csr < 0xF00 {
        r := ReadUser(csr, rtc);
      } else if csr < 0x200 {
        r := ReadSupervisor(csr);
      } else {
        r := ReadMachine(csr);
      }
    }

    /** The cases of the unprivileged registers. */
    method ReadUser(csr: nat, rtc: bv64) returns (r: Got)
      ensures r == Csr.ReadUser(state.Registers(), csr, rtc)
    {
      hide CounterGranted, CounterBits, Fcsr, Time;
      state.AllInRegisters();
      hide HartState.Registers;
      match csr {
        case 0x001 => r := Value(state.fflags.bits);
        case 0x002 => r := Value(state.frm.bits);
        case 0x003 => r := Value(Fcsr(state.fflags.bits, state.frm.bits));
        case 0xC00 => r := ReadCounter(csr);
        case 0xC02 => r := ReadCounter(csr);
        case 0xC01 =>
          var granted := CheckCounter(csr);
          r := if granted then Value(Time(rtc)) else Refused;
        case _ => r := Refused;
      }
    }

    /** The cases of the supervisor's registers. */
    method ReadSupervisor(csr: nat) returns (r: Got)
      ensures r == Csr.ReadSupervisor(state.Registers(), csr)
    {
      hide MstatusRead, Both;
      state.AllInRegisters();
      hide HartState.Registers;
      match csr {
        case 0x100 => r := Value(MstatusRead(state.mstatus.bits, 0x3_000D_E133));
        case 0x104 => r := Value(Both(state.mie.bits, state.mideleg.bits));
        case 0x105 => r := Value(state.stvec.bits);
        case 0x106 => r := Value(state.scounteren.bits);
        case 0x140 => r := Value(state.sscratch.bits);
        case 0x141 => r := Value(state.sepc.bits);
        case 0x142 => r := Value(state.scause.bits);
        case 0x143 => r := Value(state.stval.bits);
        case 0x144 => r := Value(Both(state.mip.bits, state.mideleg.bits));
        case 0x180 => r := Value(state.satp.bits);
        case _ => r := Refused;
      }
    }

    /** The cases of the machine's registers. */
    method ReadMachine(csr: nat) returns (r: Got)
      ensures r == Csr.ReadMachine(state.Registers(), csr)
    {
      hide MstatusRead, Csr.ReadHandling;
      state.AllInRegisters();
      hide HartState.Registers;
      match csr {
        case 0x300 => r := Value(MstatusRead(state.mstatus.bits, 0xFFFF_FFFF_FFFF_FFFF));
        case 0x301 => r := Value(state.misa.bits);
        case 0x302 => r := Value(state.medeleg.bits);
        case 0x303 => r := Value(state.mideleg.bits);
        case 0x304 => r := Value(state.mie.bits);
        case 0x305 => r := Value(state.mtvec.bits);
        case 0x306 => r := Value(state.mcounteren.bits);
        case 0x30A => r := Value(state.menvcfg.bits);
        case 0x31A => r := Value(state.menvcfgh.bits);
        case 0x320 => r := Value(state.mcountinhibit.bits);
        case _ => r := ReadHandling(csr);
      }
    }

    /** Those of trap handling and the machine's counters. */
    method ReadHandling(csr: nat) returns (r: Got)
      ensures r == Csr.ReadHandling(state.Registers(), csr)
    {
      hide CounterBits;
      state.AllInRegisters();
      hide HartState.Registers;
      match csr {
        case 0x340 => r := Value(state.mscratch.bits);
        case 0x341 => r := Value(state.mepc.bits);
        case 0x342 => r := Value(state.mcause.bits);
        case 0x343 => r := Value(state.mtval.bits);
        case 0x344 => r := Value(state.mip.bits);
        case 0x7A0 => r := Value(state.tselect.bits);
        case 0xB00 => r := Value(CounterBits(state.instructionCounter));
        case 0xB02 => r := Value(CounterBits(state.instructionCounter));
        case 0xF14 => r := Value(state.mhartid.bits);
        case _ => r := if ReadsZero(csr) then Value(0) else Refused;
      }
    }

    /** `_readCounter` */
    method ReadCounter(csr: nat) returns (r: Got)
      ensures r == if CounterGranted(state.Registers(), csr) then Value(CounterBits(state.Registers().counter)) else Refused
    {
      hide CounterGranted, CounterBits;
      state.AllInRegisters();
      hide HartState.Registers;
      var granted := CheckCounter(csr);
      r := if granted then Value(CounterBits(state.instructionCounter)) else Refused;
    }

    /** `write`; `false` is the access exception. */
    method Write(csr: nat, value: bv64) returns (ok: bool)
      requires state.Valid()
      modifies state, state.pmpCfg, state.pmpAddr, state.tlbRead, state.tlbWrite, state.tlbCode
      ensures state.Valid() && ok == Accessible(old(state.Registers()), csr)
      ensures state.Registers() == if ok then Written(old(state.Registers()), csr, value) else old(state.Registers())
      ensures state.FlushedIf(ok && WriteFlushes(old(state.Registers()), csr, value))
    {
      hide HartState.Registers, WrittenFloat, WrittenSupervisor, WrittenMachine, WrittenPmp, SupportedSatp, MstatusFlushes,
        SstatusInto;
      state.InRegisters();
      ok := PrivLevel(state.privilege) >= RequiredLevel(csr);
      if ok {
        if IsPmp(csr) {
          WritePmp(csr, value);
        } else if csr < 0x100 {
          WriteFloat(csr, value);
        } else if csr < 0x200 {
          WriteSupervisor(csr, value);
        } else {
          WriteMachine(csr, value);
        }
      }
    }

    /** `_writePmp` */
    method WritePmp(csr: nat, value: bv64)
      requires state.Valid() && IsPmp(csr)
      modifies state.pmpCfg, state.pmpAddr
      ensures state.Registers() == WrittenPmp(old(state.Registers()), csr, value)
    {
      if csr <= 0x3AF {
        var index := csr - 0x3A0;
        if index % 2 == 0 && index / 2 < PMP_CFGS {
          state.pmpCfg[index / 2] := Reg(value);
        }
      } else if csr - 0x3B0 < PMP_ADDRS {
        state.pmpAddr[csr - 0x3B0] := Reg(value);
      }
    }

    method WriteFloat(csr: nat, value: bv64)
      requires state.Valid() && csr < 0x100
      modifies state
      ensures state.Registers() == WrittenFloat(old(state.Registers()), csr, value)
      ensures state.codePage == old(state.codePage)
    {
      hide HartState.Registers;
      match csr {
        case 0x001 => state.SetFflags(Reg(value & 0x1F));
        case 0x002 => state.SetFrm(Reg(value & 7));
        case 0x003 =>
          state.SetFflags(Reg(value & 0x1F));
          state.SetFrm(Reg((value >> 5) & 7));
        case _ =>
      }
    }

    method WriteSupervisor(csr: nat, value: bv64)
      requires state.Valid() && 0x100 <= csr < 0x200
      modifies state, state.tlbRead, state.tlbWrite, state.tlbCode
      ensures state.Valid() && state.Registers() == WrittenSupervisor(old(state.Registers()), csr, value)
      ensures state.FlushedIf(WriteFlushes(old(state.Registers()), csr, value))
    {
      hide HartState.Registers, SupportedSatp, MstatusFlushes, SstatusInto, MstatusAfter, MergeReg;
      state.InRegisters();
      if csr == 0x100 {
        SetMstatus(SstatusInto(state.mstatus.bits, value));
      } else if csr == 0x180 {
        if SupportedSatp(value) {
          state.SetSatp(Reg(value));
          state.FlushTlb();
        }
      } else {
        WriteSupervisorPlain(csr, value);
      }
    }

    /** The supervisor registers whose writes flush nothing. */
    method WriteSupervisorPlain(csr: nat, value: bv64)
      requires state.Valid() && csr != 0x100 && csr != 0x180
      modifies state
      ensures state.Registers() == WrittenSupervisor(old(state.Registers()), csr, value)
      ensures state.codePage == old(state.codePage)
    {
      hide HartState.Registers, MergeReg;
      state.InRegisters();
      match csr {
        case 0x104 => state.SetMie(MergeReg(state.mie, value, state.mideleg));
        case 0x105 => state.SetStvec(Reg(value));
        case 0x106 => state.SetScounteren(Reg(value));
        case 0x140 => state.SetSscratch(Reg(value));
        case 0x141 => state.SetSepc(Reg(value));
        case 0x142 => state.SetScause(Reg(value));
        case 0x143 => state.SetStval(Reg(value));
        case 0x144 => state.SetMip(MergeReg(state.mip, value, state.mideleg));
        case _ =>
      }
    }

    method WriteMachine(csr: nat, value: bv64)
      requires state.Valid() && csr >= 0x200
      modifies state, state.tlbRead, state.tlbWrite, state.tlbCode
      ensures state.Valid() && state.Registers() == WrittenMachine(old(state.Registers()), csr, value)
      ensures state.FlushedIf(WriteFlushes(old(state.Registers()), csr, value))
    {
      hide HartState.Registers, MstatusFlushes, MstatusAfter, WrittenHandling;
      state.InRegisters();
      if csr == 0x300 {
        SetMstatus(value);
      } else {
        WriteMachinePlain(csr, value);
      }
    }

    /** The machine registers whose writes flush nothing. */
    method WriteMachinePlain(csr: nat, value: bv64)
      requires state.Valid() && csr != 0x300
      modifies state
      ensures state.Registers() == WrittenMachine(old(state.Registers()), csr, value)
      ensures state.codePage == old(state.codePage)
    {
      hide HartState.Registers, WrittenHandling;
      match csr {
        case 0x301 => state.SetMisa(Reg(value));
        case 0x302 => state.SetMedeleg(Reg(value));
        case 0x303 => state.SetMideleg(Reg(value));
        case 0x304 => state.SetMie(Reg(value));
        case 0x305 => state.SetMtvec(Reg(value));
        case 0x306 => state.SetMcounteren(Reg(value));
        case 0x30A => state.SetMenvcfg(Reg(value));
        case 0x31A => state.SetMenvcfgh(Reg(value));
        case 0x320 => state.SetMcountinhibit(Reg(value));
        case 0x7A0 => state.SetTselect(Reg(value));
        case _ => WriteHandling(csr, value);
      }
    }

    method WriteHandling(csr: nat, value: bv64)
      requires state.Valid()
      modifies state
      ensures state.Registers() == WrittenHandling(old(state.Registers()), csr, value)
      ensures state.codePage == old(state.codePage)
    {
      hide HartState.Registers;
      var v := Reg(value);
      match csr {
        case 0x340 => state.SetMscratch(v);
        case 0x341 => state.SetMepc(v);
        case 0x342 => state.SetMcause(v);
        case 0x343 => state.SetMtval(v);
        case 0x344 => state.SetMip(v);
        case _ =>
      }
    }

    /** `_setMstatus` */
    method SetMstatus(val: bv64)
      requires state.Valid()
      modifies state`mstatus, state`codePage, state.tlbRead, state.tlbWrite, state.tlbCode
      ensures state.Valid() && state.Registers() == old(state.Registers()).(mstatus := MstatusReg(old(state.mstatus), val))
      ensures state.FlushedIf(MstatusFlushes(old(state.mstatus.bits), val))
    {
      hide HartState.Registers, MstatusFlushes, UxlMask, SxlMask, MstatusMask, Merge;
      if MstatusFlushes(state.mstatus.bits, val) {
        state.FlushTlb();
      }
      var mask := MstatusMask(UxlMask(val), SxlMask(val));
      state.SetMstatus(Reg(Merge(state.mstatus.bits, val, mask)));
    }
  }
}
