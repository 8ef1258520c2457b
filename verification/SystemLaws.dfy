/** What the system instructions do, from the classic interpreter on: registers, calls into higher levels, returns, and sleep. */
module SystemLaws {
  import opened Words
  import opened Numbers
  import opened PhysMemory
  import opened Translate
  import opened Csr
  import opened Interpreter
  import opened TrapTheorems
  import Cpu
  import CF = CsrFields
  import D = Predecode

  // ---------------------------------------------------------------- register instructions

  lemma NewCsrDigits(kind: CsrKind, was: bv64, val: bv64, i: nat)
    requires i < 64
    ensures Set(NewCsr(kind, was, val), i) <==>
      match kind
      case ReadWrite => Set(val, i)
      case ReadSet => Set(was, i) || Set(val, i)
      case ReadClear => Set(was, i) && !Set(val, i)
  {
    hide Set, Bit, Index;
    var k := IndexWith(i);
    SetIsBit(val, k);
    SetIsBit(was, k);
    SetIsBit(NewCsr(kind, was, val), k);
    BitOr(was, val, k);
    BitClear(was, val, k);
  }

  /** What a register that holds `was` is handed, digit by digit: the operand, the digits of either, the digits of `was` alone. */
  predicate Handed(kind: CsrKind, was: bv64, val: bv64, x: bv64)
  {
    forall i: nat :: i < 64 ==> (Set(x, i) <==>
      match kind case ReadWrite => Set(val, i) case ReadSet => Set(was, i) || Set(val, i) case ReadClear => Set(was, i) && !Set(val, i))
  }

  lemma HandedOver(kind: CsrKind, was: bv64, val: bv64)
    ensures Handed(kind, was, val, NewCsr(kind, was, val))
  {
    hide Set, NewCsr;
    forall i: nat | i < 64
      ensures Set(NewCsr(kind, was, val), i) <==>
        match kind case ReadWrite => Set(val, i) case ReadSet => Set(was, i) || Set(val, i) case ReadClear => Set(was, i) && !Set(val, i)
    {
      NewCsrDigits(kind, was, val, i);
    }
  }

  lemma ReadableIsAccessible(s: Csrs, csr: nat, rtc: bv64)
    requires Read(s, csr, rtc).Value?
    ensures Accessible(s, csr)
  {
  }

  /** How far a word reaches: two bytes unless it ends in 3. */
  function InsnSize(insn: bv64): nat { if insn % 4 == 3 then 4 else 2 }

  lemma SizeAgrees(insn: bv64)
    ensures InsnSize(insn) == if D.IsCompressed(insn) then 2 else 4
  {
  }

  /** The program counter set to an address. */
  lemma PcSet(h: Hart, w: Outside, a: addr)
    requires Ready(h)
    ensures var h' := WithPc(h, w, a);
      h' == h.(mach := h'.mach) && CsrOf(h'.mach) == CsrOf(h.mach).(pc := RegOf(a)) && AddrOf(CsrOf(h'.mach).pc) == a
  {
    hide Serve, AsAddr;
    ServedCsr(h, w, Cpu.Sync(RegOf(a), CsrOf(h.mach).counter));
    AddressBack(a);
  }

  lemma AddressBack(a: addr)
    ensures AddrOf(RegOf(a)) == a
  {
    WordNumber(a);
  }

  /** What a classic instruction is given to look at. */
  ghost function Looked(h: Hart, w: Outside, arms: Arms, insn: bv64, pc: addr): Classic
    requires Ready(h)
  {
    arms.classic(insn, OperandsOf(WithPc(h, w, pc), pc, []))
  }

  /**
   * csrrw, csrrs and csrrc on a register that can be read, with a register or a five-bit number for operand: `rd`, unless it is
   * x0, gets the old value; the register is written unless csrrs or csrrc name x0 or zero; the next instruction follows.
   */
  lemma CsrInsnLeaves(h: Hart, w: Outside, arms: Arms, insn: bv64, pc: addr, csr: nat)
    requires Ready(h) && Looked(h, w, arms, insn, pc).CsrInsn? && Looked(h, w, arms, insn, pc).csr == csr
    requires Read(CsrOf(h.mach).(pc := RegOf(pc)), csr, w.clock(h.looks)).Value?
    ensures var (h', e) := Classically(h, w, arms, insn, pc);
      var c, next: addr := Looked(h, w, arms, insn, pc), (pc + InsnSize(insn)) % SPACE;
      var s := CsrOf(h.mach).(pc := RegOf(pc));
      var was := Read(s, csr, w.clock(h.looks)).v;
      && e == Going(next)
      && h'.regs == (if c.rd == 0 then h.regs else h.regs[c.rd := was])
      && exists val, x :: (if c.immediate then Unsigned(val) == c.rs1 else val == h.regs[c.rs1]) && Handed(c.kind, was, val, x)
           && CsrOf(h'.mach) == (if c.kind.ReadWrite? || c.rs1 != 0 then Written(s, csr, x) else s).(pc := RegOf(next))
  {
    hide Written, Handed, Unsigned, Read, WithPc, AsAddr, RegOf, D.IsCompressed, OperandsOf, CsrOp;
    var c, next: addr := Looked(h, w, arms, insn, pc), (pc + InsnSize(insn)) % SPACE;
    PcSet(h, w, pc);
    var h0 := WithPc(h, w, pc);
    CsrOpLeaves(h0, w, c.kind, csr, c.rd, c.rs1, c.immediate, insn);
    SizeAgrees(insn);
    PcSet(CsrOp(h0, w, c.kind, csr, c.rd, c.rs1, c.immediate, insn).0, w, next);
  }

  /** The write of a register instruction that may be made. */
  lemma CsrPutLeaves(h: Hart, w: Outside, csr: nat, writes: bool, x: bv64, rd: reg, was: bv64, insn: bv64)
    requires Ready(h) && Accessible(CsrOf(h.mach), csr)
    ensures var (h', way) := CsrPut(h, w, csr, writes, x, rd, was, insn);
      && way == Well && h'.regs == (if rd == 0 then h.regs else h.regs[rd := was])
      && CsrOf(h'.mach) == if writes then Written(CsrOf(h.mach), csr, x) else CsrOf(h.mach)
  {
    hide Written, Serve, Accessible;
    ServedCsr(h, w, Cpu.CsrWrite(csr, x));
  }

  lemma CsrOpLeaves(h: Hart, w: Outside, kind: CsrKind, csr: nat, rd: reg, rs1: reg, immediate: bool, insn: bv64)
    requires Ready(h) && Read(CsrOf(h.mach), csr, w.clock(h.looks)).Value?
    ensures var (h', way) := CsrOp(h, w, kind, csr, rd, rs1, immediate, insn);
      var s, was := CsrOf(h.mach), Read(CsrOf(h.mach), csr, w.clock(h.looks)).v;
      && way == Well && h'.regs == (if rd == 0 then h.regs else h.regs[rd := was])
      && exists val, x :: (if immediate then Unsigned(val) == rs1 else val == h.regs[rs1]) && Handed(kind, was, val, x)
           && CsrOf(h'.mach) == if kind.ReadWrite? || rs1 != 0 then Written(s, csr, x) else s
  {
    hide Written, Handed, Unsigned, NewCsr, Read, CsrPut, Accessible, Word64;
    var s, was := CsrOf(h.mach), Read(CsrOf(h.mach), csr, w.clock(h.looks)).v;
    var val := if immediate then Word64(rs1) else h.regs[rs1];
    ImmediateNumber(rs1);
    var x := NewCsr(kind, was, val);
    HandedOver(kind, was, val);
    ReadableIsAccessible(s, csr, w.clock(h.looks));
    CsrPutLeaves(h.(looks := h.looks + 1), w, csr, kind.ReadWrite? || rs1 != 0, x, rd, was, insn);
    assert (if immediate then Unsigned(val) == rs1 else val == h.regs[rs1]) && Handed(kind, was, val, x);
  }

  lemma ImmediateNumber(rs1: reg)
    ensures Unsigned(Word64(rs1)) == rs1
  {
    WordNumber(rs1);
  }

  /** A register that cannot be read: an illegal instruction, and nothing written. */
  lemma CsrInsnRefused(h: Hart, w: Outside, arms: Arms, insn: bv64, pc: addr)
    requires Ready(h) && Looked(h, w, arms, insn, pc).CsrInsn?
    requires Read(CsrOf(h.mach).(pc := RegOf(pc)), Looked(h, w, arms, insn, pc).csr, w.clock(h.looks)).Refused?
    ensures var (h', e) := Classically(h, w, arms, insn, pc);
      && e == Faulted(2, 2, false) && Unsigned(insn) == h'.tval && h'.regs == h.regs
      && CsrOf(h'.mach) == CsrOf(h.mach).(pc := RegOf(pc))
  {
    hide Read, Serve, WithPc, RegOf, D.IsCompressed, OperandsOf;
    PcSet(h, w, pc);
  }

  // ---------------------------------------------------------------- levels

  /**
   * Calls into higher levels report the level they come from: 8 from user, 9 from supervisor, 11 from machine level; ebreak reports
   * 3. mret below machine level, sret, wfi and the address fences at user level, and what is no instruction are illegal, which is 2
   * with the instruction for trap value. No register changes.
   */
  lemma SystemCauses(h: Hart, w: Outside, arms: Arms, insn: bv64, pc: addr)
    requires Ready(h)
    ensures var (h', e) := Classically(h, w, arms, insn, pc);
      var c, p := Looked(h, w, arms, insn, pc), CsrOf(h.mach).priv;
      var illegal := e == Faulted(2, 2, false) && h'.tval == Unsigned(insn) && h'.regs == h.regs;
      && (c.Ecall? ==> e == Faulted(if p == User then 8 else if p == Supervisor then 9 else if p == Machine then 11 else 10, 2, false))
      && (c.Ebreak? ==> e == Faulted(3, 2, false))
      && (c.MachineRet? && p != Machine ==> illegal)
      && (c.SupervisorRet? && p == User ==> illegal)
      && ((c.Wfi? || c.FenceVmaAll? || c.FenceVmaAt?) && p == User ==> illegal)
      && (c.Illegal? ==> illegal)
      && (c.Ecall? || c.Ebreak? ==> h'.regs == h.regs)
  {
    hide Serve, WithPc, RegOf, D.IsCompressed, OperandsOf, CsrOp, PlainOp;
    PcSet(h, w, pc);
  }

  /** mret at machine level and sret above user level go where the registers say. */
  lemma SystemReturns(h: Hart, w: Outside, arms: Arms, insn: bv64, pc: addr)
    requires Ready(h)
    ensures var (h', e) := Classically(h, w, arms, insn, pc);
      var c, s := Looked(h, w, arms, insn, pc), CsrOf(h.mach).(pc := RegOf(pc));
      && (c.MachineRet? && s.priv == Machine ==> CsrOf(h'.mach) == Mret(s) && e == Going(AddrOf(s.mepc)) && h'.regs == h.regs)
      && (c.SupervisorRet? && s.priv != User ==> CsrOf(h'.mach) == Sret(s) && e == Going(AddrOf(s.sepc)) && h'.regs == h.regs)
  {
    hide Serve, WithPc, RegOf, D.IsCompressed, OperandsOf, CsrOp, PlainOp, MstatusMret, MstatusSret, Mpp, Spp, AddrOf;
    PcSet(h, w, pc);
    ServedCsr(WithPc(h, w, pc), w, Cpu.DoMret);
    ServedCsr(WithPc(h, w, pc), w, Cpu.DoSret);
  }

  /** wfi above user level sleeps when no interrupt is both pending and enabled, and goes on with the next instruction. */
  lemma SystemSleeps(h: Hart, w: Outside, arms: Arms, insn: bv64, pc: addr)
    requires Ready(h) && Looked(h, w, arms, insn, pc).Wfi? && CsrOf(h.mach).priv != User
    ensures var (h', e) := Classically(h, w, arms, insn, pc);
      && e == Going((pc + InsnSize(insn)) % SPACE) && h'.regs == h.regs
      && (h'.down <==> h.down || forall i: nat :: i < 64 ==> !(Set(CsrOf(h.mach).mip.bits, i) && Set(CsrOf(h.mach).mie.bits, i)))
  {
    hide Serve, WithPc, RegOf, AddrOf, D.IsCompressed, OperandsOf, CsrOp, PlainOp, Set, Pending;
    PcSet(h, w, pc);
    SizeAgrees(insn);
    NothingPending(CsrOf(h.mach));
    NothingPending(CsrOf(WithPc(h, w, pc).mach));
    var h1 := FenceOp(WithPc(h, w, pc), w, Looked(h, w, arms, insn, pc), insn).0;
    PcSet(h1, w, (pc + InsnSize(insn)) % SPACE);
  }

  lemma NothingPending(s: Csrs)
    ensures Pending(s) == 0 <==> forall i: nat :: i < 64 ==> !(Set(s.mip.bits, i) && Set(s.mie.bits, i))
  {
    hide Set, Pending, Bit, Index;
    if Pending(s) != 0 {
      var k := SomeBit(Pending(s));
      IndexBound(k);
      PendingSet(s, k);
    } else {
      forall i: nat | i < 64 ensures !(Set(s.mip.bits, i) && Set(s.mie.bits, i)) {
        var k := IndexWith(i);
        PendingSet(s, k);
        BitZero(k);
      }
    }
  }

  lemma PendingSet(s: Csrs, k: index)
    ensures Bit(Pending(s), k) <==> Set(s.mip.bits, Index(k)) && Set(s.mie.bits, Index(k))
  {
    hide Set, Bit, Index, Pending;
    CF.PendingBit(s, k);
    SetIsBit(s.mip.bits, k);
    SetIsBit(s.mie.bits, k);
  }

  /** The fence an instruction asks for: of all pages, of the page of the address in a register, or of the code. */
  function FenceAsked(c: Classic, regs: seq<bv64>): (e: Option<Cpu.Event>)
    requires |regs| == 32
  {
    match c
    case FenceVmaAll => Some(Cpu.SfenceAll)
    case FenceVmaAt(rs1) => Some(Cpu.SfencePage(Unsigned(regs[rs1])))
    case FenceInsn => Some(Cpu.DoFenceI)
    case _ => None
  }

  lemma FenceServed(h: Hart, w: Outside, c: Classic, insn: bv64)
    requires Ready(h) && FenceAsked(c, h.regs).Some? && (c.FenceInsn? || CsrOf(h.mach).priv != User)
    ensures FenceOp(h, w, c, insn) == (Serve(h, w, FenceAsked(c, h.regs).value), Well)
  {
    hide Serve;
  }

  /** The fences; those of translations are for supervisors. Then the next instruction. */
  lemma SystemFences(h: Hart, w: Outside, arms: Arms, insn: bv64, pc: addr)
    requires Ready(h) && FenceAsked(Looked(h, w, arms, insn, pc), h.regs).Some?
    requires Looked(h, w, arms, insn, pc).FenceInsn? || CsrOf(h.mach).priv != User
    ensures var (h', e) := Classically(h, w, arms, insn, pc);
      var next: addr := (pc + InsnSize(insn)) % SPACE;
      h' == WithPc(Serve(WithPc(h, w, pc), w, FenceAsked(Looked(h, w, arms, insn, pc), h.regs).value), w, next) && e == Going(next)
  {
    hide Serve, WithPc, RegOf, AddrOf, D.IsCompressed, OperandsOf, CsrOp, PlainOp, FenceOp, LevelOp, Unsigned;
    PcSet(h, w, pc);
    SizeAgrees(insn);
    var c, h0 := Looked(h, w, arms, insn, pc), WithPc(h, w, pc);
    FenceServed(h0, w, c, insn);
    PcSet(FenceOp(h0, w, c, insn).0, w, (pc + InsnSize(insn)) % SPACE);
  }

  // ---------------------------------------------------------------- plain instructions

  /** FS, digits 14 and 13 of mstatus, is 3, and the other digits are as they were. */
  predicate MarkedDirty(ms: bv64, r: bv64)
  {
    r / 0x2000 % 4 == 3 && r % 0x2000 == ms % 0x2000 && r / 0x8000 == ms / 0x8000
  }

  lemma FsMarked(ms: bv64)
    ensures MarkedDirty(ms, FsDirty(ms))
  {
    hide FsDirty;
    FsField(ms);
    FsBelow(ms);
    FsAbove(ms);
  }

  lemma FsField(ms: bv64)
    ensures FsDirty(ms) / 0x2000 % 4 == 3
  {
  }

  lemma FsBelow(ms: bv64)
    ensures FsDirty(ms) % 0x2000 == ms % 0x2000
  {
  }

  lemma FsAbove(ms: bv64)
    ensures FsDirty(ms) / 0x8000 == ms / 0x8000
  {
  }

  /** The registers of a floating-point instruction's end: its flags are added, and FS is dirty when it wrote a register. */
  lemma FlagsAdded(s: Csrs, flags: bv64, dirty: bool)
    ensures var s' := WithFlags(s, flags, dirty);
      && s' == s.(fflags := s'.fflags, mstatus := s'.mstatus)
      && (forall i: nat :: i < 64 ==> (Set(s'.fflags.bits, i) <==> Set(s.fflags.bits, i) || Set(flags, i)))
      && (if dirty then MarkedDirty(s.mstatus.bits, s'.mstatus.bits) else s'.mstatus == s.mstatus)
  {
    hide Set, FsDirty, MarkedDirty, Or64;
    FsMarked(s.mstatus.bits);
    forall i: nat | i < 64 ensures Set(Or64(s.fflags.bits, flags), i) <==> Set(s.fflags.bits, i) || Set(flags, i) {
      FlagDigit(s.fflags.bits, flags, i);
    }
  }

  lemma FlagDigit(x: bv64, y: bv64, i: nat)
    requires i < 64
    ensures Set(Or64(x, y), i) <==> Set(x, i) || Set(y, i)
  {
    hide Set, Bit, Index;
    var k := IndexWith(i);
    SetIsBit(x, k);
    SetIsBit(y, k);
    SetIsBit(x | y, k);
    BitOr(x, y, k);
  }

  /** The end of an instruction: one register unless it is x0, the reservation, and the float unit. */
  lemma FinishedLeaves(h: Hart, w: Outside, rd: reg, val: bv64, reserved: int, f: Floating)
    requires Ready(h)
    ensures var h' := Finished(h, w, rd, val, reserved, f);
      && h'.reserved == reserved && h'.regs == (if rd == 0 then h.regs else h.regs[rd := val])
      && h'.floats == (if f.Floating? && f.write.Some? then h.floats[f.write.value.0 := f.write.value.1] else h.floats)
      && CsrOf(h'.mach) == if f.Floating? then WithFlags(CsrOf(h.mach), f.flags, f.write.Some?) else CsrOf(h.mach)
  {
    hide Serve, WithFlags;
    if f.Floating? {
      var h1 := (if rd != 0 then Registered(h, rd, val) else h).(reserved := reserved);
      var h2 := if f.write.Some? then h1.(floats := h1.floats[f.write.value.0 := f.write.value.1]) else h1;
      ServedCsr(h2, w, Cpu.FloatDone(f.flags, f.write.Some?));
    }
  }

  /** An instruction without accesses: its end, and the next address. */
  lemma FinishLeaves(h: Hart, w: Outside, arms: Arms, insn: bv64, pc: addr)
    requires Ready(h) && Looked(h, w, arms, insn, pc).Finish?
    ensures var (h', e) := Classically(h, w, arms, insn, pc);
      var c, s := Looked(h, w, arms, insn, pc), CsrOf(h.mach).(pc := RegOf(pc));
      var f := c.floating;
      && e == Going(c.next) && h'.reserved == c.reserved
      && h'.regs == (if c.rd == 0 then h.regs else h.regs[c.rd := c.val])
      && h'.floats == (if f.Floating? && f.write.Some? then h.floats[f.write.value.0 := f.write.value.1] else h.floats)
      && CsrOf(h'.mach) == (if f.Floating? then WithFlags(s, f.flags, f.write.Some?) else s).(pc := RegOf(c.next))
  {
    hide Finished, WithPc, RegOf, AddrOf, D.IsCompressed, OperandsOf, CsrOp, WithFlags;
    PcSet(h, w, pc);
    var h0, c := WithPc(h, w, pc), Looked(h, w, arms, insn, pc);
    FinishedLeaves(h0, w, c.rd, c.val, c.reserved, c.floating);
    PcSet(Finished(h0, w, c.rd, c.val, c.reserved, c.floating), w, c.next);
  }

  // ---------------------------------------------------------------- interrupts

  /** With an interrupt live the loop takes the trap of the lowest pending one, for one cycle; with none it executes the next. */
  lemma LoopInterrupts(h: Hart, w: Outside, arms: Arms, pc: addr, cycles: nat, target: nat)
    requires Ready(h) && target >= cycles > 0
    ensures var s := CsrOf(h.mach);
      if exists i: nat :: i < 64 && CF.Live(s, i) then
        var (h', l) := Loop(h, w, arms, pc, cycles, target);
        && l == Interrupted && h' == h.(mach := h'.mach)
        && CsrOf(h'.mach) == Trap(s.(pc := RegOf(pc)), InterruptCause(s), 0).(counter := target - cycles + 1)
      else
        Loop(h, w, arms, pc, cycles, target) ==
          Continued(Instruction(h, w, arms, pc).0, Instruction(h, w, arms, pc).1, w, arms, pc, cycles, target)
  {
    hide Serve, RegOf, AsAddr, HasPending, CF.Live, InterruptCause, Instruction, Continued, Trap;
    var s := CsrOf(h.mach);
    CF.PendingIsLive(s);
    if HasPending(s) {
      ServedCsr(h, w, Cpu.Sync(RegOf(pc), s.counter));
      var h1 := WithPc(h, w, pc);
      ServedCsr(h1, w, Cpu.Raise(InterruptCause(s), 0));
      var h2 := Serve(h1, w, Cpu.Raise(InterruptCause(s), 0));
      ServedCsr(h2, w, Cpu.Sync(CsrOf(h2.mach).pc, target - (cycles - 1)));
    }
  }

  /** A step of the machine: a sleeping hart stays asleep while no digit is set in both mip and mie, and otherwise runs awake. */
  lemma MachineSteps(h: Hart, w: Outside, arms: Arms, maxCycles: int)
    requires Ready(h)
    ensures var s := CsrOf(h.mach);
      Stepped(h, w, arms, maxCycles) ==
        if h.down && forall i: nat :: i < 64 ==> !(Set(s.mip.bits, i) && Set(s.mie.bits, i)) then (h, Idle)
        else if maxCycles <= 0 then (h.(down := false), Idle)
        else Loop(h.(down := false), w, arms, Unsigned(s.pc.bits), maxCycles, s.counter + maxCycles)
  {
    hide Loop, Set, Pending;
    NothingPending(CsrOf(h.mach));
  }
}
