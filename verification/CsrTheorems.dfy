/** What every register write, trap and return keeps. */
module CsrTheorems {
  import opened Words
  import opened Translate
  import opened Csr
  import P = Pte
  import PM = PhysMemory

  // ---------------------------------------------------------------- the translation context

  predicate SameContext(s: Csrs, s': Csrs)
  {
    ContextOf(s, true) == ContextOf(s', true) && ContextOf(s, false) == ContextOf(s', false)
  }

  /** What mstatus lends to translation: SUM, MXR, MPRV, and MPP while MPRV is on. */
  predicate SameView(ms: bv64, ms': bv64)
  {
    SumBit(ms) == SumBit(ms') && MxrBit(ms) == MxrBit(ms') && Mprv(ms) == Mprv(ms') && (Mprv(ms) ==> Mpp(ms) == Mpp(ms'))
  }

  lemma MstatusView(ms: bv64, val: bv64)
    requires !MstatusFlushes(ms, val)
    ensures SameView(ms, MstatusAfter(ms, val))
  {
    hide Merge, MstatusMask, UxlMask, SxlMask;
    MaskBits(UxlMask(val), SxlMask(val));
    MergeBits(ms, val, MstatusMask(UxlMask(val), SxlMask(val)));
    XorZero(ms, val);
  }

  lemma MaskBits(u: bv64, x: bv64)
    ensures MstatusMask(u, x) & 0xE_1800 == 0xE_1800
  {
  }

  lemma MergeBits(ms: bv64, val: bv64, mask: bv64)
    requires mask & 0xE_1800 == 0xE_1800
    ensures Merge(ms, val, mask) & 0xE_1800 == val & 0xE_1800
  {
  }

  lemma XorZero(ms: bv64, val: bv64)
    ensures (ms ^ val) & 0xE_0000 == 0 ==> ms & 0xE_0000 == val & 0xE_0000
    ensures (ms ^ val) & 0x1800 == 0 ==> ms & 0x1800 == val & 0x1800
  {
  }

  lemma FloatContext(s: Csrs, csr: nat, val: bv64)
    ensures var s' := WrittenFloat(s, csr, val);
      s'.priv == s.priv && s'.satp == s.satp && s'.mstatus == s.mstatus
  {
  }

  lemma PmpContext(s: Csrs, csr: nat, val: bv64)
    requires IsPmp(csr)
    ensures var s' := WrittenPmp(s, csr, val);
      s'.priv == s.priv && s'.satp == s.satp && s'.mstatus == s.mstatus
  {
  }

  lemma SupervisorContext(s: Csrs, csr: nat, val: bv64)
    ensures var s' := WrittenSupervisor(s, csr, val);
      && s'.priv == s.priv
      && s'.satp == (if csr == 0x180 && SupportedSatp(val) then Reg(val) else s.satp)
      && s'.mstatus == (if csr == 0x100 then SstatusReg(s.mstatus, val) else s.mstatus)
  {
    hide SstatusReg, MergeReg, SupportedSatp;
  }

  lemma HandlingContext(s: Csrs, csr: nat, val: bv64)
    ensures var s' := WrittenHandling(s, csr, val);
      s'.priv == s.priv && s'.satp == s.satp && s'.mstatus == s.mstatus
  {
  }

  lemma MachineContext(s: Csrs, csr: nat, val: bv64)
    ensures var s' := WrittenMachine(s, csr, val);
      && s'.priv == s.priv && s'.satp == s.satp
      && s'.mstatus == (if csr == 0x300 then MstatusReg(s.mstatus, val) else s.mstatus)
  {
    hide MstatusReg, WrittenHandling;
    HandlingContext(s, csr, val);
  }

  /** Which registers of the translation context a write can reach. */
  lemma WrittenContext(s: Csrs, csr: nat, val: bv64)
    ensures var s' := Written(s, csr, val);
      && s'.priv == s.priv
      && s'.satp == (if csr == 0x180 && SupportedSatp(val) then Reg(val) else s.satp)
      && s'.mstatus == (if csr == 0x100 then SstatusReg(s.mstatus, val)
                        else if csr == 0x300 then MstatusReg(s.mstatus, val) else s.mstatus)
  {
    hide WrittenFloat, WrittenPmp, WrittenSupervisor, WrittenMachine, MstatusReg, SstatusReg, SupportedSatp;
    FloatContext(s, csr, val);
    SupervisorContext(s, csr, val);
    MachineContext(s, csr, val);
    if IsPmp(csr) {
      PmpContext(s, csr, val);
    }
  }

  /** A register write that does not flush leaves the context of data and fetch translation as it was. */
  lemma WriteKeepsContext(s: Csrs, csr: nat, val: bv64)
    requires !WriteFlushes(s, csr, val)
    ensures SameContext(s, Written(s, csr, val))
  {
    hide Written, MstatusFlushes, MstatusAfter, SstatusInto, SumBit, MxrBit, Mprv, Mpp, SatpMode, SatpPpn, PrivOf;
    WrittenContext(s, csr, val);
    if csr == 0x100 {
      MstatusView(s.mstatus.bits, SstatusInto(s.mstatus.bits, val));
    } else if csr == 0x300 {
      MstatusView(s.mstatus.bits, val);
    }
  }

  lemma EnterBits(ms: bv64, level: bv64, bit: bv64)
    requires level <= 3 && bit <= 1
    ensures EnterM(ms, level, bit) & 0xE_0000 == ms & 0xE_0000
    ensures Mpp(EnterM(ms, level, bit)) == level && Mpie(EnterM(ms, level, bit)) == bit
    ensures level <= 1 ==> EnterS(ms, level, bit) & 0xE_0000 == ms & 0xE_0000
    ensures level <= 1 ==> Spp(EnterS(ms, level, bit)) == level && Spie(EnterS(ms, level, bit)) == bit
  {
  }

  lemma EnableBitSmall(ms: bv64, p: Priv)
    ensures EnableBit(ms, p) <= 1
  {
    match p {
      case User => assert ms & 1 <= 1;
      case Supervisor => assert (ms >> 1) & 1 <= 1;
      case Hypervisor => assert (ms >> 2) & 1 <= 1;
      case Machine => assert (ms >> 3) & 1 <= 1;
    }
  }

  lemma TrapBits(ms: bv64, p: Priv)
    ensures MstatusTrapM(ms, p) & 0xE_0000 == ms & 0xE_0000
    ensures p == User || p == Supervisor ==> MstatusTrapS(ms, p) & 0xE_0000 == ms & 0xE_0000
  {
    hide EnableBit, EnterM, EnterS;
    EnableBitSmall(ms, p);
    EnterBits(ms, PrivBits(p), EnableBit(ms, p));
  }

  lemma WithEnableBits(ms: bv64, bit: bv64)
    requires bit <= 1
    ensures ((ms & 0xFFFF_FFFF_FFFF_FFFE) | bit) & 0xE_0000 == ms & 0xE_0000
    ensures ((ms & 0xFFFF_FFFF_FFFF_FFFD) | (bit << 1)) & 0xE_0000 == ms & 0xE_0000
    ensures ((ms & 0xFFFF_FFFF_FFFF_FFFB) | (bit << 2)) & 0xE_0000 == ms & 0xE_0000
    ensures ((ms & 0xFFFF_FFFF_FFFF_FFF7) | (bit << 3)) & 0xE_0000 == ms & 0xE_0000
  {
  }

  lemma LeaveBits(ms: bv64)
    ensures LeaveM(ms) & 0xE_0000 == ms & 0xE_0000 && LeaveS(ms) & 0xE_0000 == ms & 0xE_0000
    ensures Mpie(ms) <= 1 && Spie(ms) <= 1
  {
  }

  lemma WithEnableKeeps(ms: bv64, p: Priv, bit: bv64)
    requires bit <= 1
    ensures WithEnableBit(ms, p, bit) & 0xE_0000 == ms & 0xE_0000
  {
    WithEnableBits(ms, bit);
  }

  lemma ReturnBits(ms: bv64)
    ensures MstatusMret(ms) & 0xE_0000 == ms & 0xE_0000
    ensures MstatusSret(ms) & 0xE_0000 == ms & 0xE_0000
  {
    hide WithEnableBit, LeaveM, LeaveS, Mpie, Spie, Mpp, Spp, PrivOf;
    var p, q := PrivOf(Mpp(ms)), PrivOf(Spp(ms));
    LeaveBits(ms);
    WithEnableKeeps(ms, p, Mpie(ms));
    WithEnableKeeps(ms, q, Spie(ms));
    LeaveBits(WithEnableBit(ms, p, Mpie(ms)));
    LeaveBits(WithEnableBit(ms, q, Spie(ms)));
  }

  lemma FlagsFromBits(ms: bv64, ms': bv64)
    requires ms & 0xE_0000 == ms' & 0xE_0000
    ensures SumBit(ms) == SumBit(ms') && MxrBit(ms) == MxrBit(ms') && Mprv(ms) == Mprv(ms')
  {
  }

  lemma FsContext(ms: bv64)
    ensures FsDirty(ms) & 0xE_0000 == ms & 0xE_0000 && FsDirty(ms) & 0x1800 == ms & 0x1800
  {
  }

  lemma MppFromBits(ms: bv64, ms': bv64)
    requires ms & 0x1800 == ms' & 0x1800
    ensures Mpp(ms) == Mpp(ms')
  {
  }

  /** Floating point leaves the translation context alone. */
  lemma FlagsContext(s: Csrs, flags: bv64, dirty: bool)
    ensures SameContext(s, WithFlags(s, flags, dirty))
  {
    hide FsDirty, SumBit, MxrBit, Mprv, Mpp, PrivOf, SatpMode, SatpPpn, Or64;
    FsContext(s.mstatus.bits);
    FlagsFromBits(s.mstatus.bits, FsDirty(s.mstatus.bits));
    MppFromBits(s.mstatus.bits, FsDirty(s.mstatus.bits));
  }

  /** The same for traps and returns: MPP may change, but only where MPRV does not look at it. */
  lemma PrivChangeKeepsContext(s: Csrs, s': Csrs)
    requires s'.mstatus.bits & 0xE_0000 == s.mstatus.bits & 0xE_0000 && s'.satp == s.satp
    requires !PrivFlushes(s, s')
    ensures SameContext(s, s')
  {
    hide SumBit, MxrBit, Mprv, Mpp, SatpMode, SatpPpn, PrivOf;
    FlagsFromBits(s.mstatus.bits, s'.mstatus.bits);
  }

  lemma TrapKeepsContext(s: Csrs, cause: bv64, tval: bv64)
    requires !PrivFlushes(s, Trap(s, cause, tval))
    ensures SameContext(s, Trap(s, cause, tval))
  {
    hide MstatusTrapM, MstatusTrapS, Mprv, IsInterrupt, BitSet;
    TrapBits(s.mstatus.bits, s.priv);
    PrivChangeKeepsContext(s, Trap(s, cause, tval));
  }

  lemma ReturnKeepsContext(s: Csrs)
    ensures !PrivFlushes(s, Mret(s)) ==> SameContext(s, Mret(s))
    ensures !PrivFlushes(s, Sret(s)) ==> SameContext(s, Sret(s))
  {
    hide MstatusMret, MstatusSret, Mprv, Mpp, Spp, PrivOf;
    ReturnBits(s.mstatus.bits);
    if !PrivFlushes(s, Mret(s)) {
      PrivChangeKeepsContext(s, Mret(s));
    }
    if !PrivFlushes(s, Sret(s)) {
      PrivChangeKeepsContext(s, Sret(s));
    }
  }

  // ---------------------------------------------------------------- traps nest

  /** The bits of mstatus that decide which interrupts are enabled at a level. */
  predicate SameEnables(s: Csrs, s': Csrs)
  {
    EnabledAtM(s) == EnabledAtM(s') && EnabledAtS(s) == EnabledAtS(s') &&
    s.mip == s'.mip && s.mie == s'.mie && s.mideleg == s'.mideleg
  }

  /** What a trap must give back on its return: pc, privilege and the enabled interrupts. */
  predicate Resumed(s: Csrs, s': Csrs)
  {
    s'.pc == s.pc && s'.priv == s.priv && SameEnables(s, s') && EnabledSet(s') == EnabledSet(s)
  }

  /** The bit equations behind the round trips, one for each level. */
  lemma RoundTripBitsU(ms: bv64)
    ensures LeaveM(WithEnableBit(EnterM(ms, 0, EnableBit(ms, User)), User, EnableBit(ms, User))) == BackBelow(ms)
  {
  }

  lemma RoundTripBitsSup(ms: bv64)
    ensures LeaveM(WithEnableBit(EnterM(ms, 1, EnableBit(ms, Supervisor)), Supervisor, EnableBit(ms, Supervisor))) == BackBelow(ms)
  {
  }

  lemma RoundTripBitsH(ms: bv64)
    ensures LeaveM(WithEnableBit(EnterM(ms, 2, EnableBit(ms, Hypervisor)), Hypervisor, EnableBit(ms, Hypervisor))) == BackBelow(ms)
  {
  }

  lemma RoundTripBitsM(ms: bv64)
    ensures LeaveM(WithEnableBit(EnterM(ms, 3, EnableBit(ms, Machine)), Machine, EnableBit(ms, Machine))) == BackToM(ms)
  {
  }

  /** mstatus after a machine trap and mret: MPP cleared, MPIE set. */
  function BackToM(ms: bv64): bv64 { (ms & !0x1800) | 0x80 }

  /** The same when a lower level was interrupted: MIE is lost too. */
  function BackBelow(ms: bv64): bv64 { (ms & !0x1808) | 0x80 }

  /** What a machine trap and its mret leave of mstatus: MPP is cleared, MPIE set, and MIE lost unless machine level was interrupted. */
  lemma MstatusRoundTripM(ms: bv64, p: Priv)
    ensures PrivOf(Mpp(MstatusTrapM(ms, p))) == p
    ensures MstatusMret(MstatusTrapM(ms, p)) == if p == Machine then BackToM(ms) else BackBelow(ms)
  {
    hide EnableBit, EnterM, LeaveM, WithEnableBit, Mpp, Mpie, BackToM, BackBelow;
    EnableBitSmall(ms, p);
    EnterBits(ms, PrivBits(p), EnableBit(ms, p));
    RoundTripBitsU(ms);
    RoundTripBitsSup(ms);
    RoundTripBitsH(ms);
    RoundTripBitsM(ms);
  }

  lemma EnableFromBits(ms: bv64)
    ensures Sie(BackBelow(ms)) == Sie(ms) && Sie(BackToM(ms)) == Sie(ms) && Mie(BackToM(ms)) == Mie(ms)
    ensures Spp(BackBelow(ms)) == Spp(ms) && Spie(BackBelow(ms)) == Spie(ms)
  {
  }

  lemma SameEnablesSameSet(s: Csrs, s': Csrs)
    ensures SameEnables(s, s') ==> EnabledSet(s) == EnabledSet(s')
  {
    hide Sie, Mie, Taken, Both;
  }

  /** What a machine handler must keep for its own return: the saved pc, level and enable bit, and the interrupt registers. */
  predicate MachineFrame(s: Csrs, s': Csrs)
  {
    && s'.mepc == s.mepc && Mpp(s'.mstatus.bits) == Mpp(s.mstatus.bits) && Mpie(s'.mstatus.bits) == Mpie(s.mstatus.bits)
    && s'.mip == s.mip && s'.mie == s.mie && s'.mideleg == s.mideleg
  }

  lemma MretEnables(ms: bv64, bit: bv64)
    requires bit <= 1
    ensures Sie(LeaveM(WithEnableBit(ms, Supervisor, bit))) == (bit == 1)
    ensures Mie(LeaveM(WithEnableBit(ms, Machine, bit))) == (bit == 1)
  {
  }

  lemma MieBit(ms: bv64)
    ensures Mie(ms) == (EnableBit(ms, Machine) == 1)
  {
  }

  /** A trap into machine level is undone by mret from any handler state that kept the frame. */
  lemma MachineTrapReturns(s: Csrs, cause: bv64, tval: bv64, h: Csrs)
    requires !Delegated(s, cause) && MachineFrame(Trap(s, cause, tval), h)
    ensures Resumed(s, Mret(h))
  {
    hide LeaveM, EnterM, EnableBit, WithEnableBit, Mpp, Mpie, PrivOf, Sie, Mie, Delegated, EnabledSet;
    SameEnablesSameSet(s, Mret(h));
    var bit := EnableBit(s.mstatus.bits, s.priv);
    EnableBitSmall(s.mstatus.bits, s.priv);
    EnterBits(s.mstatus.bits, PrivBits(s.priv), bit);
    MretEnables(h.mstatus.bits, bit);
    SieBit(s.mstatus.bits);
    MieBit(s.mstatus.bits);
    MstatusRoundTripM(s.mstatus.bits, s.priv);
  }

  /** What a supervisor handler must keep for its own return: the saved pc, level and enable bit, and the interrupt registers. */
  predicate SavedFrame(s: Csrs, s': Csrs)
  {
    && s'.sepc == s.sepc && s'.scause == s.scause && s'.stval == s.stval
    && Spp(s'.mstatus.bits) == Spp(s.mstatus.bits) && Spie(s'.mstatus.bits) == Spie(s.mstatus.bits)
    && s'.mip == s.mip && s'.mie == s.mie && s'.mideleg == s.mideleg
  }

  lemma SretEnables(ms: bv64, bit: bv64)
    requires bit <= 1
    ensures Sie(LeaveS(WithEnableBit(ms, Supervisor, bit))) == (bit == 1)
  {
  }

  lemma SieBit(ms: bv64)
    ensures Sie(ms) == (EnableBit(ms, Supervisor) == 1)
  {
  }

  /** A delegated trap is undone by sret from any handler state that kept the frame. */
  lemma SupervisorTrapReturns(s: Csrs, cause: bv64, tval: bv64, h: Csrs)
    requires Delegated(s, cause) && SavedFrame(Trap(s, cause, tval), h)
    ensures Resumed(s, Sret(h))
  {
    hide LeaveS, EnterS, EnableBit, WithEnableBit, Spp, Spie, Sie, Mie, IsInterrupt, BitSet, EnabledSet;
    SameEnablesSameSet(s, Sret(h));
    var bit := EnableBit(s.mstatus.bits, s.priv);
    EnableBitSmall(s.mstatus.bits, s.priv);
    EnterBits(s.mstatus.bits, PrivBits(s.priv), bit);
    SretEnables(h.mstatus.bits, bit);
    SieBit(s.mstatus.bits);
  }

  /**
   * Raw MIE is not part of the bargain: after a machine trap and its mret it is what it was exactly when machine level was
   * interrupted or it was off.
   */
  lemma MieIsLost(s: Csrs, cause: bv64, tval: bv64)
    requires !Delegated(s, cause)
    ensures Mie(Mret(Trap(s, cause, tval)).mstatus.bits) == Mie(s.mstatus.bits) <==> s.priv == Machine || !Mie(s.mstatus.bits)
  {
    hide MstatusTrapM, MstatusMret, Mpp, PrivOf, Delegated, Mie, BackToM, BackBelow;
    MstatusRoundTripM(s.mstatus.bits, s.priv);
    MieCleared(s.mstatus.bits);
    EnableFromBits(s.mstatus.bits);
  }

  lemma MieCleared(ms: bv64)
    ensures !Mie(BackBelow(ms))
  {
  }

  // ---------------------------------------------------------------- what every reachable register file satisfies

  function Uxl(ms: bv64): bv64 { (ms >> 32) & 3 }
  function Sxl(ms: bv64): bv64 { (ms >> 34) & 3 }
  predicate XlOk(x: bv64) { x == 1 || x == 2 }
  predicate NoSd(ms: bv64) { ms & 0x8000_0000_0000_0000 == 0 }

  predicate MstatusOk(ms: bv64) { XlOk(Uxl(ms)) && XlOk(Sxl(ms)) && NoSd(ms) }

  predicate CsrInv(s: Csrs) { MstatusOk(s.mstatus.bits) && SupportedSatp(s.satp.bits) }

  /** One step as the registers see it: a write instruction, a trap, a return, or a floating-point instruction. */
  datatype Op =
    | WriteOp(csr: nat, val: bv64) | TrapOp(cause: bv64, tval: bv64) | MretOp(insn: bv64) | SretOp(insn: bv64)
    | FloatOp(flags: bv64, dirty: bool)

  /** Instructions that are not allowed raise illegal-instruction. */
  function Step(s: Csrs, op: Op): Csrs
  {
    match op
    case WriteOp(csr, val) => if Accessible(s, csr) then Written(s, csr, val) else Trap(s, 2, val)
    case TrapOp(cause, tval) => Trap(s, cause, tval)
    case MretOp(insn) => if s.priv == Machine then Mret(s) else Trap(s, 2, insn)
    case SretOp(insn) => if s.priv == User then Trap(s, 2, insn) else Sret(s)
    case FloatOp(flags, dirty) => WithFlags(s, flags, dirty)
  }

  function Run(s: Csrs, ops: seq<Op>): Csrs
    decreases |ops|
  {
    if ops == [] then s else Run(Step(s, ops[0]), ops[1..])
  }

  /** Bits 63 and 35 to 32 are all that MstatusOk looks at. */
  lemma OkFromBits(ms: bv64, ms': bv64)
    requires ms' & 0x8000_000F_0000_0000 == ms & 0x8000_000F_0000_0000
    ensures MstatusOk(ms) == MstatusOk(ms')
  {
    assert Uxl(ms) == Uxl(ms') && Sxl(ms) == Sxl(ms') && NoSd(ms) == NoSd(ms');
  }

  lemma EnterHighM(ms: bv64, level: bv64, bit: bv64)
    requires level <= 3 && bit <= 1
    ensures EnterM(ms, level, bit) & 0x8000_000F_0000_0000 == ms & 0x8000_000F_0000_0000
  {
  }

  lemma EnterHighS(ms: bv64, level: bv64, bit: bv64)
    requires level <= 3 && bit <= 1
    ensures EnterS(ms, level, bit) & 0x8000_000F_0000_0000 == ms & 0x8000_000F_0000_0000
  {
  }

  lemma LeaveHigh(ms: bv64, p: Priv, bit: bv64)
    requires bit <= 1
    ensures LeaveM(WithEnableBit(ms, p, bit)) & 0x8000_000F_0000_0000 == ms & 0x8000_000F_0000_0000
    ensures LeaveS(WithEnableBit(ms, p, bit)) & 0x8000_000F_0000_0000 == ms & 0x8000_000F_0000_0000
  {
    match p {
      case User =>
      case Supervisor =>
      case Hypervisor =>
      case Machine =>
    }
  }

  lemma TrapKeepsOk(s: Csrs, cause: bv64, tval: bv64)
    requires CsrInv(s)
    ensures CsrInv(Trap(s, cause, tval))
  {
    hide MstatusOk, EnterM, EnterS, EnableBit, SupportedSatp, Delegated;
    var p := s.priv;
    EnableBitSmall(s.mstatus.bits, p);
    EnterHighM(s.mstatus.bits, PrivBits(p), EnableBit(s.mstatus.bits, p));
    EnterHighS(s.mstatus.bits, PrivBits(p), EnableBit(s.mstatus.bits, p));
    OkFromBits(s.mstatus.bits, MstatusTrapM(s.mstatus.bits, p));
    OkFromBits(s.mstatus.bits, MstatusTrapS(s.mstatus.bits, p));
  }

  lemma ReturnKeepsOk(s: Csrs)
    requires CsrInv(s)
    ensures CsrInv(Mret(s)) && CsrInv(Sret(s))
  {
    hide MstatusOk, LeaveM, LeaveS, WithEnableBit, SupportedSatp, Mpp, Spp, Mpie, Spie, PrivOf;
    var ms := s.mstatus.bits;
    LeaveBits(ms);
    LeaveHigh(ms, PrivOf(Mpp(ms)), Mpie(ms));
    LeaveHigh(ms, PrivOf(Spp(ms)), Spie(ms));
    OkFromBits(ms, MstatusMret(ms));
    OkFromBits(ms, MstatusSret(ms));
  }

  lemma MstatusWriteOk(ms: bv64, val: bv64)
    requires MstatusOk(ms)
    ensures MstatusOk(MstatusAfter(ms, val))
  {
    hide Uxl, Sxl, NoSd, Merge, MstatusMask, UxlMask, SxlMask;
    XlMasks(val);
    AfterFields(ms, val, UxlMask(val), SxlMask(val));
  }

  lemma XlMasks(val: bv64)
    ensures UxlMask(val) == if XlOk(Uxl(val)) then 0x3_0000_0000 else 0
    ensures SxlMask(val) == if XlOk(Sxl(val)) then 0xC_0000_0000 else 0
  {
  }

  lemma AfterFields(ms: bv64, val: bv64, u: bv64, x: bv64)
    requires (u == 0 || u == 0x3_0000_0000) && (x == 0 || x == 0xC_0000_0000)
    ensures var r := Merge(ms, val, MstatusMask(u, x));
      && Uxl(r) == (if u == 0 then Uxl(ms) else Uxl(val))
      && Sxl(r) == (if x == 0 then Sxl(ms) else Sxl(val))
      && NoSd(r) == NoSd(ms)
  {
  }

  lemma WriteKeepsOk(s: Csrs, csr: nat, val: bv64)
    requires CsrInv(s)
    ensures CsrInv(Written(s, csr, val))
  {
    hide Written, MstatusOk, MstatusAfter, SstatusInto, SupportedSatp;
    WrittenContext(s, csr, val);
    MstatusWriteOk(s.mstatus.bits, val);
    MstatusWriteOk(s.mstatus.bits, SstatusInto(s.mstatus.bits, val));
  }

  lemma StepKeepsInv(s: Csrs, op: Op)
    requires CsrInv(s)
    ensures CsrInv(Step(s, op))
  {
    hide MstatusOk, SupportedSatp, Accessible, Trap, Written, Mret, Sret, FsDirty, CsrInv;
    match op {
      case WriteOp(csr, val) => WriteKeepsOk(s, csr, val); TrapKeepsOk(s, 2, val);
      case TrapOp(cause, tval) => TrapKeepsOk(s, cause, tval);
      case MretOp(insn) => ReturnKeepsOk(s); TrapKeepsOk(s, 2, insn);
      case SretOp(insn) => ReturnKeepsOk(s); TrapKeepsOk(s, 2, insn);
      case FloatOp(flags, dirty) => FlagsOk(s, flags, dirty);
    }
  }

  lemma FlagsOk(s: Csrs, flags: bv64, dirty: bool)
    requires CsrInv(s)
    ensures CsrInv(WithFlags(s, flags, dirty))
  {
    hide MstatusOk, SupportedSatp, FsDirty;
    FsHigh(s.mstatus.bits);
    OkFromBits(s.mstatus.bits, FsDirty(s.mstatus.bits));
  }

  lemma FsHigh(ms: bv64)
    ensures FsDirty(ms) & 0x8000_000F_0000_0000 == ms & 0x8000_000F_0000_0000
  {
  }

  /** In every reachable state satp selects bare or Sv39, UXL and SXL are 1 or 2, and SD is not stored. */
  lemma {:induction false} RunKeepsInv(s: Csrs, ops: seq<Op>)
    requires CsrInv(s)
    ensures CsrInv(Run(s, ops))
    decreases |ops|
  {
    hide CsrInv, Step;
    if ops != [] {
      StepKeepsInv(s, ops[0]);
      RunKeepsInv(Step(s, ops[0]), ops[1..]);
    }
  }

  /** So the unimplemented and access-fault branches of translation are dead. */
  lemma NoDeadModes(s: Csrs, m: PM.Mem, data: bool, va: addr, acc: P.Access)
    requires CsrInv(s)
    ensures var t := Xlate(m, ContextOf(s, data), va, acc); t.Physical? || t.PageFault?
  {
    hide MstatusOk, Walk, LeafOk, BuildPa;
  }

  predicate SdSet(v: bv64) { v & 0x8000_0000_0000_0000 != 0 }
  function Below63(v: bv64): bv64 { v & 0x7FFF_FFFF_FFFF_FFFF }

  /** SD reads as set exactly when FS or XS is dirty; every other bit reads as stored. */
  lemma SdReads(s: Csrs, rtc: bv64)
    requires CsrInv(s) && s.priv == Machine
    ensures var r := Read(s, 0x300, rtc);
      r.Value? && SdSet(r.v) == Dirty(s.mstatus.bits) && Below63(r.v) == Below63(s.mstatus.bits)
  {
    hide MstatusRead, Uxl, Sxl, NoSd, SdSet, Dirty, Below63, SupportedSatp;
    SdBits(s.mstatus.bits);
  }

  lemma SdBits(ms: bv64)
    requires NoSd(ms)
    ensures var r := MstatusRead(ms, 0xFFFF_FFFF_FFFF_FFFF);
      SdSet(r) == Dirty(ms) && Below63(r) == Below63(ms)
  {
    hide WithSd, Dirty, SdSet, NoSd, Below63;
    AllBits(ms);
    SetSd(ms);
  }

  lemma AllBits(ms: bv64)
    ensures ms & 0xFFFF_FFFF_FFFF_FFFF == ms
    ensures NoSd(ms) ==> !SdSet(ms)
  {
  }

  lemma SetSd(ms: bv64)
    ensures SdSet(WithSd(ms)) && Below63(WithSd(ms)) == Below63(ms)
  {
  }

  // ---------------------------------------------------------------- confinement below machine level

  /** MIE, MPIE, MPP, MPRV. */
  function MachineBits(ms: bv64): bv64 { ms & 0x2_1888 }

  /** The interrupt bits machine level has not delegated. */
  function Kept(v: bv64, mideleg: bv64): bv64 { v & !mideleg }

  predicate SameMachineRegs(s: Csrs, s': Csrs)
  {
    && s'.mtvec == s.mtvec && s'.mscratch == s.mscratch && s'.mepc == s.mepc && s'.mcause == s.mcause && s'.mtval == s.mtval
    && s'.mhartid == s.mhartid && s'.misa == s.misa && s'.medeleg == s.medeleg && s'.mideleg == s.mideleg
    && s'.mcounteren == s.mcounteren && s'.menvcfg == s.menvcfg && s'.menvcfgh == s.menvcfgh
    && s'.mcountinhibit == s.mcountinhibit && s'.tselect == s.tselect && s'.pmpCfg == s.pmpCfg && s'.pmpAddr == s.pmpAddr
  }

  predicate SameMachineBits(s: Csrs, s': Csrs)
  {
    && MachineBits(s'.mstatus.bits) == MachineBits(s.mstatus.bits)
    && Kept(s'.mie.bits, s.mideleg.bits) == Kept(s.mie.bits, s.mideleg.bits)
    && Kept(s'.mip.bits, s.mideleg.bits) == Kept(s.mip.bits, s.mideleg.bits)
  }

  /** The state that belongs to machine level. */
  predicate SameMachine(s: Csrs, s': Csrs) { SameMachineRegs(s, s') && SameMachineBits(s, s') }

  lemma MergeOutside(old_: bv64, val: bv64, mask: bv64)
    ensures Kept(Merge(old_, val, mask), mask) == Kept(old_, mask)
  {
  }

  lemma SstatusConfined(ms: bv64, val: bv64)
    ensures MachineBits(MstatusAfter(ms, SstatusInto(ms, val))) == MachineBits(ms)
  {
    hide MstatusMask, UxlMask, SxlMask;
    var v := SstatusInto(ms, val);
    IntoKeeps(ms, val);
    MergeSame(ms, v, MstatusMask(UxlMask(v), SxlMask(v)));
  }

  lemma IntoKeeps(ms: bv64, val: bv64)
    ensures SstatusInto(ms, val) & 0x2_1888 == ms & 0x2_1888
  {
  }

  lemma MergeSame(ms: bv64, v: bv64, mask: bv64)
    requires v & 0x2_1888 == ms & 0x2_1888
    ensures Merge(ms, v, mask) & 0x2_1888 == ms & 0x2_1888
  {
  }

  lemma SupervisorWriteRegs(s: Csrs, csr: nat, val: bv64)
    ensures SameMachineRegs(s, WrittenSupervisor(s, csr, val))
  {
    hide SstatusReg, MergeReg, SupportedSatp;
    var s' := WrittenSupervisor(s, csr, val);
    assert s' == s.(mstatus := s'.mstatus, mie := s'.mie, mip := s'.mip, stvec := s'.stvec, scounteren := s'.scounteren,
                    sscratch := s'.sscratch, sepc := s'.sepc, scause := s'.scause, stval := s'.stval, satp := s'.satp);
  }

  lemma SupervisorWriteParts(s: Csrs, csr: nat, val: bv64)
    ensures var s' := WrittenSupervisor(s, csr, val);
      && s'.mstatus == (if csr == 0x100 then SstatusReg(s.mstatus, val) else s.mstatus)
      && s'.mie == (if csr == 0x104 then MergeReg(s.mie, val, s.mideleg) else s.mie)
      && s'.mip == (if csr == 0x144 then MergeReg(s.mip, val, s.mideleg) else s.mip)
  {
    hide SstatusReg, MergeReg, SupportedSatp;
  }

  lemma SupervisorWriteConfined(s: Csrs, csr: nat, val: bv64)
    ensures SameMachine(s, WrittenSupervisor(s, csr, val))
  {
    hide WrittenSupervisor, MstatusAfter, SstatusInto, Merge, MachineBits, Kept, SameMachineRegs;
    SupervisorWriteRegs(s, csr, val);
    SupervisorWriteParts(s, csr, val);
    SstatusConfined(s.mstatus.bits, val);
    MergeOutside(s.mie.bits, val, s.mideleg.bits);
    MergeOutside(s.mip.bits, val, s.mideleg.bits);
  }

  lemma EnterSMachineBits(ms: bv64, level: bv64, bit: bv64)
    requires level <= 1 && bit <= 1
    ensures MachineBits(EnterS(ms, level, bit)) == MachineBits(ms)
  {
  }

  lemma LeaveSMachineBits(ms: bv64, bit: bv64)
    requires bit <= 1
    ensures MachineBits(LeaveS(WithEnableBit(ms, User, bit))) == MachineBits(ms)
    ensures MachineBits(LeaveS(WithEnableBit(ms, Supervisor, bit))) == MachineBits(ms)
  {
  }

  lemma SppIsLow(ms: bv64)
    ensures Spp(ms) == 0 || Spp(ms) == 1
  {
    SppBit(ms >> 8);
  }

  lemma SppBit(x: bv64)
    ensures x & 1 == 0 || x & 1 == 1
  {
  }

  lemma FsMachineBits(ms: bv64)
    ensures MachineBits(FsDirty(ms)) == MachineBits(ms)
  {
  }

  lemma SretConfined(s: Csrs)
    ensures SameMachine(s, Sret(s))
  {
    hide LeaveS, WithEnableBit, MachineBits, Spp, Spie, Kept;
    var ms := s.mstatus.bits;
    SppIsLow(ms);
    LeaveBits(ms);
    LeaveSMachineBits(ms, Spie(ms));
  }

  lemma TrapSConfined(s: Csrs, cause: bv64, tval: bv64)
    requires s.priv == User || s.priv == Supervisor
    ensures SameMachine(s, TrapS(s, Reg(cause), Reg(tval)))
  {
    hide EnterS, EnableBit, MachineBits, Kept;
    EnableBitSmall(s.mstatus.bits, s.priv);
    EnterSMachineBits(s.mstatus.bits, PrivBits(s.priv), EnableBit(s.mstatus.bits, s.priv));
  }

  lemma LowWriteConfined(s: Csrs, csr: nat, val: bv64)
    requires s.priv != Machine && Accessible(s, csr)
    ensures SameMachine(s, Written(s, csr, val))
  {
    assert SameMachine(s, s);
    hide WrittenSupervisor, WrittenFloat, MachineBits, Kept, SameMachine;
    SupervisorWriteConfined(s, csr, val);
    FloatConfined(s, csr, val);
    if csr >= 0x200 {
      NoMachineRegister(s, csr, val);
    }
  }

  lemma FloatConfined(s: Csrs, csr: nat, val: bv64)
    ensures SameMachine(s, WrittenFloat(s, csr, val))
  {
    hide MachineBits, Kept;
  }

  /** Every machine-level register's number asks for machine level. */
  lemma NoMachineRegister(s: Csrs, csr: nat, val: bv64)
    requires csr >= 0x200 && RequiredLevel(csr) < 3
    ensures !IsPmp(csr) && WrittenMachine(s, csr, val) == s
  {
  }

  /** A step from below machine level that stays below it changes nothing of machine level's. */
  lemma StepConfined(s: Csrs, op: Op)
    requires s.priv != Machine && Step(s, op).priv != Machine
    ensures SameMachine(s, Step(s, op))
  {
    hide MachineBits, Kept, Written, Sret, TrapS, FsDirty, Accessible, IsInterrupt, BitSet;
    match op {
      case WriteOp(csr, val) =>
        if Accessible(s, csr) {
          LowWriteConfined(s, csr, val);
        } else {
          TrapSConfined(s, 2, val);
        }
      case TrapOp(cause, tval) => TrapSConfined(s, cause, tval);
      case MretOp(insn) => TrapSConfined(s, 2, insn);
      case SretOp(insn) =>
        if s.priv == User {
          TrapSConfined(s, 2, insn);
        } else {
          SretConfined(s);
        }
      case FloatOp(_, _) => FsMachineBits(s.mstatus.bits);
    }
  }

  /** No state of the run, from the first to the last, is at machine level. */
  predicate StaysBelow(s: Csrs, ops: seq<Op>)
    decreases |ops|
  {
    s.priv != Machine && (ops != [] ==> StaysBelow(Step(s, ops[0]), ops[1..]))
  }

  /** Until a trap to machine level, no run can touch machine-level state. */
  lemma {:induction false} RunConfined(s: Csrs, ops: seq<Op>)
    requires StaysBelow(s, ops)
    ensures SameMachine(s, Run(s, ops))
    decreases |ops|
  {
    hide Step, MachineBits, Kept;
    if ops != [] {
      StepConfined(s, ops[0]);
      RunConfined(Step(s, ops[0]), ops[1..]);
    }
  }

  // ---------------------------------------------------------------- which interrupt is taken

  predicate BitAt(v: bv64, i: nat)
    requires i < 64
  {
    (v >> (i as bv7)) & 1 != 0
  }

  lemma SubsetBit(t: bv64, m: bv64, i: nat)
    requires i < 64 && t & m == t && BitAt(t, i)
    ensures BitAt(m, i)
  {
    SubsetShift(t, m, i as bv7);
  }

  lemma SubsetShift(t: bv64, m: bv64, i: bv7)
    requires i < 64 && t & m == t && (t >> i) & 1 != 0
    ensures (m >> i) & 1 != 0
  {
  }

  lemma {:induction false} LowestFound(v: bv64, i: nat)
    requires i <= 32
    ensures forall k :: i <= k < LowestFrom(v, i) ==> !BitAt(v, k)
    ensures LowestFrom(v, i) < 32 ==> BitAt(v, LowestFrom(v, i))
    decreases 32 - i
  {
    if i < 32 && !BitAt(v, i) {
      LowestFound(v, i + 1);
    }
  }

  lemma {:induction false} SomeLowBit(v: bv64, i: nat, k: nat)
    requires i <= k < 32 && BitAt(v, k)
    ensures LowestFrom(v, i) <= k
    decreases 32 - i
  {
    if i < k && !BitAt(v, i) {
      SomeLowBit(v, i + 1, k);
    }
  }

  function LowWord(v: bv64): bv64 { v & 0xFFFF_FFFF }

  lemma TakenSubset(mask: bv64, mideleg: bv64, atM: bool, atS: bool)
    ensures Taken(mask, mideleg, atM, atS) & mask == Taken(mask, mideleg, atM, atS)
  {
  }

  /** A word with a bit among the low 32 has a lowest one. */
  lemma LowestBelow32(v: bv64, k: nat)
    requires k < 32 && BitAt(v, k)
    ensures v != 0 && LowWord(v) != 0
  {
    LowBitShows(v, k as bv7);
  }

  lemma LowBitShows(v: bv64, k: bv7)
    requires k < 32 && (v >> k) & 1 != 0
    ensures v & 0xFFFF_FFFF != 0
  {
  }

  /**
   * The interrupt taken is the lowest pending one. It is the lowest enabled one exactly when that lowest pending bit is itself
   * enabled; `k` is any enabled interrupt among the 32 that exist.
   */
  lemma LowestPendingTaken(s: Csrs, k: nat)
    requires k < 32 && BitAt(EnabledSet(s), k)
    ensures var low := Ctz32(Pending(s));
      && low < 32 && BitAt(Pending(s), low) && (forall j :: 0 <= j < low ==> !BitAt(Pending(s), j))
      && (low == Ctz32(EnabledSet(s)) <==> BitAt(EnabledSet(s), low))
  {
    hide Taken, Pending, BitAt, LowestFrom, Mie, Sie, LowWord;
    var p, e := Pending(s), EnabledSet(s);
    TakenSubset(p, s.mideleg.bits, EnabledAtM(s), EnabledAtS(s));
    SubsetBit(e, p, k);
    CtzIsLowest(p, k);
    CtzIsLowest(e, k);
    LowestFound(p, 0);
    LowestFound(e, 0);
    SomeLowBit(p, 0, k);
    SomeLowBit(e, 0, k);
    var i, j := LowestFrom(p, 0), LowestFrom(e, 0);
    SubsetBit(e, p, j);
    SomeLowBit(p, 0, j);
    if BitAt(e, i) {
      SomeLowBit(e, 0, i);
    }
  }

  lemma CtzIsLowest(v: bv64, k: nat)
    requires k < 32 && BitAt(v, k)
    ensures Ctz32(v) == LowestFrom(v, 0)
  {
    hide LowestFrom, BitAt;
    LowestBelow32(v, k);
  }

  /** Machine code with MIE set, a delegated software interrupt and the machine timer pending: the timer is enabled, the other is taken. */
  lemma DisabledInterruptTaken(s: Csrs)
    requires s.priv == Machine && Mie(s.mstatus.bits)
    requires s.mip.bits == 0x82 && s.mie.bits == 0x82 && s.mideleg.bits == 0x2
    ensures HasPending(s) && EnabledSet(s) == 0x80 && InterruptCause(s) == 0x8000_0000_0000_0001
  {
    hide Mie, Sie;
    assert Pending(s) == 0x82;
    assert LowestFrom(0x82, 0) == 1 by {
      assert ((0x82 as bv64) >> (0 as bv7)) & 1 == 0;
      assert ((0x82 as bv64) >> (1 as bv7)) & 1 == 1;
    }
  }

  // ---------------------------------------------------------------- writing and reading back

  /** The registers that keep what is written to them. */
  predicate KeepsValue(csr: nat)
  {
    csr in {0x105, 0x106, 0x140, 0x141, 0x142, 0x143, 0x301, 0x302, 0x303, 0x304, 0x305, 0x306, 0x30A, 0x31A, 0x320, 0x340, 0x341, 0x342,
            0x343, 0x344, 0x7A0}
  }

  lemma FcsrBits(val: bv64)
    ensures Fcsr(val & 0x1F, (val >> 5) & 7) == val & 0xFF
  {
  }

  lemma DelegatedBits(was: bv64, val: bv64, mask: bv64)
    ensures Both(Merge(was, val, mask), mask) == Both(val, mask)
  {
  }

  /** What a register without a mode reads as after a write. */
  predicate ReadsBack(s: Csrs, csr: nat, val: bv64, r: Got)
  {
    && (KeepsValue(csr) ==> r == Value(val))
    && (csr == 0x180 ==> r == Value(if SupportedSatp(val) then val else s.satp.bits))
    && (csr == 0x001 ==> r == Value(val & 0x1F)) && (csr == 0x002 ==> r == Value(val & 7)) && (csr == 0x003 ==> r == Value(val & 0xFF))
    && (csr == 0x104 || csr == 0x144 ==> r == Value(Both(val, s.mideleg.bits)))
    && (ReadsZero(csr) ==> r == Value(0))
  }

  lemma UserReadsBack(s: Csrs, csr: nat, val: bv64, rtc: bv64)
    requires csr < 0x100
    ensures ReadsBack(s, csr, val, ReadUser(WrittenFloat(s, csr, val), csr, rtc))
  {
    hide Fcsr;
    FcsrBits(val);
  }

  lemma SupervisorReadsBack(s: Csrs, csr: nat, val: bv64)
    requires 0x100 <= csr < 0x200
    ensures ReadsBack(s, csr, val, ReadSupervisor(WrittenSupervisor(s, csr, val), csr))
  {
    hide SupportedSatp, Both, Merge, MstatusRead, SstatusReg;
    DelegatedBits(s.mie.bits, val, s.mideleg.bits);
    DelegatedBits(s.mip.bits, val, s.mideleg.bits);
  }

  lemma MachineReadsBack(s: Csrs, csr: nat, val: bv64)
    requires csr >= 0x200
    ensures ReadsBack(s, csr, val, ReadMachine(WrittenMachine(s, csr, val), csr))
  {
    hide SupportedSatp, Both, MstatusRead, MstatusReg, CounterBits;
  }

  lemma WrittenKeepsLevel(s: Csrs, csr: nat, val: bv64)
    ensures Written(s, csr, val).priv == s.priv
  {
    hide SupportedSatp, MergeReg, MstatusReg, SstatusReg;
  }

  /**
   * What is read after a write: the value itself, its implemented bits, or its delegated bits; an unsupported satp leaves the
   * register as it was, and the constant registers stay zero.
   */
  lemma WriteReadsBack(s: Csrs, csr: nat, val: bv64, rtc: bv64)
    requires Accessible(s, csr)
    ensures !IsPmp(csr) && !(0xC00 <= csr < 0xF00) ==> ReadsBack(s, csr, val, Read(Written(s, csr, val), csr, rtc))
  {
    hide ReadsBack, ReadUser, ReadSupervisor, ReadMachine, WrittenFloat, WrittenSupervisor, WrittenMachine, PmpBits;
    WrittenKeepsLevel(s, csr, val);
    if csr < 0x100 {
      UserReadsBack(s, csr, val, rtc);
    } else if csr < 0x200 {
      SupervisorReadsBack(s, csr, val);
    } else {
      MachineReadsBack(s, csr, val);
    }
  }

  /** A protection register that exists keeps its value; the others read as zero whatever is written. */
  lemma PmpReadsBack(s: Csrs, csr: nat, val: bv64, rtc: bv64)
    requires Accessible(s, csr) && IsPmp(csr)
    ensures Read(Written(s, csr, val), csr, rtc) ==
      Value(if csr <= 0x3AF then (if csr % 2 == 0 && (csr - 0x3A0) / 2 < |s.pmpCfg| then val else 0)
            else if csr - 0x3B0 < |s.pmpAddr| then val else 0)
  {
  }
}
