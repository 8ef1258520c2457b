/**
 * The register file as the RISC-V Privileged Architecture 1.12 lays it out, every field read by division and remainder: where
 * translation gets its context from, where traps go, what they and the returns leave, and which interrupts are live.
 */
module CsrFields {
  import opened Words
  import opened Numbers
  import opened PhysMemory
  import opened Pte
  import opened Translate
  import opened Csr
  import opened CsrTheorems
  import opened Superpage

  // ---------------------------------------------------------------- levels

  /** The level numbered by a two-bit field. */
  function LevelNamed(n: bv64): Priv { if n == 0 then User else if n == 1 then Supervisor else if n == 2 then Hypervisor else Machine }

  /** The interrupt-enable digit of a level: UIE, SIE, HIE and MIE are digits 0 to 3. */
  function EnableDigit(ms: bv64, p: Priv): bv64
  {
    match p case User => ms % 2 case Supervisor => ms / 2 % 2 case Hypervisor => ms / 4 % 2 case Machine => ms / 8 % 2
  }

  function LevelNumber(p: Priv): bv64 { match p case User => 0 case Supervisor => 1 case Hypervisor => 2 case Machine => 3 }

  // ---------------------------------------------------------------- the translation context

  /** MPRV, digit 17, lends machine-level data accesses the level in MPP, digits 12 and 11. */
  function ManualLevel(s: Csrs, data: bool): Priv
  {
    var ms := s.mstatus.bits;
    if data && s.priv == Machine && ms / 0x2_0000 % 2 == 1 then LevelNamed(ms / 0x800 % 4) else s.priv
  }

  /** satp: the mode in digits 63 to 60, the root's page number in digits 43 to 0. */
  function ManualMode(satp: bv64): nat { (satp / 0x1000_0000_0000_0000) as nat }
  function ManualRoot(satp: bv64): nat { (satp % 0x1000_0000_0000) as nat }

  /** SUM is digit 18 and MXR digit 19 of mstatus. */
  function ManualCtx(s: Csrs, data: bool): Ctx
  {
    var ms, satp := s.mstatus.bits, s.satp.bits;
    Ctx(ManualLevel(s, data), ms / 0x4_0000 % 2 == 1, ms / 0x8_0000 % 2 == 1, ManualMode(satp), ManualRoot(satp))
  }

  lemma StatusBits(ms: bv64)
    ensures SumBit(ms) <==> ms / 0x4_0000 % 2 == 1
    ensures MxrBit(ms) <==> ms / 0x8_0000 % 2 == 1
    ensures Mprv(ms) <==> ms / 0x2_0000 % 2 == 1
    ensures Mpp(ms) == ms / 0x800 % 4
  {
  }

  lemma ModeAgrees(satp: bv64)
    ensures SatpMode(satp) as nat == ManualMode(satp)
  {
    assert SatpMode(satp) == satp / 0x1000_0000_0000_0000;
  }

  lemma RootAgrees(satp: bv64)
    ensures SatpPpn(satp) as nat == ManualRoot(satp)
  {
    assert SatpPpn(satp) == satp % 0x1000_0000_0000;
  }

  lemma LevelAgrees(n: bv64)
    ensures PrivOf(n) == LevelNamed(n)
  {
  }

  lemma ContextIsManual(s: Csrs, data: bool)
    ensures ContextOf(s, data) == ManualCtx(s, data)
  {
    hide SumBit, MxrBit, Mprv, Mpp, SatpMode, SatpPpn, PrivOf, LevelNamed, ManualMode, ManualRoot;
    StatusBits(s.mstatus.bits);
    ModeAgrees(s.satp.bits);
    RootAgrees(s.satp.bits);
    LevelAgrees(Mpp(s.mstatus.bits));
  }

  /**
   * The whole translation, on the register file. Machine level, where MPRV does not lend a lower one, and mode 0 leave addresses
   * alone; mode 8 is the manual's Sv39 walk, but for tables outside RAM and a supervisor's fetch from a user page under SUM;
   * mode 9 is not implemented, and every other one an access fault.
   */
  lemma TranslationIsManual(m: Mem, s: Csrs, va: addr, acc: Access)
    ensures var c, t := ManualCtx(s, acc != Fetch), Xlate(m, ContextOf(s, acc != Fetch), va, acc);
      if c.priv == Machine || c.mode == 0 then t == Physical(va)
      else if c.mode == 8 then t == Manual(m, c, va, acc) <==> TablesInRam(m, c, va) && !LenientFetch(m, c, va, acc)
      else t == if c.mode == 9 then Unimplemented else AccessFault
  {
    hide ManualCtx, ContextOf, Manual, Walk, LenientFetch, TablesInRam, LeafOk, BuildPa;
    ContextIsManual(s, acc != Fetch);
    var c := ManualCtx(s, acc != Fetch);
    if c.priv != Machine && c.mode == 8 {
      WalkIsManual(m, c, va, acc);
    }
  }

  // ---------------------------------------------------------------- delegation

  /** The digit of a delegation register that a cause asks for; codes past the top ask for the top one. */
  function CauseDigit(cause: bv64): nat
  {
    var code := cause % 0x8000_0000_0000_0000;
    if code < 64 then Unsigned(code) else 63
  }

  lemma CauseBits(cause: bv64)
    ensures IsInterrupt(cause) <==> cause / 0x8000_0000_0000_0000 == 1
    ensures ExceptionCode(cause) == cause % 0x8000_0000_0000_0000
  {
  }

  lemma CodeIndex(code: bv64)
    requires code < 64
    ensures code as bv7 < 64 && Index(code as bv7) == Unsigned(code)
  {
  }

  lemma TopBit(v: bv64)
    ensures v & 0x8000_0000_0000_0000 != 0 <==> Bit(v, 63)
  {
  }

  lemma LastIndex()
    ensures Index(63) == 63
  {
  }

  lemma BitSetIsDigit(v: bv64, code: bv64)
    ensures BitSet(v, code) <==> Set(v, if code < 64 then Unsigned(code) else 63)
  {
    hide Set, Unsigned, Index;
    if code < 64 {
      CodeIndex(code);
      SetIsBit(v, code as bv7);
    } else {
      TopBit(v);
      LastIndex();
      SetIsBit(v, 63);
    }
  }

  /**
   * Where a trap goes: to the supervisor exactly from user or supervisor level, when the digit of that cause is one in medeleg for
   * exceptions and in mideleg for interrupts; otherwise to machine level.
   */
  lemma TrapGoes(s: Csrs, cause: bv64, tval: bv64)
    ensures var t := Trap(s, cause, tval);
      var deleg := if cause / 0x8000_0000_0000_0000 == 1 then s.mideleg.bits else s.medeleg.bits;
      && (t.priv == Supervisor <==> (s.priv == User || s.priv == Supervisor) && Set(deleg, CauseDigit(cause)))
      && (t.priv != Supervisor ==> t.priv == Machine)
  {
    hide Set, Unsigned, BitSet, IsInterrupt, ExceptionCode;
    CauseBits(cause);
    BitSetIsDigit(s.mideleg.bits, ExceptionCode(cause));
    BitSetIsDigit(s.medeleg.bits, ExceptionCode(cause));
  }

  /** The other delegation register has no say. */
  lemma TrapIgnores(s: Csrs, cause: bv64, tval: bv64, other: Reg)
    ensures cause / 0x8000_0000_0000_0000 == 0 ==> Trap(s.(mideleg := other), cause, tval) == Trap(s, cause, tval).(mideleg := other)
    ensures cause / 0x8000_0000_0000_0000 == 1 ==> Trap(s.(medeleg := other), cause, tval) == Trap(s, cause, tval).(medeleg := other)
  {
    hide BitSet, IsInterrupt, ExceptionCode, MstatusTrapM, MstatusTrapS;
    CauseBits(cause);
    OneBit(cause);
  }

  lemma OneBit(cause: bv64)
    ensures cause / 0x8000_0000_0000_0000 == 0 || cause / 0x8000_0000_0000_0000 == 1
  {
  }

  // ---------------------------------------------------------------- what traps leave

  /** After a machine trap: the level in MPP, its enable digit in MPIE, MIE off, the rest as it was. */
  predicate EnteredM(ms: bv64, p: Priv, ms': bv64)
  {
    && ms' / 0x800 % 4 == LevelNumber(p) && ms' / 0x80 % 2 == EnableDigit(ms, p) && ms' / 8 % 2 == 0
    && ms' % 8 == ms % 8 && ms' / 0x10 % 8 == ms / 0x10 % 8 && ms' / 0x100 % 8 == ms / 0x100 % 8 && ms' / 0x2000 == ms / 0x2000
  }

  /** After a supervisor trap: the level in SPP, its enable digit in SPIE, SIE off. */
  predicate EnteredS(ms: bv64, p: Priv, ms': bv64)
  {
    && ms' / 0x100 % 2 == LevelNumber(p) && ms' / 0x20 % 2 == EnableDigit(ms, p) && ms' / 2 % 2 == 0
    && ms' % 2 == ms % 2 && ms' / 4 % 8 == ms / 4 % 8 && ms' / 0x40 % 4 == ms / 0x40 % 4 && ms' / 0x200 == ms / 0x200
  }

  lemma EnableAgrees(ms: bv64, p: Priv)
    ensures EnableBit(ms, p) == EnableDigit(ms, p) <= 1
  {
  }

  lemma EntersMpp(ms: bv64, level: bv64, bit: bv64)
    requires level <= 3 && bit <= 1
    ensures EnterM(ms, level, bit) / 0x800 % 4 == level
  {
  }

  lemma EntersMpie(ms: bv64, level: bv64, bit: bv64)
    requires level <= 3 && bit <= 1
    ensures EnterM(ms, level, bit) / 0x80 % 2 == bit && EnterM(ms, level, bit) / 8 % 2 == 0
  {
  }

  lemma EntersMRest(ms: bv64, level: bv64, bit: bv64)
    requires level <= 3 && bit <= 1
    ensures EnterM(ms, level, bit) % 8 == ms % 8 && EnterM(ms, level, bit) / 0x10 % 8 == ms / 0x10 % 8
    ensures EnterM(ms, level, bit) / 0x100 % 8 == ms / 0x100 % 8 && EnterM(ms, level, bit) / 0x2000 == ms / 0x2000
  {
  }

  lemma EntersM(ms: bv64, p: Priv)
    ensures EnteredM(ms, p, MstatusTrapM(ms, p))
  {
    hide EnterM, EnableBit, EnableDigit;
    EnableAgrees(ms, p);
    EntersMpp(ms, LevelNumber(p), EnableBit(ms, p));
    EntersMpie(ms, LevelNumber(p), EnableBit(ms, p));
    EntersMRest(ms, LevelNumber(p), EnableBit(ms, p));
  }

  lemma EntersSpp(ms: bv64, level: bv64, bit: bv64)
    requires level <= 1 && bit <= 1
    ensures EnterS(ms, level, bit) / 0x100 % 2 == level
  {
  }

  lemma EntersSpie(ms: bv64, level: bv64, bit: bv64)
    requires level <= 1 && bit <= 1
    ensures EnterS(ms, level, bit) / 0x20 % 2 == bit && EnterS(ms, level, bit) / 2 % 2 == 0
  {
  }

  lemma EntersSRest(ms: bv64, level: bv64, bit: bv64)
    requires level <= 1 && bit <= 1
    ensures EnterS(ms, level, bit) % 2 == ms % 2 && EnterS(ms, level, bit) / 4 % 8 == ms / 4 % 8
    ensures EnterS(ms, level, bit) / 0x40 % 4 == ms / 0x40 % 4 && EnterS(ms, level, bit) / 0x200 == ms / 0x200
  {
  }

  lemma EntersS(ms: bv64, p: Priv)
    requires p == User || p == Supervisor
    ensures EnteredS(ms, p, MstatusTrapS(ms, p))
  {
    hide EnterS, EnableBit, EnableDigit;
    EnableAgrees(ms, p);
    EntersSpp(ms, LevelNumber(p), EnableBit(ms, p));
    EntersSpie(ms, LevelNumber(p), EnableBit(ms, p));
    EntersSRest(ms, LevelNumber(p), EnableBit(ms, p));
  }

  /** Everything a trap leaves, by the level it goes to. */
  lemma TrapLeaves(s: Csrs, cause: bv64, tval: bv64)
    ensures var t := Trap(s, cause, tval);
      if t.priv == Supervisor then
        && EnteredS(s.mstatus.bits, s.priv, t.mstatus.bits)
        && t == s.(priv := Supervisor, pc := s.stvec, sepc := s.pc, scause := Reg(cause), stval := Reg(tval), mstatus := t.mstatus)
      else
        && EnteredM(s.mstatus.bits, s.priv, t.mstatus.bits)
        && t == s.(priv := Machine, pc := s.mtvec, mepc := s.pc, mcause := Reg(cause), mtval := Reg(tval), mstatus := t.mstatus)
  {
    hide EnteredM, EnteredS, MstatusTrapM, MstatusTrapS, BitSet, IsInterrupt, ExceptionCode;
    EntersM(s.mstatus.bits, s.priv);
    if Delegated(s, cause) {
      EntersS(s.mstatus.bits, s.priv);
    }
  }

  // ---------------------------------------------------------------- what returns leave

  /** Another level's enable digit is as it was. */
  predicate OtherEnables(ms: bv64, ms': bv64, p: Priv)
  {
    forall q: Priv :: q != p ==> EnableDigit(ms', q) == EnableDigit(ms, q)
  }

  /** After mret: MPIE in the enable digit of the level returned to, MPIE on, MPP clear. */
  predicate LeftM(ms: bv64, p: Priv, ms': bv64)
  {
    && EnableDigit(ms', p) == ms / 0x80 % 2 && OtherEnables(ms, ms', p) && ms' / 0x80 % 2 == 1 && ms' / 0x800 % 4 == 0
    && ms' / 0x10 % 8 == ms / 0x10 % 8 && ms' / 0x100 % 8 == ms / 0x100 % 8 && ms' / 0x2000 == ms / 0x2000
  }

  predicate LeftS(ms: bv64, p: Priv, ms': bv64)
  {
    && EnableDigit(ms', p) == ms / 0x20 % 2 && OtherEnables(ms, ms', p) && ms' / 0x20 % 2 == 1 && ms' / 0x100 % 2 == 0
    && ms' / 0x10 % 2 == ms / 0x10 % 2 && ms' / 0x40 % 4 == ms / 0x40 % 4 && ms' / 0x200 == ms / 0x200
  }

  lemma EnablesAfterM(ms: bv64)
    ensures forall p: Priv :: EnableDigit(LeaveM(ms), p) == EnableDigit(ms, p)
    ensures forall p: Priv :: EnableDigit(LeaveS(ms), p) == EnableDigit(ms, p)
  {
    EnablesKept(ms);
  }

  lemma EnablesKept(ms: bv64)
    ensures LeaveM(ms) % 2 == ms % 2 && LeaveM(ms) / 2 % 2 == ms / 2 % 2
    ensures LeaveM(ms) / 4 % 2 == ms / 4 % 2 && LeaveM(ms) / 8 % 2 == ms / 8 % 2
    ensures LeaveS(ms) % 2 == ms % 2 && LeaveS(ms) / 2 % 2 == ms / 2 % 2
    ensures LeaveS(ms) / 4 % 2 == ms / 4 % 2 && LeaveS(ms) / 8 % 2 == ms / 8 % 2
  {
  }

  /** One enable digit set, the others and everything above as before. */
  predicate EnablesBut(ms: bv64, p: Priv, bit: bv64, r: bv64)
  {
    && r % 2 == (if p == User then bit else ms % 2) && r / 2 % 2 == (if p == Supervisor then bit else ms / 2 % 2)
    && r / 4 % 2 == (if p == Hypervisor then bit else ms / 4 % 2) && r / 8 % 2 == (if p == Machine then bit else ms / 8 % 2)
    && r / 0x10 == ms / 0x10
  }

  lemma EnablesUser(ms: bv64, bit: bv64)
    requires bit <= 1
    ensures EnablesBut(ms, User, bit, (ms & 0xFFFF_FFFF_FFFF_FFFE) | bit)
  {
  }

  lemma EnablesSupervisor(ms: bv64, bit: bv64)
    requires bit <= 1
    ensures EnablesBut(ms, Supervisor, bit, (ms & 0xFFFF_FFFF_FFFF_FFFD) | (bit << 1))
  {
  }

  lemma EnablesHypervisor(ms: bv64, bit: bv64)
    requires bit <= 1
    ensures EnablesBut(ms, Hypervisor, bit, (ms & 0xFFFF_FFFF_FFFF_FFFB) | (bit << 2))
  {
  }

  lemma EnablesMachine(ms: bv64, bit: bv64)
    requires bit <= 1
    ensures EnablesBut(ms, Machine, bit, (ms & 0xFFFF_FFFF_FFFF_FFF7) | (bit << 3))
  {
  }

  lemma EnableWritten(ms: bv64, p: Priv, bit: bv64)
    requires bit <= 1
    ensures EnablesBut(ms, p, bit, WithEnableBit(ms, p, bit))
  {
    hide EnablesBut;
    match p {
      case User => EnablesUser(ms, bit);
      case Supervisor => EnablesSupervisor(ms, bit);
      case Hypervisor => EnablesHypervisor(ms, bit);
      case Machine => EnablesMachine(ms, bit);
    }
  }

  lemma EnableRead(ms: bv64, p: Priv, bit: bv64, r: bv64, q: Priv)
    requires EnablesBut(ms, p, bit, r)
    ensures EnableDigit(r, q) == (if q == p then bit else EnableDigit(ms, q)) && r / 0x10 == ms / 0x10
  {
  }

  lemma EnableSet(ms: bv64, p: Priv, q: Priv, bit: bv64)
    requires bit <= 1
    ensures EnableDigit(WithEnableBit(ms, p, bit), q) == if q == p then bit else EnableDigit(ms, q)
    ensures WithEnableBit(ms, p, bit) / 0x10 == ms / 0x10
  {
    hide EnablesBut, EnableDigit, WithEnableBit;
    EnableWritten(ms, p, bit);
    EnableRead(ms, p, bit, WithEnableBit(ms, p, bit), q);
  }

  lemma LeaveMRest(ms: bv64)
    ensures LeaveM(ms) / 0x80 % 2 == 1 && LeaveM(ms) / 0x800 % 4 == 0
    ensures LeaveM(ms) / 0x10 % 8 == ms / 0x10 % 8 && LeaveM(ms) / 0x100 % 8 == ms / 0x100 % 8 && LeaveM(ms) / 0x2000 == ms / 0x2000
  {
  }

  lemma LeaveSRest(ms: bv64)
    ensures LeaveS(ms) / 0x20 % 2 == 1 && LeaveS(ms) / 0x100 % 2 == 0
    ensures LeaveS(ms) / 0x10 % 2 == ms / 0x10 % 2 && LeaveS(ms) / 0x40 % 4 == ms / 0x40 % 4 && LeaveS(ms) / 0x200 == ms / 0x200
  {
  }

  lemma Nested(x: bv64)
    ensures x / 0x100 == x / 0x10 / 0x10 && x / 0x2000 == x / 0x10 / 0x200 && x / 0x40 == x / 0x10 / 4 && x / 0x200 == x / 0x10 / 0x20
  {
  }

  lemma PreviousBits(ms: bv64)
    ensures Mpie(ms) == ms / 0x80 % 2 <= 1 && Spie(ms) == ms / 0x20 % 2 <= 1
  {
  }

  lemma LeavesMEnables(ms: bv64, p: Priv)
    ensures var ms' := LeaveM(WithEnableBit(ms, p, Mpie(ms))); EnableDigit(ms', p) == Mpie(ms) && OtherEnables(ms, ms', p)
  {
    hide EnableDigit, WithEnableBit, LeaveM, LeaveS, Mpie;
    PreviousBits(ms);
    var ms' := WithEnableBit(ms, p, Mpie(ms));
    EnablesAfterM(ms');
    EnableSet(ms, p, p, Mpie(ms));
    forall q: Priv | q != p ensures EnableDigit(LeaveM(ms'), q) == EnableDigit(ms, q) {
      EnableSet(ms, p, q, Mpie(ms));
    }
  }

  lemma LeavesM(ms: bv64, p: Priv)
    ensures LeftM(ms, p, LeaveM(WithEnableBit(ms, p, Mpie(ms))))
  {
    hide EnableDigit, WithEnableBit, LeaveM, LeaveS, Mpie, OtherEnables;
    LeavesMEnables(ms, p);
    PreviousBits(ms);
    var ms' := WithEnableBit(ms, p, Mpie(ms));
    EnableSet(ms, p, p, Mpie(ms));
    Nested(ms');
    Nested(ms);
    LeaveMRest(ms');
  }

  lemma LeavesSEnables(ms: bv64, p: Priv)
    ensures var ms' := LeaveS(WithEnableBit(ms, p, Spie(ms))); EnableDigit(ms', p) == Spie(ms) && OtherEnables(ms, ms', p)
  {
    hide EnableDigit, WithEnableBit, LeaveM, LeaveS, Spie;
    PreviousBits(ms);
    var ms' := WithEnableBit(ms, p, Spie(ms));
    EnablesAfterM(ms');
    EnableSet(ms, p, p, Spie(ms));
    forall q: Priv | q != p ensures EnableDigit(LeaveS(ms'), q) == EnableDigit(ms, q) {
      EnableSet(ms, p, q, Spie(ms));
    }
  }

  lemma LeavesS(ms: bv64, p: Priv)
    ensures LeftS(ms, p, LeaveS(WithEnableBit(ms, p, Spie(ms))))
  {
    hide EnableDigit, WithEnableBit, LeaveM, LeaveS, Spie, OtherEnables;
    LeavesSEnables(ms, p);
    PreviousBits(ms);
    var ms' := WithEnableBit(ms, p, Spie(ms));
    EnableSet(ms, p, p, Spie(ms));
    Nested(ms');
    Nested(ms);
    LeaveSRest(ms');
  }

  lemma SppBits(ms: bv64)
    ensures Spp(ms) == ms / 0x100 % 2 && (Spp(ms) == 0 || Spp(ms) == 1)
  {
  }

  /** Everything mret and sret leave: they go where mepc and sepc say, at the level MPP and SPP name. */
  lemma ReturnsLeave(s: Csrs)
    ensures var t, p := Mret(s), LevelNamed(s.mstatus.bits / 0x800 % 4);
      LeftM(s.mstatus.bits, p, t.mstatus.bits) && t == s.(priv := p, pc := s.mepc, mstatus := t.mstatus)
    ensures var t, p := Sret(s), if s.mstatus.bits / 0x100 % 2 == 1 then Supervisor else User;
      LeftS(s.mstatus.bits, p, t.mstatus.bits) && t == s.(priv := p, pc := s.sepc, mstatus := t.mstatus)
  {
    hide LeftM, LeftS, LeaveM, LeaveS, WithEnableBit, Mpie, Spie, Mpp, Spp, PrivOf, LevelNamed, SumBit, MxrBit, Mprv;
    var ms := s.mstatus.bits;
    StatusBits(ms);
    SppBits(ms);
    LevelAgrees(Mpp(ms));
    LevelAgrees(Spp(ms));
    TwoLevels(Spp(ms));
    LeavesM(ms, PrivOf(Mpp(ms)));
    LeavesS(ms, PrivOf(Spp(ms)));
  }

  lemma TwoLevels(n: bv64)
    requires n == 0 || n == 1
    ensures PrivOf(n) == if n == 1 then Supervisor else User
  {
  }

  // ---------------------------------------------------------------- live interrupts

  /**
   * Whether a level takes an interrupt: one that is not delegated below machine level and there with MIE, digit 3; one that is
   * delegated at user level, and at supervisor level with SIE, digit 1.
   */
  predicate Takes(s: Csrs, delegated: bool)
  {
    if delegated then s.priv == User || (s.priv == Supervisor && s.mstatus.bits / 2 % 2 == 1)
    else s.priv != Machine || s.mstatus.bits / 8 % 2 == 1
  }

  /** Interrupt `i` is pending, enabled in mie, and taken at the level. */
  predicate Live(s: Csrs, i: nat)
  {
    Set(s.mip.bits, i) && Set(s.mie.bits, i) && Takes(s, Set(s.mideleg.bits, i))
  }

  lemma EnableFlags(ms: bv64)
    ensures Mie(ms) <==> ms / 8 % 2 == 1
    ensures Sie(ms) <==> ms / 2 % 2 == 1
  {
  }

  lemma TakenParts(mask: bv64, mideleg: bv64)
    ensures Taken(mask, mideleg, true, true) == mask && Taken(mask, mideleg, true, false) == mask & !mideleg
    ensures Taken(mask, mideleg, false, true) == mask & mideleg && Taken(mask, mideleg, false, false) == 0
  {
  }

  lemma TakenBit(mask: bv64, mideleg: bv64, atM: bool, atS: bool, k: index)
    ensures Bit(Taken(mask, mideleg, atM, atS), k) <==> Bit(mask, k) && if Bit(mideleg, k) then atS else atM
  {
    hide Bit, Taken;
    TakenParts(mask, mideleg);
    BitClear(mask, mideleg, k);
    BitAnd(mask, mideleg, k);
    BitZero(k);
  }

  lemma TakesAgrees(s: Csrs)
    ensures EnabledAtM(s) == Takes(s, false) && EnabledAtS(s) == Takes(s, true)
  {
    hide Mie, Sie;
    EnableFlags(s.mstatus.bits);
  }

  lemma PendingBit(s: Csrs, k: index)
    ensures Bit(Pending(s), k) <==> Bit(s.mip.bits, k) && Bit(s.mie.bits, k)
  {
    hide Bit;
    BitAnd(s.mip.bits, s.mie.bits, k);
  }

  lemma EnabledBit(s: Csrs, k: index)
    ensures Bit(EnabledSet(s), k) <==> Live(s, Index(k))
  {
    hide Bit, Index, Set, Taken, EnabledAtM, EnabledAtS, Takes, Pending;
    TakesAgrees(s);
    TakenBit(Pending(s), s.mideleg.bits, EnabledAtM(s), EnabledAtS(s), k);
    PendingBit(s, k);
    SetIsBit(s.mip.bits, k);
    SetIsBit(s.mie.bits, k);
    SetIsBit(s.mideleg.bits, k);
  }

  /** An interrupt is taken exactly when one is live. */
  lemma PendingIsLive(s: Csrs)
    ensures HasPending(s) <==> exists i: nat :: i < 64 && Live(s, i)
  {
    hide Live, EnabledSet, Bit, Index;
    if HasPending(s) {
      var k := SomeBit(EnabledSet(s));
      IndexBound(k);
      EnabledBit(s, k);
    }
    if i: nat :| i < 64 && Live(s, i) {
      var k := IndexWith(i);
      EnabledBit(s, k);
      BitZero(k);
    }
  }

  lemma CauseWord(irq: nat)
    requires irq <= 32
    ensures InterruptWord(irq) / 0x8000_0000_0000_0000 == 1 && Unsigned(InterruptWord(irq) % 0x8000_0000_0000_0000) == irq
  {
    hide Unsigned;
    WordNumber(irq);
    SmallWord(irq as bv64);
    TopOrred(irq as bv64);
  }

  lemma SmallWord(x: bv64)
    requires Unsigned(x) <= 32
    ensures x <= 32
  {
  }

  lemma TopOrred(x: bv64)
    requires x <= 32
    ensures (x | 0x8000_0000_0000_0000) / 0x8000_0000_0000_0000 == 1 && (x | 0x8000_0000_0000_0000) % 0x8000_0000_0000_0000 == x
  {
  }

  /** The interrupt taken is an interrupt by its top digit, and by the rest the lowest number that mip and mie both hold. */
  lemma TakenNumber(s: Csrs, k: nat)
    requires k < 32 && Set(s.mip.bits, k) && Set(s.mie.bits, k)
    ensures InterruptCause(s) / 0x8000_0000_0000_0000 == 1
    ensures var low := Unsigned(InterruptCause(s) % 0x8000_0000_0000_0000);
      && low <= k && Set(s.mip.bits, low) && Set(s.mie.bits, low)
      && forall j: nat :: j < low ==> !(Set(s.mip.bits, j) && Set(s.mie.bits, j))
  {
    hide Set, Pending, BitAt, LowestFrom, Unsigned;
    PendingDigit(s, k);
    CtzIsLowest(Pending(s), k);
    LowestFound(Pending(s), 0);
    SomeLowBit(Pending(s), 0, k);
    var low := LowestFrom(Pending(s), 0);
    CauseWord(low);
    forall j: nat | j <= low ensures BitAt(Pending(s), j) <==> Set(s.mip.bits, j) && Set(s.mie.bits, j) {
      PendingDigit(s, j);
    }
  }

  lemma PendingDigit(s: Csrs, i: nat)
    requires i < 64
    ensures BitAt(Pending(s), i) <==> Set(s.mip.bits, i) && Set(s.mie.bits, i)
  {
    hide Set, Bit, Index;
    var k := IndexWith(i);
    IndexIs(k, i);
    PendingBit(s, k);
    SetIsBit(s.mip.bits, k);
    SetIsBit(s.mie.bits, k);
    BitAtIs(Pending(s), i, k);
  }

  lemma IndexIs(k: index, i: nat)
    requires Index(k) == i < 64
    ensures i as bv7 == k
  {
  }

  lemma BitAtIs(v: bv64, i: nat, k: index)
    requires i < 64 && i as bv7 == k
    ensures BitAt(v, i) <==> Bit(v, k)
  {
  }
}
