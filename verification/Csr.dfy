/** The RV64 control and status registers: reads, writes, traps and returns as functions of the register file. */
module Csr {
  import opened Words
  import opened Translate

  /** A register's value, kept apart from the bits so that whole register files compare cheaply. */
  datatype Reg = Reg(bits: bv64)

  datatype Csrs = Csrs(
    priv: Priv, pc: Reg, counter: nat,
    fflags: Reg, frm: Reg,
    mstatus: Reg, mtvec: Reg, mscratch: Reg, mepc: Reg, mcause: Reg, mtval: Reg,
    mhartid: Reg, misa: Reg, mie: Reg, mip: Reg, medeleg: Reg, mideleg: Reg, mcounteren: Reg,
    stvec: Reg, sscratch: Reg, sepc: Reg, scause: Reg, stval: Reg, satp: Reg, scounteren: Reg,
    menvcfg: Reg, menvcfgh: Reg, mcountinhibit: Reg, tselect: Reg,
    pmpCfg: seq<Reg>, pmpAddr: seq<Reg>)

  // ---------------------------------------------------------------- privilege

  function PrivLevel(p: Priv): (n: nat)
    ensures n < 4
  {
    match p case User => 0 case Supervisor => 1 case Hypervisor => 2 case Machine => 3
  }

  function PrivBits(p: Priv): (b: bv64)
    ensures b <= 3
  {
    match p case User => 0 case Supervisor => 1 case Hypervisor => 2 case Machine => 3
  }

  /** `PrivilegeLevel.fromValue`, for a two-bit field. */
  function PrivOf(b: bv64): Priv
  {
    if b == 0 then User else if b == 1 then Supervisor else if b == 2 then Hypervisor else Machine
  }

  function Mpp(ms: bv64): bv64 { (ms >> 11) & 3 }
  function Spp(ms: bv64): bv64 { (ms >> 8) & 1 }
  predicate Mprv(ms: bv64) { ms & 0x2_0000 != 0 }
  predicate SumBit(ms: bv64) { ms & 0x4_0000 != 0 }
  predicate MxrBit(ms: bv64) { ms & 0x8_0000 != 0 }
  predicate Mie(ms: bv64) { ms & 0x08 != 0 }
  predicate Sie(ms: bv64) { ms & 0x02 != 0 }

  /** The interrupt-enable bit numbered by a privilege level: bit 0 to 3. */
  function EnableBit(ms: bv64, p: Priv): bv64
  {
    match p
    case User => ms & 1
    case Supervisor => (ms >> 1) & 1
    case Hypervisor => (ms >> 2) & 1
    case Machine => (ms >> 3) & 1
  }

  function WithEnableBit(ms: bv64, p: Priv, bit: bv64): bv64
  {
    match p
    case User => (ms & 0xFFFF_FFFF_FFFF_FFFE) | bit
    case Supervisor => (ms & 0xFFFF_FFFF_FFFF_FFFD) | (bit << 1)
    case Hypervisor => (ms & 0xFFFF_FFFF_FFFF_FFFB) | (bit << 2)
    case Machine => (ms & 0xFFFF_FFFF_FFFF_FFF7) | (bit << 3)
  }

  /** `_effectivePrivilege`: MPRV lends MPP's level to machine-mode data accesses. */
  function EffectivePriv(s: Csrs, data: bool): Priv
  {
    if s.priv == Machine && data && Mprv(s.mstatus.bits) then PrivOf(Mpp(s.mstatus.bits)) else s.priv
  }

  function SatpMode(satp: bv64): bv64 { (satp >> 60) & 0xF }
  function SatpPpn(satp: bv64): bv64 { satp & 0xFFF_FFFF_FFFF }

  /** The translation context of data accesses, or of fetches. */
  function ContextOf(s: Csrs, data: bool): Ctx
  {
    Ctx(EffectivePriv(s, data), SumBit(s.mstatus.bits), MxrBit(s.mstatus.bits), SatpMode(s.satp.bits) as nat, SatpPpn(s.satp.bits) as nat)
  }

  // ---------------------------------------------------------------- writing

  function UxlMask(val: bv64): bv64
  {
    if (val >> 32) & 3 == 1 || (val >> 32) & 3 == 2 then 0x3_0000_0000 else 0
  }

  function SxlMask(val: bv64): bv64
  {
    if (val >> 34) & 3 == 1 || (val >> 34) & 3 == 2 then 0xC_0000_0000 else 0
  }

  /** Which bits of mstatus a write may change, given those of UXL and SXL. */
  function MstatusMask(u: bv64, x: bv64): bv64 { 0x000E_79BB | u | x }

  function Merge(old_: bv64, val: bv64, mask: bv64): bv64 { (old_ & !mask) | (val & mask) }

  /** `_setMstatus` */
  function MstatusAfter(ms: bv64, val: bv64): bv64
  {
    Merge(ms, val, MstatusMask(UxlMask(val), SxlMask(val)))
  }

  /** Whether `_setMstatus` flushes. */
  predicate MstatusFlushes(ms: bv64, val: bv64)
  {
    (ms ^ val) & 0xE_0000 != 0 || (ms & 0x2_0000 != 0 && (ms ^ val) & 0x1800 != 0)
  }

  /** The value a write of sstatus hands to `_setMstatus`. */
  function SstatusInto(ms: bv64, val: bv64): bv64
  {
    Merge(ms, val, 0x3_000D_E133)
  }

  function MstatusReg(ms: Reg, val: bv64): Reg { Reg(MstatusAfter(ms.bits, val)) }
  function SstatusReg(ms: Reg, val: bv64): Reg { Reg(MstatusAfter(ms.bits, SstatusInto(ms.bits, val))) }
  function MergeReg(r: Reg, val: bv64, mask: Reg): Reg { Reg(Merge(r.bits, val, mask.bits)) }

  predicate SupportedSatp(val: bv64) { SatpMode(val) == 0 || SatpMode(val) == 8 }

  /** The privilege a register's number asks for. */
  function RequiredLevel(csr: nat): (n: nat)
    ensures n < 4
  {
    csr / 256 % 4
  }

  predicate Accessible(s: Csrs, csr: nat) { PrivLevel(s.priv) >= RequiredLevel(csr) }

  /** The unprivileged floating-point registers. */
  function WrittenFloat(s: Csrs, csr: nat, val: bv64): (s': Csrs)
  {
    match csr
    case 0x001 => s.(fflags := Reg(val & 0x1F))
    case 0x002 => s.(frm := Reg(val & 7))
    case 0x003 => s.(fflags := Reg(val & 0x1F), frm := Reg((val >> 5) & 7))
    case _ => s
  }

  function WrittenSupervisor(s: Csrs, csr: nat, val: bv64): (s': Csrs)
  {
    match csr
    case 0x100 => s.(mstatus := SstatusReg(s.mstatus, val))
    case 0x104 => s.(mie := MergeReg(s.mie, val, s.mideleg))
    case 0x105 => s.(stvec := Reg(val))
    case 0x106 => s.(scounteren := Reg(val))
    case 0x140 => s.(sscratch := Reg(val))
    case 0x141 => s.(sepc := Reg(val))
    case 0x142 => s.(scause := Reg(val))
    case 0x143 => s.(stval := Reg(val))
    case 0x144 => s.(mip := MergeReg(s.mip, val, s.mideleg))
    case 0x180 => if SupportedSatp(val) then s.(satp := Reg(val)) else s
    case _ => s
  }

  function WrittenMachine(s: Csrs, csr: nat, val: bv64): (s': Csrs)
  {
    match csr
    case 0x300 => s.(mstatus := MstatusReg(s.mstatus, val))
    case 0x301 => s.(misa := Reg(val))
    case 0x302 => s.(medeleg := Reg(val))
    case 0x303 => s.(mideleg := Reg(val))
    case 0x304 => s.(mie := Reg(val))
    case 0x305 => s.(mtvec := Reg(val))
    case 0x306 => s.(mcounteren := Reg(val))
    case 0x30A => s.(menvcfg := Reg(val))
    case 0x31A => s.(menvcfgh := Reg(val))
    case 0x320 => s.(mcountinhibit := Reg(val))
    case 0x7A0 => s.(tselect := Reg(val))
    case _ => WrittenHandling(s, csr, val)
  }

  /** The registers of machine trap handling. */
  function WrittenHandling(s: Csrs, csr: nat, val: bv64): (s': Csrs)
  {
    match csr
    case 0x340 => s.(mscratch := Reg(val))
    case 0x341 => s.(mepc := Reg(val))
    case 0x342 => s.(mcause := Reg(val))
    case 0x343 => s.(mtval := Reg(val))
    case 0x344 => s.(mip := Reg(val))
    case _ => s
  }

  /** `_writePmp`: stored, never enforced; odd configuration registers and those beyond the implemented count ignore writes. */
  function WrittenPmp(s: Csrs, csr: nat, val: bv64): (s': Csrs)
    requires IsPmp(csr)
  {
    if csr <= 0x3AF then
      if csr % 2 == 0 && (csr - 0x3A0) / 2 < |s.pmpCfg| then s.(pmpCfg := s.pmpCfg[(csr - 0x3A0) / 2 := Reg(val)]) else s
    else if csr - 0x3B0 < |s.pmpAddr| then s.(pmpAddr := s.pmpAddr[csr - 0x3B0 := Reg(val)])
    else s
  }

  predicate IsPmp(csr: nat) { 0x3A0 <= csr <= 0x3EF }

  /** `write`, after the access check; registers without a case are left alone. */
  function Written(s: Csrs, csr: nat, val: bv64): (s': Csrs)
  {
    if IsPmp(csr) then WrittenPmp(s, csr, val)
    else if csr < 0x100 then WrittenFloat(s, csr, val)
    else if csr < 0x200 then WrittenSupervisor(s, csr, val)
    else WrittenMachine(s, csr, val)
  }

  /** Whether a write empties the TLBs. */
  predicate WriteFlushes(s: Csrs, csr: nat, val: bv64)
  {
    (csr == 0x180 && SupportedSatp(val)) ||
    (csr == 0x100 && MstatusFlushes(s.mstatus.bits, SstatusInto(s.mstatus.bits, val))) ||
    (csr == 0x300 && MstatusFlushes(s.mstatus.bits, val))
  }

  // ---------------------------------------------------------------- reading

  datatype Got = Value(v: bv64) | Refused

  /** FS or XS is dirty. */
  predicate Dirty(ms: bv64) { ms & 0x6000 == 0x6000 || ms & 0x1_8000 == 0x1_8000 }

  function WithSd(val: bv64): bv64 { val | 0x8000_0000_0000_0000 }

  /** `_getMstatus`: SD is made up on the way out. */
  function MstatusRead(ms: bv64, mask: bv64): bv64
  {
    var val := ms & mask;
    if Dirty(val) then WithSd(val) else val
  }

  /** `instructionCounter` as a 64-bit word. */
  function CounterBits(n: nat): bv64 { (n % SPACE) as bv64 }

  function CounterBit(csr: nat): bv64 { if csr % 32 == 0 then 1 else if csr % 32 == 1 then 2 else if csr % 32 == 2 then 4 else 0 }

  predicate Grants(enable: bv64, csr: nat) { enable & CounterBit(csr) != 0 }

  predicate CounterGranted(s: Csrs, csr: nat)
  {
    s.priv == Machine || (Grants(s.mcounteren.bits, csr) && (s.priv == User ==> Grants(s.scounteren.bits, csr)))
  }

  /** What a physical-memory-protection register reads as: odd and unimplemented ones are zero. */
  function PmpBits(s: Csrs, csr: nat): bv64
    requires IsPmp(csr)
  {
    if csr <= 0x3AF then (if csr % 2 == 0 && (csr - 0x3A0) / 2 < |s.pmpCfg| then s.pmpCfg[(csr - 0x3A0) / 2].bits else 0)
    else if csr - 0x3B0 < |s.pmpAddr| then s.pmpAddr[csr - 0x3B0].bits
    else 0
  }

  function FsDirty(ms: bv64): bv64 { (ms & !0x6000) | 0x6000 }

  function Or64(x: bv64, y: bv64): bv64 { x | y }

  /** What a floating-point instruction adds: its exception flags, and FS dirty if it wrote a register. */
  function WithFlags(s: Csrs, flags: bv64, dirty: bool): (s': Csrs)
  {
    s.(fflags := Reg(Or64(s.fflags.bits, flags)), mstatus := if dirty then Reg(FsDirty(s.mstatus.bits)) else s.mstatus)
  }

  function Fcsr(fflags: bv64, frm: bv64): bv64 { fflags | (frm << 5) }
  function Time(rtc: bv64): bv64 { rtc & 0xFFFF_FFFF }

  /** Registers that exist and are zero. */
  predicate ReadsZero(csr: nat)
  {
    csr in {0xF11, 0xF12, 0xF13, 0xF15, 0x310, 0x747, 0x757, 0x7A1, 0x7A2, 0x7A3, 0x7A4}
  }

  /** The unprivileged registers: floating point, and the counters as far as they are granted. */
  function ReadUser(s: Csrs, csr: nat, rtc: bv64): Got
  {
    match csr
    case 0x001 => Value(s.fflags.bits)
    case 0x002 => Value(s.frm.bits)
    case 0x003 => Value(Fcsr(s.fflags.bits, s.frm.bits))
    case 0xC00 => if CounterGranted(s, csr) then Value(CounterBits(s.counter)) else Refused
    case 0xC02 => if CounterGranted(s, csr) then Value(CounterBits(s.counter)) else Refused
    case 0xC01 => if CounterGranted(s, csr) then Value(Time(rtc)) else Refused
    case _ => Refused
  }

  function ReadSupervisor(s: Csrs, csr: nat): Got
  {
    match csr
    case 0x100 => Value(MstatusRead(s.mstatus.bits, 0x3_000D_E133))
    case 0x104 => Value(Both(s.mie.bits, s.mideleg.bits))
    case 0x105 => Value(s.stvec.bits)
    case 0x106 => Value(s.scounteren.bits)
    case 0x140 => Value(s.sscratch.bits)
    case 0x141 => Value(s.sepc.bits)
    case 0x142 => Value(s.scause.bits)
    case 0x143 => Value(s.stval.bits)
    case 0x144 => Value(Both(s.mip.bits, s.mideleg.bits))
    case 0x180 => Value(s.satp.bits)
    case _ => Refused
  }

  function ReadMachine(s: Csrs, csr: nat): Got
  {
    match csr
    case 0x300 => Value(MstatusRead(s.mstatus.bits, 0xFFFF_FFFF_FFFF_FFFF))
    case 0x301 => Value(s.misa.bits)
    case 0x302 => Value(s.medeleg.bits)
    case 0x303 => Value(s.mideleg.bits)
    case 0x304 => Value(s.mie.bits)
    case 0x305 => Value(s.mtvec.bits)
    case 0x306 => Value(s.mcounteren.bits)
    case 0x30A => Value(s.menvcfg.bits)
    case 0x31A => Value(s.menvcfgh.bits)
    case 0x320 => Value(s.mcountinhibit.bits)
    case _ => ReadHandling(s, csr)
  }

  /** The registers of machine trap handling, and the machine's own counters. */
  function ReadHandling(s: Csrs, csr: nat): Got
  {
    match csr
    case 0x340 => Value(s.mscratch.bits)
    case 0x341 => Value(s.mepc.bits)
    case 0x342 => Value(s.mcause.bits)
    case 0x343 => Value(s.mtval.bits)
    case 0x344 => Value(s.mip.bits)
    case 0x7A0 => Value(s.tselect.bits)
    case 0xB00 => Value(CounterBits(s.counter))
    case 0xB02 => Value(CounterBits(s.counter))
    case 0xF14 => Value(s.mhartid.bits)
    case _ => if ReadsZero(csr) then Value(0) else Refused
  }

  /** `read` on RV64; `rtc` is the clock. */
  function Read(s: Csrs, csr: nat, rtc: bv64): Got
  {
    if !Accessible(s, csr) then Refused
    else if IsPmp(csr) then Value(PmpBits(s, csr))
    else if csr < 0x100 || 0xC00 <= csr < 0xF00 then ReadUser(s, csr, rtc)
    else if csr < 0x200 then ReadSupervisor(s, csr)
    else ReadMachine(s, csr)
  }

  // ---------------------------------------------------------------- traps and returns

  predicate IsInterrupt(cause: bv64) { cause & 0x8000_0000_0000_0000 != 0 }

  function ExceptionCode(cause: bv64): bv64 { cause & 0x7FFF_FFFF_FFFF_FFFF }

  /** Bit `code` of a delegation register; a signed shift past the top leaves the sign. */
  predicate BitSet(v: bv64, code: bv64)
  {
    if code < 64 then (v >> (code as bv7)) & 1 != 0 else v & 0x8000_0000_0000_0000 != 0
  }

  /** Whether the trap goes to the supervisor. */
  predicate Delegated(s: Csrs, cause: bv64)
  {
    var deleg := if IsInterrupt(cause) then s.mideleg.bits else s.medeleg.bits;
    (s.priv == User || s.priv == Supervisor) && BitSet(deleg, ExceptionCode(cause))
  }

  /** `_trapToMachine` on mstatus: the level into MPP, its enable bit into MPIE, MIE off. */
  function EnterM(ms: bv64, level: bv64, bit: bv64): bv64
  {
    ((((ms & !0x1800) | (level << 11)) & !0x80) | (bit << 7)) & !0x08
  }

  function EnterS(ms: bv64, level: bv64, bit: bv64): bv64
  {
    ((((ms & !0x100) | (level << 8)) & !0x20) | (bit << 5)) & !0x02
  }

  function MstatusTrapM(ms: bv64, p: Priv): bv64 { EnterM(ms, PrivBits(p), EnableBit(ms, p)) }
  function MstatusTrapS(ms: bv64, p: Priv): bv64 { EnterS(ms, PrivBits(p), EnableBit(ms, p)) }

  function TrapM(s: Csrs, cause: Reg, tval: Reg): Csrs
  {
    s.(mepc := s.pc, mcause := cause, mtval := tval, mstatus := Reg(MstatusTrapM(s.mstatus.bits, s.priv)), priv := Machine, pc := s.mtvec)
  }

  function TrapS(s: Csrs, cause: Reg, tval: Reg): Csrs
  {
    s.(sepc := s.pc, scause := cause, stval := tval, mstatus := Reg(MstatusTrapS(s.mstatus.bits, s.priv)), priv := Supervisor,
       pc := s.stvec)
  }

  /** `raiseException` */
  function Trap(s: Csrs, cause: bv64, tval: bv64): Csrs
  {
    if Delegated(s, cause) then TrapS(s, Reg(cause), Reg(tval)) else TrapM(s, Reg(cause), Reg(tval))
  }

  function LeaveM(ms: bv64): bv64 { (ms | 0x80) & !0x1800 }
  function LeaveS(ms: bv64): bv64 { (ms | 0x20) & !0x100 }
  function Mpie(ms: bv64): bv64 { (ms >> 7) & 1 }
  function Spie(ms: bv64): bv64 { (ms >> 5) & 1 }

  function MstatusMret(ms: bv64): bv64 { LeaveM(WithEnableBit(ms, PrivOf(Mpp(ms)), Mpie(ms))) }
  function MstatusSret(ms: bv64): bv64 { LeaveS(WithEnableBit(ms, PrivOf(Spp(ms)), Spie(ms))) }

  function Mret(s: Csrs): Csrs
  {
    s.(mstatus := Reg(MstatusMret(s.mstatus.bits)), priv := PrivOf(Mpp(s.mstatus.bits)), pc := s.mepc)
  }

  function Sret(s: Csrs): Csrs
  {
    s.(mstatus := Reg(MstatusSret(s.mstatus.bits)), priv := PrivOf(Spp(s.mstatus.bits)), pc := s.sepc)
  }

  /** `_setPrivilege` flushes when the level changes or MPRV is on in the new mstatus. */
  predicate PrivFlushes(s: Csrs, s': Csrs) { s'.priv != s.priv || Mprv(s'.mstatus.bits) }

  // ---------------------------------------------------------------- interrupts

  predicate EnabledAtM(s: Csrs) { s.priv != Machine || Mie(s.mstatus.bits) }
  predicate EnabledAtS(s: Csrs) { s.priv == User || (s.priv == Supervisor && Sie(s.mstatus.bits)) }

  function Both(x: bv64, y: bv64): bv64 { x & y }

  function Pending(s: Csrs): bv64 { Both(s.mip.bits, s.mie.bits) }

  /** The pending interrupts of a mask that some level takes. */
  function Taken(mask: bv64, mideleg: bv64, atM: bool, atS: bool): bv64
  {
    (if atM then mask & !mideleg else 0) | (if atS then mask & mideleg else 0)
  }

  /** The pending interrupts that `hasPendingInterrupt` counts. */
  function EnabledSet(s: Csrs): bv64
  {
    Taken(Pending(s), s.mideleg.bits, EnabledAtM(s), EnabledAtS(s))
  }

  predicate HasPending(s: Csrs) { EnabledSet(s) != 0 }

  /** `ctz32`: 32 for zero, the lowest set bit among the low 32, and 31 when only high bits are set. */
  function Ctz32(v: bv64): (n: nat)
    ensures n <= 32
  {
    if v == 0 then 32 else if v & 0xFFFF_FFFF == 0 then 31 else LowestFrom(v, 0)
  }

  function LowestFrom(v: bv64, i: nat): (n: nat)
    requires i <= 32
    ensures i <= n <= 32
    decreases 32 - i
  {
    if i == 32 || (v >> (i as bv7)) & 1 != 0 then i else LowestFrom(v, i + 1)
  }

  function InterruptWord(irq: nat): bv64
    requires irq <= 32
  {
    (irq as bv64) | 0x8000_0000_0000_0000
  }

  /** `handlePendingInterrupt`: the lowest pending bit, whether or not it is the enabled one. */
  function InterruptCause(s: Csrs): bv64
  {
    InterruptWord(Ctz32(Pending(s)))
  }

  function TakeInterrupt(s: Csrs): Csrs
  {
    if Pending(s) == 0 then s else Trap(s, InterruptCause(s), 0)
  }
}
