/**
 * The interpreter as functions: one instruction, and the loop with its interrupts, faults and cycle count, over either machine.
 *
 * The two `execute` loops of the source differ in where the caches are and in the cycles a fault costs. Here both are one
 * function of the machine they run on: with the caches it is the predecoded loop, without them the classic one.
 */
module Interpreter {
  import opened Words
  import opened PhysMemory
  import opened Translate
  import opened Csr
  import opened Tlb
  import opened Cpu
  import opened Fences
  import U = Uncached
  import D = Predecode

  // ---------------------------------------------------------------- micro-ops

  function AsAddr(v: bv64): addr { v as int }
  function AddrOf(r: Reg): addr { AsAddr(r.bits) }
  function RegOf(a: addr): Reg { Reg(a as bv64) }
  function Word64(n: nat): bv64 { (n % SPACE) as bv64 }

  /** The fields of a packed micro-op word. */
  function OpCode(op: D.MicroOp): nat { op.meta % 256 }
  function Rd(op: D.MicroOp): (i: nat) ensures i < 32 { op.meta / 0x100 % 32 }
  function Rs1(op: D.MicroOp): (i: nat) ensures i < 32 { op.meta / 0x2000 % 32 }
  function Rs2(op: D.MicroOp): (i: nat) ensures i < 32 { op.meta / 0x4_0000 % 32 }
  function Size(op: D.MicroOp): nat { if op.meta / 0x80_0000 % 2 == 0 then 2 else 4 }

  function Offset(base: bv64, imm: int): addr { Wrap(base as int + imm) }
  function Plus(x: bv64, imm: int): bv64 { Wrap(x as int + imm) as bv64 }
  function Sum(x: bv64, y: bv64): bv64 { Plus(x, AsAddr(y)) }

  /** Sizes and extensions of the load ops, sizes of the store ops. */
  predicate IsLoad(code: nat) { 45 <= code <= 51 }
  predicate IsStore(code: nat) { 52 <= code <= 55 }

  function LoadSize(code: nat): (n: nat)
    requires IsLoad(code)
    ensures IsSize(n)
  {
    match code case 45 => 1 case 49 => 1 case 46 => 2 case 50 => 2 case 47 => 4 case 51 => 4 case _ => 8
  }

  function StoreSize(code: nat): (n: nat)
    requires IsStore(code)
    ensures IsSize(n)
  {
    match code case 52 => 1 case 53 => 2 case 54 => 4 case _ => 8
  }

  function Extend(code: nat, v: bv64): bv64
  {
    match code
    case 45 => if v & 0x80 != 0 then v | 0xFFFF_FFFF_FFFF_FF00 else v & 0xFF
    case 46 => if v & 0x8000 != 0 then v | 0xFFFF_FFFF_FFFF_0000 else v & 0xFFFF
    case 47 => if v & 0x8000_0000 != 0 then v | 0xFFFF_FFFF_0000_0000 else v & 0xFFFF_FFFF
    case 51 => v & 0xFFFF_FFFF
    case _ => v
  }

  datatype CsrKind = ReadWrite | ReadSet | ReadClear

  type reg = i: nat | i < 32

  type width = n: nat | IsSize(n) witness 1

  /** What a floating-point instruction leaves behind: a register, which also marks the unit dirty, and flags to be added. */
  datatype Floating = Untouched | Floating(write: Option<(reg, bv64)>, flags: bv64)

  /**
   * The next thing an instruction left to the classic interpreter does: one of the system instructions, an access to memory, or
   * its end. A load may move the reservation before it is made.
   */
  datatype Classic =
    | Ecall | Ebreak | MachineRet | SupervisorRet | Wfi
    | FenceVmaAll | FenceVmaAt(rs1: reg) | FenceInsn
    | CsrInsn(kind: CsrKind, csr: nat, rd: reg, rs1: reg, immediate: bool)
    | Illegal
    | Reading(va: addr, size: width, reserved: int)
    | Writing(va: addr, size: width, v: bv64)
    | Finish(rd: reg, val: bv64, next: addr, reserved: int, floating: Floating)

  /** What the classic interpreter looks at: the registers, the float status and rounding mode, and what it has read already. */
  datatype Operands = Operands(pc: addr, regs: seq<bv64>, floats: seq<bv64>, status: bv64, rounding: bv64, reserved: int, read: seq<bv64>)

  /** An atomic is a load and a store, a double is two words: no instruction makes more accesses than that. */
  const ACCESSES: nat := 2

  function NewCsr(kind: CsrKind, was: bv64, val: bv64): bv64
  {
    match kind case ReadWrite => val case ReadSet => was | val case ReadClear => was & !val
  }

  /** The arms of the two interpreters that are left open: other arithmetic, jumps and branches, and the classic instructions. */
  datatype Arms = Arms(value: (D.MicroOp, bv64, bv64, addr) -> bv64, next: (D.MicroOp, bv64, bv64, addr) -> addr,
                       classic: (bv64, Operands) -> Classic)

  /**
   * What the processor is told from outside: the answer of a device register and of the clock, for each time it looks. Two looks
   * at the same register may differ.
   */
  datatype Outside = Outside(device: (nat, nat, nat) -> bv64, clock: nat -> bv64, decoder: D.Decoder)

  /** The world as the look numbered `k` finds it. */
  function At(w: Outside, k: nat): (v: World)
    ensures v.decoder == w.decoder
  {
    World((pa: nat, n: nat) => w.device(k, pa, n), w.decoder)
  }

  const NOP: nat := 2
  const ADDI: nat := 5
  const ADD: nat := 18
  const BEQ: nat := 39

  const ILLEGAL: nat := 2
  const BREAKPOINT: nat := 3
  const USER_ECALL: nat := 8

  // ---------------------------------------------------------------- machines

  /** The machine with its caches, or the one without and what is to be seen of its fences. */
  datatype Mach = Cached(s: State) | Plain(p: U.Plain, h: History, polite: bool)

  predicate Fit(m: Mach) { m.Cached? ==> Shaped(m.s) }

  function CsrOf(m: Mach): Csrs { if m.Cached? then m.s.csr else m.p.csr }

  ghost function Advance(m: Mach, w: World, e: Event): (r: (Mach, Outcome))
    requires Fit(m) && Sensible(e)
    ensures Fit(r.0) && r.0.Cached? == m.Cached? && (m.Plain? && r.0.polite ==> m.polite)
  {
    match m
    case Cached(s) =>
      var (s1, o) := Next(s, w, e);
      (Cached(s1), o)
    case Plain(p, h, polite) =>
      var (p1, o) := U.PlainStep(p, w, e);
      var (h1, ok) := Observed(h, p, w, e);
      (Plain(p1, h1, polite && ok), o)
  }

  /**
   * A machine with its integer and floating-point registers, the trap value left pending, the sleep flag, the reservation, and how
   * often it has looked outside.
   */
  datatype Hart = Hart(mach: Mach, regs: seq<bv64>, floats: FloatFile, tval: addr, down: bool, reserved: int, looks: nat)

  const NO_RESERVATION: int := -1

  predicate Ready(h: Hart) { Fit(h.mach) && |h.regs| == 32 }

  /** Runs the same kind of machine on; one that is polite in the end has always been. */
  predicate Onward(h: Hart, h': Hart)
  {
    Ready(h') && h'.mach.Cached? == h.mach.Cached? && (h.mach.Plain? && h'.mach.polite ==> h.mach.polite)
  }

  ghost function Serve(h: Hart, w: Outside, e: Event): (h': Hart)
    requires Ready(h) && Sensible(e)
    ensures Onward(h, h')
  {
    h.(mach := Advance(h.mach, At(w, h.looks), e).0)
  }

  /** An access to memory; a load looks outside. */
  ghost function Access(h: Hart, w: Outside, e: Event): (r: (Hart, Outcome))
    requires Ready(h) && (e.Load? || e.Store?) && Sensible(e)
    ensures Onward(h, r.0)
  {
    var (m, o) := Advance(h.mach, At(w, h.looks), e);
    (h.(mach := m, looks := if e.Load? then h.looks + 1 else h.looks), o)
  }

  function Registered(h: Hart, rd: nat, v: bv64): (h': Hart)
    requires Ready(h) && rd < 32
    ensures Onward(h, h')
  {
    h.(regs := h.regs[rd := v])
  }

  /** How an instruction ended; a fault says how many cycles it is charged, and whether it hit the second half of a fetch. */
  datatype End = Going(next: addr) | Faulted(cause: nat, cost: nat, half: bool) | Broken

  // ---------------------------------------------------------------- the arms of the predecoded loop

  /** A load op; one that traps writes no register. */
  ghost function LoadOp(h: Hart, w: Outside, op: D.MicroOp, pc: addr): (r: (Hart, End))
    requires Ready(h) && IsLoad(OpCode(op))
    ensures Onward(h, r.0) && (r.1.Faulted? ==> r.1.cost == 2 && !r.1.half)
  {
    var (h1, o) := Access(h, w, Load(Offset(h.regs[Rs1(op)], op.imm), LoadSize(OpCode(op))));
    match o
    case Done(v) => (Registered(h1, Rd(op), Extend(OpCode(op), v)), Going(Wrap(pc + Size(op))))
    case Trapped(cause, tval) => (h1.(tval := tval), Faulted(cause, 2, false))
    case _ => (h1, Broken)
  }

  ghost function StoreOp(h: Hart, w: Outside, op: D.MicroOp, pc: addr): (r: (Hart, End))
    requires Ready(h) && IsStore(OpCode(op))
    ensures Onward(h, r.0) && (r.1.Faulted? ==> r.1.cost == 2 && !r.1.half)
  {
    var (h1, o) := Access(h, w, Store(Offset(h.regs[Rs1(op)], op.imm), StoreSize(OpCode(op)), h.regs[Rs2(op)]));
    match o
    case Done(_) => (h1, Going(Wrap(pc + Size(op))))
    case Trapped(cause, tval) => (h1.(tval := tval), Faulted(cause, 2, false))
    case _ => (h1, Broken)
  }

  /** The ops that stay among registers: a few written out, the other arms left open. */
  function AluOp(h: Hart, arms: Arms, op: D.MicroOp, pc: addr): (r: (Hart, End))
    requires Ready(h)
    ensures Onward(h, r.0) && r.0.mach == h.mach && r.1.Going?
  {
    var a, b, code, next := h.regs[Rs1(op)], h.regs[Rs2(op)], OpCode(op), Wrap(pc + Size(op));
    if code == NOP then (h, Going(next))
    else if code == ADDI then (Registered(h, Rd(op), Plus(a, op.imm)), Going(next))
    else if code == ADD then (Registered(h, Rd(op), Sum(a, b)), Going(next))
    else if code == BEQ then (h, Going(if a == b then Wrap(pc + op.imm) else next))
    else (if Rd(op) != 0 then Registered(h, Rd(op), arms.value(op, a, b, pc)) else h, Going(arms.next(op, a, b, pc)))
  }

  // ---------------------------------------------------------------- the classic interpreter

  /** How a classic instruction ended: well, with an exception pending, or in a crash of the emulator. */
  datatype Way = Well | Pended(cause: nat) | Wrecked

  type Did = (Hart, Way)

  ghost function WithPc(h: Hart, w: Outside, a: addr): (h': Hart)
    requires Ready(h)
    ensures Onward(h, h')
  {
    Serve(h, w, Sync(RegOf(a), CsrOf(h.mach).counter))
  }

  /** `_raiseIllegalInsn` */
  function Illegally(h: Hart, insn: bv64): Did { (h.(tval := AsAddr(insn)), Pended(ILLEGAL)) }

  /** `_executePrivileged` but for the fences: calls into higher levels, and returns from them. */
  ghost function LevelOp(h: Hart, w: Outside, classic: Classic, insn: bv64): (r: Did)
    requires Ready(h)
    ensures Onward(h, r.0) && !r.1.Wrecked?
  {
    var level := PrivLevel(CsrOf(h.mach).priv);
    if classic.Ecall? then (h, Pended(USER_ECALL + level))
    else if classic.Ebreak? then (h, Pended(BREAKPOINT))
    else if classic.MachineRet? && level >= 3 then (Serve(h, w, DoMret), Well)
    else if classic.SupervisorRet? && level >= 1 then (Serve(h, w, DoSret), Well)
    else Illegally(h, insn)
  }

  /** wfi, sfence.vma and fence.i; all but the last are for supervisors. */
  ghost function FenceOp(h: Hart, w: Outside, classic: Classic, insn: bv64): (r: Did)
    requires Ready(h)
    ensures Onward(h, r.0) && !r.1.Wrecked?
  {
    if classic.FenceInsn? then (Serve(h, w, DoFenceI), Well)
    else if CsrOf(h.mach).priv == User then Illegally(h, insn)
    else if classic.Wfi? then (h.(down := h.down || Pending(CsrOf(h.mach)) == 0), Well)
    else if classic.FenceVmaAll? then (Serve(h, w, SfenceAll), Well)
    else if classic.FenceVmaAt? then (Serve(h, w, SfencePage(AsAddr(h.regs[classic.rs1]))), Well)
    else (h, Well)
  }

  /** The write of a register instruction that has read `was`, and its result. */
  ghost function CsrPut(h: Hart, w: Outside, csr: nat, writes: bool, val: bv64, rd: reg, was: bv64, insn: bv64): (r: Did)
    requires Ready(h)
    ensures Onward(h, r.0) && !r.1.Wrecked?
  {
    var h1 := if writes then Serve(h, w, CsrWrite(csr, val)) else h;
    if writes && !Accessible(CsrOf(h.mach), csr) then Illegally(h1, insn)
    else (if rd != 0 then Registered(h1, rd, was) else h1, Well)
  }

  /** `_executeCsr`; the clock is looked at for the register that shows it. */
  ghost function CsrOp(h: Hart, w: Outside, kind: CsrKind, csr: nat, rd: reg, rs1: reg, immediate: bool, insn: bv64): (r: Did)
    requires Ready(h)
    ensures Onward(h, r.0) && !r.1.Wrecked?
  {
    var h1, was := h.(looks := h.looks + 1), Csr.Read(CsrOf(h.mach), csr, w.clock(h.looks));
    if was.Refused? then Illegally(h1, insn)
    else
      var val := if immediate then Word64(rs1) else h.regs[rs1];
      CsrPut(h1, w, csr, kind == ReadWrite || rs1 != 0, NewCsr(kind, was.v, val), rd, was.v, insn)
  }

  function OperandsOf(h: Hart, pc: addr, read: seq<bv64>): Operands
  {
    var c := CsrOf(h.mach);
    Operands(pc, h.regs, h.floats, c.mstatus.bits, c.frm.bits, h.reserved, read)
  }

  /** The registers, the float unit and the reservation at the end of an instruction. */
  ghost function Finished(h: Hart, w: Outside, rd: reg, val: bv64, reserved: int, floating: Floating): (h': Hart)
    requires Ready(h)
    ensures Onward(h, h')
  {
    var h1 := (if rd != 0 then Registered(h, rd, val) else h).(reserved := reserved);
    match floating
    case Untouched => h1
    case Floating(write, flags) =>
      var h2 := if write.Some? then h1.(floats := h1.floats[write.value.0 := write.value.1]) else h1;
      Serve(h2, w, FloatDone(flags, write.Some?))
  }

  /** A plain instruction: its accesses one after the other, each seeing what was read before, and its end; the first fault stops it. */
  ghost function PlainOp(h: Hart, w: Outside, arms: Arms, insn: bv64, pc: addr, read: seq<bv64>): (r: Did)
    requires Ready(h) && |read| <= ACCESSES
    ensures Onward(h, r.0)
    decreases ACCESSES - |read|
  {
    match arms.classic(insn, OperandsOf(h, pc, read))
    case Finish(rd, val, next, reserved, floating) => (WithPc(Finished(h, w, rd, val, reserved, floating), w, next), Well)
    case Reading(va, size, reserved) =>
      if |read| == ACCESSES then Illegally(h, insn)
      else Went(Access(h.(reserved := reserved), w, Load(va, size)), w, arms, insn, pc, read)
    case Writing(va, size, v) =>
      if |read| == ACCESSES then Illegally(h, insn) else Went(Access(h, w, Store(va, size, v)), w, arms, insn, pc, read)
    case _ => Illegally(h, insn)
  }

  /** What follows an access. */
  ghost function Went(r: (Hart, Outcome), w: Outside, arms: Arms, insn: bv64, pc: addr, read: seq<bv64>): (r': Did)
    requires Ready(r.0) && |read| < ACCESSES
    ensures Onward(r.0, r'.0)
    decreases ACCESSES - |read|, 0
  {
    match r.1
    case Done(v) => PlainOp(r.0, w, arms, insn, pc, read + [v])
    case Trapped(cause, tval) => (r.0.(tval := tval), Pended(cause))
    case _ => (r.0, Wrecked)
  }

  /** `_executeInstruction`: the program counter is set before, and moved on by what does not set it. */
  ghost function ClassicOp(h: Hart, w: Outside, arms: Arms, insn: bv64, pc: addr): (r: Did)
    requires Ready(h)
    ensures Onward(h, r.0)
  {
    var h0, size := WithPc(h, w, pc), if D.IsCompressed(insn) then 2 else 4;
    var c := arms.classic(insn, OperandsOf(h0, pc, []));
    if c.CsrInsn? then MovedOn(CsrOp(h0, w, c.kind, c.csr, c.rd, c.rs1, c.immediate, insn), w, Wrap(pc + size))
    else if c.Wfi? || c.FenceVmaAll? || c.FenceVmaAt? || c.FenceInsn? then MovedOn(FenceOp(h0, w, c, insn), w, Wrap(pc + size))
    else if c.Reading? || c.Writing? || c.Finish? then PlainOp(h0, w, arms, insn, pc, [])
    else LevelOp(h0, w, c, insn)
  }

  ghost function MovedOn(r: Did, w: Outside, next: addr): (r': Did)
    requires Ready(r.0)
    ensures Onward(r.0, r'.0) && (r'.1.Wrecked? ==> r.1.Wrecked?)
  {
    if r.1.Well? then (WithPc(r.0, w, next), Well) else r
  }

  // ---------------------------------------------------------------- one instruction

  /** What comes after the fetch. */
  ghost function Perform(h: Hart, w: Outside, arms: Arms, op: D.MicroOp, pc: addr): (r: (Hart, End))
    requires Ready(h)
    ensures Onward(h, r.0) && (r.1.Faulted? ==> r.1.cost == 2 && !r.1.half)
  {
    if IsLoad(OpCode(op)) then LoadOp(h, w, op, pc)
    else if IsStore(OpCode(op)) then StoreOp(h, w, op, pc)
    else AluOp(h, arms, op, pc)
  }

  ghost function Classically(h: Hart, w: Outside, arms: Arms, insn: bv64, pc: addr): (r: (Hart, End))
    requires Ready(h)
    ensures Onward(h, r.0) && (r.1.Faulted? ==> r.1.cost == 2 && !r.1.half)
  {
    var (h1, way) := ClassicOp(h, w, arms, insn, pc);
    (h1, match way case Well => Going(AddrOf(CsrOf(h1.mach).pc)) case Pended(cause) => Faulted(cause, 2, false) case Wrecked => Broken)
  }

  /** The predecoded loop has counted the instruction before it finds that it cannot be fetched: its page is there. */
  ghost predicate Counted(m: Mach, pc: addr)
    requires Fit(m)
  {
    m.Cached? && (m.s.code.tag == TagOf(pc) || FetchAndCache(m.s, pc).1.Done?)
  }

  /** A fetch that faults costs one cycle, and one more when the instruction has been counted already. */
  ghost function FetchCost(m: Mach, pc: addr): nat
    requires Fit(m)
  {
    if Counted(m, pc) then 2 else 1
  }

  ghost function Instruction(h: Hart, w: Outside, arms: Arms, pc: addr): (r: (Hart, End))
    requires Ready(h)
    ensures Onward(h, r.0)
  {
    var (m, o) := Advance(h.mach, At(w, h.looks), Execute(pc));
    var h1 := h.(mach := m);
    match o
    case Dispatched(op) => Perform(h1, w, arms, op, pc)
    case Done(insn) => Classically(h1, w, arms, insn, pc)
    case Trapped(cause, tval) => (h1.(tval := tval), Faulted(cause, FetchCost(h.mach, pc), tval == Wrap(pc + 2)))
    case Crash => (h1, Broken)
  }

  // ---------------------------------------------------------------- the loop

  /** Why the loop was left. */
  datatype Leave = Idle | Spent | Slept | Interrupted | Excepted(cost: nat, half: bool) | Stuck

  /** The program counter and the instruction counter written back. */
  ghost function Synced(h: Hart, w: Outside, pc: addr, counter: nat): (h': Hart)
    requires Ready(h)
    ensures Onward(h, h')
  {
    Serve(h, w, Sync(RegOf(pc), counter))
  }

  /** `_syncCounter` */
  ghost function CounterSynced(h: Hart, w: Outside, counter: nat): (h': Hart)
    requires Ready(h)
    ensures Onward(h, h')
  {
    Serve(h, w, Sync(CsrOf(h.mach).pc, counter))
  }

  /** A trap taken at `pc`, and the counter written back. */
  ghost function Trapping(h: Hart, w: Outside, pc: addr, cause: bv64, tval: bv64, counter: nat): (h': Hart)
    requires Ready(h)
    ensures Onward(h, h')
  {
    CounterSynced(Serve(WithPc(h, w, pc), w, Raise(cause, tval)), w, counter)
  }

  /** The loop with `cycles` left; `target` is what the counter comes to when all are spent. */
  ghost function Loop(h: Hart, w: Outside, arms: Arms, pc: addr, cycles: nat, target: nat): (r: (Hart, Leave))
    requires Ready(h) && target >= cycles
    ensures Onward(h, r.0)
    decreases cycles, 1
  {
    if cycles == 0 then (Synced(h, w, pc, target), Spent)
    else if HasPending(CsrOf(h.mach)) then
      (Trapping(h, w, pc, InterruptCause(CsrOf(h.mach)), 0, target - (cycles - 1)), Interrupted)
    else
      var (h1, e) := Instruction(h, w, arms, pc);
      Continued(h1, e, w, arms, pc, cycles, target)
  }

  /** What follows an instruction: the next one, sleep, or a trap. */
  ghost function Continued(h: Hart, e: End, w: Outside, arms: Arms, pc: addr, cycles: nat, target: nat): (r: (Hart, Leave))
    requires Ready(h) && target >= cycles > 0
    ensures Onward(h, r.0)
    decreases cycles, 0
  {
    match e
    case Going(next) =>
      if h.down then (Synced(h, w, next, target - (cycles - 1)), Slept) else Loop(h, w, arms, next, cycles - 1, target)
    case Faulted(cause, cost, half) =>
      (Trapping(h, w, pc, Word64(cause), Word64(h.tval), target - cycles + cost), Excepted(cost, half))
    case Broken => (h, Stuck)
  }

  /** `execute` */
  ghost function Executed(h: Hart, w: Outside, arms: Arms, maxCycles: int): (r: (Hart, Leave))
    requires Ready(h)
    ensures Onward(h, r.0)
  {
    if maxCycles <= 0 then (h, Idle)
    else Loop(h, w, arms, AddrOf(CsrOf(h.mach).pc), maxCycles, CsrOf(h.mach).counter + maxCycles)
  }

  // ---------------------------------------------------------------- the machine around it

  /** `RiscvMachine.step`, apart from the devices it polls: a sleeping hart runs only when an interrupt is pending. */
  ghost function Stepped(h: Hart, w: Outside, arms: Arms, maxCycles: int): (r: (Hart, Leave))
    requires Ready(h)
    ensures Onward(h, r.0)
  {
    if h.down && Pending(CsrOf(h.mach)) == 0 then (h, Idle) else Executed(h.(down := false), w, arms, maxCycles)
  }

  /** What the host does: give the hart cycles, or write memory or the interrupt lines for a device. */
  datatype Call = Cycles(n: int) | Dma(pa: nat, bytes: seq<bv8>) | Lines(mip: bv64)

  ghost function Called(h: Hart, w: Outside, arms: Arms, c: Call): (r: (Hart, Leave))
    requires Ready(h)
    ensures Onward(h, r.0)
  {
    match c
    case Cycles(n) => Stepped(h, w, arms, n)
    case Dma(pa, bytes) => (Serve(h, w, DeviceWrite(pa, bytes)), Idle)
    case Lines(mip) => (Serve(h, w, SetMip(mip)), Idle)
  }

  /** A whole session: the last state, and why each call came back. */
  ghost function Session(h: Hart, w: Outside, arms: Arms, calls: seq<Call>): (r: (Hart, seq<Leave>))
    requires Ready(h)
    ensures Onward(h, r.0) && |r.1| == |calls|
    decreases |calls|
  {
    if calls == [] then (h, [])
    else
      var (h1, l) := Called(h, w, arms, calls[0]);
      var (h2, ls) := Session(h1, w, arms, calls[1..]);
      (h2, [l] + ls)
  }
}
