/** What the micro-ops mean, in numbers: the seven loads, the four stores, and the register ops, from their packed words on. */
module OpLaws {
  import opened Words
  import opened Numbers
  import opened PhysMemory
  import opened Pte
  import opened Translate
  import opened Csr
  import opened Cpu
  import opened Fences
  import opened Interpreter
  import I = Interpreter
  import DM = DataMemory
  import U = Uncached
  import D = Predecode

  // ---------------------------------------------------------------- micro-ops

  /** A micro-op word as `PredecodeMeta` lays it out. */
  function Packed(code: nat, rd: reg, rs1: reg, rs2: reg, four: bool): (meta: nat)
  {
    code + 0x100 * rd + 0x2000 * rs1 + 0x4_0000 * rs2 + if four then 0x80_0000 else 0
  }

  lemma Unpacked(code: nat, rd: reg, rs1: reg, rs2: reg, four: bool, imm: int)
    requires code < 256
    ensures var op := D.MicroOp(Packed(code, rd, rs1, rs2, four), imm);
      OpCode(op) == code && Rd(op) == rd && Rs1(op) == rs1 && Rs2(op) == rs2 && Size(op) == (if four then 4 else 2)
  {
    var s := if four then 1 else 0;
    var meta := Packed(code, rd, rs1, rs2, four);
    assert meta == code + 0x100 * (rd + 0x20 * (rs1 + 0x20 * (rs2 + 0x20 * s)));
    Digit(code, 0x100, rd + 0x20 * (rs1 + 0x20 * (rs2 + 0x20 * s)));
    assert meta / 0x2000 == meta / 0x100 / 0x20 && meta / 0x4_0000 == meta / 0x2000 / 0x20 && meta / 0x80_0000 == meta / 0x4_0000 / 0x20;
  }

  lemma Digit(d: nat, base: nat, rest: nat)
    requires base == 0x100 && d < base
    ensures (d + base * rest) % base == d && (d + base * rest) / base == rest
  {
  }

  datatype LoadKind = LB | LH | LW | LD | LBU | LHU | LWU
  datatype StoreKind = SB | SH | SW | SD

  /** The numbers of the ops in `PredecodeOp`. */
  function LoadCode(k: LoadKind): nat
  {
    match k case LB => 45 case LH => 46 case LW => 47 case LD => 48 case LBU => 49 case LHU => 50 case LWU => 51
  }

  function StoreCode(k: StoreKind): nat { match k case SB => 52 case SH => 53 case SW => 54 case SD => 55 }

  /** How many bytes, and whether the number is signed. */
  function LoadBytes(k: LoadKind): (n: nat)
    ensures IsSize(n)
  {
    match k case LB => 1 case LBU => 1 case LH => 2 case LHU => 2 case LW => 4 case LWU => 4 case LD => 8
  }

  function StoreBytes(k: StoreKind): (n: nat)
    ensures IsSize(n)
  {
    match k case SB => 1 case SH => 2 case SW => 4 case SD => 8
  }

  predicate Signed(k: LoadKind) { k == LB || k == LH || k == LW }

  // ---------------------------------------------------------------- numbers

  function ByteNumber(b: bv8): (x: nat) { b as nat }

  /** The number a string of bytes spells, lowest first. */
  function Number(b: seq<bv8>): (x: nat)
  {
    if b == [] then 0 else ByteNumber(b[0]) + 256 * Number(b[1..])
  }

  /** 256 to the number of bytes. */
  function Modulus(n: nat): (m: nat)
    requires IsSize(n)
  {
    if n == 1 then 0x100 else if n == 2 then 0x1_0000 else if n == 4 then 0x1_0000_0000 else SPACE
  }

  /** The register's number after the load: a signed one with its top bit set stands for a negative number. */
  function Loaded(k: LoadKind, x: nat): int
  {
    var m := Modulus(LoadBytes(k));
    if Signed(k) && 2 * x >= m then x - m + SPACE else x
  }

  lemma PairWord(a: bv8, b: bv8)
    ensures Pair(a, b) == ((b as bv64) << 8) | (a as bv64)
  {
  }

  lemma HalvesWord(a: bv8, b: bv8, c: bv8, d: bv8)
    ensures Halves(Pair(a, b), Pair(c, d)) == ((d as bv64) << 24) | ((c as bv64) << 16) | ((b as bv64) << 8) | (a as bv64)
  {
  }

  lemma EightWord(a: bv8, b: bv8, c: bv8, d: bv8, e: bv8, f: bv8, g: bv8, h: bv8)
    ensures Eight(a, b, c, d, e, f, g, h) ==
      ((h as bv64) << 56) | ((g as bv64) << 48) | ((f as bv64) << 40) | ((e as bv64) << 32) |
      ((d as bv64) << 24) | ((c as bv64) << 16) | ((b as bv64) << 8) | (a as bv64)
  {
  }

  lemma OneNumber(a: bv8)
    ensures Unsigned(a as bv64) == ByteNumber(a) < 0x100
  {
  }

  lemma PairNumber(a: bv8, b: bv8)
    ensures Unsigned(Pair(a, b)) == ByteNumber(a) + 0x100 * ByteNumber(b) < 0x1_0000
  {
    hide Pair;
    PairWord(a, b);
  }

  lemma HalvesNumber(a: bv8, b: bv8, c: bv8, d: bv8)
    ensures Unsigned(Halves(Pair(a, b), Pair(c, d))) ==
      ByteNumber(a) + 0x100 * ByteNumber(b) + 0x1_0000 * ByteNumber(c) + 0x100_0000 * ByteNumber(d) < 0x1_0000_0000
  {
    hide Pair, Halves;
    HalvesWord(a, b, c, d);
  }

  lemma EightNumber(a: bv8, b: bv8, c: bv8, d: bv8, e: bv8, f: bv8, g: bv8, h: bv8)
    ensures Unsigned(Eight(a, b, c, d, e, f, g, h)) ==
      ByteNumber(a) + 0x100 * ByteNumber(b) + 0x1_0000 * ByteNumber(c) + 0x100_0000 * ByteNumber(d) +
      0x1_0000_0000 * ByteNumber(e) + 0x100_0000_0000 * ByteNumber(f) + 0x1_0000_0000_0000 * ByteNumber(g) +
      0x100_0000_0000_0000 * ByteNumber(h)
  {
    hide Eight;
    EightWord(a, b, c, d, e, f, g, h);
  }

  lemma Number1(b: seq<bv8>)
    requires |b| == 1
    ensures Number(b) == ByteNumber(b[0])
  {
    hide ByteNumber;
    assert b[1..] == [];
  }

  lemma Number2(b: seq<bv8>)
    requires |b| == 2
    ensures Number(b) == ByteNumber(b[0]) + 0x100 * ByteNumber(b[1])
  {
    hide ByteNumber;
    Number1(b[1..]);
  }

  lemma Number4(b: seq<bv8>)
    requires |b| == 4
    ensures Number(b) == ByteNumber(b[0]) + 0x100 * ByteNumber(b[1]) + 0x1_0000 * ByteNumber(b[2]) + 0x100_0000 * ByteNumber(b[3])
  {
    hide ByteNumber, Number;
    Number2(b[2..]);
    NumberUnfold(b);
    NumberUnfold(b[1..]);
    assert b[1..][1..] == b[2..];
  }

  lemma Number8(b: seq<bv8>)
    requires |b| == 8
    ensures Number(b) == ByteNumber(b[0]) + 0x100 * ByteNumber(b[1]) + 0x1_0000 * ByteNumber(b[2]) + 0x100_0000 * ByteNumber(b[3]) +
      0x1_0000_0000 * ByteNumber(b[4]) + 0x100_0000_0000 * ByteNumber(b[5]) + 0x1_0000_0000_0000 * ByteNumber(b[6]) +
      0x100_0000_0000_0000 * ByteNumber(b[7])
  {
    hide ByteNumber, Number;
    Number4(b[4..]);
    NumberUnfold(b);
    NumberUnfold(b[1..]);
    NumberUnfold(b[2..]);
    NumberUnfold(b[3..]);
    assert b[1..][1..] == b[2..] && b[2..][1..] == b[3..] && b[3..][1..] == b[4..];
  }

  lemma NumberUnfold(b: seq<bv8>)
    requires b != []
    ensures Number(b) == ByteNumber(b[0]) + 256 * Number(b[1..])
  {
  }

  /** A value whose low bytes are these. */
  predicate Spells(v: bv64, b: seq<bv8>) { |b| <= 8 && forall i :: 0 <= i < |b| ==> Byte(v, i) == b[i] }

  lemma LowNumber(v: bv64, b: seq<bv8>)
    requires IsSize(|b|) && Spells(v, b)
    ensures Unsigned(Low(v, |b|)) == Number(b)
  {
    hide Byte, Pair, Halves, Eight, Low, Number, ByteNumber, Unsigned;
    assert Byte(v, 0) == b[0];
    if |b| == 1 {
      AsOne(v);
      OneNumber(b[0]);
      Number1(b);
    } else if |b| == 2 {
      assert Byte(v, 1) == b[1];
      AsPair(v);
      PairNumber(b[0], b[1]);
      Number2(b);
    } else if |b| == 4 {
      assert Byte(v, 1) == b[1] && Byte(v, 2) == b[2] && Byte(v, 3) == b[3];
      AsHalves(v);
      HalvesNumber(b[0], b[1], b[2], b[3]);
      Number4(b);
    } else {
      assert Byte(v, 1) == b[1] && Byte(v, 2) == b[2] && Byte(v, 3) == b[3];
      assert Byte(v, 4) == b[4] && Byte(v, 5) == b[5] && Byte(v, 6) == b[6] && Byte(v, 7) == b[7];
      AsEight(v);
      WholeLow(v);
      EightNumber(b[0], b[1], b[2], b[3], b[4], b[5], b[6], b[7]);
      Number8(b);
    }
  }

  lemma WholeLow(v: bv64)
    ensures Low(v, 8) == v
  {
  }

  // ---------------------------------------------------------------- extension

  lemma ExtendByte(v: bv64)
    ensures Unsigned(Extend(45, v)) == if Unsigned(Low(v, 1)) >= 0x80 then Unsigned(Low(v, 1)) - 0x100 + SPACE else Unsigned(Low(v, 1))
  {
    hide Extend, Low, Unsigned;
    SignByte(v);
    Borrow1(Low(v, 1));
  }

  lemma SignByte(v: bv64)
    ensures Low(v, 1) < 0x100 && Extend(45, v) == if Low(v, 1) >= 0x80 then Low(v, 1) - 0x100 else Low(v, 1)
  {
  }

  lemma Borrow1(x: bv64)
    requires x < 0x100
    ensures Unsigned(x - 0x100) == Unsigned(x) - 0x100 + SPACE && (x >= 0x80 <==> Unsigned(x) >= 0x80)
  {
  }

  lemma ExtendHalf(v: bv64)
    ensures Unsigned(Extend(46, v)) == if Unsigned(Low(v, 2)) >= 0x8000 then Unsigned(Low(v, 2)) - 0x1_0000 + SPACE else Unsigned(Low(v, 2))
  {
    hide Extend, Low, Unsigned;
    SignHalf(v);
    Borrow2(Low(v, 2));
  }

  lemma SignHalf(v: bv64)
    ensures Low(v, 2) < 0x1_0000 && Extend(46, v) == if Low(v, 2) >= 0x8000 then Low(v, 2) - 0x1_0000 else Low(v, 2)
  {
  }

  lemma Borrow2(x: bv64)
    requires x < 0x1_0000
    ensures Unsigned(x - 0x1_0000) == Unsigned(x) - 0x1_0000 + SPACE && (x >= 0x8000 <==> Unsigned(x) >= 0x8000)
  {
  }

  lemma ExtendWord(v: bv64)
    ensures Unsigned(Extend(47, v)) ==
      if Unsigned(Low(v, 4)) >= 0x8000_0000 then Unsigned(Low(v, 4)) - 0x1_0000_0000 + SPACE else Unsigned(Low(v, 4))
  {
    hide Extend, Low, Unsigned;
    SignWord(v);
    Borrow4(Low(v, 4));
  }

  lemma SignWord(v: bv64)
    ensures Low(v, 4) < 0x1_0000_0000
    ensures Extend(47, v) == if Low(v, 4) >= 0x8000_0000 then Low(v, 4) - 0x1_0000_0000 else Low(v, 4)
  {
  }

  lemma Borrow4(x: bv64)
    requires x < 0x1_0000_0000
    ensures Unsigned(x - 0x1_0000_0000) == Unsigned(x) - 0x1_0000_0000 + SPACE && (x >= 0x8000_0000 <==> Unsigned(x) >= 0x8000_0000)
  {
  }

  /** The other loads leave the top clear. */
  lemma ExtendClear(v: bv64)
    ensures Extend(48, v) == Low(v, 8) && Extend(51, v) == Low(v, 4)
  {
  }

  lemma ExtendCleanByte(v: bv64)
    requires v <= 0xFF
    ensures Extend(49, v) == Low(v, 1)
  {
  }

  lemma ExtendCleanHalf(v: bv64)
    requires v <= 0xFFFF
    ensures Extend(50, v) == Low(v, 2)
  {
    CleanHalf(v);
  }

  lemma CleanHalf(v: bv64)
    requires v <= 0xFFFF
    ensures v & 0xFFFF == v
  {
  }

  /** What each load makes of the value it is given. */
  lemma ExtendNumber(k: LoadKind, v: bv64, b: seq<bv8>)
    requires |b| == LoadBytes(k) && Spells(v, b) && DM.Tidy(v, |b|)
    ensures Unsigned(Extend(LoadCode(k), v)) == Loaded(k, Number(b))
  {
    hide Byte, Spells, Number, Extend, Low, DM.Tidy, Unsigned;
    LowNumber(v, b);
    if Signed(k) {
      ExtendByte(v);
      ExtendHalf(v);
      ExtendWord(v);
    } else {
      ExtendPlain(k, v);
    }
  }

  lemma ExtendPlain(k: LoadKind, v: bv64)
    requires !Signed(k) && DM.Tidy(v, LoadBytes(k))
    ensures Extend(LoadCode(k), v) == Low(v, LoadBytes(k))
  {
    hide Extend, Low;
    match k {
      case LBU => ExtendCleanByte(v);
      case LHU => ExtendCleanHalf(v);
      case _ => ExtendClear(v);
    }
  }

  // ---------------------------------------------------------------- the ops as instructions

  /** What is left of a machine without caches after the fetch of an instruction. */
  ghost function Fetched(h: Hart, w: Outside, pc: addr): (p: U.Plain)
    requires Ready(h) && h.mach.Plain?
  {
    Advance(h.mach, At(w, h.looks), Execute(pc)).0.p
  }

  /** The instruction at `pc` is a common op, packed this way. */
  ghost predicate Fetches(h: Hart, w: Outside, pc: addr, code: nat, rd: reg, rs1: reg, rs2: reg, four: bool, imm: int)
    requires Ready(h)
  {
    Advance(h.mach, At(w, h.looks), Execute(pc)).1 == Dispatched(D.MicroOp(Packed(code, rd, rs1, rs2, four), imm))
  }

  /** The bytes of a stretch of virtual memory, as accesses of a kind find them. */
  function Stretch(m: Mem, c: Ctx, va: addr, n: nat, way: Access): (b: seq<bv8>)
    ensures |b| == n
  {
    seq(n, i requires 0 <= i < n => DM.At(m, DM.Target(m, c, DM.Nth(va, i), way)))
  }

  /** Everything but the memory, the registers and the count of looks. */
  predicate Otherwise(h: Hart, h': Hart)
  {
    && h'.mach.Cached? == h.mach.Cached? && CsrOf(h'.mach) == CsrOf(h.mach)
    && h'.floats == h.floats && h'.tval == h.tval && h'.down == h.down && h'.reserved == h.reserved
  }

  predicate OnlyRegister(h: Hart, h': Hart, rd: nat)
  {
    |h'.regs| == |h.regs| && forall i :: 0 <= i < |h.regs| && i != rd ==> h'.regs[i] == h.regs[i]
  }

  lemma AddressOf(base: bv64, imm: int)
    ensures Offset(base, imm) == (Unsigned(base) + imm) % SPACE
  {
  }

  lemma StretchSpelled(m: Mem, m': Mem, c: Ctx, va: addr, n: nat, v: bv64, way: Access)
    requires IsSize(n) && DM.Matches(m, m', c, va, n, v, way) && m == m'
    ensures Spells(v, Stretch(m, c, va, n, way))
  {
    hide DM.At, DM.Target, Byte;
  }

  /** A load op on a machine without caches, once its load is known to succeed. */
  lemma PlainLoad(h: Hart, w: Outside, op: D.MicroOp, pc: addr, v: bv64)
    requires Ready(h) && h.mach.Plain? && IsLoad(OpCode(op))
    requires var m, c := h.mach.p.mem, ContextOf(h.mach.p.csr, true);
      U.Load(m, c, At(w, h.looks), Offset(h.regs[Rs1(op)], op.imm), LoadSize(OpCode(op))).1 == Done(v)
    ensures var (h', e) := LoadOp(h, w, op, pc);
      e == Going(Wrap(pc + Size(op))) && h'.regs == h.regs[Rd(op) := Extend(OpCode(op), v)] && Otherwise(h, h')
  {
    hide ContextOf, U.Load, Extend, Rd, Rs1, OpCode, Size, Observed, Offset, IsLoad, LoadSize;
  }

  lemma ThenPerformed(h: Hart, w: Outside, arms: Arms, pc: addr, op: D.MicroOp)
    requires Ready(h) && h.mach.Plain? && Advance(h.mach, At(w, h.looks), Execute(pc)).1 == Dispatched(op)
    ensures var h1 := h.(mach := Advance(h.mach, At(w, h.looks), Execute(pc)).0);
      && Ready(h1) && h1.mach.Plain? && h1.mach.p == Fetched(h, w, pc) && h1.mach.p.csr == h.mach.p.csr
      && Instruction(h, w, arms, pc) == Perform(h1, w, arms, op, pc)
  {
    hide U.ExecuteWord, Perform, Observed;
  }

  lemma LoadCodes(k: LoadKind)
    ensures IsLoad(LoadCode(k)) && LoadSize(LoadCode(k)) == LoadBytes(k) && LoadCode(k) < 256
  {
  }

  /**
   * The loads: `rd` gets the number that the bytes spell, lowest first; lb, lh and lw take the upper half of the numbers of their
   * size for negative ones. The next instruction follows, and no other register changes.
   */
  lemma LoadMeaning(h: Hart, w: Outside, arms: Arms, pc: addr, k: LoadKind, rd: reg, rs1: reg, rs2: reg, four: bool, imm: int)
    requires Ready(h) && h.mach.Plain? && Fetches(h, w, pc, LoadCode(k), rd, rs1, rs2, four, imm)
    requires var p := Fetched(h, w, pc);
      ValidMem(p.mem) && DM.Apart(p.mem, ContextOf(p.csr, true), (Unsigned(h.regs[rs1]) + imm) % SPACE, LoadBytes(k), Read)
    ensures var (h', e) := Instruction(h, w, arms, pc);
      var p, n, va := Fetched(h, w, pc), LoadBytes(k), (Unsigned(h.regs[rs1]) + imm) % SPACE;
      && e == Going((pc + (if four then 4 else 2)) % SPACE)
      && OnlyRegister(h, h', rd) && Otherwise(h, h')
      && Unsigned(h'.regs[rd]) == Loaded(k, Number(Stretch(p.mem, ContextOf(p.csr, true), va, n, Read)))
  {
    hide ValidMem, DM.Apart, DM.Matches, DM.Kept, Number, Unsigned, Extend, Packed, ContextOf, Stretch, U.Load, Spells;
    hide LoadOp, Advance, Instruction;
    hide Loaded, LoadCode, LoadBytes, IsLoad, LoadSize, OpCode, Rd, Rs1, Rs2, Size, Fetched, Offset;
    var op := D.MicroOp(Packed(LoadCode(k), rd, rs1, rs2, four), imm);
    LoadCodes(k);
    Unpacked(LoadCode(k), rd, rs1, rs2, four, imm);
    AddressOf(h.regs[rs1], imm);
    ThenPerformed(h, w, arms, pc, op);
    var h1 := h.(mach := Advance(h.mach, At(w, h.looks), Execute(pc)).0);
    var p, n, va := Fetched(h, w, pc), LoadBytes(k), Offset(h.regs[rs1], imm);
    var c := ContextOf(p.csr, true);
    DM.KeptRefl(p.mem, c, va, n);
    DM.LoadReads(p.mem, p.mem, c, At(w, h.looks), va, n, Read);
    var v := U.Load(p.mem, c, At(w, h.looks), va, n).1.v;
    StretchSpelled(p.mem, p.mem, c, va, n, v, Read);
    ExtendNumber(k, v, Stretch(p.mem, c, va, n, Read));
    PlainLoad(h1, w, op, pc, v);
  }

  // ---------------------------------------------------------------- stores

  lemma Carried(low: nat, high: nat, m: nat)
    requires low < m && (m == 0x100 || m == 0x1_0000 || m == 0x1_0000_0000)
    ensures (low + m * high) % m == low
  {
  }

  /** A value as the sum of its bytes. */
  lemma ByBytes(v: bv64)
    ensures Unsigned(v) ==
      ByteNumber(Byte(v, 0)) + 0x100 * ByteNumber(Byte(v, 1)) + 0x1_0000 * ByteNumber(Byte(v, 2)) + 0x100_0000 * ByteNumber(Byte(v, 3)) +
      0x1_0000_0000 * ByteNumber(Byte(v, 4)) + 0x100_0000_0000 * ByteNumber(Byte(v, 5)) +
      0x1_0000_0000_0000 * ByteNumber(Byte(v, 6)) + 0x100_0000_0000_0000 * ByteNumber(Byte(v, 7))
  {
    hide Byte, Eight, ByteNumber, Unsigned;
    AsEight(v);
    EightNumber(Byte(v, 0), Byte(v, 1), Byte(v, 2), Byte(v, 3), Byte(v, 4), Byte(v, 5), Byte(v, 6), Byte(v, 7));
  }

  lemma LowByBytes(v: bv64)
    ensures Unsigned(Low(v, 1)) == ByteNumber(Byte(v, 0)) < 0x100
    ensures Unsigned(Low(v, 2)) == ByteNumber(Byte(v, 0)) + 0x100 * ByteNumber(Byte(v, 1)) < 0x1_0000
    ensures Unsigned(Low(v, 4)) == ByteNumber(Byte(v, 0)) + 0x100 * ByteNumber(Byte(v, 1)) + 0x1_0000 * ByteNumber(Byte(v, 2)) +
      0x100_0000 * ByteNumber(Byte(v, 3)) < 0x1_0000_0000
  {
    hide Byte, Pair, Halves, Low, ByteNumber, Unsigned;
    AsOne(v);
    OneNumber(Byte(v, 0));
    AsPair(v);
    PairNumber(Byte(v, 0), Byte(v, 1));
    AsHalves(v);
    HalvesNumber(Byte(v, 0), Byte(v, 1), Byte(v, 2), Byte(v, 3));
  }

  lemma Cut(x: nat, a: nat, b: nat, c: nat, d: nat, e: nat, f: nat, g: nat, h: nat)
    requires x == a + 0x100 * b + 0x1_0000 * c + 0x100_0000 * d + 0x1_0000_0000 * e + 0x100_0000_0000 * f +
      0x1_0000_0000_0000 * g + 0x100_0000_0000_0000 * h
    ensures a < 0x100 ==> x % 0x100 == a
    ensures a + 0x100 * b < 0x1_0000 ==> x % 0x1_0000 == a + 0x100 * b
    ensures a + 0x100 * b + 0x1_0000 * c + 0x100_0000 * d < 0x1_0000_0000 ==>
      x % 0x1_0000_0000 == a + 0x100 * b + 0x1_0000 * c + 0x100_0000 * d
  {
    var top := e + 0x100 * f + 0x1_0000 * g + 0x100_0000 * h;
    var middle := c + 0x100 * d + 0x1_0000 * top;
    if a < 0x100 {
      Carried(a, b + 0x100 * middle, 0x100);
    }
    if a + 0x100 * b < 0x1_0000 {
      Carried(a + 0x100 * b, middle, 0x1_0000);
    }
    if a + 0x100 * b + 0x1_0000 * c + 0x100_0000 * d < 0x1_0000_0000 {
      Carried(a + 0x100 * b + 0x1_0000 * c + 0x100_0000 * d, top, 0x1_0000_0000);
    }
  }

  /** The low part of a value as a remainder. */
  lemma LowIsRemainder(v: bv64, n: nat)
    requires IsSize(n)
    ensures Unsigned(Low(v, n)) == Unsigned(v) % Modulus(n)
  {
    hide Byte, Low, ByteNumber, Unsigned;
    if n == 8 {
      WholeLow(v);
      Below(v);
    } else {
      ByBytes(v);
      LowByBytes(v);
      Cut(Unsigned(v), ByteNumber(Byte(v, 0)), ByteNumber(Byte(v, 1)), ByteNumber(Byte(v, 2)), ByteNumber(Byte(v, 3)),
          ByteNumber(Byte(v, 4)), ByteNumber(Byte(v, 5)), ByteNumber(Byte(v, 6)), ByteNumber(Byte(v, 7)));
    }
  }

  lemma PlainStore(h: Hart, w: Outside, op: D.MicroOp, pc: addr)
    requires Ready(h) && h.mach.Plain? && IsStore(OpCode(op))
    ensures var (h', e) := StoreOp(h, w, op, pc);
      var va, c := Offset(h.regs[Rs1(op)], op.imm), ContextOf(h.mach.p.csr, true);
      var (m, o) := U.Store(h.mach.p.mem, c, va, StoreSize(OpCode(op)), h.regs[Rs2(op)]);
      o == Done(0) ==> e == Going(Wrap(pc + Size(op))) && h'.regs == h.regs && h'.mach.Plain? && h'.mach.p.mem == m && Otherwise(h, h')
  {
    hide ContextOf, U.Store, Rs1, Rs2, OpCode, Size, Observed, Offset, IsStore, StoreSize;
  }

  lemma StoreCodes(k: StoreKind)
    ensures IsStore(StoreCode(k)) && StoreSize(StoreCode(k)) == StoreBytes(k) && StoreCode(k) < 256 && !IsLoad(StoreCode(k))
  {
  }

  /** The bytes of a stretch that holds a value. */
  lemma StretchWritten(m: Mem, m': Mem, c: Ctx, va: addr, n: nat, v: bv64)
    requires ValidMem(m) && IsSize(n) && DM.Apart(m, c, va, n) && DM.Kept(m, m', c, va, n) && DM.Written(m, m', c, va, n, v)
    ensures Number(Stretch(m', c, va, n, Write)) == Unsigned(v) % Modulus(n)
  {
    hide DM.At, DM.Target, Byte, Number, Unsigned, Modulus, Low, ValidMem, Xlate, PlaceOf, Damaged;
    var b := Stretch(m', c, va, n, Write);
    forall i | 0 <= i < n ensures Byte(v, i) == b[i] {
      DM.KeptTarget(m, m', c, va, n, i, Write);
    }
    LowNumber(v, b);
    LowIsRemainder(v, n);
  }

  /**
   * The stores: the bytes at the address spell `rs2` modulo 256 to their number. The next instruction follows, no register
   * changes, and no other byte does but those of the leaf entries that translate the stretch.
   */
  lemma StoreMeaning(h: Hart, w: Outside, arms: Arms, pc: addr, k: StoreKind, rd: reg, rs1: reg, rs2: reg, four: bool, imm: int)
    requires Ready(h) && h.mach.Plain? && Fetches(h, w, pc, StoreCode(k), rd, rs1, rs2, four, imm)
    requires var p := Fetched(h, w, pc);
      ValidMem(p.mem) && DM.Apart(p.mem, ContextOf(p.csr, true), (Unsigned(h.regs[rs1]) + imm) % SPACE, StoreBytes(k))
    ensures var (h', e) := Instruction(h, w, arms, pc);
      var p, n, va := Fetched(h, w, pc), StoreBytes(k), (Unsigned(h.regs[rs1]) + imm) % SPACE;
      var c := ContextOf(p.csr, true);
      && e == Going((pc + (if four then 4 else 2)) % SPACE)
      && h'.regs == h.regs && Otherwise(h, h') && h'.mach.Plain?
      && Number(Stretch(h'.mach.p.mem, c, va, n, Write)) == Unsigned(h.regs[rs2]) % Modulus(n)
      && DM.Only(p.mem, h'.mach.p.mem, c, va, n)
  {
    hide ValidMem, DM.Apart, DM.Only, DM.Written, DM.Kept, Number, Unsigned, Packed, ContextOf, Stretch, U.Store;
    hide StoreOp, Advance, Instruction;
    hide StoreCode, StoreBytes, IsStore, IsLoad, StoreSize, OpCode, Rd, Rs1, Rs2, Size, Fetched, Offset, Modulus;
    var op := D.MicroOp(Packed(StoreCode(k), rd, rs1, rs2, four), imm);
    StoreCodes(k);
    Unpacked(StoreCode(k), rd, rs1, rs2, four, imm);
    AddressOf(h.regs[rs1], imm);
    ThenPerformed(h, w, arms, pc, op);
    var h1 := h.(mach := Advance(h.mach, At(w, h.looks), Execute(pc)).0);
    var p, n, va := Fetched(h, w, pc), StoreBytes(k), Offset(h.regs[rs1], imm);
    var c := ContextOf(p.csr, true);
    DM.StoreWrites(p.mem, c, va, n, h.regs[rs2]);
    PlainStore(h1, w, op, pc);
    StretchWritten(p.mem, U.Store(p.mem, c, va, n, h.regs[rs2]).0, c, va, n, h.regs[rs2]);
  }

  // ---------------------------------------------------------------- register ops

  /** addi, 64 bits wide: the sum with the signed immediate, modulo 2^64. */
  lemma AddiMeaning(h: Hart, w: Outside, arms: Arms, pc: addr, rd: reg, rs1: reg, rs2: reg, four: bool, imm: int)
    requires Ready(h) && h.mach.Plain? && Fetches(h, w, pc, 5, rd, rs1, rs2, four, imm)
    ensures var (h', e) := Instruction(h, w, arms, pc);
      && e == Going((pc + (if four then 4 else 2)) % SPACE)
      && OnlyRegister(h, h', rd) && Otherwise(h, h') && h'.mach.Plain? && h'.mach.p == Fetched(h, w, pc)
      && Unsigned(h'.regs[rd]) == (Unsigned(h.regs[rs1]) + imm) % SPACE
  {
    hide Packed, Advance, Instruction, Rd, Rs1, Rs2, Size, OpCode, Fetched, Plus, Unsigned;
    var op := D.MicroOp(Packed(5, rd, rs1, rs2, four), imm);
    Unpacked(5, rd, rs1, rs2, four, imm);
    ThenPerformed(h, w, arms, pc, op);
    PlusNumber(h.regs[rs1], imm);
  }

  lemma PlusNumber(x: bv64, imm: int)
    ensures Unsigned(Plus(x, imm)) == (Unsigned(x) + imm) % SPACE
  {
    WordNumber((x as int + imm) % SPACE);
  }

  lemma AddMeaning(h: Hart, w: Outside, arms: Arms, pc: addr, rd: reg, rs1: reg, rs2: reg, four: bool, imm: int)
    requires Ready(h) && h.mach.Plain? && Fetches(h, w, pc, 18, rd, rs1, rs2, four, imm)
    ensures var (h', e) := Instruction(h, w, arms, pc);
      && e == Going((pc + (if four then 4 else 2)) % SPACE)
      && OnlyRegister(h, h', rd) && Otherwise(h, h') && h'.mach.Plain? && h'.mach.p == Fetched(h, w, pc)
      && Unsigned(h'.regs[rd]) == (Unsigned(h.regs[rs1]) + Unsigned(h.regs[rs2])) % SPACE
  {
    hide Packed, Advance, Instruction, Rd, Rs1, Rs2, Size, OpCode, Fetched, Plus, Unsigned;
    var op := D.MicroOp(Packed(18, rd, rs1, rs2, four), imm);
    Unpacked(18, rd, rs1, rs2, four, imm);
    ThenPerformed(h, w, arms, pc, op);
    SumNumber(h.regs[rs1], h.regs[rs2]);
  }

  lemma SumNumber(x: bv64, y: bv64)
    ensures Unsigned(Sum(x, y)) == (Unsigned(x) + Unsigned(y)) % SPACE
  {
    hide Plus, Unsigned, AsAddr;
    PlusNumber(x, AsAddr(y));
    Reading(y);
  }

  lemma Reading(y: bv64)
    ensures AsAddr(y) == Unsigned(y)
  {
  }

  /** beq: taken exactly when the registers hold the same number; and the op that does nothing. */
  lemma BeqMeaning(h: Hart, w: Outside, arms: Arms, pc: addr, rd: reg, rs1: reg, rs2: reg, four: bool, imm: int)
    requires Ready(h) && h.mach.Plain? && Fetches(h, w, pc, 39, rd, rs1, rs2, four, imm)
    ensures var (h', e) := Instruction(h, w, arms, pc);
      && h'.regs == h.regs && Otherwise(h, h') && h'.mach.Plain? && h'.mach.p == Fetched(h, w, pc)
      && e == Going((pc + (if Unsigned(h.regs[rs1]) == Unsigned(h.regs[rs2]) then imm else if four then 4 else 2)) % SPACE)
  {
    hide Packed, Advance, Instruction, Rd, Rs1, Rs2, Size, OpCode, Fetched, Unsigned;
    var op := D.MicroOp(Packed(39, rd, rs1, rs2, four), imm);
    Unpacked(39, rd, rs1, rs2, four, imm);
    ThenPerformed(h, w, arms, pc, op);
    SameNumber(h.regs[rs1], h.regs[rs2]);
  }

  lemma NopMeaning(h: Hart, w: Outside, arms: Arms, pc: addr, rd: reg, rs1: reg, rs2: reg, four: bool, imm: int)
    requires Ready(h) && h.mach.Plain? && Fetches(h, w, pc, 2, rd, rs1, rs2, four, imm)
    ensures var (h', e) := Instruction(h, w, arms, pc);
      && h'.regs == h.regs && Otherwise(h, h') && h'.mach.Plain? && h'.mach.p == Fetched(h, w, pc)
      && e == Going((pc + (if four then 4 else 2)) % SPACE)
  {
    hide Packed, Advance, Instruction, Rd, Rs1, Rs2, Size, OpCode, Fetched;
    var op := D.MicroOp(Packed(2, rd, rs1, rs2, four), imm);
    Unpacked(2, rd, rs1, rs2, four, imm);
    ThenPerformed(h, w, arms, pc, op);
  }

  /** Any other op: what its arm computes goes to `rd`, unless that is x0, and its arm says where the program goes on. */
  lemma OtherMeaning(h: Hart, w: Outside, arms: Arms, pc: addr, code: nat, rd: reg, rs1: reg, rs2: reg, four: bool, imm: int)
    requires Ready(h) && h.mach.Plain? && Fetches(h, w, pc, code, rd, rs1, rs2, four, imm)
    requires code < 256 && code !in {2, 5, 18, 39} && !(45 <= code <= 55)
    ensures var (h', e) := Instruction(h, w, arms, pc);
      var op, a, b := D.MicroOp(Packed(code, rd, rs1, rs2, four), imm), h.regs[rs1], h.regs[rs2];
      && h'.regs == (if rd == 0 then h.regs else h.regs[rd := arms.value(op, a, b, pc)])
      && e == Going(arms.next(op, a, b, pc)) && Otherwise(h, h') && h'.mach.Plain? && h'.mach.p == Fetched(h, w, pc)
  {
    hide Packed, Advance, Instruction, Rd, Rs1, Rs2, Size, OpCode, Fetched;
    var op := D.MicroOp(Packed(code, rd, rs1, rs2, four), imm);
    Unpacked(code, rd, rs1, rs2, four, imm);
    ThenPerformed(h, w, arms, pc, op);
  }

  // ---------------------------------------------------------------- accesses of classic instructions

  /** A load on RAM, in numbers. */
  lemma LoadedNumber(m: Mem, c: Ctx, w: World, va: addr, n: nat)
    requires IsSize(n) && ValidMem(m) && DM.Apart(m, c, va, n, Read)
    ensures var o := U.Load(m, c, w, va, n).1; o.Done? && Unsigned(Low(o.v, n)) == Number(Stretch(m, c, va, n, Read))
  {
    hide ValidMem, DM.Apart, DM.Matches, DM.Kept, Number, Unsigned, Stretch, U.Load, Spells, Low;
    DM.KeptRefl(m, c, va, n);
    DM.LoadReads(m, m, c, w, va, n, Read);
    var v := U.Load(m, c, w, va, n).1.v;
    StretchSpelled(m, m, c, va, n, v, Read);
    LowNumber(v, Stretch(m, c, va, n, Read));
  }

  /** A load of a classic instruction: it goes on with the word read, whose low bytes are memory's; the reservation may have moved. */
  lemma ClassicReads(h: Hart, w: Outside, arms: Arms, insn: bv64, pc: addr, read: seq<bv64>)
    requires Ready(h) && h.mach.Plain? && |read| < ACCESSES && arms.classic(insn, OperandsOf(h, pc, read)).Reading?
    requires var c := arms.classic(insn, OperandsOf(h, pc, read));
      ValidMem(h.mach.p.mem) && DM.Apart(h.mach.p.mem, ContextOf(h.mach.p.csr, true), c.va, c.size, Read)
    ensures var c := arms.classic(insn, OperandsOf(h, pc, read));
      exists v, h1 ::
        && Ready(h1) && PlainOp(h, w, arms, insn, pc, read) == PlainOp(h1, w, arms, insn, pc, read + [v])
        && Unsigned(Low(v, c.size)) == Number(Stretch(h.mach.p.mem, ContextOf(h.mach.p.csr, true), c.va, c.size, Read))
        && h1.regs == h.regs && h1.reserved == c.reserved && Otherwise(h.(reserved := c.reserved), h1)
  {
    hide ValidMem, DM.Apart, Number, Unsigned, ContextOf, Stretch, U.Load, Low, OperandsOf, I.Access;
    var c, m, x := arms.classic(insn, OperandsOf(h, pc, read)), h.mach.p.mem, ContextOf(h.mach.p.csr, true);
    LoadedNumber(m, x, At(w, h.looks), c.va, c.size);
    PlainAccess(h.(reserved := c.reserved), w, Load(c.va, c.size));
    var (h1, o) := I.Access(h.(reserved := c.reserved), w, Load(c.va, c.size));
    assert PlainOp(h, w, arms, insn, pc, read) == PlainOp(h1, w, arms, insn, pc, read + [o.v]);
  }

  lemma PlainAccess(h: Hart, w: Outside, e: Event)
    requires Ready(h) && h.mach.Plain? && (e.Load? || e.Store?) && Sensible(e)
    ensures var (h1, o) := I.Access(h, w, e);
      && h1.mach.Plain? && h1.regs == h.regs && Otherwise(h, h1)
      && (h1.mach.p.mem, o) ==
         if e.Load? then U.Load(h.mach.p.mem, ContextOf(h.mach.p.csr, true), At(w, h.looks), e.va, e.n)
         else U.Store(h.mach.p.mem, ContextOf(h.mach.p.csr, true), e.va, e.n, e.v)
  {
    hide ContextOf, U.Load, U.Store, Observed;
  }

  /** A store of a classic instruction: the bytes of its value arrive, and it goes on. */
  lemma ClassicWrites(h: Hart, w: Outside, arms: Arms, insn: bv64, pc: addr, read: seq<bv64>)
    requires Ready(h) && h.mach.Plain? && |read| < ACCESSES && arms.classic(insn, OperandsOf(h, pc, read)).Writing?
    requires var c := arms.classic(insn, OperandsOf(h, pc, read));
      ValidMem(h.mach.p.mem) && DM.Apart(h.mach.p.mem, ContextOf(h.mach.p.csr, true), c.va, c.size)
    ensures var c, m, x := arms.classic(insn, OperandsOf(h, pc, read)), h.mach.p.mem, ContextOf(h.mach.p.csr, true);
      exists h1 ::
        && Ready(h1) && PlainOp(h, w, arms, insn, pc, read) == PlainOp(h1, w, arms, insn, pc, read + [0])
        && h1.regs == h.regs && Otherwise(h, h1) && h1.mach.Plain?
        && Number(Stretch(h1.mach.p.mem, x, c.va, c.size, Write)) == Unsigned(c.v) % Modulus(c.size)
        && DM.Only(m, h1.mach.p.mem, x, c.va, c.size)
  {
    hide ValidMem, DM.Apart, DM.Only, DM.Written, DM.Kept, Number, Unsigned, ContextOf, Stretch, U.Store, Modulus, OperandsOf, I.Access;
    var c, m, x := arms.classic(insn, OperandsOf(h, pc, read)), h.mach.p.mem, ContextOf(h.mach.p.csr, true);
    DM.StoreWrites(m, x, c.va, c.size, c.v);
    StretchWritten(m, U.Store(m, x, c.va, c.size, c.v).0, x, c.va, c.size, c.v);
    var h1 := I.Access(h, w, Store(c.va, c.size, c.v)).0;
    PlainAccess(h, w, Store(c.va, c.size, c.v));
    assert PlainOp(h, w, arms, insn, pc, read) == PlainOp(h1, w, arms, insn, pc, read + [0]);
  }
}
