/** The machine without caches: every access translates afresh, every instruction is decoded from the word fetched. */
module Uncached {
  import opened Words
  import opened PhysMemory
  import opened Pte
  import opened Translate
  import opened Csr
  import opened Cpu
  import D = Predecode

  datatype Plain = Plain(mem: Mem, csr: Csrs)

  type Result = (Mem, Outcome)

  // ---------------------------------------------------------------- loads

  function LoadAligned(m: Mem, c: Ctx, w: World, va: addr, n: nat): Result
    requires IsSize(n)
  {
    var t := Xlate(m, c, va, Read);
    if !t.Physical? then (m, FaultOf(t, Read, va))
    else
      var m1 := XlateMem(m, c, va, Read);
      match PlaceOf(m1, t.pa)
      case Nowhere => (m1, Done(0))
      case InDevice => (m1, Done(w.readDevice(t.pa, n)))
      case InRam(host, off) => (m1, Done(Peek(m1, host, off, n)))
  }

  function Load(m: Mem, c: Ctx, w: World, va: addr, n: nat): Result
    requires IsSize(n)
  {
    if va % n == 0 then LoadAligned(m, c, w, va, n)
    else
      var (m1, r1) := LoadAligned(m, c, w, FirstPart(va, n), PartSize(n));
      if !r1.Done? then (m1, r1)
      else
        var (m2, r2) := LoadAligned(m1, c, w, SecondPart(va, n), PartSize(n));
        if !r2.Done? then (m2, r2) else (m2, Done(Join(n, va % n, r1.v, r2.v)))
  }

  // ---------------------------------------------------------------- stores

  function StoreAligned(m: Mem, c: Ctx, va: addr, n: nat, v: bv64): Result
    requires IsSize(n)
  {
    var t := Xlate(m, c, va, Write);
    if !t.Physical? then (m, FaultOf(t, Write, va))
    else
      var m1 := XlateMem(m, c, va, Write);
      var p := PlaceOf(m1, t.pa);
      (if p.InRam? then PokeBytes(m1, p.host, p.off, BytesOf(v, n)) else m1, Done(0))
  }

  function StoreBytes(m: Mem, c: Ctx, va: addr, i: nat, n: nat, v: bv64): Result
    requires i <= n
    decreases n - i
  {
    if i == n then (m, Done(0))
    else
      var (m1, r1) := StoreAligned(m, c, Wrap(va + i), 1, ByteValue(v, i));
      if r1.Done? then StoreBytes(m1, c, va, i + 1, n, v) else (m1, r1)
  }

  function Store(m: Mem, c: Ctx, va: addr, n: nat, v: bv64): Result
    requires IsSize(n)
  {
    if va % n == 0 then StoreAligned(m, c, va, n, v) else StoreBytes(m, c, va, 0, n, v)
  }

  // ---------------------------------------------------------------- fetches

  function SecondHalf(m: Mem, c: Ctx, pc: addr, low: bv64): Result
  {
    var next := Wrap(pc + 2);
    var t := Xlate(m, c, next, Fetch);
    if !t.Physical? then (m, FaultOf(t, Fetch, next))
    else
      var m1 := XlateMem(m, c, next, Fetch);
      var p := PlaceOf(m1, t.pa);
      if p.InRam? then (m1, Done(Halves(low, Peek(m1, p.host, p.off, 2)))) else (m1, Trapped(FETCH_FAULT, next))
  }

  function FetchAt(m: Mem, c: Ctx, host: int, base: nat, pc: addr): Result
  {
    match PieceAt(m, host, base, pc)
    case Whole(insn) => (m, Done(insn))
    case Half(low) => SecondHalf(m, c, pc, low)
    case Odd => (m, Trapped(FETCH_FAULT, pc))
  }

  function FetchWord(m: Mem, c: Ctx, pc: addr): Result
  {
    var t := Xlate(m, c, pc, Fetch);
    if !t.Physical? then (m, FaultOf(t, Fetch, pc))
    else
      var m1 := XlateMem(m, c, pc, Fetch);
      var p := PlaceOf(m1, t.pa);
      if p.InRam? then FetchAt(m1, c, p.host, PageBase(p.off, pc), pc) else (m1, Trapped(FETCH_FAULT, pc))
  }

  /** What a whole instruction word decodes to; one that goes on in the next page is left to the classic interpreter. */
  function Decode(d: D.Decoder, pc: addr, insn: bv64): D.MicroOp
  {
    if D.IsCompressed(insn) then d.compressed(insn) else if pc % PAGE == PAGE - 2 then d.fallback else d.full(insn)
  }

  function ExecuteWord(m: Mem, c: Ctx, d: D.Decoder, pc: addr): Result
  {
    var (m1, r) := FetchWord(m, c, pc);
    if r.Done? && !D.Uncommon(d, Decode(d, pc, r.v)) then (m1, Dispatched(Decode(d, pc, r.v))) else (m1, r)
  }

  // ---------------------------------------------------------------- steps

  function PlainStep(p: Plain, w: World, e: Event): (Plain, Outcome)
    requires Sensible(e)
  {
    match e
    case Load(va, n) =>
      var (m, o) := Load(p.mem, ContextOf(p.csr, true), w, va, n);
      (p.(mem := m), o)
    case Store(va, n, v) =>
      var (m, o) := Store(p.mem, ContextOf(p.csr, true), va, n, v);
      (p.(mem := m), o)
    case Insn(pc) =>
      var (m, o) := FetchWord(p.mem, ContextOf(p.csr, false), pc);
      (p.(mem := m), o)
    case Execute(pc) =>
      var (m, o) := ExecuteWord(p.mem, ContextOf(p.csr, false), w.decoder, pc);
      (p.(mem := m), o)
    case DeviceWrite(pa, bytes) =>
      var q := PlaceOf(p.mem, pa);
      (if q.InRam? then p.(mem := PokeBytes(p.mem, q.host, q.off, bytes)) else p, Done(0))
    case _ => (p.(csr := CsrAfter(p.csr, e)), Done(0))
  }
}
