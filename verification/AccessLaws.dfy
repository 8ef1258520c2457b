/** Fetches in numbers, and what the faults of each kind of access report. */
module AccessLaws {
  import opened Words
  import opened Numbers
  import opened PhysMemory
  import opened Pte
  import opened Translate
  import opened Csr
  import opened Cpu
  import opened CpuInvariant
  import opened CpuRefinement
  import opened DataMemory
  import opened OpLaws
  import Fences
  import I = Interpreter
  import U = Uncached
  import D = Predecode

  // ---------------------------------------------------------------- fetches

  /** One piece of an instruction, inside a page: its bytes are those of the stretch, and the translation keeps the rest of them. */
  lemma PieceFetched(m: Mem, m': Mem, c: Ctx, va: addr, n: nat, j: nat, sz: nat)
    requires ValidMem(m) && Apart(m, c, va, n, Fetch) && Kept(m, m', c, va, n) && j < n <= 8
    requires IsSize(sz) && Nth(va, j) % PAGE + sz <= PAGE
    ensures var a := Nth(va, j);
      var t, m1 := Xlate(m', c, a, Fetch), XlateMem(m', c, a, Fetch);
      && t.Physical? && Kept(m, m1, c, va, n)
      && var p := PlaceOf(m1, t.pa);
      && p.InRam? && InBounds(m1, p.host, p.off, sz) && p.off >= a % PAGE
      && (forall k :: j <= k < n && k - j < sz ==> Byte(Peek(m1, p.host, p.off, sz), k - j) == At(m', Target(m, c, Nth(va, k), Fetch)))
      && (forall k :: 0 <= k < n ==> At(m1, Target(m, c, Nth(va, k), Fetch)) == At(m', Target(m, c, Nth(va, k), Fetch)))
  {
    hide ValidMem, XlateMem, PlaceOf, Xlate, Damaged, LeafByte, Byte, Clear, Visits, ReadLe, Settled;
    var a := Nth(va, j);
    KeptTarget(m, m', c, va, n, j, Fetch, Fetch);
    WholePage(m', c, a, Fetch, a);
    XlateKeeps(m, m', c, va, n, j, Fetch, Fetch);
    var m1 := XlateMem(m', c, a, Fetch);
    XlateShape(m', c, a, Fetch);
    SamePlaces(m', m1, Xlate(m', c, a, Fetch).pa);
    var p := PlaceOf(m1, Xlate(m', c, a, Fetch).pa);
    assert InBounds(m1, p.host, p.off, sz);
    forall k | j <= k < n && k - j < sz
      ensures Byte(ReadLe(m1.ram[p.host], p.off, sz), k - j) == At(m', Target(m, c, Nth(va, k), Fetch))
    {
      ByteOfRead(m1.ram[p.host], p.off, sz, k - j);
      NthInPage(va, j, k - j);
      KeptTarget(m, m', c, va, n, k, Fetch, Fetch);
      WholePage(m', c, a, Fetch, Nth(va, k));
    }
  }

  /** A word whose first bytes are those of the stretch from byte `j` on. */
  lemma Spelling(m: Mem, m': Mem, c: Ctx, va: addr, n: nat, j: nat, k: nat, v: bv64)
    requires j + k <= n <= 8
    requires forall i :: j <= i < n && i - j < k ==> Byte(v, i - j) == At(m', Target(m, c, Nth(va, i), Fetch))
    requires forall i :: 0 <= i < n ==> At(m', Target(m, c, Nth(va, i), Fetch)) == At(m, Target(m, c, Nth(va, i), Fetch))
    ensures Spells(v, Stretch(m, c, va, n, Fetch)[j..j + k])
  {
    hide At, Target, Byte;
    var b := Stretch(m, c, va, n, Fetch)[j..j + k];
    forall i | 0 <= i < k ensures Byte(v, i) == b[i] {
      assert Byte(v, j + i - j) == At(m', Target(m, c, Nth(va, j + i), Fetch));
    }
  }

  /** The two lowest digits of a word. */
  lemma LowDigits(v: bv64)
    ensures v & 3 == 3 <==> Unsigned(v) % 4 == 3
  {
    hide Unsigned;
    if v & 1 != 0 {
      HalfOdd(v);
    } else {
      HalfEven(v);
    }
    if (v >> 1) & 1 != 0 {
      HalfOdd(v >> 1);
    } else {
      HalfEven(v >> 1);
    }
    TwoDigits(v);
  }

  lemma TwoDigits(v: bv64)
    ensures v & 3 == 3 <==> v & 1 != 0 && (v >> 1) & 1 != 0
  {
  }

  lemma HalfDigits(v: bv64)
    ensures Low(v, 2) & 3 == v & 3 && LowHalf(v) == Low(v, 2)
  {
  }

  /** Whether a word is a compressed instruction shows in the number its first two bytes spell. */
  lemma CompressedNumber(v: bv64, b: seq<bv8>)
    requires |b| == 2 && Spells(v, b)
    ensures D.IsCompressed(v) <==> Number(b) % 4 != 3
    ensures Unsigned(LowHalf(v)) == Number(b)
  {
    hide Spells, Number, Unsigned, Low, LowHalf;
    LowNumber(v, b);
    LowDigits(Low(v, 2));
    HalfDigits(v);
  }

  lemma CleanWord(m: Mem, host: nat, off: nat)
    requires InBounds(m, host, off, 4)
    ensures Low(Peek(m, host, off, 4), 4) == Peek(m, host, off, 4)
  {
    hide Halves, Pair;
    var s := m.ram[host];
    FourClean(s[off], s[off + 1], s[off + 2], s[off + 3]);
  }

  lemma FourClean(a: bv8, b: bv8, c: bv8, d: bv8)
    ensures Halves(Pair(a, b), Pair(c, d)) & 0xFFFF_FFFF == Halves(Pair(a, b), Pair(c, d))
  {
  }

  lemma CleanHalfword(m: Mem, host: nat, off: nat)
    requires InBounds(m, host, off, 2)
    ensures Low(Peek(m, host, off, 2), 2) == Peek(m, host, off, 2)
  {
    hide Pair;
    var s := m.ram[host];
    TwoClean(s[off], s[off + 1]);
  }

  lemma TwoClean(a: bv8, b: bv8)
    ensures Pair(a, b) & 0xFFFF == Pair(a, b)
  {
  }

  /** A compressed instruction: two bytes whose number is not 3 modulo 4 are fetched as that number. */
  lemma ShortFetched(m: Mem, c: Ctx, pc: addr)
    requires ValidMem(m) && pc % 2 == 0 && Apart(m, c, pc, 2, Fetch) && Number(Stretch(m, c, pc, 2, Fetch)) % 4 != 3
    ensures var r := U.FetchWord(m, c, pc).1; r.Done? && D.IsCompressed(r.v) && Unsigned(r.v) == Number(Stretch(m, c, pc, 2, Fetch))
  {
    hide ValidMem, Apart, Kept, XlateMem, PlaceOf, Xlate, Byte, At, Target, Number, Unsigned, Spells, D.IsCompressed, LowHalf, Low;
    KeptRefl(m, c, pc, 2);
    assert Nth(pc, 0) == pc;
    var sz := if PAGE - pc % PAGE >= 4 then 4 else 2;
    PieceFetched(m, m, c, pc, 2, 0, sz);
    var m1 := XlateMem(m, c, pc, Fetch);
    var p := PlaceOf(m1, Xlate(m, c, pc, Fetch).pa);
    var v := Peek(m1, p.host, p.off, sz);
    Spelling(m, m, c, pc, 2, 0, 2, v);
    var b := Stretch(m, c, pc, 2, Fetch);
    assert b[0..2] == b;
    CompressedNumber(v, b);
    HalfDigits(v);
    CompressedHalf(v);
    if sz == 2 {
      CleanHalfword(m1, p.host, p.off);
    }
  }

  lemma CompressedHalf(v: bv64)
    ensures D.IsCompressed(LowHalf(v)) == D.IsCompressed(v)
  {
  }

  /** A whole instruction inside its page. */
  lemma WholeFetched(m: Mem, c: Ctx, pc: addr)
    requires ValidMem(m) && Apart(m, c, pc, 4, Fetch) && Number(Stretch(m, c, pc, 2, Fetch)) % 4 == 3 && pc % PAGE + 4 <= PAGE
    ensures var r := U.FetchWord(m, c, pc).1; r.Done? && !D.IsCompressed(r.v) && Unsigned(r.v) == Number(Stretch(m, c, pc, 4, Fetch))
  {
    hide ValidMem, Apart, Kept, XlateMem, PlaceOf, Xlate, Byte, At, Target, Number, Unsigned, Spells, D.IsCompressed, LowHalf, Low;
    KeptRefl(m, c, pc, 4);
    assert Nth(pc, 0) == pc;
    PieceFetched(m, m, c, pc, 4, 0, 4);
    var m1 := XlateMem(m, c, pc, Fetch);
    var p := PlaceOf(m1, Xlate(m, c, pc, Fetch).pa);
    var v := Peek(m1, p.host, p.off, 4);
    var b := Stretch(m, c, pc, 4, Fetch);
    Spelling(m, m, c, pc, 4, 0, 2, v);
    Spelling(m, m, c, pc, 4, 0, 4, v);
    assert b[0..2] == Stretch(m, c, pc, 2, Fetch) && b[0..4] == b;
    CompressedNumber(v, b[0..2]);
    LowNumber(v, b);
    CleanWord(m1, p.host, p.off);
  }

  /** Two halfwords put together. */
  lemma HalvesTogether(low: bv64, high: bv64, b: seq<bv8>)
    requires |b| == 4 && Low(low, 2) == low && Low(high, 2) == high && Spells(low, b[..2]) && Spells(high, b[2..])
    ensures Unsigned(Halves(low, high)) == Number(b)
  {
    hide Number, Unsigned, Low, ByteNumber, Byte, Halves, Pair;
    assert Byte(low, 0) == b[..2][0] && Byte(low, 1) == b[..2][1] && Byte(high, 0) == b[2..][0] && Byte(high, 1) == b[2..][1];
    AsPair(low);
    AsPair(high);
    HalvesNumber(b[0], b[1], b[2], b[3]);
    Number4(b);
  }

  /** An instruction whose second half is in the next page. */
  lemma SplitFetched(m: Mem, c: Ctx, pc: addr)
    requires ValidMem(m) && Apart(m, c, pc, 4, Fetch) && Number(Stretch(m, c, pc, 2, Fetch)) % 4 == 3 && pc % PAGE + 2 == PAGE
    ensures var r := U.FetchWord(m, c, pc).1; r.Done? && !D.IsCompressed(r.v) && Unsigned(r.v) == Number(Stretch(m, c, pc, 4, Fetch))
  {
    hide ValidMem, Apart, Kept, XlateMem, PlaceOf, Xlate, Byte, At, Target, Number, Unsigned, Spells, D.IsCompressed, LowHalf, Low, Halves;
    KeptRefl(m, c, pc, 4);
    assert Nth(pc, 0) == pc && Nth(pc, 2) == Wrap(pc + 2);
    PieceFetched(m, m, c, pc, 4, 0, 2);
    var m1 := XlateMem(m, c, pc, Fetch);
    var p := PlaceOf(m1, Xlate(m, c, pc, Fetch).pa);
    var low := Peek(m1, p.host, p.off, 2);
    NextPage(pc);
    PieceFetched(m, m1, c, pc, 4, 2, 2);
    var m2 := XlateMem(m1, c, Nth(pc, 2), Fetch);
    var q := PlaceOf(m2, Xlate(m1, c, Nth(pc, 2), Fetch).pa);
    var high := Peek(m2, q.host, q.off, 2);
    var b := Stretch(m, c, pc, 4, Fetch);
    Spelling(m, m, c, pc, 4, 0, 2, low);
    Spelling(m, m1, c, pc, 4, 2, 2, high);
    assert b[0..2] == Stretch(m, c, pc, 2, Fetch) == b[..2] && b[2..4] == b[2..];
    CompressedNumber(low, b[..2]);
    CleanHalfword(m1, p.host, p.off);
    CleanHalfword(m2, q.host, q.off);
    HalvesTogether(low, high, b);
    StillWhole(low, high);
  }

  lemma NextPage(pc: addr)
    requires pc % PAGE + 2 == PAGE
    ensures Wrap(pc + 2) % PAGE == 0
  {
  }

  lemma StillWhole(low: bv64, high: bv64)
    ensures D.IsCompressed(Halves(low, high)) == D.IsCompressed(low)
  {
  }

  /**
   * What an instruction is: the number of its first two bytes where that is not 3 modulo 4, else the number of its four bytes,
   * across the end of a page as well. It is dispatched as the op the decoder makes of that number, and left to the classic interpreter
   * as that number when the op is the fallback, as it always is across the end of a page.
   */
  lemma FetchMeaning(m: Mem, c: Ctx, d: D.Decoder, pc: addr)
    requires ValidMem(m) && pc % 2 == 0 && Apart(m, c, pc, 2, Fetch)
    requires Number(Stretch(m, c, pc, 2, Fetch)) % 4 == 3 ==> Apart(m, c, pc, 4, Fetch)
    ensures var short := Number(Stretch(m, c, pc, 2, Fetch)) % 4 != 3;
      var r, x := U.FetchWord(m, c, pc).1, U.ExecuteWord(m, c, d, pc).1;
      && r.Done? && Unsigned(r.v) == Number(Stretch(m, c, pc, if short then 2 else 4, Fetch))
      && var op := if short then d.compressed(r.v) else if pc % 4096 == 4094 then d.fallback else d.full(r.v);
         x == if op.meta % 256 == d.fallback.meta % 256 then r else Dispatched(op)
  {
    hide ValidMem, Apart, U.FetchWord, Number, Stretch, Unsigned, D.IsCompressed;
    if Number(Stretch(m, c, pc, 2, Fetch)) % 4 != 3 {
      ShortFetched(m, c, pc);
    } else if pc % PAGE + 4 <= PAGE {
      WholeFetched(m, c, pc);
    } else {
      EvenOffset(pc);
      SplitFetched(m, c, pc);
    }
  }

  lemma EvenOffset(pc: addr)
    requires pc % 2 == 0 && pc % PAGE + 4 > PAGE
    ensures pc % PAGE + 2 == PAGE
  {
    EvenRest(pc / PAGE, pc % PAGE, pc);
  }

  lemma EvenRest(q: nat, r: nat, x: nat)
    requires x == 4096 * q + r && x % 2 == 0
    ensures r % 2 == 0
  {
  }

  // ---------------------------------------------------------------- faults

  /** A load that the translation of its first or its second aligned part refuses: 13 for a page fault, 5 for an access fault. */
  lemma LoadFaults(m: Mem, c: Ctx, w: World, va: addr, n: nat)
    requires IsSize(n)
    ensures var first := if va % n == 0 || n == 2 then va else va - va % n;
      var second: addr := ((if n == 2 then va + 1 else va - va % n + n)) % SPACE;
      var t, r := Xlate(m, c, first, Read), U.Load(m, c, w, va, n);
      && (t.PageFault? ==> r == (m, Trapped(13, first)))
      && (t.AccessFault? ==> r == (m, Trapped(5, first)))
      && (t.Physical? && va % n != 0 ==>
            var m1 := XlateMem(m, c, first, Read);
            && (Xlate(m1, c, second, Read).PageFault? ==> r == (m1, Trapped(13, second)))
            && (Xlate(m1, c, second, Read).AccessFault? ==> r == (m1, Trapped(5, second))))
  {
    hide Xlate, XlateMem, PlaceOf, Peek, Join;
  }

  /** A store that faults does so at its address, or, unaligned, at its first byte that does not translate: 15 or 7. */
  lemma StoreFaults(m: Mem, c: Ctx, va: addr, n: nat, v: bv64) returns (k: nat)
    requires IsSize(n) && U.Store(m, c, va, n, v).1.Trapped?
    ensures k < n && (va % n == 0 ==> k == 0)
    ensures var (m1, o) := U.Store(m, c, va, n, v);
      var at: addr := (va + k) % SPACE;
      && (Xlate(m1, c, at, Write) == PageFault ==> o == Trapped(15, at))
      && (Xlate(m1, c, at, Write) == AccessFault ==> o == Trapped(7, at))
      && (Xlate(m1, c, at, Write) == PageFault || Xlate(m1, c, at, Write) == AccessFault)
      && (if va % n == 0 then m1 == m else (m1, Done(0)) == U.StoreBytes(m, c, va, 0, k, v))
  {
    hide Xlate, XlateMem, PlaceOf, PokeBytes, ByteValue;
    k := 0;
    if va % n != 0 {
      k := FaultingStore(m, c, va, 0, n, v);
    }
  }

  /** A fetch: 12 for a page fault, 1 for an access fault and outside RAM, at the address or, for a second half, at the next page. */
  lemma FetchFaults(m: Mem, c: Ctx, pc: addr, low: bv64)
    ensures var t, r := Xlate(m, c, pc, Fetch), U.FetchWord(m, c, pc);
      && (t.PageFault? ==> r == (m, Trapped(12, pc)))
      && (t.AccessFault? ==> r == (m, Trapped(1, pc)))
      && (t.Physical? && !PlaceOf(m, t.pa).InRam? ==> r.1 == Trapped(1, pc))
    ensures var next: addr := (pc + 2) % SPACE;
      var t, r := Xlate(m, c, next, Fetch), U.SecondHalf(m, c, pc, low);
      && (t.PageFault? ==> r == (m, Trapped(12, next)))
      && (t.AccessFault? ==> r == (m, Trapped(1, next)))
      && (t.Physical? && !PlaceOf(m, t.pa).InRam? ==> r.1 == Trapped(1, next))
  {
    hide Xlate, XlateMem, PlaceOf, Peek, U.FetchAt;
    var next := Wrap(pc + 2);
    if Xlate(m, c, pc, Fetch).Physical? {
      SameMap(m, c, pc, Xlate(m, c, pc, Fetch).pa);
    }
    if Xlate(m, c, next, Fetch).Physical? {
      SameMap(m, c, next, Xlate(m, c, next, Fetch).pa);
    }
  }

  lemma SameMap(m: Mem, c: Ctx, va: addr, a: nat)
    ensures PlaceOf(XlateMem(m, c, va, Fetch), a) == PlaceOf(m, a)
  {
    hide Xlate, PlaceOf, NeedsUpdate, Updated, WalkFrom;
    SamePlaces(m, XlateMem(m, c, va, Fetch), a);
  }

  // ---------------------------------------------------------------- exceptions of whole instructions

  /** A common op whose access traps: that cause and address, no register changed. */
  lemma AccessTraps(h: I.Hart, w: I.Outside, arms: I.Arms, pc: addr, op: D.MicroOp, cause: nat, tval: addr)
    requires I.Ready(h) && h.mach.Plain? && I.Advance(h.mach, I.At(w, h.looks), Execute(pc)).1 == Dispatched(op)
    requires I.IsLoad(I.OpCode(op)) || I.IsStore(I.OpCode(op))
    requires var p, va := Fetched(h, w, pc), I.Offset(h.regs[I.Rs1(op)], op.imm);
      var c := ContextOf(p.csr, true);
      Trapped(cause, tval) == if I.IsLoad(I.OpCode(op)) then U.Load(p.mem, c, I.At(w, h.looks), va, I.LoadSize(I.OpCode(op))).1
        else U.Store(p.mem, c, va, I.StoreSize(I.OpCode(op)), h.regs[I.Rs2(op)]).1
    ensures var (h', e) := I.Instruction(h, w, arms, pc);
      && e == I.Faulted(cause, 2, false) && h'.tval == tval && h'.regs == h.regs
      && Otherwise(h.(tval := tval), h')
  {
    hide U.Load, U.Store, ContextOf, I.OpCode, I.Rs1, I.Rs2, I.Offset, I.IsLoad, I.IsStore, I.LoadSize, I.StoreSize, I.Instruction,
      U.ExecuteWord, Fences.Observed;
    ThenPerformed(h, w, arms, pc, op);
  }

  /** A fetch that traps. */
  lemma FetchTraps(h: I.Hart, w: I.Outside, arms: I.Arms, pc: addr, cause: nat, tval: addr)
    requires I.Ready(h) && h.mach.Plain? && I.Advance(h.mach, I.At(w, h.looks), Execute(pc)).1 == Trapped(cause, tval)
    ensures var (h', e) := I.Instruction(h, w, arms, pc);
      && e == I.Faulted(cause, 1, tval == (pc + 2) % SPACE) && h'.tval == tval && h'.regs == h.regs
      && Otherwise(h.(tval := tval), h')
  {
    hide U.ExecuteWord, Fences.Observed;
  }

  // ---------------------------------------------------------------- page-table words

  /** A page-table word is the number its eight bytes spell, lowest first, where all of them are RAM. */
  lemma WordMeaning(m: Mem, a: nat)
    ensures var p := PlaceOf(m, a);
      if p.InRam? && p.host < |m.ram| && p.off + 8 <= |m.ram[p.host]|
      then PteAt(m, a).Some? && Unsigned(PteAt(m, a).value) == Number(m.ram[p.host][p.off..p.off + 8])
      else PteAt(m, a).None?
  {
    hide PlaceOf, Le8, Byte, Number, Unsigned;
    var p := PlaceOf(m, a);
    if p.InRam? && p.host < |m.ram| && p.off + 8 <= |m.ram[p.host]| {
      var s := m.ram[p.host];
      var v, b := Le8(s, p.off), s[p.off..p.off + 8];
      forall i | 0 <= i < 8 ensures Byte(v, i) == b[i] {
        ByteOfLe8(s, p.off, i);
      }
      LowNumber(v, b);
      WholeLow(v);
    }
  }
}
