/** What writes of mstatus and sstatus change, digit by digit, and who may read and write registers and counters. */
module CsrWrites {
  import opened Words
  import opened Numbers
  import opened Translate
  import opened Csr
  import opened CsrFields
  import Cpu

  // ---------------------------------------------------------------- what writes change

  /** UXL and SXL take the 32-bit and the 64-bit encoding only. */
  predicate SomeWidth(n: bv64) { n == 1 || n == 2 }

  predicate LowWritten(ms: bv64, val: bv64, r: bv64)
  {
    && r % 4 == val % 4 && r / 4 % 2 == ms / 4 % 2 && r / 8 % 8 == val / 8 % 8 && r / 0x40 % 2 == ms / 0x40 % 2
    && r / 0x80 % 4 == val / 0x80 % 4 && r / 0x200 % 4 == ms / 0x200 % 4
  }

  predicate HighWritten(ms: bv64, val: bv64, r: bv64)
  {
    && r / 0x800 % 16 == val / 0x800 % 16 && r / 0x8000 % 4 == ms / 0x8000 % 4 && r / 0x2_0000 % 8 == val / 0x2_0000 % 8
    && r / 0x10_0000 % 0x1000 == ms / 0x10_0000 % 0x1000 && r / 0x10_0000_0000 == ms / 0x10_0000_0000
  }

  predicate WidthsWritten(ms: bv64, val: bv64, r: bv64)
  {
    && r / 0x1_0000_0000 % 4 == (if SomeWidth(val / 0x1_0000_0000 % 4) then val else ms) / 0x1_0000_0000 % 4
    && r / 0x4_0000_0000 % 4 == (if SomeWidth(val / 0x4_0000_0000 % 4) then val else ms) / 0x4_0000_0000 % 4
  }

  /**
   * A write of mstatus, digit by digit: 0 and 1, 3 to 5, 7 and 8, 11 to 14 and 17 to 19 are the value's, and so are UXL (32 and
   * 33) and SXL (34 and 35) when they name a width; the others stay.
   */
  predicate MstatusWritten(ms: bv64, val: bv64, r: bv64)
  {
    LowWritten(ms, val, r) && HighWritten(ms, val, r) && WidthsWritten(ms, val, r)
  }

  predicate SstatusLow(ms: bv64, val: bv64, r: bv64)
  {
    && r % 4 == val % 4 && r / 4 % 4 == ms / 4 % 4 && r / 0x10 % 4 == val / 0x10 % 4 && r / 0x40 % 4 == ms / 0x40 % 4
    && r / 0x100 % 2 == val / 0x100 % 2 && r / 0x200 % 16 == ms / 0x200 % 16 && r / 0x2000 % 4 == val / 0x2000 % 4
    && r / 0x8000 % 8 == ms / 0x8000 % 8 && r / 0x4_0000 % 4 == val / 0x4_0000 % 4
    && r / 0x10_0000 % 0x1000 == ms / 0x10_0000 % 0x1000
  }

  predicate SstatusHigh(ms: bv64, val: bv64, r: bv64)
  {
    && r / 0x1_0000_0000 % 4 == (if SomeWidth(val / 0x1_0000_0000 % 4) then val else ms) / 0x1_0000_0000 % 4
    && r / 0x4_0000_0000 == ms / 0x4_0000_0000
  }

  /**
   * A write of sstatus: digits 0 and 1, 4 and 5, 8, 13 and 14, 18 and 19 are the value's, and so is UXL when it names a width; the
   * others stay.
   */
  predicate SstatusWritten(ms: bv64, val: bv64, r: bv64)
  {
    SstatusLow(ms, val, r) && SstatusHigh(ms, val, r)
  }

  lemma WidthsAgree(val: bv64)
    ensures UxlMask(val) == if SomeWidth(val / 0x1_0000_0000 % 4) then 0x3_0000_0000 else 0
    ensures SxlMask(val) == if SomeWidth(val / 0x4_0000_0000 % 4) then 0xC_0000_0000 else 0
  {
  }

  lemma LowWrites(ms: bv64, val: bv64, u: bv64, x: bv64)
    requires (u == 0 || u == 0x3_0000_0000) && (x == 0 || x == 0xC_0000_0000)
    ensures LowWritten(ms, val, Merge(ms, val, MstatusMask(u, x)))
  {
  }

  lemma HighWrites(ms: bv64, val: bv64, u: bv64, x: bv64)
    requires (u == 0 || u == 0x3_0000_0000) && (x == 0 || x == 0xC_0000_0000)
    ensures HighWritten(ms, val, Merge(ms, val, MstatusMask(u, x)))
  {
    hide Merge, MstatusMask;
    MiddleWrites(ms, val, u, x);
    TopKept(ms, val, u, x);
  }

  lemma MiddleWrites(ms: bv64, val: bv64, u: bv64, x: bv64)
    requires (u == 0 || u == 0x3_0000_0000) && (x == 0 || x == 0xC_0000_0000)
    ensures var r := Merge(ms, val, MstatusMask(u, x));
      r / 0x800 % 16 == val / 0x800 % 16 && r / 0x8000 % 4 == ms / 0x8000 % 4 && r / 0x2_0000 % 8 == val / 0x2_0000 % 8
  {
  }

  lemma TopKept(ms: bv64, val: bv64, u: bv64, x: bv64)
    requires (u == 0 || u == 0x3_0000_0000) && (x == 0 || x == 0xC_0000_0000)
    ensures var r := Merge(ms, val, MstatusMask(u, x));
      r / 0x10_0000 % 0x1000 == ms / 0x10_0000 % 0x1000 && r / 0x10_0000_0000 == ms / 0x10_0000_0000
  {
  }

  lemma WidthWrites(ms: bv64, val: bv64, u: bv64, x: bv64)
    requires u == if SomeWidth(val / 0x1_0000_0000 % 4) then 0x3_0000_0000 else 0
    requires x == if SomeWidth(val / 0x4_0000_0000 % 4) then 0xC_0000_0000 else 0
    ensures WidthsWritten(ms, val, Merge(ms, val, MstatusMask(u, x)))
  {
    hide SomeWidth;
  }

  lemma MstatusFields(ms: bv64, val: bv64)
    ensures MstatusWritten(ms, val, MstatusAfter(ms, val))
  {
    hide Merge, UxlMask, SxlMask, SomeWidth, LowWritten, HighWritten, WidthsWritten, MstatusMask;
    WidthsAgree(val);
    LowWrites(ms, val, UxlMask(val), SxlMask(val));
    HighWrites(ms, val, UxlMask(val), SxlMask(val));
    WidthWrites(ms, val, UxlMask(val), SxlMask(val));
  }

  /** The whole effect of a write of mstatus. */
  lemma MstatusWrites(s: Csrs, val: bv64)
    ensures var s' := Written(s, 0x300, val); MstatusWritten(s.mstatus.bits, val, s'.mstatus.bits) && s' == s.(mstatus := s'.mstatus)
  {
    hide MstatusWritten;
    MstatusFields(s.mstatus.bits, val);
  }

  /** What a write of sstatus hands on: the value's digits where sstatus shows them, the old ones elsewhere. */
  predicate Into(ms: bv64, val: bv64, into: bv64)
  {
    && into % 4 == val % 4 && into / 8 % 2 == ms / 8 % 2 && into / 0x10 % 4 == val / 0x10 % 4 && into / 0x80 % 2 == ms / 0x80 % 2
    && into / 0x100 % 2 == val / 0x100 % 2 && into / 0x800 % 4 == ms / 0x800 % 4 && into / 0x2000 % 4 == val / 0x2000 % 4
    && into / 0x2_0000 % 2 == ms / 0x2_0000 % 2 && into / 0x4_0000 % 4 == val / 0x4_0000 % 4
  }

  lemma IntoDigits(ms: bv64, val: bv64)
    ensures Into(ms, val, SstatusInto(ms, val))
  {
  }

  predicate IntoHigh(ms: bv64, val: bv64, into: bv64)
  {
    into / 0x1_0000_0000 % 4 == val / 0x1_0000_0000 % 4 && into / 0x4_0000_0000 == ms / 0x4_0000_0000
  }

  lemma IntoWidths(ms: bv64, val: bv64)
    ensures IntoHigh(ms, val, SstatusInto(ms, val))
  {
  }

  /** The coarser fields of a write of mstatus in the finer ones of a write of sstatus. */
  lemma FinerFields(ms: bv64, val: bv64, into: bv64, r: bv64)
    requires LowWritten(ms, into, r) && HighWritten(ms, into, r) && Into(ms, val, into)
    ensures SstatusLow(ms, val, r)
  {
  }

  lemma UpperParts(ms: bv64, val: bv64, into: bv64, r: bv64)
    requires HighWritten(ms, into, r) && WidthsWritten(ms, into, r) && IntoHigh(ms, val, into)
    ensures SstatusHigh(ms, val, r)
  {
    hide SomeWidth;
    Reassembled(r);
    Reassembled(ms);
  }

  lemma Reassembled(x: bv64)
    ensures x / 0x4_0000_0000 == x / 0x10_0000_0000 * 4 + x / 0x4_0000_0000 % 4
  {
  }

  lemma SstatusFields(ms: bv64, val: bv64)
    ensures SstatusWritten(ms, val, MstatusAfter(ms, SstatusInto(ms, val)))
  {
    hide SstatusInto, MstatusAfter, SstatusLow, SstatusHigh, LowWritten, HighWritten, WidthsWritten, SomeWidth, Into, IntoHigh;
    var into := SstatusInto(ms, val);
    MstatusFields(ms, into);
    IntoDigits(ms, val);
    IntoWidths(ms, val);
    FinerFields(ms, val, into, MstatusAfter(ms, into));
    UpperParts(ms, val, into, MstatusAfter(ms, into));
  }

  /** The whole effect of a write of sstatus. */
  lemma SstatusWrites(s: Csrs, val: bv64)
    ensures var s' := Written(s, 0x100, val); SstatusWritten(s.mstatus.bits, val, s'.mstatus.bits) && s' == s.(mstatus := s'.mstatus)
  {
    hide SstatusWritten;
    SstatusFields(s.mstatus.bits, val);
  }

  // ---------------------------------------------------------------- who may read and write

  /** A register above the level is neither read nor written: bits 9 and 8 of its number name the level it asks for. */
  lemma NeedsLevel(s: Csrs, csr: nat, rtc: bv64, val: bv64)
    requires csr / 0x100 % 4 > LevelNumber(s.priv) as nat
    ensures Read(s, csr, rtc) == Refused && Cpu.CsrAfter(s, Cpu.CsrWrite(csr, val)) == s
  {
    hide LevelNumber, Written;
    LevelsAgree(s.priv);
  }

  lemma LevelsAgree(p: Priv)
    ensures LevelNumber(p) as nat == PrivLevel(p)
  {
  }

  /** The digit of mcounteren and scounteren that grants cycle, time or instret. */
  predicate GrantedBy(enable: bv64, csr: nat)
  {
    if csr == 0xC00 then enable % 2 == 1 else if csr == 0xC01 then enable / 2 % 2 == 1 else enable / 4 % 2 == 1
  }

  lemma GrantAgrees(enable: bv64, csr: nat)
    requires csr == 0xC00 || csr == 0xC01 || csr == 0xC02
    ensures Grants(enable, csr) == GrantedBy(enable, csr)
  {
  }

  lemma ReadsCounter(s: Csrs, csr: nat, rtc: bv64)
    requires csr == 0xC00 || csr == 0xC01 || csr == 0xC02
    ensures Read(s, csr, rtc) ==
      if CounterGranted(s, csr) then Value(if csr == 0xC01 then Time(rtc) else CounterBits(s.counter)) else Refused
  {
    hide CounterGranted, Time, CounterBits;
  }

  lemma GrantedWhen(s: Csrs, csr: nat)
    requires csr == 0xC00 || csr == 0xC01 || csr == 0xC02
    ensures CounterGranted(s, csr) <==>
      s.priv == Machine || (GrantedBy(s.mcounteren.bits, csr) && (s.priv == User ==> GrantedBy(s.scounteren.bits, csr)))
  {
    hide Grants, GrantedBy;
    GrantAgrees(s.mcounteren.bits, csr);
    GrantAgrees(s.scounteren.bits, csr);
  }

  /** The user counters: who may read them, and what they show. */
  lemma CountersRead(s: Csrs, csr: nat, rtc: bv64)
    requires csr == 0xC00 || csr == 0xC01 || csr == 0xC02
    ensures Read(s, csr, rtc).Value? <==>
      s.priv == Machine || (GrantedBy(s.mcounteren.bits, csr) && (s.priv == User ==> GrantedBy(s.scounteren.bits, csr)))
    ensures Read(s, csr, rtc).Value? ==>
      if csr == 0xC01 then Read(s, csr, rtc).v == rtc % 0x1_0000_0000 else Unsigned(Read(s, csr, rtc).v) == s.counter % SPACE
  {
    hide GrantedBy, Unsigned, Time, CounterGranted, Read;
    ReadsCounter(s, csr, rtc);
    GrantedWhen(s, csr);
    WordNumber(s.counter % SPACE);
    LowTime(rtc);
  }

  lemma LowTime(rtc: bv64)
    ensures Time(rtc) == rtc % 0x1_0000_0000
  {
  }

  // ---------------------------------------------------------------- satp, and what empties the tables

  lemma ModeDigits(val: bv64)
    ensures SupportedSatp(val) <==> val / 0x1000_0000_0000_0000 == 0 || val / 0x1000_0000_0000_0000 == 8
  {
  }

  /** satp takes modes 0 and 8, whole, and ignores a write of any other. */
  lemma SatpWrites(s: Csrs, val: bv64)
    ensures var mode := val / 0x1000_0000_0000_0000;
      Written(s, 0x180, val) == if mode == 0 || mode == 8 then s.(satp := Reg(val)) else s
  {
    hide SupportedSatp;
    ModeDigits(val);
  }

  /** What translation reads of mstatus differs: MPRV, SUM or MXR, digits 17 to 19, or MPP while MPRV is on. */
  predicate ViewChanges(ms: bv64, val: bv64)
  {
    ms / 0x2_0000 % 8 != val / 0x2_0000 % 8 || (ms / 0x2_0000 % 2 == 1 && ms / 0x800 % 4 != val / 0x800 % 4)
  }

  lemma FlushDigits(ms: bv64, val: bv64)
    ensures MstatusFlushes(ms, val) <==> ViewChanges(ms, val)
  {
    FlagDigits(ms, val);
    LevelDigits(ms, val);
  }

  lemma FlagDigits(ms: bv64, val: bv64)
    ensures (ms ^ val) & 0xE_0000 != 0 <==> ms / 0x2_0000 % 8 != val / 0x2_0000 % 8
  {
  }

  lemma LevelDigits(ms: bv64, val: bv64)
    ensures (ms ^ val) & 0x1800 != 0 <==> ms / 0x800 % 4 != val / 0x800 % 4
    ensures ms & 0x2_0000 != 0 <==> ms / 0x2_0000 % 2 == 1
  {
  }

  /** The writes that empty the tables: of satp with a mode it takes, and of mstatus and sstatus where translation sees a difference. */
  lemma FlushesExact(s: Csrs, csr: nat, val: bv64)
    ensures WriteFlushes(s, csr, val) <==>
      if csr == 0x180 then val / 0x1000_0000_0000_0000 == 0 || val / 0x1000_0000_0000_0000 == 8
      else if csr == 0x300 then ViewChanges(s.mstatus.bits, val)
      else csr == 0x100 && (s.mstatus.bits / 0x4_0000 % 4 != val / 0x4_0000 % 4)
  {
    hide MstatusFlushes, SupportedSatp, SstatusInto, ViewChanges;
    ModeDigits(val);
    FlushDigits(s.mstatus.bits, val);
    FlushDigits(s.mstatus.bits, SstatusInto(s.mstatus.bits, val));
    IntoDigits(s.mstatus.bits, val);
    SstatusView(s.mstatus.bits, val, SstatusInto(s.mstatus.bits, val));
  }

  /** sstatus shows SUM and MXR, and neither MPRV nor MPP. */
  lemma SstatusView(ms: bv64, val: bv64, into: bv64)
    requires Into(ms, val, into)
    ensures ViewChanges(ms, into) <==> ms / 0x4_0000 % 4 != val / 0x4_0000 % 4
  {
    Parted(ms);
    Parted(into);
  }

  lemma Parted(x: bv64)
    ensures x / 0x2_0000 % 8 == x / 0x4_0000 % 4 * 2 + x / 0x2_0000 % 2 && x / 0x2_0000 % 2 <= 1
  {
  }
}
