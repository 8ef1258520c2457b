/** The Sv39 walk against the manual's own words, and the splitting of superpages. */
module Superpage {
  import opened Words
  import opened PhysMemory
  import opened Pte
  import opened Translate
  import opened SmallMemory

  // ---------------------------------------------------------------- section 4.3.2 of the RISC-V Privileged Architecture 1.12

  /** va.vpn[i] */
  function VpnField(va: addr, i: nat): nat
    requires i < 3
  {
    if i == 0 then va / 4096 % 512 else if i == 1 then va / 4096 / 512 % 512 else va / 4096 / 512 / 512 % 512
  }

  /** Step 6: some of pte.ppn[i-1:0] is not zero. */
  predicate Misaligned(ppn: nat, i: nat)
    requires i < 3
  {
    (i > 0 && ppn % 512 != 0) || (i > 1 && ppn / 512 % 512 != 0)
  }

  /** Step 8: the fields of the physical address, from the leaf above and from the virtual address below. */
  function ManualPa(ppn: nat, va: addr, i: nat): nat
    requires i < 3
  {
    var ppn0 := if i > 0 then VpnField(va, 0) else ppn % 512;
    var ppn1 := if i > 1 then VpnField(va, 1) else ppn / 512 % 512;
    var ppn2 := ppn / 512 / 512;
    ((ppn2 * 512 + ppn1) * 512 + ppn0) * 4096 + va % 4096
  }

  /** The fields of an entry, section 4.4.1: V, R, W, X and U from bit 0 on, and 44 bits of page number from bit 10 on. */
  predicate V(pte: bv64) { pte % 2 == 1 }
  predicate R(pte: bv64) { pte / 2 % 2 == 1 }
  predicate W(pte: bv64) { pte / 4 % 2 == 1 }
  predicate X(pte: bv64) { pte / 8 % 2 == 1 }
  predicate U(pte: bv64) { pte / 16 % 2 == 1 }
  function PageNumber(pte: bv64): nat { (pte / 0x400 % 0x1000_0000_0000) as nat }

  /** Step 3: writable but not readable is reserved. */
  predicate ManualReserved(pte: bv64) { W(pte) && !R(pte) }

  /** Step 4: readable or executable. */
  predicate ManualLeaf(pte: bv64) { R(pte) || X(pte) }

  /**
   * Step 5: the page must be executable, readable or writable as asked, executable standing for readable under MXR; a supervisor
   * has no user page but for data under SUM, and a user has no other page.
   */
  predicate ManualAllows(pte: bv64, acc: Access, c: Ctx)
  {
    && (match acc case Fetch => X(pte) case Read => R(pte) || (c.mxr && X(pte)) case Write => W(pte))
    && (if U(pte) then c.priv == Supervisor ==> c.sum && acc != Fetch else c.priv != User)
  }

  /** Steps 2 to 8 from level `i` down. */
  function ManualFrom(m: Mem, a: nat, i: nat, va: addr, acc: Access, c: Ctx): Translation
    requires i < 3
    decreases i
  {
    var pte := PteAt(m, a + VpnField(va, i) * 8);
    if pte.None? then AccessFault
    else if !V(pte.value) || ManualReserved(pte.value) then PageFault
    else if ManualLeaf(pte.value) then
      if !ManualAllows(pte.value, acc, c) || Misaligned(PageNumber(pte.value), i) then PageFault
      else Physical(ManualPa(PageNumber(pte.value), va, i))
    else if i == 0 then PageFault
    else ManualFrom(m, PageNumber(pte.value) * 4096, i - 1, va, acc, c)
  }

  /** Section 4.4.1: bits 63 to 39 must all be equal to bit 38. */
  predicate SignExtended(va: addr) { va / 0x40_0000_0000 == 0 || va / 0x40_0000_0000 == 0x3FF_FFFF }

  lemma CanonicalAgrees(va: addr)
    ensures Canonical(va) <==> SignExtended(va)
  {
  }

  function Manual(m: Mem, c: Ctx, va: addr, acc: Access): Translation
  {
    if SignExtended(va) then ManualFrom(m, c.root * 4096, 2, va, acc, c) else PageFault
  }

  /** The walk ends at a user leaf that only SUM opens to a supervisor's fetch. */
  predicate LenientFetch(m: Mem, c: Ctx, va: addr, acc: Access)
  {
    var w := Walk(m, c, va);
    acc == Fetch && c.priv == Supervisor && c.sum && w.Leaf? && IsUser(w.pte) && LeafOk(w.pte, w.level, acc, c)
  }

  lemma FieldsAgree(va: addr, i: nat)
    requires i < 3
    ensures VpnField(va, i) == Vpn(va, i)
  {
    if i == 1 {
      assert va / 0x20_0000 == va / 4096 / 512;
    } else if i == 2 {
      assert va / 0x4000_0000 == va / 4096 / 512 / 512;
    }
  }

  /** Page numbers and offsets in mixed radix. */
  lemma Page2M(p: nat)
    ensures p * 4096 % 0x20_0000 == p % 512 * 4096
  {
    assert p * 4096 == p / 512 * 0x20_0000 + p % 512 * 4096;
  }

  lemma Page1G(p: nat)
    ensures p * 4096 % 0x4000_0000 == p % 0x4_0000 * 4096
    ensures p % 0x4_0000 == p / 512 % 512 * 512 + p % 512
    ensures p == (p / 512 / 512 * 512 + p / 512 % 512) * 512 + p % 512
  {
    assert p * 4096 == p / 0x4_0000 * 0x4000_0000 + p % 0x4_0000 * 4096;
    assert p / 512 / 512 == p / 0x4_0000;
  }

  lemma AlignmentAgrees(pte: bv64, i: nat)
    requires i < 3
    ensures Misaligned(Ppn(pte), i) <==> !Aligned(pte, i)
  {
    hide Ppn;
    if i == 1 {
      Page2M(Ppn(pte));
    } else if i == 2 {
      Page1G(Ppn(pte));
    }
  }

  /** An aligned leaf's own bits and the offset do not overlap. */
  lemma AlignedPa(pte: bv64, va: addr, i: nat)
    requires i < 3 && Aligned(pte, i)
    ensures BuildPa(pte, va, i) == Ppn(pte) * PAGE + va % Span(i)
  {
    hide Ppn;
    Whole(Ppn(pte) * PAGE, i);
  }

  lemma Whole(x: nat, i: nat)
    requires i < 3 && x % Span(i) == 0
    ensures x / Span(i) * Span(i) == x
  {
  }

  lemma AddressesAgree(pte: bv64, va: addr, i: nat)
    requires i < 3 && Aligned(pte, i)
    ensures ManualPa(Ppn(pte), va, i) == BuildPa(pte, va, i)
  {
    hide Ppn, Aligned, BuildPa;
    var p := Ppn(pte);
    AlignedPa(pte, va, i);
    AlignmentAgrees(pte, i);
    Page1G(p);
    if i >= 1 {
      Offset2M(va);
      if i == 2 {
        Offset1G(va);
      }
    }
  }

  /** What the walk makes of its leaf. */
  function Checked(w: Walked, va: addr, acc: Access, c: Ctx): Translation
  {
    if w.Leaf? && w.level < 3 && LeafOk(w.pte, w.level, acc, c) then Physical(BuildPa(w.pte, va, w.level)) else PageFault
  }

  /** A supervisor's fetch from a user leaf, with SUM set. */
  predicate SumFetch(w: Walked, acc: Access, c: Ctx)
  {
    w.Leaf? && IsUser(w.pte) && acc == Fetch && c.priv == Supervisor && c.sum
  }

  /** The bits the code looks at, one by one. */
  lemma BitsAgree(pte: bv64)
    ensures ManualReserved(pte) == Reserved(pte) && IsUser(pte) == U(pte)
    ensures !Reserved(pte) ==> ManualLeaf(pte) == IsLeaf(pte)
  {
  }

  lemma ValidAgrees(pte: bv64)
    ensures V(pte) == IsValid(pte)
  {
  }

  lemma NumberAgrees(pte: bv64)
    ensures PageNumber(pte) == Ppn(pte)
  {
    assert pte / 0x400 % 0x1000_0000_0000 == PpnBits(pte);
  }

  /** What an access leaves of its leaf: A, bit 6, set; D, bit 7, set by a write; the rest as it was. */
  predicate ManualUpdated(pte: bv64, acc: Access, r: bv64)
  {
    r % 64 == pte % 64 && r / 64 % 2 == 1 && r / 128 % 2 == (if acc == Write then 1 else pte / 128 % 2) && r / 256 == pte / 256
  }

  lemma UpdateIsManual(pte: bv64, acc: Access)
    ensures ManualUpdated(pte, acc, Updated(pte, acc))
  {
    match acc {
      case Fetch => UpdatedByRead(pte, Fetch);
      case Read => UpdatedByRead(pte, Read);
      case Write => UpdatedByWrite(pte);
    }
  }

  lemma AccessedBit(pte: bv64)
    ensures IsAccessed(pte) <==> pte / 64 % 2 == 1
  {
  }

  lemma AccessedSet(pte: bv64)
    ensures ManualUpdated(pte, Read, pte | 0x40)
  {
  }

  lemma UpdatedByRead(pte: bv64, acc: Access)
    requires acc != Write
    ensures ManualUpdated(pte, acc, Updated(pte, acc))
  {
    AccessedBit(pte);
    AccessedSet(pte);
    hide IsAccessed;
    if IsAccessed(pte) {
      assert Updated(pte, acc) == pte;
    } else {
      assert Updated(pte, acc) == pte | 0x40;
    }
  }

  lemma UpdatedByWrite(pte: bv64)
    ensures ManualUpdated(pte, Write, Updated(pte, Write))
  {
    hide IsAccessed, IsDirty;
    if NeedsUpdate(pte, Write) {
      DirtySet(pte);
      assert Updated(pte, Write) == pte | 0x40 | 0x80;
    } else {
      DirtyAlready(pte);
    }
  }

  lemma DirtySet(pte: bv64)
    ensures ManualUpdated(pte, Write, pte | 0x40 | 0x80)
  {
  }

  lemma DirtyAlready(pte: bv64)
    requires IsAccessed(pte) && IsDirty(pte)
    ensures ManualUpdated(pte, Write, pte)
  {
  }

  lemma RightsAgree(pte: bv64, mxr: bool)
    ensures Permits(pte, Fetch, mxr) == X(pte) && Permits(pte, Write, mxr) == W(pte)
    ensures Permits(pte, Read, mxr) == (R(pte) || (mxr && X(pte)))
  {
  }

  lemma LeafAgrees(a: nat, pte: bv64, i: nat, va: addr, acc: Access, c: Ctx)
    requires i < 3 && IsValid(pte) && IsLeaf(pte)
    ensures var w := Leaf(a, pte, i);
      var t := if ManualReserved(pte) || !ManualAllows(pte, acc, c) || Misaligned(PageNumber(pte), i) then PageFault
        else Physical(ManualPa(PageNumber(pte), va, i));
      && (SumFetch(w, acc, c) ==> t == PageFault)
      && (!SumFetch(w, acc, c) ==> Checked(w, va, acc, c) == t)
  {
    hide IsValid, Xwr, IsUser, Ppn, Reserved, ManualReserved, Permits, Aligned, BuildPa, ManualPa, Misaligned, R, W, X, U, PageNumber;
    BitsAgree(pte);
    NumberAgrees(pte);
    RightsAgree(pte, c.mxr);
    AlignmentAgrees(pte, i);
    if Aligned(pte, i) {
      AddressesAgree(pte, va, i);
    }
  }

  /** From any level: the walk's leaf and checks against the manual's. */
  lemma {:induction false} WalkAgrees(m: Mem, a: nat, i: nat, va: addr, acc: Access, c: Ctx)
    requires i < 3
    ensures var w := WalkFrom(m, a, i, va); var t := ManualFrom(m, a, i, va, acc, c);
      && (SumFetch(w, acc, c) ==> t == PageFault)
      && (!SumFetch(w, acc, c) && t != AccessFault ==> Checked(w, va, acc, c) == t)
      && (t == AccessFault ==> w == Fault)
    decreases i
  {
    hide IsValid, IsLeaf, IsUser, Ppn, Reserved, PteAt, VpnField, Vpn, LeafOk, BuildPa, ManualPa, Misaligned, ManualAllows, ManualReserved,
      ManualLeaf, U, V, PageNumber;
    FieldsAgree(va, i);
    var x := PteAddr(a, va, i);
    var pte := PteAt(m, x);
    if pte.Some? {
      ValidAgrees(pte.value);
      NumberAgrees(pte.value);
    }
    if pte.Some? && IsValid(pte.value) {
      BitsAgree(pte.value);
      if IsLeaf(pte.value) {
        LeafAgrees(x, pte.value, i, va, acc, c);
      } else {
        NotReserved(pte.value);
        if i > 0 {
          WalkAgrees(m, Ppn(pte.value) * 4096, i - 1, va, acc, c);
        }
      }
    }
  }

  lemma NotReserved(pte: bv64)
    requires !IsLeaf(pte)
    ensures !Reserved(pte)
  {
    hide Xwr;
  }

  /** The manual's walk meets a word outside RAM exactly when one of the words it visits is there. */
  lemma {:induction false} ManualLeavesRam(m: Mem, a: nat, i: nat, va: addr, acc: Access, c: Ctx)
    requires i < 3
    ensures ManualFrom(m, a, i, va, acc, c) == AccessFault <==> exists x :: x in VisitsFrom(m, a, i, va) && PteAt(m, x).None?
    decreases i
  {
    hide IsValid, IsLeaf, Ppn, Reserved, PteAt, VpnField, Vpn, ManualPa, Misaligned, ManualAllows, ManualReserved,
      ManualLeaf, V, PageNumber;
    FieldsAgree(va, i);
    var x := PteAddr(a, va, i);
    assert x in VisitsFrom(m, a, i, va);
    var pte := PteAt(m, x);
    if pte.Some? {
      BitsAgree(pte.value);
      ValidAgrees(pte.value);
      NumberAgrees(pte.value);
    }
    if pte.Some? && IsValid(pte.value) && !IsLeaf(pte.value) {
      NotReserved(pte.value);
      if i > 0 {
        ManualLeavesRam(m, Ppn(pte.value) * 4096, i - 1, va, acc, c);
      }
    }
  }

  /** Every page-table word the walk reads lies in RAM. */
  ghost predicate TablesInRam(m: Mem, c: Ctx, va: addr)
  {
    forall a :: a in Visits(m, c, va) ==> PteAt(m, a).Some?
  }

  /**
   * The walk does what the manual says, the reserved-bit rule aside, exactly when every word it reads lies in RAM, which is a
   * page fault here and an access fault there, and it does not end at a user page that SUM opens to a supervisor's fetch.
   */
  lemma WalkIsManual(m: Mem, c: Ctx, va: addr, acc: Access)
    requires Paging(c) && c.mode == SV39
    ensures Xlate(m, c, va, acc) == Manual(m, c, va, acc) <==> TablesInRam(m, c, va) && !LenientFetch(m, c, va, acc)
  {
    hide WalkFrom, ManualFrom, Permits, Aligned, BuildPa, Reserved, VisitsFrom, PteAt;
    CanonicalAgrees(va);
    WalkAgrees(m, c.root * 4096, 2, va, acc, c);
    ManualLeavesRam(m, c.root * 4096, 2, va, acc, c);
  }

  const SUPERVISOR: Ctx := Ctx(Supervisor, true, false, 8, 0)

  /** A root table outside RAM: a page fault here, an access fault in the manual. */
  lemma TableOutsideRam()
    ensures Xlate(Mem([], []), SUPERVISOR, 0, Read) == PageFault && Manual(Mem([], []), SUPERVISOR, 0, Read) == AccessFault
  {
  }

  lemma UserCode()
    ensures var p := 0xDB as bv8 as bv64; IsValid(p) && Xwr(p) == 5 && IsUser(p) && Ppn(p) == 0
  {
  }

  /** A readable and executable user leaf of a gigabyte: with SUM the walk allows a supervisor's fetch. */
  lemma UserLeaf(m: Mem, p: bv64)
    requires PteAt(m, 0) == Some(p) && IsValid(p) && Xwr(p) == 5 && IsUser(p) && Ppn(p) == 0
    ensures Walk(m, SUPERVISOR, 0) == Leaf(0, p, 2) && LeafOk(p, 2, Fetch, SUPERVISOR) && BuildPa(p, 0, 2) == 0
  {
    UserRights(p);
    hide IsValid, Xwr, IsUser, Ppn, PteAt, Permits, Reserved;
    assert PteAddr(0, 0, 2) == 0;
  }

  lemma UserRights(p: bv64)
    requires Xwr(p) == 5
    ensures IsLeaf(p) && !Reserved(p) && Permits(p, Fetch, false)
  {
    hide Xwr;
  }

  lemma ManualRefuses(m: Mem, p: bv64)
    requires PteAt(m, 0) == Some(p) && IsValid(p) && IsLeaf(p) && !Reserved(p) && IsUser(p)
    ensures Manual(m, SUPERVISOR, 0, Fetch) == PageFault
  {
    BitsAgree(p);
    hide IsValid, IsLeaf, Reserved, IsUser, Ppn, PteAt, Misaligned, ManualPa, ManualReserved, ManualLeaf, U;
    assert VpnField(0, 2) == 0;
  }

  /** A gigabyte of user code and SUM: the supervisor's fetch succeeds here, and faults in the manual. */
  lemma SupervisorFetchesUserPage()
    ensures Xlate(Memory(0xDB), SUPERVISOR, 0, Fetch) == Physical(0) && Manual(Memory(0xDB), SUPERVISOR, 0, Fetch) == PageFault
  {
    hide IsValid, Xwr, IsUser, Ppn, PteAt, Memory, Walk, LeafOk, BuildPa, Manual, Reserved, Permits;
    var p := 0xDB as bv8 as bv64;
    FirstEntry(0xDB);
    UserCode();
    UserRights(p);
    UserLeaf(Memory(0xDB), p);
    assert VpnField(0, 2) == 0;
    ManualRefuses(Memory(0xDB), p);
  }

  // ---------------------------------------------------------------- splitting

  /** How many pages a leaf one level below `level` covers. */
  function Unit(level: nat): nat
    requires 0 < level < 3
  {
    if level == 1 then 1 else 512
  }

  /** `q` maps the `j`-th part of the superpage `pte` with the same rights. */
  predicate PartOf(pte: bv64, q: bv64, j: nat, level: nat)
    requires 0 < level < 3
  {
    IsValid(q) && Xwr(q) == Xwr(pte) && IsUser(q) == IsUser(pte) && Ppn(q) == Ppn(pte) + j * Unit(level)
  }

  /** The new table at `table` holds the 512 parts. */
  predicate Parts(m: Mem, table: nat, pte: bv64, level: nat)
    requires 0 < level < 3
  {
    forall j :: 0 <= j < 512 ==> PteAt(m, table + j * 8).Some? && PartOf(pte, PteAt(m, table + j * 8).value, j, level)
  }

  /** The entry at `a` now points to the table. */
  predicate PointsTo(m: Mem, a: nat, table: nat)
  {
    var q := PteAt(m, a);
    q.Some? && IsValid(q.value) && !IsLeaf(q.value) && Ppn(q.value) * PAGE == table
  }

  predicate InTable(table: nat, a: nat) { table <= a < table + PAGE }

  lemma PartPa(pte: bv64, q: bv64, va: addr, level: nat)
    requires 0 < level < 3 && Aligned(pte, level) && PartOf(pte, q, Vpn(va, level - 1), level)
    ensures Aligned(q, level - 1) && BuildPa(q, va, level - 1) == BuildPa(pte, va, level)
  {
    hide Ppn, IsValid, Xwr, IsUser, BuildPa, Vpn, Span, Aligned;
    AlignedPa(pte, va, level);
    PartIsAligned(pte, q, Vpn(va, level - 1), level);
    AlignedPa(q, va, level - 1);
    if level == 1 {
      PartOffset1(Ppn(pte), va);
    } else {
      PartOffset2(Ppn(pte), va);
    }
  }

  lemma PartIsAligned(pte: bv64, q: bv64, j: nat, level: nat)
    requires 0 < level < 3 && Aligned(pte, level) && Ppn(q) == Ppn(pte) + j * Unit(level)
    ensures Aligned(q, level - 1)
  {
    hide Ppn;
    if level == 2 {
      PartAligned(Ppn(pte), j);
    }
  }

  lemma PartOffset1(p: nat, va: addr)
    ensures (p + Vpn(va, 0)) * PAGE + va % Span(0) == p * PAGE + va % Span(1)
  {
    Offset2M(va);
  }

  lemma PartOffset2(p: nat, va: addr)
    ensures (p + Vpn(va, 1) * 512) * PAGE + va % Span(1) == p * PAGE + va % Span(2)
  {
    Offset1G(va);
  }

  lemma PartAligned(p: nat, j: nat)
    requires p * 4096 % 0x4000_0000 == 0
    ensures (p + j * 512) * 4096 % 0x20_0000 == 0
  {
    var k := p * 4096 / 0x4000_0000;
    assert (p + j * 512) * 4096 == (k * 512 + j) * 0x20_0000;
  }

  lemma PartLeafOk(pte: bv64, q: bv64, va: addr, level: nat, acc: Access, c: Ctx)
    requires 0 < level < 3 && Aligned(pte, level) && PartOf(pte, q, Vpn(va, level - 1), level)
    ensures LeafOk(q, level - 1, acc, c) == LeafOk(pte, level, acc, c)
  {
    hide PpnBits, IsValid, Xwr, IsUser, Aligned, BuildPa, Vpn;
    PartPa(pte, q, va, level);
  }

  /** A walk of the old tables, and the same walk after the split. */
  lemma {:induction false} SplitWalk(m: Mem, m': Mem, a: nat, pte: bv64, level: nat, table: nat, base: nat, i: nat, va: addr)
    requires i < 3 && 0 < level < 3 && PteAt(m, a) == Some(pte) && IsValid(pte) && IsLeaf(pte)
    requires PointsTo(m', a, table)
    requires forall x :: x in VisitsFrom(m, base, i, va) && x != a ==> PteAt(m', x) == PteAt(m, x)
    requires a in VisitsFrom(m, base, i, va) ==> WalkFrom(m, base, i, va) == Leaf(a, pte, level)
    ensures a !in VisitsFrom(m, base, i, va) ==> WalkFrom(m', base, i, va) == WalkFrom(m, base, i, va)
    ensures a in VisitsFrom(m, base, i, va) ==> level <= i && WalkFrom(m', base, i, va) == WalkFrom(m', table, level - 1, va)
    decreases i
  {
    hide IsValid, Xwr, PpnBits, PteAt, PteAddr;
    var x := PteAddr(base, va, i);
    assert x in VisitsFrom(m, base, i, va);
    if x != a {
      var q := PteAt(m, x);
      if q.Some? && IsValid(q.value) && !IsLeaf(q.value) && i > 0 {
        SplitWalk(m, m', a, pte, level, table, Ppn(q.value) * PAGE, i - 1, va);
      }
    }
  }

  /**
   * Superpage splitting: replacing a superpage leaf by a table of 512 leaves of the next level with consecutive page numbers
   * and the same rights leaves every translation of every address as it was, provided the new table's frame was not in use
   * as a page table and the leaf was read at one level only.
   */
  lemma SplitPreserves(m: Mem, m': Mem, c: Ctx, a: nat, pte: bv64, level: nat, table: nat, va: addr, acc: Access)
    requires Paging(c) && c.mode == SV39 && 0 < level < 3
    requires PteAt(m, a) == Some(pte) && IsValid(pte) && IsLeaf(pte) && Aligned(pte, level)
    requires PointsTo(m', a, table) && Parts(m', table, pte, level)
    requires forall x :: x % 8 == 0 && x != a && !InTable(table, x) ==> PteAt(m', x) == PteAt(m, x)
    requires forall x :: x in Visits(m, c, va) ==> !InTable(table, x)
    requires a in Visits(m, c, va) ==> Walk(m, c, va) == Leaf(a, pte, level)
    ensures Xlate(m', c, va, acc) == Xlate(m, c, va, acc)
  {
    hide IsValid, Xwr, IsUser, PpnBits, PteAt, WalkFrom, VisitsFrom, Aligned, LeafOk, BuildPa, PartOf, PointsTo;
    if Canonical(va) {
      VisitsAligned(m, c.root * PAGE, 2, va);
      assert Visits(m, c, va) == VisitsFrom(m, c.root * PAGE, 2, va);
      SplitWalk(m, m', a, pte, level, table, c.root * PAGE, 2, va);
      if a in Visits(m, c, va) {
        PartWalk(m', table, pte, level, va);
        var q := PteAt(m', PteAddr(table, va, level - 1)).value;
        PartPa(pte, q, va, level);
        PartLeafOk(pte, q, va, level, acc, c);
      }
    }
  }

  lemma PartWalk(m: Mem, table: nat, pte: bv64, level: nat, va: addr)
    requires 0 < level < 3 && Parts(m, table, pte, level) && IsLeaf(pte)
    ensures var x := PteAddr(table, va, level - 1);
      && PteAt(m, x).Some? && PartOf(pte, PteAt(m, x).value, Vpn(va, level - 1), level)
      && WalkFrom(m, table, level - 1, va) == Leaf(x, PteAt(m, x).value, level - 1)
  {
    hide IsValid, Xwr, IsUser, PpnBits, PteAt, PartOf;
    PartIsLeaf(pte, PteAt(m, PteAddr(table, va, level - 1)).value, Vpn(va, level - 1), level);
  }

  lemma PartIsLeaf(pte: bv64, q: bv64, j: nat, level: nat)
    requires 0 < level < 3 && PartOf(pte, q, j, level) && IsLeaf(pte)
    ensures IsValid(q) && IsLeaf(q)
  {
    hide IsValid, Xwr, IsUser, PpnBits;
  }
}
