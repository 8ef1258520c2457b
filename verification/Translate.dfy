/** Sv39 translation as a function of memory and context; the loop of `mmu.dart` is proved against it in module MmuClass. */
module Translate {
  import opened Words
  import opened PhysMemory
  import opened Pte

  /** The privilege levels of `PrivilegeLevel`, by value. */
  datatype Priv = User | Supervisor | Hypervisor | Machine

  /** All that translation depends on besides memory: effective privilege, SUM, MXR and satp. */
  datatype Ctx = Ctx(priv: Priv, sum: bool, mxr: bool, mode: nat, root: nat)

  /** How a page table read ended: at a leaf, or nowhere. */
  datatype Walked = Fault | Leaf(pteAddr: nat, pte: bv64, level: nat)

  datatype Translation = Physical(pa: nat) | PageFault | AccessFault | Unimplemented

  function Span(level: nat): (s: nat)
    requires level < 3
    ensures s > 0 && s % PAGE == 0
  {
    if level == 0 then 0x1000 else if level == 1 then 0x20_0000 else 0x4000_0000
  }

  /** `_extractVpn` */
  function Vpn(va: addr, level: nat): (v: nat)
    requires level < 3
    ensures v < 512
  {
    va / Span(level) % 512
  }

  function PteAddr(base: nat, va: addr, level: nat): nat
    requires level < 3
  {
    base + Vpn(va, level) * 8
  }

  /** `_readPte`; only RAM holds page tables. */
  function PteAt(m: Mem, a: nat): (r: Option<bv64>)
  {
    var p := PlaceOf(m, a);
    if p.InRam? && p.host < |m.ram| && p.off + 8 <= |m.ram[p.host]| then Some(Le8(m.ram[p.host], p.off)) else None
  }

  /** The page-table levels from `level` down, without the permission checks. */
  function WalkFrom(m: Mem, base: nat, level: nat, va: addr): (w: Walked)
    requires level < 3
    ensures w.Leaf? ==> w.level <= level && IsLeaf(w.pte) && IsValid(w.pte) && PteAt(m, w.pteAddr) == Some(w.pte)
    decreases level
  {
    var a := PteAddr(base, va, level);
    var pte := PteAt(m, a);
    if pte.None? || !IsValid(pte.value) then Fault
    else if IsLeaf(pte.value) then Leaf(a, pte.value, level)
    else if level == 0 then Fault
    else WalkFrom(m, Ppn(pte.value) * PAGE, level - 1, va)
  }

  /** `_checkPrivilege`: fetches are not treated apart, so SUM also lets a supervisor execute user pages. */
  predicate PrivilegeOk(pte: bv64, c: Ctx)
  {
    match c.priv
    case Supervisor => !IsUser(pte) || c.sum
    case User => IsUser(pte)
    case _ => true
  }

  /** `_validateSuperpageAlignment` */
  predicate Aligned(pte: bv64, level: nat)
    requires level < 3
  {
    Ppn(pte) * PAGE % Span(level) == 0
  }

  predicate LeafOk(pte: bv64, level: nat, acc: Access, c: Ctx)
    requires level < 3
  {
    !Reserved(pte) && PrivilegeOk(pte, c) && Permits(pte, acc, c.mxr) && Aligned(pte, level)
  }

  /** `_buildPhysicalAddr` */
  function BuildPa(pte: bv64, va: addr, level: nat): nat
    requires level < 3
  {
    Ppn(pte) * PAGE / Span(level) * Span(level) + va % Span(level)
  }

  /** Bits 63 to 39 copy bit 38. */
  predicate Canonical(va: addr) { va < 0x40_0000_0000 || va >= SPACE - 0x40_0000_0000 }

  function Walk(m: Mem, c: Ctx, va: addr): Walked
  {
    if Canonical(va) then WalkFrom(m, c.root * PAGE, 2, va) else Fault
  }

  const SV39: nat := 8
  const SV48: nat := 9

  predicate Paging(c: Ctx) { c.priv != Machine && c.mode != 0 }

  /** `translate`, as far as the caller sees: an address or a fault. */
  function Xlate(m: Mem, c: Ctx, va: addr, acc: Access): (t: Translation)
  {
    if !Paging(c) then Physical(va)
    else if c.mode == SV48 then Unimplemented
    else if c.mode != SV39 then AccessFault
    else
      var w := Walk(m, c, va);
      if w.Leaf? && LeafOk(w.pte, w.level, acc, c) then Physical(BuildPa(w.pte, va, w.level)) else PageFault
  }

  /** `translate`, as far as memory sees: the leaf's accessed and dirty bits. */
  function XlateMem(m: Mem, c: Ctx, va: addr, acc: Access): (m': Mem)
  {
    if Paging(c) && c.mode == SV39 && Xlate(m, c, va, acc).Physical? then
      var w := Walk(m, c, va);
      if NeedsUpdate(w.pte, acc) then Poke8(m, w.pteAddr, Updated(w.pte, acc)) else m
    else m
  }

  /** A word stored at a physical address. */
  function Poke8(m: Mem, a: nat, v: bv64): (m': Mem)
    requires PteAt(m, a).Some?
    ensures m'.ranges == m.ranges && |m'.ram| == |m.ram|
  {
    var p := PlaceOf(m, a);
    m.(ram := m.ram[p.host := Splice(m.ram[p.host], p.off, BytesOf(v, 8))])
  }

  // ---------------------------------------------------------------- single words

  lemma PokeValid(m: Mem, a: nat, v: bv64)
    requires ValidMem(m) && PteAt(m, a).Some?
    ensures ValidMem(Poke8(m, a, v))
  {
  }

  /** Aligned words either are the same word or share no byte. */
  lemma PokePeek(m: Mem, a: nat, v: bv64, b: nat)
    requires ValidMem(m) && PteAt(m, a).Some? && a % 8 == 0 && b % 8 == 0
    ensures PteAt(Poke8(m, a, v), b) == if a == b then Some(v) else PteAt(m, b)
  {
    hide Find, Le8, Byte, ValidMem, PlaceOf, Splice, BytesOf;
    var m' := Poke8(m, a, v);
    var p, q := PlaceOf(m, a), PlaceOf(m, b);
    SamePlaces(m, m', b);
    if q.InRam? {
      PlaceBounds(m, a);
      PlaceBounds(m, b);
      EightInPage(a, p.off);
      EightInPage(b, q.off);
      if a == b {
        SpliceReadsBack(m.ram[p.host], p.off, v, 8);
        assert Low(v, 8) == v;
      } else if p.host == q.host {
        if p.off == q.off {
          PlaceInjective(m, a, b);
        }
        SpliceElsewhere(m.ram[p.host], p.off, BytesOf(v, 8), q.off);
      }
    }
  }

  lemma SpliceElsewhere(s: seq<bv8>, o: nat, b: seq<bv8>, q: nat)
    requires |b| == 8 && o + 8 <= |s| && q + 8 <= |s| && o % 8 == 0 && q % 8 == 0 && o != q
    ensures Le8(Splice(s, o, b), q) == Le8(s, q)
  {
    hide Le8;
    var r := Splice(s, o, b);
    assert ReadLe(r, q, 8) == Le8(r, q) && ReadLe(s, q, 8) == Le8(s, q);
    ReadSame(r, q, s, q, 8);
  }

  lemma SamePlaces(m: Mem, m': Mem, b: nat)
    requires m'.ranges == m.ranges
    ensures PlaceOf(m', b) == PlaceOf(m, b)
  {
  }

  lemma EightInPage(a: nat, off: nat)
    requires a % 8 == 0 && off % PAGE == a % PAGE
    ensures off % 8 == 0
  {
    assert a % PAGE % 8 == 0;
    assert off % PAGE % 8 == off % 8;
  }

  lemma PteAddrAligned(base: nat, va: addr, level: nat)
    requires level < 3 && base % PAGE == 0
    ensures PteAddr(base, va, level) % 8 == 0
  {
  }

  lemma {:induction false} WalkedAligned(m: Mem, base: nat, level: nat, va: addr)
    requires level < 3 && base % PAGE == 0 && WalkFrom(m, base, level, va).Leaf?
    ensures WalkFrom(m, base, level, va).pteAddr % 8 == 0
    decreases level
  {
    hide IsValid, Xwr, PteAt, PpnBits;
    PteAddrAligned(base, va, level);
    var pte := PteAt(m, PteAddr(base, va, level));
    if !IsLeaf(pte.value) {
      WalkedAligned(m, Ppn(pte.value) * PAGE, level - 1, va);
    }
  }

  // ---------------------------------------------------------------- A/D updates preserve meaning

  /** `q` is `p` with A or D set at most. */
  predicate AdExt(p: bv64, q: bv64)
  {
    Others(p) == Others(q) && (IsAccessed(p) ==> IsAccessed(q)) && (IsDirty(p) ==> IsDirty(q))
  }

  predicate AdExtWord(p: Option<bv64>, q: Option<bv64>)
  {
    p.Some? == q.Some? && (p.Some? ==> AdExt(p.value, q.value))
  }

  /** The fields the walk tests are among the other bits. */
  lemma FieldsFromOthers(p: bv64, q: bv64)
    requires Others(p) == Others(q)
    ensures IsValid(p) == IsValid(q) && Xwr(p) == Xwr(q) && IsUser(p) == IsUser(q) && PpnBits(p) == PpnBits(q)
  {
    hide IsValid, Xwr, IsUser, PpnBits, Others;
    OthersHoldFields(p);
    OthersHoldFields(q);
  }

  lemma OthersHoldFields(p: bv64)
    ensures IsValid(Others(p)) == IsValid(p) && Xwr(Others(p)) == Xwr(p)
    ensures IsUser(Others(p)) == IsUser(p) && PpnBits(Others(p)) == PpnBits(p)
  {
  }

  /** The page-table words a walk reads, from `level` down. */
  function VisitsFrom(m: Mem, base: nat, level: nat, va: addr): (v: set<nat>)
    requires level < 3
    decreases level
  {
    var a := PteAddr(base, va, level);
    var pte := PteAt(m, a);
    if pte.Some? && IsValid(pte.value) && !IsLeaf(pte.value) && level > 0
    then {a} + VisitsFrom(m, Ppn(pte.value) * PAGE, level - 1, va)
    else {a}
  }

  function Visits(m: Mem, c: Ctx, va: addr): set<nat>
  {
    if Paging(c) && c.mode == SV39 && Canonical(va) then VisitsFrom(m, c.root * PAGE, 2, va) else {}
  }

  /** Some word the walk of `va` reads has changed in more than A and D set. */
  predicate Damaged(m: Mem, m': Mem, c: Ctx, va: addr)
  {
    exists a :: a in Visits(m, c, va) && !AdExtWord(PteAt(m, a), PteAt(m', a))
  }

  predicate SameWalk(w: Walked, w': Walked)
  {
    w.Leaf? == w'.Leaf? &&
    (w.Leaf? ==> w.pteAddr == w'.pteAddr && w.level == w'.level && AdExt(w.pte, w'.pte))
  }

  lemma {:induction false} UndamagedWalkFrom(m: Mem, m': Mem, base: nat, level: nat, va: addr)
    requires level < 3
    requires forall a :: a in VisitsFrom(m, base, level, va) ==> AdExtWord(PteAt(m, a), PteAt(m', a))
    ensures SameWalk(WalkFrom(m, base, level, va), WalkFrom(m', base, level, va))
    ensures VisitsFrom(m, base, level, va) == VisitsFrom(m', base, level, va)
    decreases level
  {
    hide IsValid, Xwr, IsUser, PpnBits, PteAt, Others, IsAccessed, IsDirty, PteAddr;
    var a := PteAddr(base, va, level);
    assert a in VisitsFrom(m, base, level, va);
    var pte := PteAt(m, a);
    if pte.Some? {
      FieldsFromOthers(pte.value, PteAt(m', a).value);
      if IsValid(pte.value) && !IsLeaf(pte.value) && level > 0 {
        UndamagedWalkFrom(m, m', Ppn(pte.value) * PAGE, level - 1, va);
      }
    }
  }

  /** What is left undamaged translates as before, for every access type and for every context over the same root. */
  lemma UndamagedXlate(m: Mem, m': Mem, c: Ctx, va: addr, acc: Access)
    requires !Damaged(m, m', c, va)
    ensures Xlate(m, c, va, acc) == Xlate(m', c, va, acc)
    ensures Paging(c) && c.mode == SV39 ==> SameWalk(Walk(m, c, va), Walk(m', c, va))
  {
    hide AdExtWord, AdExt, PteAt, WalkFrom, VisitsFrom, LeafOk, BuildPa;
    if Paging(c) && c.mode == SV39 && Canonical(va) {
      forall a | a in VisitsFrom(m, c.root * PAGE, 2, va) ensures AdExtWord(PteAt(m, a), PteAt(m', a)) {
        assert a in Visits(m, c, va);
      }
      UndamagedWalkFrom(m, m', c.root * PAGE, 2, va);
      var w, w' := Walk(m, c, va), Walk(m', c, va);
      if w.Leaf? {
        SameLeaf(w.pte, w'.pte, w.level, acc, c, va);
      }
    }
  }

  lemma SameLeaf(p: bv64, q: bv64, level: nat, acc: Access, c: Ctx, va: addr)
    requires level < 3 && AdExt(p, q)
    ensures LeafOk(p, level, acc, c) == LeafOk(q, level, acc, c) && BuildPa(p, va, level) == BuildPa(q, va, level)
  {
    hide IsValid, Xwr, IsUser, PpnBits, Others, IsAccessed, IsDirty, Span, Permits, Reserved;
    FieldsFromOthers(p, q);
    SameRights(p, q, acc, c.mxr);
  }

  lemma SameRights(p: bv64, q: bv64, acc: Access, mxr: bool)
    requires Xwr(p) == Xwr(q)
    ensures Permits(p, acc, mxr) == Permits(q, acc, mxr) && Reserved(p) == Reserved(q)
  {
    hide Xwr;
  }

  /** Memories in which every aligned word differs at most by A and D set. */
  ghost predicate AdExtMem(m: Mem, m': Mem)
  {
    forall a :: a % 8 == 0 ==> AdExtWord(PteAt(m, a), PteAt(m', a))
  }

  lemma {:induction false} VisitsAligned(m: Mem, base: nat, level: nat, va: addr)
    requires level < 3 && base % PAGE == 0
    ensures forall a :: a in VisitsFrom(m, base, level, va) ==> a % 8 == 0
    decreases level
  {
    hide IsValid, Xwr, PteAt, PpnBits;
    PteAddrAligned(base, va, level);
    var pte := PteAt(m, PteAddr(base, va, level));
    if pte.Some? && IsValid(pte.value) && !IsLeaf(pte.value) && level > 0 {
      VisitsAligned(m, Ppn(pte.value) * PAGE, level - 1, va);
    }
  }

  lemma AdExtMemUndamaged(m: Mem, m': Mem, c: Ctx, va: addr)
    requires AdExtMem(m, m')
    ensures !Damaged(m, m', c, va)
  {
    hide AdExtWord, VisitsFrom;
    VisitsAligned(m, c.root * PAGE, 2, va);
  }

  lemma UpdateIsAdExt(pte: bv64, acc: Access)
    ensures AdExt(pte, Updated(pte, acc))
  {
    hide IsAccessed, IsDirty, Others;
    SetAccessed(pte);
    SetAccessedDirty(pte);
  }

  lemma AdExtRefl(w: Option<bv64>)
    ensures AdExtWord(w, w)
  {
  }

  /** What one translation writes is one word, with A and D set at most. */
  lemma UpdateIsAdExtMem(m: Mem, c: Ctx, va: addr, acc: Access)
    requires ValidMem(m)
    ensures ValidMem(XlateMem(m, c, va, acc)) && AdExtMem(m, XlateMem(m, c, va, acc))
  {
    hide IsValid, Xwr, IsUser, PpnBits, PteAt, WalkFrom, ValidMem, Poke8, NeedsUpdate, AdExt;
    var m' := XlateMem(m, c, va, acc);
    if m' != m {
      var w := Walk(m, c, va);
      WalkedAligned(m, c.root * PAGE, 2, va);
      PokeValid(m, w.pteAddr, Updated(w.pte, acc));
      UpdateIsAdExt(w.pte, acc);
      forall a | a % 8 == 0 ensures AdExtWord(PteAt(m, a), PteAt(m', a)) {
        AdExtRefl(PteAt(m, a));
        PokePeek(m, w.pteAddr, Updated(w.pte, acc), a);
      }
    } else {
      forall a | a % 8 == 0 ensures AdExtWord(PteAt(m, a), PteAt(m', a)) {
        AdExtRefl(PteAt(m, a));
      }
    }
  }

  /** The leaf a translation uses needs no update: its A is set, and its D too for a write. */
  predicate Settled(m: Mem, c: Ctx, va: addr, acc: Access)
  {
    Paging(c) && c.mode == SV39 ==> Walk(m, c, va).Leaf? && !NeedsUpdate(Walk(m, c, va).pte, acc)
  }

  lemma SettledWritesNothing(m: Mem, c: Ctx, va: addr, acc: Access)
    requires Settled(m, c, va, acc)
    ensures XlateMem(m, c, va, acc) == m
  {
  }

  lemma UndamagedSettled(m: Mem, m': Mem, c: Ctx, va: addr, acc: Access)
    requires !Damaged(m, m', c, va) && Settled(m, c, va, acc)
    ensures Settled(m', c, va, acc)
  {
    hide Xlate, Walk, Damaged, IsAccessed, IsDirty, Others;
    UndamagedXlate(m, m', c, va, acc);
  }

  /** After a translation its own leaf is settled. */
  lemma XlateSettles(m: Mem, c: Ctx, va: addr, acc: Access)
    requires ValidMem(m) && Xlate(m, c, va, acc).Physical?
    ensures Settled(XlateMem(m, c, va, acc), c, va, acc)
  {
    hide WalkFrom, PteAt, Poke8, ValidMem, LeafOk, BuildPa, IsAccessed, IsDirty, Others, VisitsFrom, AdExt;
    if Paging(c) {
      var m', w := XlateMem(m, c, va, acc), Walk(m, c, va);
      UpdateIsAdExtMem(m, c, va, acc);
      AdExtMemUndamaged(m, m', c, va);
      UndamagedXlate(m, m', c, va, acc);
      WalkedAligned(m, c.root * PAGE, 2, va);
      if NeedsUpdate(w.pte, acc) {
        PokePeek(m, w.pteAddr, Updated(w.pte, acc), w.pteAddr);
      }
      UpdateSets(w.pte, acc);
    }
  }

  /**
   * Setting A and D preserves meaning: the write made by one translation changes no result of any other,
   * for any address, access type and context, and repeating the translation writes nothing.
   */
  lemma UpdatePreservesMeaning(m: Mem, c: Ctx, va: addr, acc: Access, c': Ctx, va': addr, acc': Access)
    requires ValidMem(m)
    ensures var m' := XlateMem(m, c, va, acc);
      && Xlate(m', c', va', acc') == Xlate(m, c', va', acc')
      && XlateMem(m', c, va, acc) == m'
  {
    hide WalkFrom, PteAt, Poke8, ValidMem, LeafOk, BuildPa, AdExtMem, Damaged, Settled;
    var m' := XlateMem(m, c, va, acc);
    UpdateIsAdExtMem(m, c, va, acc);
    AdExtMemUndamaged(m, m', c', va');
    UndamagedXlate(m, m', c', va', acc');
    AdExtMemUndamaged(m, m', c, va);
    UndamagedXlate(m, m', c, va, acc);
    if Xlate(m, c, va, acc).Physical? {
      XlateSettles(m, c, va, acc);
      SettledWritesNothing(m', c, va, acc);
    }
  }

  /** Walk atomicity: a fault leaves memory as it was; a success changes at most the eight bytes of its own leaf entry. */
  lemma WalkAtomic(m: Mem, c: Ctx, va: addr, acc: Access)
    requires ValidMem(m)
    ensures var m' := XlateMem(m, c, va, acc);
      && (!Xlate(m, c, va, acc).Physical? ==> m' == m)
      && (m' != m ==>
            var w := Walk(m, c, va); var p := PlaceOf(m, w.pteAddr);
            && w.Leaf? && p.InRam? && PteAt(m', w.pteAddr) == Some(Updated(w.pte, acc))
            && m'.ranges == m.ranges && |m'.ram| == |m.ram|
            && (forall h :: 0 <= h < |m.ram| && h != p.host ==> m'.ram[h] == m.ram[h])
            && |m'.ram[p.host]| == |m.ram[p.host]|
            && (forall o :: 0 <= o < |m.ram[p.host]| && !(p.off <= o < p.off + 8) ==> m'.ram[p.host][o] == m.ram[p.host][o]))
  {
    hide WalkFrom, ValidMem, LeafOk, BuildPa, IsAccessed, IsDirty, Others, Find, Le8, Byte;
    var m' := XlateMem(m, c, va, acc);
    if m' != m {
      var w := Walk(m, c, va);
      WalkedAligned(m, c.root * PAGE, 2, va);
      PokePeek(m, w.pteAddr, Updated(w.pte, acc), w.pteAddr);
    }
  }

  // ---------------------------------------------------------------- a page translates as one

  /** Offsets into superpages in mixed radix. */
  lemma Offset2M(va: addr)
    ensures va % 0x20_0000 == va / 4096 % 512 * 4096 + va % 4096
  {
    assert va / 4096 / 512 == va / 0x20_0000;
  }

  lemma Offset1G(va: addr)
    ensures va % 0x4000_0000 == va / 0x20_0000 % 512 * 0x20_0000 + va % 0x20_0000
    ensures va / 0x20_0000 == va / 4096 / 512
  {
    assert va / 0x20_0000 / 512 == va / 0x4000_0000;
  }

  lemma SamePage(va: addr, vb: addr, level: nat)
    requires level < 3 && va / PAGE == vb / PAGE
    ensures Vpn(va, level) == Vpn(vb, level)
    ensures va % Span(level) - va % PAGE == vb % Span(level) - vb % PAGE
    ensures Canonical(va) == Canonical(vb)
  {
    SamePageCanonical(va, vb);
    if level > 0 {
      Offset2M(va);
      Offset2M(vb);
      Offset1G(va);
      Offset1G(vb);
      assert va / 0x4000_0000 == va / PAGE / 0x4_0000 && vb / 0x4000_0000 == vb / PAGE / 0x4_0000;
    }
  }

  lemma SamePageCanonical(va: addr, vb: addr)
    requires va / PAGE == vb / PAGE
    ensures Canonical(va) == Canonical(vb)
  {
    assert va / PAGE * PAGE == va - va % PAGE && vb / PAGE * PAGE == vb - vb % PAGE;
  }

  lemma {:induction false} SamePageWalk(m: Mem, base: nat, level: nat, va: addr, vb: addr)
    requires level < 3 && va / PAGE == vb / PAGE
    ensures WalkFrom(m, base, level, va) == WalkFrom(m, base, level, vb)
    ensures VisitsFrom(m, base, level, va) == VisitsFrom(m, base, level, vb)
    decreases level
  {
    hide IsValid, Xwr, PteAt, PpnBits, Vpn, Canonical;
    SamePage(va, vb, level);
    var pte := PteAt(m, PteAddr(base, va, level));
    if pte.Some? && level > 0 {
      SamePageWalk(m, base, level - 1, va, vb);
      SamePageWalk(m, Ppn(pte.value) * PAGE, level - 1, va, vb);
    }
  }

  /** The page a translation leads to, or its fault. */
  function PageOf(t: Translation): Translation
  {
    if t.Physical? then Physical(t.pa - t.pa % PAGE) else t
  }

  /** All addresses of a page fault alike, or translate into one physical page at their own offsets, through the same leaf. */
  lemma PageUniform(m: Mem, c: Ctx, va: addr, vb: addr, acc: Access)
    requires va / PAGE == vb / PAGE
    ensures PageOf(Xlate(m, c, va, acc)) == PageOf(Xlate(m, c, vb, acc))
    ensures Xlate(m, c, va, acc).Physical? ==> Xlate(m, c, va, acc).pa % PAGE == va % PAGE
    ensures XlateMem(m, c, va, acc) == XlateMem(m, c, vb, acc)
    ensures Settled(m, c, va, acc) == Settled(m, c, vb, acc)
    ensures Visits(m, c, va) == Visits(m, c, vb)
  {
    hide IsValid, Xwr, IsUser, PpnBits, PteAt, WalkFrom, VisitsFrom, Canonical, NeedsUpdate, Poke8, BuildPa, LeafOk;
    SamePage(va, vb, 0);
    SamePageWalk(m, c.root * PAGE, 2, va, vb);
    var w := Walk(m, c, va);
    assert w == Walk(m, c, vb);
    if w.Leaf? {
      PaInPage(w.pte, va, vb, w.level);
    }
  }

  lemma PaInPage(pte: bv64, va: addr, vb: addr, level: nat)
    requires level < 3 && va / PAGE == vb / PAGE
    ensures BuildPa(pte, va, level) % PAGE == va % PAGE && BuildPa(pte, vb, level) % PAGE == vb % PAGE
    ensures BuildPa(pte, va, level) - va % PAGE == BuildPa(pte, vb, level) - vb % PAGE
  {
    hide PpnBits;
    SamePage(va, vb, level);
    PaOffset(Ppn(pte) * PAGE / Span(level), va, level);
    PaOffset(Ppn(pte) * PAGE / Span(level), vb, level);
  }

  lemma ModShift(x: int, j: int)
    ensures (x + j * 0x1000) % 0x1000 == x % 0x1000
  {
  }

  lemma PaOffset(k: nat, va: addr, level: nat)
    requires level < 3
    ensures (k * Span(level) + va % Span(level)) % PAGE == va % PAGE
  {
    if level == 0 {
      ModShift(va, k - va / 0x1000);
    } else if level == 1 {
      ModShift(va, (k - va / 0x20_0000) * 512);
    } else {
      ModShift(va, (k - va / 0x4000_0000) * 0x4_0000);
    }
  }
}
