/** Stores and loads of any size and alignment, on the uncached machine. */
module DataMemory {
  import opened Words
  import opened PhysMemory
  import opened Pte
  import opened Translate
  import opened Cpu
  import opened CpuInvariant
  import opened CpuRefinement
  import opened FunnelShift
  import U = Uncached

  /** The `k`-th address of a stretch. */
  function Nth(va: addr, k: nat): addr { Wrap(va + k) }

  /** Where an access to a virtual address, a store unless said otherwise, lands. */
  function Target(m: Mem, c: Ctx, va: addr, way: Access := Write): Place
  {
    var t := Xlate(m, c, va, way);
    if t.Physical? then PlaceOf(m, t.pa) else Nowhere
  }

  function At(m: Mem, p: Place): bv8
  {
    if p.InRam? && p.host < |m.ram| && p.off < |m.ram[p.host]| then m.ram[p.host][p.off] else 0
  }

  /** The page-table word at `a` does not contain the byte. */
  predicate Clear(m: Mem, a: nat, p: Place)
  {
    var q := PlaceOf(m, a);
    q.InRam? && p.InRam? ==> p.host != q.host || p.off < q.off || p.off >= q.off + 8
  }

  /** The stretch is RAM the context may write, or read, and no walk of its pages reads a word that holds one of its bytes. */
  ghost predicate Apart(m: Mem, c: Ctx, va: addr, n: nat, way: Access := Write)
  {
    && (forall k :: 0 <= k < n ==> Target(m, c, Nth(va, k), way).InRam?)
    && (forall j, k, a :: 0 <= j < n && 0 <= k < n && a in Visits(m, c, Nth(va, j)) ==> Clear(m, a, Target(m, c, Nth(va, k), way)))
  }

  /** Nothing the walks of the stretch depend on has changed. */
  ghost predicate Kept(m: Mem, m': Mem, c: Ctx, va: addr, n: nat)
  {
    && ValidMem(m') && SameShape(m, m')
    && (forall j :: 0 <= j < n ==> !Damaged(m, m', c, Nth(va, j)))
  }

  /** A byte of the leaf entry that translates the page. */
  predicate LeafByte(m: Mem, c: Ctx, va: addr, h: nat, o: nat)
  {
    var w := Walk(m, c, va);
    && w.Leaf? && PlaceOf(m, w.pteAddr).InRam? && PlaceOf(m, w.pteAddr).host == h
    && PlaceOf(m, w.pteAddr).off <= o < PlaceOf(m, w.pteAddr).off + 8
  }

  // ---------------------------------------------------------------- what a translation keeps

  lemma AdExtTrans(p: Option<bv64>, q: Option<bv64>, r: Option<bv64>)
    requires AdExtWord(p, q) && AdExtWord(q, r)
    ensures AdExtWord(p, r)
  {
    hide Others, IsAccessed, IsDirty;
  }

  lemma UndamagedVisits(m: Mem, m': Mem, c: Ctx, va: addr)
    requires !Damaged(m, m', c, va)
    ensures Visits(m, c, va) == Visits(m', c, va)
  {
    hide AdExtWord, VisitsFrom;
    if Paging(c) && c.mode == SV39 && Canonical(va) {
      forall a | a in VisitsFrom(m, c.root * PAGE, 2, va) ensures AdExtWord(PteAt(m, a), PteAt(m', a)) {
        assert a in Visits(m, c, va);
      }
      UndamagedWalkFrom(m, m', c.root * PAGE, 2, va);
    }
  }

  lemma UndamagedTrans(m: Mem, m1: Mem, m2: Mem, c: Ctx, va: addr)
    requires !Damaged(m, m1, c, va) && !Damaged(m1, m2, c, va)
    ensures !Damaged(m, m2, c, va)
  {
    hide Visits, AdExtWord, PteAt;
    UndamagedVisits(m, m1, c, va);
    forall a | a in Visits(m, c, va) ensures AdExtWord(PteAt(m, a), PteAt(m2, a)) {
      AdExtTrans(PteAt(m, a), PteAt(m1, a), PteAt(m2, a));
    }
  }

  lemma {:induction false} LeafVisited(m: Mem, base: nat, level: nat, va: addr)
    requires level < 3 && WalkFrom(m, base, level, va).Leaf?
    ensures WalkFrom(m, base, level, va).pteAddr in VisitsFrom(m, base, level, va)
    decreases level
  {
    hide IsValid, Xwr, PteAt, PpnBits, PteAddr;
    var pte := PteAt(m, PteAddr(base, va, level));
    if !IsLeaf(pte.value) {
      LeafVisited(m, Ppn(pte.value) * PAGE, level - 1, va);
    }
  }

  /** The stretch's addresses translate as they did. */
  lemma KeptTarget(m: Mem, m': Mem, c: Ctx, va: addr, n: nat, j: nat, acc: Access, way: Access := Write)
    requires Kept(m, m', c, va, n) && j < n
    ensures Xlate(m', c, Nth(va, j), acc) == Xlate(m, c, Nth(va, j), acc)
    ensures Target(m', c, Nth(va, j), way) == Target(m, c, Nth(va, j), way)
    ensures forall a :: PlaceOf(m', a) == PlaceOf(m, a)
  {
    hide Xlate, Damaged, PlaceOf, ValidMem;
    UndamagedXlate(m, m', c, Nth(va, j), acc);
    UndamagedXlate(m, m', c, Nth(va, j), way);
    forall a ensures PlaceOf(m', a) == PlaceOf(m, a) {
      SamePlaces(m, m', a);
    }
  }

  /** A further translation of the stretch keeps what its walks depend on and its own bytes, and writes its own leaf only. */
  lemma XlateKeeps(m: Mem, m': Mem, c: Ctx, va: addr, n: nat, j: nat, acc: Access, way: Access := Write)
    requires ValidMem(m) && Apart(m, c, va, n, way) && Kept(m, m', c, va, n) && j < n
    ensures var m2 := XlateMem(m', c, Nth(va, j), acc);
      && Kept(m, m2, c, va, n)
      && (forall k :: 0 <= k < n ==> At(m2, Target(m, c, Nth(va, k), way)) == At(m', Target(m, c, Nth(va, k), way)))
      && (forall h, o :: 0 <= h < |m.ram| && 0 <= o < |m.ram[h]| && m2.ram[h][o] != m'.ram[h][o] ==> LeafByte(m, c, Nth(va, j), h, o))
  {
    hide ValidMem, XlateMem, Damaged, Xlate, AdExtMem, WalkFrom, VisitsFrom, PlaceOf, Canonical, PteAt, AdExt;
    var a := Nth(va, j);
    var m2 := XlateMem(m', c, a, acc);
    XlateShape(m', c, a, acc);
    UpdateIsAdExtMem(m', c, a, acc);
    forall i | 0 <= i < n ensures !Damaged(m, m2, c, Nth(va, i)) {
      AdExtMemUndamaged(m', m2, c, Nth(va, i));
      UndamagedTrans(m, m', m2, c, Nth(va, i));
    }
    WalkAtomic(m', c, a, acc);
    if m2 != m' {
      WritesOnlyPaging(m', c, a, acc);
      UndamagedXlate(m, m', c, a, acc);
      KeptTarget(m, m', c, va, n, j, acc);
      var w := Walk(m, c, a);
      LeafVisited(m, c.root * PAGE, 2, a);
      assert w.pteAddr in Visits(m, c, a);
      forall k | 0 <= k < n ensures At(m2, Target(m, c, Nth(va, k), way)) == At(m', Target(m, c, Nth(va, k), way)) {
        assert Clear(m, w.pteAddr, Target(m, c, Nth(va, k), way));
      }
    }
  }

  lemma WritesOnlyPaging(m: Mem, c: Ctx, va: addr, acc: Access)
    ensures XlateMem(m, c, va, acc) != m ==> Paging(c) && c.mode == SV39 && Canonical(va)
  {
    hide WalkFrom, NeedsUpdate, Poke8, LeafOk, BuildPa;
  }

  // ---------------------------------------------------------------- bytes of one aligned chunk

  /** Addresses `i` to `i + sz - 1` of the stretch land side by side. */
  ghost predicate Chunk(m: Mem, c: Ctx, va: addr, i: nat, sz: nat, host: nat, off: nat)
  {
    forall l :: i <= l < i + sz ==> Target(m, c, Nth(va, l)) == InRam(host, off + (l - i))
  }

  lemma AlignedChunk(m: Mem, c: Ctx, va: addr, i: nat, sz: nat)
    requires ValidMem(m) && IsSize(sz) && Nth(va, i) % sz == 0 && Target(m, c, Nth(va, i)).InRam?
    ensures var p := Target(m, c, Nth(va, i)); Chunk(m, c, va, i, sz, p.host, p.off)
  {
    hide ValidMem, Xlate, PlaceOf;
    var a := Nth(va, i);
    var p := Target(m, c, a);
    AlignedInPage(a, sz);
    forall l | i <= l < i + sz ensures Target(m, c, Nth(va, l)) == InRam(p.host, p.off + (l - i)) {
      NthInPage(va, i, l - i);
      WholePage(m, c, a, Write, Nth(va, l));
    }
  }

  lemma NthInPage(va: addr, i: nat, k: nat)
    requires Nth(va, i) % PAGE + k < PAGE
    ensures Nth(va, i + k) == Nth(va, i) + k && Nth(va, i + k) / PAGE == Nth(va, i) / PAGE
    ensures Nth(va, i + k) % PAGE == Nth(va, i) % PAGE + k
  {
    var a := Nth(va, i);
    var q, r := a / PAGE, a % PAGE;
    assert a == PAGE * q + r && q <= SPACE / PAGE - 1;
    assert a + k < SPACE;
    assert (va + i + k) % SPACE == ((va + i) % SPACE + k) % SPACE;
    SamePageAs(q, r, k);
  }

  lemma SamePageAs(q: nat, r: nat, k: nat)
    requires r + k < PAGE
    ensures (PAGE * q + r + k) / PAGE == q && (PAGE * q + r + k) % PAGE == r + k
  {
  }

  /** Different addresses of a stretch land on different bytes. */
  lemma TargetsDistinct(m: Mem, c: Ctx, va: addr, j: nat, k: nat)
    requires ValidMem(m) && j < 8 && k < 8 && j != k
    requires Target(m, c, Nth(va, j)).InRam? && Target(m, c, Nth(va, k)).InRam?
    ensures Target(m, c, Nth(va, j)) != Target(m, c, Nth(va, k))
  {
    hide ValidMem, Xlate, PlaceOf;
    TargetOffset(m, c, Nth(va, j));
    TargetOffset(m, c, Nth(va, k));
    OffsetsDiffer(va, j, k);
  }

  lemma TargetOffset(m: Mem, c: Ctx, va: addr)
    requires ValidMem(m) && Target(m, c, va).InRam?
    ensures Target(m, c, va).off % PAGE == va % PAGE
    ensures var p := Target(m, c, va); p.host < |m.ram| && p.off < |m.ram[p.host]|
    ensures var p := Target(m, c, va); Backed(m, p.host, p.off - va % PAGE)
  {
    hide ValidMem, Xlate, PlaceOf;
    WholePage(m, c, va, Write, va);
    PlaceBounds(m, Xlate(m, c, va, Write).pa);
  }

  lemma OffsetsDiffer(va: addr, j: nat, k: nat)
    requires j < 8 && k < 8 && j != k
    ensures Nth(va, j) % PAGE != Nth(va, k) % PAGE
  {
    WrapOffset(va, j);
    WrapOffset(va, k);
    var r := va % PAGE;
    Shifted(va / PAGE, r, j);
    Shifted(va / PAGE, r, k);
  }

  lemma WrapOffset(va: addr, j: nat)
    requires j < 8
    ensures Nth(va, j) % PAGE == (va + j) % PAGE
  {
    if va + j >= SPACE {
      assert Nth(va, j) == va + j - SPACE;
      assert va + j == Nth(va, j) + PAGE * (SPACE / PAGE);
    }
  }

  lemma Shifted(q: nat, r: nat, j: nat)
    requires r < PAGE && j < 8
    ensures (q * PAGE + r + j) % PAGE == if r + j < PAGE then r + j else r + j - PAGE
  {
    if r + j >= PAGE {
      SamePageAs(q + 1, 0, r + j - PAGE);
    } else {
      SamePageAs(q, r, j);
    }
  }

  // ---------------------------------------------------------------- storing a chunk

  /** Bytes written clear of a page-table word leave it as it was. */
  lemma WordUntouched(m: Mem, host: nat, off: nat, b: seq<bv8>, a: nat)
    requires ValidMem(m) && InBounds(m, host, off, |b|)
    requires forall o :: off <= o < off + |b| ==> Clear(m, a, InRam(host, o))
    ensures PteAt(PokeBytes(m, host, off, b), a) == PteAt(m, a)
  {
    hide ValidMem, PlaceOf, Le8;
    var m' := PokeBytes(m, host, off, b);
    SamePlaces(m, m', a);
    var q := PlaceOf(m, a);
    if q.InRam? && q.host == host && q.off + 8 <= |m.ram[host]| {
      forall o | off <= o < off + |b|
        ensures m'.ram[host][o] == b[o - off] && (o < q.off || o >= q.off + 8)
      {
        assert Clear(m, a, InRam(host, o));
      }
      SameWord(m'.ram[host], m.ram[host], q.off);
    }
  }

  lemma SameWord(s: seq<bv8>, s': seq<bv8>, o: nat)
    requires o + 8 <= |s| && o + 8 <= |s'| && forall k :: o <= k < o + 8 ==> s[k] == s'[k]
    ensures Le8(s, o) == Le8(s', o)
  {
    hide Le8;
    assert ReadLe(s, o, 8) == Le8(s, o) && ReadLe(s', o, 8) == Le8(s', o);
    ReadSame(s, o, s', o, 8);
  }

  /** Storing a chunk of the stretch: its bytes arrive, the others stay, and so does everything the walks read. */
  lemma PokeKeeps(m: Mem, m': Mem, c: Ctx, va: addr, n: nat, i: nat, host: nat, off: nat, b: seq<bv8>)
    requires ValidMem(m) && Apart(m, c, va, n) && Kept(m, m', c, va, n) && n <= 8 && i + |b| <= n && |b| > 0
    requires Chunk(m, c, va, i, |b|, host, off) && InBounds(m, host, off, |b|)
    ensures var m2 := PokeBytes(m', host, off, b);
      && Kept(m, m2, c, va, n)
      && (forall k :: 0 <= k < n ==>
            (At(m2, Target(m, c, Nth(va, k))) == (if i <= k < i + |b| then b[k - i] else At(m', Target(m, c, Nth(va, k))))))
      && (forall h, o :: 0 <= h < |m.ram| && 0 <= o < |m.ram[h]| && m2.ram[h][o] != m'.ram[h][o] ==>
            exists k :: 0 <= k < n && Target(m, c, Nth(va, k)) == InRam(h, o))
  {
    hide ValidMem, Damaged, Target, PlaceOf, PteAt, AdExt, Xlate;
    var m2 := PokeBytes(m', host, off, b);
    SameShapeValid(m', m2);
    forall j | 0 <= j < n ensures !Damaged(m, m2, c, Nth(va, j)) {
      PokeUndamaged(m, m', c, va, n, i, j, host, off, b);
      UndamagedTrans(m, m', m2, c, Nth(va, j));
    }
    forall k | 0 <= k < n
      ensures At(m2, Target(m, c, Nth(va, k))) == if i <= k < i + |b| then b[k - i] else At(m', Target(m, c, Nth(va, k)))
    {
      if i <= k < i + |b| {
        assert Target(m, c, Nth(va, k)) == InRam(host, off + (k - i));
      } else {
        var p := Target(m, c, Nth(va, k));
        if p.host == host && off <= p.off < off + |b| {
          var l := i + (p.off - off);
          assert Target(m, c, Nth(va, l)) == InRam(host, off + (l - i));
          TargetsDistinct(m, c, va, k, l);
          assert false;
        }
        PokedElsewhere(m', host, off, b, p);
      }
    }
    forall h, o | 0 <= h < |m.ram| && 0 <= o < |m.ram[h]| && m2.ram[h][o] != m'.ram[h][o]
      ensures exists k :: 0 <= k < n && Target(m, c, Nth(va, k)) == InRam(h, o)
    {
      assert h == host && off <= o < off + |b|;
      assert Target(m, c, Nth(va, i + (o - off))) == InRam(host, off + (i + (o - off) - i));
    }
  }

  lemma PokedElsewhere(m: Mem, host: nat, off: nat, b: seq<bv8>, p: Place)
    requires InBounds(m, host, off, |b|) && p.InRam? && (p.host != host || p.off < off || p.off >= off + |b|)
    ensures At(PokeBytes(m, host, off, b), p) == At(m, p)
  {
  }

  lemma PokeUndamaged(m: Mem, m': Mem, c: Ctx, va: addr, n: nat, i: nat, j: nat, host: nat, off: nat, b: seq<bv8>)
    requires ValidMem(m) && Apart(m, c, va, n) && Kept(m, m', c, va, n) && j < n && i + |b| <= n
    requires Chunk(m, c, va, i, |b|, host, off) && InBounds(m, host, off, |b|)
    ensures !Damaged(m', PokeBytes(m', host, off, b), c, Nth(va, j))
  {
    hide ValidMem, Visits, Target, PlaceOf, PteAt, AdExtWord;
    UndamagedVisits(m, m', c, Nth(va, j));
    KeptTarget(m, m', c, va, n, j, Read);
    forall a | a in Visits(m', c, Nth(va, j)) ensures AdExtWord(PteAt(m', a), PteAt(PokeBytes(m', host, off, b), a)) {
      forall o | off <= o < off + |b| ensures Clear(m', a, InRam(host, o)) {
        var l := i + (o - off);
        assert Target(m, c, Nth(va, l)) == InRam(host, off + (l - i));
        assert Clear(m, a, Target(m, c, Nth(va, l)));
      }
      WordUntouched(m', host, off, b, a);
      AdExtRefl(PteAt(m', a));
    }
  }

  // ---------------------------------------------------------------- stores

  /** Only the stretch's bytes and the leaf entries of its own pages differ. */
  ghost predicate Only(m: Mem, m': Mem, c: Ctx, va: addr, n: nat)
  {
    && SameShape(m, m')
    && forall h, o :: 0 <= h < |m.ram| && 0 <= o < |m.ram[h]| && m'.ram[h][o] != m.ram[h][o] ==>
         exists k :: 0 <= k < n && (Target(m, c, Nth(va, k)) == InRam(h, o) || LeafByte(m, c, Nth(va, k), h, o))
  }

  /** The first `i` bytes of the stretch hold the value's. */
  ghost predicate Written(m: Mem, m': Mem, c: Ctx, va: addr, i: nat, v: bv64)
  {
    forall k :: 0 <= k < i ==> At(m', Target(m, c, Nth(va, k))) == Byte(v, k)
  }

  lemma OnlyTrans(m: Mem, m1: Mem, m2: Mem, c: Ctx, va: addr, n: nat)
    requires Only(m, m1, c, va, n) && SameShape(m1, m2)
    requires forall h, o :: 0 <= h < |m.ram| && 0 <= o < |m.ram[h]| && m2.ram[h][o] != m1.ram[h][o] ==>
      exists k :: 0 <= k < n && (Target(m, c, Nth(va, k)) == InRam(h, o) || LeafByte(m, c, Nth(va, k), h, o))
    ensures Only(m, m2, c, va, n)
  {
    hide Target, LeafByte;
    forall h, o | 0 <= h < |m.ram| && 0 <= o < |m.ram[h]| && m2.ram[h][o] != m.ram[h][o]
      ensures exists k :: 0 <= k < n && (Target(m, c, Nth(va, k)) == InRam(h, o) || LeafByte(m, c, Nth(va, k), h, o))
    {
      assert m2.ram[h][o] != m1.ram[h][o] || m1.ram[h][o] != m.ram[h][o];
    }
  }

  /** One aligned piece of a store. */
  lemma PieceStored(m: Mem, m': Mem, c: Ctx, va: addr, n: nat, i: nat, sz: nat, x: bv64)
    requires ValidMem(m) && Apart(m, c, va, n) && Kept(m, m', c, va, n) && Only(m, m', c, va, n) && n <= 8
    requires IsSize(sz) && i + sz <= n && Nth(va, i) % sz == 0
    ensures var (m2, o) := U.StoreAligned(m', c, Nth(va, i), sz, x);
      && o == Done(0) && Kept(m, m2, c, va, n) && Only(m, m2, c, va, n)
      && (forall k :: 0 <= k < n ==>
            (At(m2, Target(m, c, Nth(va, k))) == (if i <= k < i + sz then BytesOf(x, sz)[k - i] else At(m', Target(m, c, Nth(va, k))))))
  {
    hide ValidMem, XlateMem, PlaceOf, Damaged, LeafByte, BytesOf, Byte, At, PokeBytes, Clear, Visits;
    var a := Nth(va, i);
    KeptTarget(m, m', c, va, n, i, Write);
    XlateKeeps(m, m', c, va, n, i, Write);
    var m1 := XlateMem(m', c, a, Write);
    var p := Target(m, c, a);
    assert p.InRam?;
    XlateShape(m', c, a, Write);
    SamePlaces(m', m1, Xlate(m', c, a, Write).pa);
    AlignedChunk(m, c, va, i, sz);
    TargetOffset(m, c, a);
    AlignedInPage(a, sz);
    PokeKeeps(m, m1, c, va, n, i, p.host, p.off, BytesOf(x, sz));
    OnlyTrans(m, m', m1, c, va, n);
    OnlyTrans(m, m1, PokeBytes(m1, p.host, p.off, BytesOf(x, sz)), c, va, n);
  }

  lemma SingleByte(v: bv64, i: nat)
    ensures BytesOf(ByteValue(v, i), 1)[0] == Byte(v, i)
  {
    hide Byte;
    LowByte(Byte(v, i));
  }

  lemma LowByte(b: bv8)
    ensures Byte(b as bv64, 0) == b
  {
  }

  lemma {:induction false} BytesStored(m: Mem, m': Mem, c: Ctx, va: addr, i: nat, n: nat, v: bv64)
    requires ValidMem(m) && Apart(m, c, va, n) && Kept(m, m', c, va, n) && Only(m, m', c, va, n) && i <= n <= 8
    requires Written(m, m', c, va, i, v)
    ensures var (m2, o) := U.StoreBytes(m', c, va, i, n, v);
      o == Done(0) && Kept(m, m2, c, va, n) && Only(m, m2, c, va, n) && Written(m, m2, c, va, n, v)
    decreases n - i
  {
    hide ValidMem, Apart, Kept, Only, U.StoreAligned, At, Target, BytesOf, ByteValue;
    if i < n {
      PieceStored(m, m', c, va, n, i, 1, ByteValue(v, i));
      SingleByte(v, i);
      BytesStored(m, U.StoreAligned(m', c, Nth(va, i), 1, ByteValue(v, i)).0, c, va, i + 1, n, v);
    }
  }

  lemma KeptRefl(m: Mem, c: Ctx, va: addr, n: nat)
    requires ValidMem(m)
    ensures Kept(m, m, c, va, n) && Only(m, m, c, va, n)
  {
    hide ValidMem, Visits, PteAt, AdExtWord;
    forall a: nat ensures AdExtWord(PteAt(m, a), PteAt(m, a)) {
      AdExtRefl(PteAt(m, a));
    }
  }

  /** A store of any size and alignment: its bytes arrive, and nothing else changes but the leaf entries it went through. */
  lemma StoreWrites(m: Mem, c: Ctx, va: addr, n: nat, v: bv64)
    requires ValidMem(m) && IsSize(n) && Apart(m, c, va, n)
    ensures var (m2, o) := U.Store(m, c, va, n, v);
      o == Done(0) && Kept(m, m2, c, va, n) && Only(m, m2, c, va, n) && Written(m, m2, c, va, n, v)
  {
    hide ValidMem, Apart, Kept, Only, U.StoreAligned, U.StoreBytes, At, Target, Byte;
    KeptRefl(m, c, va, n);
    if va % n == 0 {
      assert Nth(va, 0) == va;
      PieceStored(m, m, c, va, n, 0, n, v);
    } else {
      BytesStored(m, m, c, va, 0, n, v);
    }
  }

  /** A store that faults at byte `k` has done exactly what the store of the bytes before it does, and that byte does not translate. */
  lemma {:induction false} FaultingStore(m: Mem, c: Ctx, va: addr, i: nat, n: nat, v: bv64) returns (k: nat)
    requires i <= n && !U.StoreBytes(m, c, va, i, n, v).1.Done?
    ensures i <= k < n
    ensures U.StoreBytes(m, c, va, i, k, v) == (U.StoreBytes(m, c, va, i, n, v).0, Done(0))
    ensures var m1 := U.StoreBytes(m, c, va, i, n, v).0;
      !Xlate(m1, c, Nth(va, k), Write).Physical? &&
      U.StoreBytes(m, c, va, i, n, v).1 == FaultOf(Xlate(m1, c, Nth(va, k), Write), Write, Nth(va, k))
    decreases n - i
  {
    hide Xlate, XlateMem, PlaceOf, PokeBytes, ByteValue;
    var r := U.StoreAligned(m, c, Nth(va, i), 1, ByteValue(v, i));
    if r.1.Done? {
      k := FaultingStore(r.0, c, va, i + 1, n, v);
    } else {
      k := i;
    }
  }

  // ---------------------------------------------------------------- loads

  lemma StorableBits(pte: bv64, mxr: bool)
    ensures !Reserved(pte) && Permits(pte, Write, mxr) ==> Permits(pte, Read, mxr)
  {
    var x := Xwr(pte);
    XwrBits(x, x >> 2);
  }

  lemma XwrBits(x: bv64, y: bv64)
    ensures x & 7 == x && y == x >> 2 && x != 2 && x != 6 && ((x | y) & 7) & 2 != 0 ==> ((x | y) & 7) & 1 != 0
    ensures x & 7 == x && x != 2 && x != 6 && x & 2 != 0 ==> x & 1 != 0
  {
  }

  /** No leaf can be written and not read. */
  lemma WriteImpliesRead(m: Mem, c: Ctx, va: addr)
    requires Xlate(m, c, va, Write).Physical?
    ensures Xlate(m, c, va, Read) == Xlate(m, c, va, Write)
  {
    hide WalkFrom, Permits, Reserved, PrivilegeOk, Aligned, BuildPa;
    var w := Walk(m, c, va);
    if w.Leaf? {
      StorableBits(w.pte, c.mxr);
    }
  }

  lemma ByteOfRead(s: seq<bv8>, o: nat, n: nat, i: nat)
    requires IsSize(n) && o + n <= |s| && i < n
    ensures Byte(ReadLe(s, o, n), i) == s[o + i]
  {
    hide Byte, Le2, Le4, Le8;
    if n == 8 {
      ByteOfLe8(s, o, i);
    } else if n == 4 {
      FourBytes(s[o], s[o + 1], s[o + 2], s[o + 3]);
      Le4IsFour(s, o);
    } else if n == 2 {
      FourBytes(s[o], s[o + 1], 0, 0);
      Le2IsTwo(s, o);
    } else {
      LowByte(s[o]);
    }
  }

  function Four(a: bv8, b: bv8, c: bv8, d: bv8): bv64 { Halves(Pair(a, b), Pair(c, d)) }

  lemma FourBytes(a: bv8, b: bv8, c: bv8, d: bv8)
    ensures var v := Four(a, b, c, d); Byte(v, 0) == a && Byte(v, 1) == b && Byte(v, 2) == c && Byte(v, 3) == d
  {
  }

  lemma Le4IsFour(s: seq<bv8>, o: nat)
    requires o + 4 <= |s|
    ensures Le4(s, o) == Four(s[o], s[o + 1], s[o + 2], s[o + 3])
  {
    hide Halves, Pair;
    assert s[o + 2 + 1] == s[o + 3];
  }

  lemma Le2IsTwo(s: seq<bv8>, o: nat)
    requires o + 2 <= |s|
    ensures Le2(s, o) == Four(s[o], s[o + 1], 0, 0)
  {
    hide Halves, Pair;
    HighZero(Pair(s[o], s[o + 1]));
  }

  lemma HighZero(low: bv64)
    ensures Halves(low, Pair(0, 0)) == low
  {
  }

  lemma SmallByte(b: bv8)
    ensures (b as bv64) & 0xFF == b as bv64
  {
  }

  /** One aligned piece of a load, in the page of some address of the stretch. */
  lemma PieceLoaded(m: Mem, m': Mem, c: Ctx, w: World, va: addr, n: nat, a: addr, sz: nat, j: nat, way: Access := Write)
    requires way != Fetch && ValidMem(m) && Apart(m, c, va, n, way) && Kept(m, m', c, va, n) && j < n <= 8
    requires IsSize(sz) && a % sz == 0 && a / PAGE == Nth(va, j) / PAGE
    ensures var (m2, o) := U.LoadAligned(m', c, w, a, sz);
      && o.Done? && Kept(m, m2, c, va, n) && (sz == 1 ==> IsByte(o.v)) && Tidy(o.v, sz)
      && (forall k :: 0 <= k < n ==> At(m2, Target(m, c, Nth(va, k), way)) == At(m', Target(m, c, Nth(va, k), way)))
      && (forall k, i :: 0 <= k < n && 0 <= i < sz && Nth(va, k) == a + i ==> Byte(o.v, i) == At(m', Target(m, c, Nth(va, k), way)))
  {
    hide ValidMem, XlateMem, PlaceOf, Xlate, Damaged, LeafByte, Byte, Clear, Visits, ReadLe, Settled, IsByte;
    var x := Nth(va, j);
    KeptTarget(m, m', c, va, n, j, Write, way);
    WholePage(m', c, x, way, a);
    if way == Write {
      WriteImpliesRead(m', c, a);
    }
    PageUniform(m', c, x, a, Read);
    XlateKeeps(m, m', c, va, n, j, Read, way);
    var m1 := XlateMem(m', c, a, Read);
    XlateShape(m', c, a, Read);
    SamePlaces(m', m1, Xlate(m', c, a, Read).pa);
    var p := PlaceOf(m1, Xlate(m', c, a, Read).pa);
    AlignedInPage(a, sz);
    assert InBounds(m1, p.host, p.off, sz);
    if sz == 1 {
      OneByte(m1, p.host, p.off);
    }
    PeekTidy(m1, p.host, p.off, sz);
    forall k, i | 0 <= k < n && 0 <= i < sz && Nth(va, k) == a + i
      ensures Byte(ReadLe(m1.ram[p.host], p.off, sz), i) == At(m', Target(m, c, Nth(va, k), way))
    {
      ByteOfRead(m1.ram[p.host], p.off, sz, i);
      InSamePage(a, i);
      KeptTarget(m, m', c, va, n, k, Write, way);
      WholePage(m', c, a, way, Nth(va, k));
    }
  }

  /** A byte or a halfword comes with nothing above it; the top of an unaligned word may be anything. */
  predicate Tidy(v: bv64, n: nat) { (n == 1 ==> v <= 0xFF) && (n == 2 ==> v <= 0xFFFF) }

  lemma PeekTidy(m: Mem, host: nat, off: nat, n: nat)
    requires IsSize(n) && InBounds(m, host, off, n)
    ensures Tidy(Peek(m, host, off, n), n)
  {
    if n == 2 {
      PairTidy(m.ram[host][off], m.ram[host][off + 1]);
    } else if n == 1 {
      ByteTidy(m.ram[host][off]);
    }
  }

  lemma PairTidy(a: bv8, b: bv8)
    ensures Pair(a, b) <= 0xFFFF
  {
  }

  lemma ByteTidy(a: bv8)
    ensures a as bv64 <= 0xFF
  {
  }

  lemma TwoBytesTidy(v0: bv64, v1: bv64)
    requires v0 <= 0xFF && v1 <= 0xFF
    ensures TwoBytes(v0, v1) <= 0xFFFF
  {
  }

  lemma OneByte(m: Mem, host: nat, off: nat)
    requires InBounds(m, host, off, 1)
    ensures IsByte(Peek(m, host, off, 1))
  {
    SmallByte(m.ram[host][off]);
  }

  lemma InSamePage(a: addr, i: nat)
    requires a % PAGE + i < PAGE && a + i < SPACE
    ensures (a + i) / PAGE == a / PAGE && (a + i) % PAGE == a % PAGE + i
  {
    SamePageAs(a / PAGE, a % PAGE, i);
  }

  // ---------------------------------------------------------------- loads of any alignment

  /** The value's bytes are those of the stretch. */
  ghost predicate Matches(m: Mem, m': Mem, c: Ctx, va: addr, n: nat, x: bv64, way: Access := Write)
  {
    forall k :: 0 <= k < n ==> Byte(x, k) == At(m', Target(m, c, Nth(va, k), way))
  }

  lemma AlignedLoaded(m: Mem, m': Mem, c: Ctx, w: World, va: addr, n: nat, way: Access := Write)
    requires way != Fetch && ValidMem(m) && Apart(m, c, va, n, way) && Kept(m, m', c, va, n) && IsSize(n) && va % n == 0
    ensures var (m2, o) := U.LoadAligned(m', c, w, va, n);
      o.Done? && Kept(m, m2, c, va, n) && Matches(m, m', c, va, n, o.v, way) && Tidy(o.v, n)
  {
    hide ValidMem, Apart, Kept, U.LoadAligned, At, Target, Byte;
    assert Nth(va, 0) == va;
    PieceLoaded(m, m', c, w, va, n, va, n, 0, way);
    AlignedInPage(va, n);
    var x := U.LoadAligned(m', c, w, va, n).1.v;
    forall k | 0 <= k < n ensures Byte(x, k) == At(m', Target(m, c, Nth(va, k), way)) {
      NthInPage(va, 0, k);
    }
  }

  lemma HalfwordLoaded(m: Mem, m': Mem, c: Ctx, w: World, va: addr, way: Access := Write)
    requires way != Fetch && ValidMem(m) && Apart(m, c, va, 2, way) && Kept(m, m', c, va, 2) && va % 2 != 0
    ensures var (m2, o) := U.Load(m', c, w, va, 2);
      o.Done? && Kept(m, m2, c, va, 2) && Matches(m, m', c, va, 2, o.v, way) && Tidy(o.v, 2)
  {
    hide ValidMem, Apart, Kept, U.LoadAligned, At, Target, Byte, IsByte, TwoBytes;
    assert Nth(va, 0) == va && Nth(va, 1) == Wrap(va + 1);
    PieceLoaded(m, m', c, w, va, 2, va, 1, 0, way);
    var (m1, r1) := U.LoadAligned(m', c, w, va, 1);
    PieceLoaded(m, m1, c, w, va, 2, Nth(va, 1), 1, 1, way);
    var (m2, r2) := U.LoadAligned(m1, c, w, Nth(va, 1), 1);
    assert Nth(va, 0) == va + 0;
    assert Nth(va, 1) == Nth(va, 1) + 0;
    Join2Bytes(r1.v, r2.v);
    TwoBytesTidy(r1.v, r2.v);
  }

  /** Where the two aligned words of an unaligned access lie. */
  lemma WordPages(va: addr, n: nat)
    requires (n == 4 || n == 8) && va % n != 0
    ensures var al := va % n; var first, second := va - al, Wrap(va - al + n);
      && 0 <= first && first % n == 0 && second % n == 0
      && first / PAGE == Nth(va, 0) / PAGE && second / PAGE == Nth(va, n - 1) / PAGE
  {
    var al := va % n;
    var first := va - al;
    Remultiple(va, n);
    InBlock(first, n, al);
    NthInWords(va, n, n - 1);
    InBlock(Wrap(first + n), n, al - 1);
  }

  /** Which byte of which word each byte of the stretch is. */
  lemma NthInWords(va: addr, n: nat, k: nat)
    requires (n == 4 || n == 8) && k < n
    ensures var al := va % n; var first, second := va - al, Wrap(va - al + n);
      Nth(va, k) == if k < n - al then first + (al + k) else second + (k - (n - al))
  {
    Remultiple(va, n);
    var al := va % n;
    if k < n - al {
      assert va + k < SPACE;
    } else if va - al + n == SPACE {
      assert va + k == SPACE + (k - (n - al));
    } else {
      assert va - al + n + n <= SPACE by {
        Remultiple(va - al + n, n);
      }
    }
  }

  lemma InBlock(a: addr, n: nat, k: nat)
    requires (n == 4 || n == 8) && a % n == 0 && k < n
    ensures (a + k) / PAGE == a / PAGE
  {
    AlignedInPage(a, n);
    SamePageAs(a / PAGE, a % PAGE, k);
  }

  lemma WordLoaded(m: Mem, m': Mem, c: Ctx, w: World, va: addr, n: nat, way: Access := Write)
    requires way != Fetch && ValidMem(m) && Apart(m, c, va, n, way) && Kept(m, m', c, va, n) && (n == 4 || n == 8) && va % n != 0
    ensures var (m2, o) := U.Load(m', c, w, va, n);
      o.Done? && Kept(m, m2, c, va, n) && Matches(m, m', c, va, n, o.v, way) && Tidy(o.v, n)
  {
    hide ValidMem, Apart, Kept, U.LoadAligned, At, Target, Byte, Join;
    var al := va % n;
    var first, second := va - al, Wrap(va - al + n);
    WordPages(va, n);
    PieceLoaded(m, m', c, w, va, n, first, n, 0, way);
    var (m1, r1) := U.LoadAligned(m', c, w, first, n);
    PieceLoaded(m, m1, c, w, va, n, second, n, n - 1, way);
    var (m2, r2) := U.LoadAligned(m1, c, w, second, n);
    forall k | 0 <= k < n ensures Byte(Join(n, al, r1.v, r2.v), k) == At(m', Target(m, c, Nth(va, k), way)) {
      JoinBytes(n, al, r1.v, r2.v, k);
      NthInWords(va, n, k);
    }
  }

  /** A load of any size and alignment yields the bytes of its stretch, lowest first; it is enough that the context may read it. */
  lemma LoadReads(m: Mem, m': Mem, c: Ctx, w: World, va: addr, n: nat, way: Access := Write)
    requires way != Fetch && ValidMem(m) && IsSize(n) && Apart(m, c, va, n, way) && Kept(m, m', c, va, n)
    ensures var (m2, o) := U.Load(m', c, w, va, n);
      o.Done? && Kept(m, m2, c, va, n) && Matches(m, m', c, va, n, o.v, way) && Tidy(o.v, n)
  {
    hide ValidMem, Apart, Kept, Matches, U.LoadAligned, Join;
    if va % n == 0 {
      AlignedLoaded(m, m', c, w, va, n, way);
    } else if n == 2 {
      HalfwordLoaded(m, m', c, w, va, way);
    } else {
      WordLoaded(m, m', c, w, va, n, way);
    }
  }

  /** A value is its bytes, as far as the size goes. */
  lemma LowFromBytes(x: bv64, v: bv64, n: nat)
    requires IsSize(n) && forall k :: 0 <= k < n ==> Byte(x, k) == Byte(v, k)
    ensures Low(x, n) == Low(v, n)
  {
    hide Byte, Eight, Low;
    AsEight(x);
    AsEight(v);
    LowOfEight(Byte(x, 0), Byte(x, 1), Byte(x, 2), Byte(x, 3), Byte(x, 4), Byte(x, 5), Byte(x, 6), Byte(x, 7));
    LowOfEight(Byte(v, 0), Byte(v, 1), Byte(v, 2), Byte(v, 3), Byte(v, 4), Byte(v, 5), Byte(v, 6), Byte(v, 7));
    assert Byte(x, 0) == Byte(v, 0);
  }

  lemma LowOfEight(a: bv8, b: bv8, c: bv8, d: bv8, e: bv8, f: bv8, g: bv8, h: bv8)
    ensures var v := Eight(a, b, c, d, e, f, g, h);
      && Low(v, 1) == Eight(a, 0, 0, 0, 0, 0, 0, 0) && Low(v, 2) == Eight(a, b, 0, 0, 0, 0, 0, 0)
      && Low(v, 4) == Eight(a, b, c, d, 0, 0, 0, 0) && Low(v, 8) == v
  {
  }

  /**
   * Any-alignment memory: on RAM the context may write, disjoint from the page tables that translate it, a store of any size
   * at any address, across a page boundary or the end of the address space too, then a load there returns the value.
   */
  lemma StoreThenLoad(m: Mem, c: Ctx, w: World, va: addr, n: nat, v: bv64)
    requires ValidMem(m) && IsSize(n) && Apart(m, c, va, n)
    ensures var (m1, o1) := U.Store(m, c, va, n, v); var (m2, o2) := U.Load(m1, c, w, va, n);
      && o1 == Done(0) && Only(m, m1, c, va, n)
      && o2.Done? && Low(o2.v, n) == Low(v, n)
  {
    hide ValidMem, Apart, Kept, Only, U.Store, U.Load, Byte, Low, At, Target;
    StoreWrites(m, c, va, n, v);
    var (m1, o1) := U.Store(m, c, va, n, v);
    LoadReads(m, m1, c, w, va, n);
    var (m2, o2) := U.Load(m1, c, w, va, n);
    forall k | 0 <= k < n ensures Byte(o2.v, k) == Byte(v, k) {
      assert At(m1, Target(m, c, Nth(va, k))) == Byte(v, k);
    }
    LowFromBytes(o2.v, v, n);
  }

  /** Without paging there are no page tables to keep clear of. */
  lemma FlatApart(m: Mem, c: Ctx, va: addr, n: nat)
    requires !Paging(c)
    ensures Apart(m, c, va, n) <==> forall k :: 0 <= k < n ==> PlaceOf(m, Nth(va, k)).InRam?
  {
    hide PlaceOf;
  }
}
