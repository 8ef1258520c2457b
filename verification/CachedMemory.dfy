/** Stores and loads of any size and alignment, on the machine with its caches. */
module CachedMemory {
  import opened Words
  import opened PhysMemory
  import opened Pte
  import opened Translate
  import opened Csr
  import opened CsrTheorems
  import opened Tlb
  import opened Cpu
  import opened CpuInvariant
  import opened CpuRefinement
  import opened Fences
  import opened FencedRuns
  import DM = DataMemory
  import U = Uncached
  import D = Predecode

  // ---------------------------------------------------------------- history influences nothing

  ghost predicate Alike(s: State, s': State) { s' == s.(exposed := s'.exposed) }

  lemma ReadAlike(s: State, s': State, w: World, va: addr, n: nat)
    requires Shaped(s) && Alike(s, s') && IsSize(n)
    ensures Alike(ReadAligned(s, w, va, n).0, ReadAligned(s', w, va, n).0) && ReadAligned(s, w, va, n).1 == ReadAligned(s', w, va, n).1
  {
    hide Xlate, PlaceOf, Peek, Hit, ContextOf, IndexOf, Translated, Filled;
    var c := DataCtx(s);
    var t := Xlate(s.mem, c, va, Read);
    var s1, s1' := Translated(s, c, va, Read), Translated(s', c, va, Read);
    TranslatedAlike(s, s', c, va, Read);
    if t.Physical? && PlaceOf(s1.mem, t.pa).InRam? {
      FilledAlike(s1, s1', va, PlaceOf(s1.mem, t.pa).host, PlaceOf(s1.mem, t.pa).off);
    }
  }

  lemma TranslatedAlike(s: State, s': State, c: Ctx, va: addr, acc: Access)
    requires Alike(s, s')
    ensures Alike(Translated(s, c, va, acc), Translated(s', c, va, acc)) && Translated(s, c, va, acc).csr == s.csr
    ensures Shaped(s) ==> Shaped(Translated(s, c, va, acc))
  {
    hide XlateMem, LeafPage;
  }

  lemma FilledAlike(s: State, s': State, va: addr, host: nat, off: nat)
    requires Shaped(s) && Alike(s, s')
    ensures Alike(Filled(s, va, host, off, Read), Filled(s', va, host, off, Read))
  {
    hide ContextOf, IndexOf, TagOf, PageBase;
  }

  lemma LoadAlike(s: State, s': State, w: World, va: addr, n: nat)
    requires Shaped(s) && Alike(s, s') && IsSize(n)
    ensures MemRead(s, w, va, n).1 == MemRead(s', w, va, n).1
  {
    hide ReadAligned, Join;
    if va % n == 0 {
      ReadAlike(s, s', w, va, n);
    } else {
      var a, sz := FirstPart(va, n), PartSize(n);
      ReadAlike(s, s', w, a, sz);
      ReadAlike(ReadAligned(s, w, a, sz).0, ReadAligned(s', w, a, sz).0, w, SecondPart(va, n), sz);
    }
  }

  lemma WriteAlike(s: State, s': State, va: addr, n: nat, v: bv64)
    requires Shaped(s) && Alike(s, s') && IsSize(n)
    ensures Alike(WriteAligned(s, va, n, v).0, WriteAligned(s', va, n, v).0) && WriteAligned(s, va, n, v).1 == WriteAligned(s', va, n, v).1
  {
    hide Xlate, XlateMem, PlaceOf, Hit, ContextOf, LeafPage, IndexOf, TagOf, Stored, Filled, DropPage, PageBase, BytesOf;
    var c := DataCtx(s);
    var t := Xlate(s.mem, c, va, Write);
    if Hit(s.tlbW[IndexOf(va)], va, n) {
      var e, k := s.tlbW[IndexOf(va)], Slot(Write, IndexOf(va));
      StoredAlike(Used(s, k), Used(s', k), e.host, e.off + va % PAGE, BytesOf(v, n));
    } else if t.Physical? && PlaceOf(Translated(s, c, va, Write).mem, t.pa).InRam? {
      var p := PlaceOf(Translated(s, c, va, Write).mem, t.pa);
      FillAlike(Translated(s, c, va, Write), Translated(s', c, va, Write), va, p.host, p.off, BytesOf(v, n));
    }
  }

  lemma StoredAlike(s: State, s': State, host: int, off: nat, b: seq<bv8>)
    requires Alike(s, s')
    ensures Alike(Stored(s, host, off, b), Stored(s', host, off, b))
  {
    hide PokeBytes, Damaged, ContextOf;
    assert Stored(s, host, off, b).stale == Stored(s', host, off, b).stale;
  }

  lemma FillAlike(s: State, s': State, va: addr, host: nat, off: nat, b: seq<bv8>)
    requires Shaped(s) && Alike(s, s')
    ensures var f, f' := Filled(s, va, host, off, Write), Filled(s', va, host, off, Write);
      Alike(Stored(DropPage(f, host, PageBase(off, va)), host, off, b), Stored(DropPage(f', host, PageBase(off, va)), host, off, b))
  {
    hide Stored, ContextOf, D.Holds, D.Drop, IndexOf, TagOf, PageBase;
    var f, f' := Filled(s, va, host, off, Write), Filled(s', va, host, off, Write);
    StoredAlike(DropPage(f, host, PageBase(off, va)), DropPage(f', host, PageBase(off, va)), host, off, b);
  }

  lemma {:induction false} BytesAlike(s: State, s': State, va: addr, i: nat, n: nat, v: bv64)
    requires Shaped(s) && Alike(s, s') && i <= n
    ensures Alike(WriteBytes(s, va, i, n, v).0, WriteBytes(s', va, i, n, v).0)
    ensures WriteBytes(s, va, i, n, v).1 == WriteBytes(s', va, i, n, v).1
    decreases n - i
  {
    hide WriteAligned, ByteValue;
    if i < n {
      var a, x := Wrap(va + i), ByteValue(v, i);
      WriteAlike(s, s', a, 1, x);
      BytesAlike(WriteAligned(s, a, 1, x).0, WriteAligned(s', a, 1, x).0, va, i + 1, n, v);
    }
  }

  lemma StoreAlike(s: State, s': State, va: addr, n: nat, v: bv64)
    requires Shaped(s) && Alike(s, s') && IsSize(n)
    ensures Alike(MemWrite(s, va, n, v).0, MemWrite(s', va, n, v).0) && MemWrite(s, va, n, v).1 == MemWrite(s', va, n, v).1
  {
    hide WriteAligned, WriteBytes;
    if va % n == 0 {
      WriteAlike(s, s', va, n, v);
    } else {
      BytesAlike(s, s', va, 0, n, v);
    }
  }

  // ---------------------------------------------------------------- a stretch whose entries are good

  /** No entry that an access to the address would use is stale. */
  ghost predicate Good(s: State, va: addr)
  {
    forall acc :: acc != Fetch && Held(s, Slot(acc, IndexOf(va))).tag == TagOf(va) ==> Slot(acc, IndexOf(va)) !in s.stale
  }

  /** What the stale entries say has to be fenced. */
  ghost function Owed(s: State): History
  {
    var dirty := iset p: Page | exists k: Slot :: k in s.stale && Held(s, k).tag == p.tag && ForData(k) == p.data;
    History(dirty, s.tainted)
  }

  lemma OwedLinked(s: State)
    requires !s.exposed
    ensures Linked(s, Owed(s))
  {
    hide Held;
  }

  ghost predicate Spared(h: History, va: addr, n: nat) { forall k :: 0 <= k < n ==> Clean(h, true, DM.Nth(va, k)) }

  lemma GoodSpared(d: D.Decoder, s: State, va: addr)
    requires Inv(d, s) && Good(s, va)
    ensures Clean(Owed(s), true, va)
  {
    hide ValidMem, CsrInv, CacheOk, Exclusive, CodeHeld, EntryOk, ContextOf, IndexOf, TagOf;
    TagInPage(va);
    NeverInvalid(va, 1);
  }

  // ---------------------------------------------------------------- the stretch stays spared

  /** One aligned piece of a store owes no fence for any page of the stretch. */
  lemma PieceSpared(h: History, m: Mem, m': Mem, csr: Csrs, va: addr, n: nat, i: nat, sz: nat, x: bv64)
    requires var c := ContextOf(csr, true); ValidMem(m) && DM.Apart(m, c, va, n) && DM.Kept(m, m', c, va, n) && n <= 8
    requires Spared(h, va, n) && IsSize(sz) && i + sz <= n && DM.Nth(va, i) % sz == 0
    ensures SeenWrite(h, m', csr, DM.Nth(va, i), sz, x).1 && Spared(SeenWrite(h, m', csr, DM.Nth(va, i), sz, x).0, va, n)
  {
    hide ValidMem, ContextOf, XlateMem, U.StoreAligned, DM.Apart, DM.Kept, Damaged, Marked, Mapped;
    var c, a := ContextOf(csr, true), DM.Nth(va, i);
    var h' := SeenWrite(h, m', csr, a, sz, x).0;
    forall k | 0 <= k < n ensures Clean(h', true, DM.Nth(va, k)) {
      PieceUndamaged(m, m', c, va, n, i, k, sz, x);
      TagUndamaged(XlateMem(m', c, a, Write), U.StoreAligned(m', c, a, sz, x).0, c, DM.Nth(va, k));
      MarkedDirty(h, m', c, a, Write);
    }
  }

  lemma MarkedDirty(h: History, m: Mem, c: Ctx, va: addr, acc: Access)
    ensures Marked(h, m, c, va, acc).dirty == h.dirty
  {
  }

  lemma TagUndamaged(m: Mem, m': Mem, c: Ctx, va: addr)
    requires !Damaged(m, m', c, va)
    ensures !Damaged(m, m', c, TagOf(va))
  {
    hide Visits, AdExtWord, Xlate, XlateMem, Settled;
    TagInPage(va);
    PageUniform(m, c, va, TagOf(va), Read);
  }

  lemma PieceUndamaged(m: Mem, m': Mem, c: Ctx, va: addr, n: nat, i: nat, k: nat, sz: nat, x: bv64)
    requires ValidMem(m) && DM.Apart(m, c, va, n) && DM.Kept(m, m', c, va, n) && n <= 8 && k < n
    requires IsSize(sz) && i + sz <= n && DM.Nth(va, i) % sz == 0
    ensures !Damaged(XlateMem(m', c, DM.Nth(va, i), Write), U.StoreAligned(m', c, DM.Nth(va, i), sz, x).0, c, DM.Nth(va, k))
  {
    hide ValidMem, XlateMem, PlaceOf, Damaged, BytesOf, PokeBytes, Visits, Xlate;
    var a := DM.Nth(va, i);
    DM.KeptTarget(m, m', c, va, n, i, Write);
    DM.XlateKeeps(m, m', c, va, n, i, Write);
    var m1 := XlateMem(m', c, a, Write);
    var p := DM.Target(m, c, a);
    XlateShape(m', c, a, Write);
    SamePlaces(m', m1, Xlate(m', c, a, Write).pa);
    DM.AlignedChunk(m, c, va, i, sz);
    DM.TargetOffset(m, c, a);
    AlignedInPage(a, sz);
    DM.PokeUndamaged(m, m1, c, va, n, i, k, p.host, p.off, BytesOf(x, sz));
  }

  lemma {:induction false} BytesSpared(h: History, m: Mem, m': Mem, csr: Csrs, va: addr, i: nat, n: nat, v: bv64)
    requires var c := ContextOf(csr, true);
      ValidMem(m) && DM.Apart(m, c, va, n) && DM.Kept(m, m', c, va, n) && DM.Only(m, m', c, va, n) && i <= n <= 8
    requires Spared(h, va, n)
    ensures SeenBytes(h, m', csr, va, i, n, v).1 && Spared(SeenBytes(h, m', csr, va, i, n, v).0, va, n)
    decreases n - i
  {
    hide ValidMem, ContextOf, DM.Apart, DM.Kept, DM.Only, U.StoreAligned, SeenWrite, Spared, ByteValue, DM.At, DM.Target, BytesOf;
    if i < n {
      var a, x := DM.Nth(va, i), ByteValue(v, i);
      PieceSpared(h, m, m', csr, va, n, i, 1, x);
      DM.PieceStored(m, m', ContextOf(csr, true), va, n, i, 1, x);
      BytesSpared(SeenWrite(h, m', csr, a, 1, x).0, m, U.StoreAligned(m', ContextOf(csr, true), a, 1, x).0, csr, va, i + 1, n, v);
    }
  }

  lemma StoreSpared(h: History, m: Mem, csr: Csrs, va: addr, n: nat, v: bv64)
    requires ValidMem(m) && IsSize(n) && DM.Apart(m, ContextOf(csr, true), va, n) && Spared(h, va, n)
    ensures SeenStore(h, m, csr, va, n, v).1 && Spared(SeenStore(h, m, csr, va, n, v).0, va, n)
  {
    hide ValidMem, ContextOf, DM.Apart, DM.Kept, DM.Only, SeenWrite, SeenBytes, Spared;
    DM.KeptRefl(m, ContextOf(csr, true), va, n);
    if va % n == 0 {
      assert DM.Nth(va, 0) == va;
      PieceSpared(h, m, m, csr, va, n, 0, n, v);
    } else {
      BytesSpared(h, m, m, csr, va, 0, n, v);
    }
  }

  /** The two parts of a load lie in pages of the stretch. */
  lemma PartsInStretch(va: addr, n: nat)
    requires IsSize(n) && va % n != 0
    ensures TagOf(FirstPart(va, n)) == TagOf(DM.Nth(va, 0)) && TagOf(SecondPart(va, n)) == TagOf(DM.Nth(va, n - 1))
  {
    assert DM.Nth(va, 0) == va;
    if n != 2 {
      DM.WordPages(va, n);
      SameTag(FirstPart(va, n), DM.Nth(va, 0));
      SameTag(SecondPart(va, n), DM.Nth(va, n - 1));
    }
  }

  lemma SameTag(va: addr, vb: addr)
    requires va / PAGE == vb / PAGE
    ensures TagOf(va) == TagOf(vb)
  {
  }

  lemma LoadSpared(h: History, m: Mem, csr: Csrs, w: World, va: addr, n: nat)
    requires IsSize(n) && Spared(h, va, n)
    ensures SeenLoad(h, m, csr, w, va, n).1
  {
    hide ContextOf, U.LoadAligned, Marked, TagOf, FirstPart, SecondPart, PartSize;
    if va % n == 0 {
      assert DM.Nth(va, 0) == va;
      assert Clean(h, true, DM.Nth(va, 0));
    } else {
      PartsInStretch(va, n);
      PartsSize(va, n);
      MarkedDirty(h, m, ContextOf(csr, true), FirstPart(va, n), Read);
      assert Clean(h, true, DM.Nth(va, 0)) && Clean(h, true, DM.Nth(va, n - 1));
    }
  }

  lemma PartsSize(va: addr, n: nat)
    requires IsSize(n) && va % n != 0
    ensures IsSize(PartSize(n))
  {
  }

  // ---------------------------------------------------------------- the law

  /**
   * From any reachable state, a store and then a load of the same size and address, through whatever the caches hold, answer
   * as memory does: on RAM the context may write, clear of the page tables that translate it, and unless an entry for one of
   * its own pages was already stale.
   */
  lemma StoreThenLoad(d: D.Decoder, s: State, w: World, va: addr, n: nat, v: bv64)
    requires Inv(d, s) && d == w.decoder && IsSize(n) && DM.Apart(s.mem, DataCtx(s), va, n)
    requires forall k :: 0 <= k < n ==> Good(s, DM.Nth(va, k))
    ensures var (s1, o1) := MemWrite(s, va, n, v); var (s2, o2) := MemRead(s1, w, va, n);
      && o1 == Done(0) && DM.Only(s.mem, s1.mem, DataCtx(s), va, n)
      && o2.Done? && Low(o2.v, n) == Low(v, n)
  {
    assert Shaped(s) && ValidMem(s.mem);
    var s0 := s.(exposed := false);
    UnexposedInv(d, s);
    StoreAlike(s, s0, va, n, v);
    LoadAlike(MemWrite(s, va, n, v).0, MemWrite(s0, va, n, v).0, w, va, n);
    hide Inv, ValidMem, Linked, DM.Apart, DM.Only, MemRead, MemWrite, U.Load, U.Store, Low, SeenStore, SeenLoad, ContextOf, Good;
    var h := Owed(s0);
    OwedLinked(s0);
    forall k | 0 <= k < n ensures Clean(h, true, DM.Nth(va, k)) {
      GoodAlike(s, DM.Nth(va, k));
      GoodSpared(d, s0, DM.Nth(va, k));
    }
    StoreSpared(h, s.mem, s.csr, va, n, v);
    StoreFollows(d, s0, va, n, v);
    StoreLinked(d, s0, h, va, n, v);
    var s1, h1 := MemWrite(s0, va, n, v).0, SeenStore(h, s.mem, s.csr, va, n, v).0;
    NotExposed(s1, h1);
    LoadSpared(h1, s1.mem, s1.csr, w, va, n);
    LoadFollows(d, s1, w, va, n);
    LoadLinked(d, s1, h1, w, va, n);
    NotExposed(MemRead(s1, w, va, n).0, SeenLoad(h1, s1.mem, s1.csr, w, va, n).0);
    DM.StoreThenLoad(s.mem, DataCtx(s), w, va, n, v);
  }

  lemma UnexposedInv(d: D.Decoder, s: State)
    requires Inv(d, s)
    ensures Inv(d, s.(exposed := false))
  {
    hide ValidMem, CsrInv, TableOk, EntryOk, CacheOk, Exclusive, CodeHeld, ContextOf;
  }

  lemma GoodAlike(s: State, va: addr)
    requires Good(s, va)
    ensures Good(s.(exposed := false), va)
  {
    hide IndexOf, TagOf;
  }

  /**
   * Only writes to page tables make an entry stale: a store clear of every word the entry's walk reads leaves it as good as it
   * was.
   */
  lemma StoreStales(s: State, host: nat, off: nat, b: seq<bv8>, k: Slot)
    requires ValidMem(s.mem) && InBounds(s.mem, host, off, |b|) && k !in s.stale && Held(s, k).tag < SPACE
    requires forall a, o :: a in Visits(s.mem, SlotCtx(s, k), Held(s, k).tag) && off <= o < off + |b| ==> DM.Clear(s.mem, a, InRam(host, o))
    ensures k !in Stored(s, host, off, b).stale
  {
    hide ValidMem, PteAt, PokeBytes, Visits, SlotCtx, DM.Clear, AdExtWord, Held;
    var m' := PokeBytes(s.mem, host, off, b);
    forall a | a in Visits(s.mem, SlotCtx(s, k), Held(s, k).tag) ensures AdExtWord(PteAt(s.mem, a), PteAt(m', a)) {
      DM.WordUntouched(s.mem, host, off, b, a);
      AdExtRefl(PteAt(s.mem, a));
    }
  }
}
