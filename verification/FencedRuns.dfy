/** A guest that fences what it overwrites never uses anything stale. */
module FencedRuns {
  import opened Words
  import opened PhysMemory
  import opened Pte
  import opened Translate
  import opened Csr
  import opened CsrTheorems
  import opened Tlb
  import opened Cpu
  import opened CpuInvariant
  import opened CpuRefinement
  import opened CpuRuns
  import opened Fences
  import F = FetchTheorems
  import R = CpuRuns
  import U = Uncached
  import D = Predecode

  predicate ForData(k: Slot) { k.Slot? && k.acc != Fetch }

  /** A valid entry that is stale translates a page the history calls dirty. */
  ghost predicate Covered(s: State, h: History, k: Slot)
  {
    k in s.stale && Held(s, k).tag < SPACE && Held(s, k).tag != INVALID ==> Page(ForData(k), Held(s, k).tag) in h.dirty
  }

  /** The history explains everything stale and tainted, and nothing stale has been used. */
  ghost predicate Linked(s: State, h: History)
  {
    !s.exposed && (forall k: Slot :: Covered(s, h, k)) && s.tainted <= h.marked
  }

  ghost predicate Grows(h: History, h': History) { h.dirty <= h'.dirty && h.marked <= h'.marked }

  lemma LinkedGrows(s: State, h: History, h': History)
    requires Linked(s, h) && Grows(h, h')
    ensures Linked(s, h')
  {
    hide Held;
    forall k: Slot ensures Covered(s, h', k) {
      assert Covered(s, h, k);
    }
  }

  // ---------------------------------------------------------------- the steps an access is made of

  /** A hit on a clean page uses nothing stale. */
  lemma HitClean(s: State, h: History, k: Slot, va: addr)
    requires Linked(s, h) && Held(s, k).tag == TagOf(va) && Clean(h, ForData(k), va)
    ensures k !in s.stale && Used(s, k) == s
  {
    hide Held;
    NeverInvalid(va, 1);
    assert Covered(s, h, k);
  }

  lemma TranslatedLinked(s: State, h: History, c: Ctx, va: addr, acc: Access)
    requires Linked(s, h)
    ensures Linked(Translated(s, c, va, acc), Marked(h, s.mem, c, va, acc))
  {
    hide XlateMem, LeafPage;
    var s' := Translated(s, c, va, acc);
    forall k: Slot ensures Covered(s', Marked(h, s.mem, c, va, acc), k) {
      assert Covered(s, h, k);
    }
  }

  lemma FilledLinked(s: State, h: History, va: addr, host: nat, off: nat, acc: Access)
    requires Shaped(s) && Linked(s, h)
    ensures Linked(Filled(s, va, host, off, acc), h)
  {
    hide IndexOf, TagOf, PageBase, ContextOf;
    var s' := Filled(s, va, host, off, acc);
    forall k: Slot ensures Covered(s', h, k) {
      assert Covered(s, h, k);
    }
  }

  lemma DropLinked(s: State, h: History, host: int, off: nat)
    requires Shaped(s) && Linked(s, h)
    ensures Linked(DropPage(s, host, off), h)
  {
    hide D.Holds, D.Drop;
    var s' := DropPage(s, host, off);
    forall k: Slot ensures Covered(s', h, k) {
      assert Covered(s, h, k);
    }
  }

  /** An entry that is not stale translates a page that is mapped. */
  lemma HeldMapped(d: D.Decoder, s: State, k: Slot)
    requires Inv(d, s) && k !in s.stale && Held(s, k).tag != INVALID
    ensures Held(s, k).tag < SPACE && Mapped(s.mem, SlotCtx(s, k), Held(s, k).tag)
  {
    hide ValidMem, CsrInv, CacheOk, Exclusive, CodeHeld, Backed, ContextOf, Xlate, PlaceOf, Settled;
    assert k.Slot? ==> k.i < SIZE;
    assert EntryOk(s.mem, s.stale, SlotCtx(s, k), Held(s, k), k);
  }

  lemma StoredLinked(d: D.Decoder, s: State, h: History, host: int, off: nat, b: seq<bv8>)
    requires Inv(d, s) && Linked(s, h)
    ensures Linked(Stored(s, host, off, b), Overwritten(h, s.mem, PokeBytes(s.mem, host, off, b), s.csr))
  {
    hide Inv, PokeBytes, Damaged, Mapped, ContextOf, Held;
    var s' := Stored(s, host, off, b);
    var h' := Overwritten(h, s.mem, s'.mem, s.csr);
    forall k: Slot ensures Covered(s', h', k) {
      HeldStays(s, host, off, b, k);
      assert Covered(s, h, k);
      if k !in s.stale && Hurt(s, s'.mem, k) {
        HeldMapped(d, s, k);
        assert Breaks(s.mem, s'.mem, s.csr, Page(ForData(k), Held(s, k).tag));
      }
    }
  }

  lemma HeldStays(s: State, host: int, off: nat, b: seq<bv8>, k: Slot)
    ensures Held(Stored(s, host, off, b), k) == Held(s, k)
  {
    hide PokeBytes, Hurt;
  }

  // ---------------------------------------------------------------- loads

  lemma ReadLinked(d: D.Decoder, s: State, h: History, w: World, va: addr, n: nat)
    requires Inv(d, s) && Linked(s, h) && IsSize(n) && Clean(h, true, va)
    ensures Linked(ReadAligned(s, w, va, n).0, SeenRead(h, s.mem, s.csr, va).0)
  {
    assert Shaped(s);
    hide Linked, Xlate, PlaceOf, Peek, Translated, Filled, IndexOf, LeafPage, ContextOf, Clean, Used;
    var c, k := DataCtx(s), Slot(Read, IndexOf(va));
    TranslatedLinked(s, h, c, va, Read);
    LinkedGrows(s, h, Marked(h, s.mem, c, va, Read));
    if Hit(s.tlbR[IndexOf(va)], va, n) {
      ReadEntry(d, s, va, n);
      HitClean(s, h, k, va);
    } else if Xlate(s.mem, c, va, Read).Physical? {
      var s1 := Translated(s, c, va, Read);
      var p := PlaceOf(s1.mem, Xlate(s.mem, c, va, Read).pa);
      TranslatedShape(s, c, va, Read);
      if p.InRam? {
        FilledLinked(s1, Marked(h, s.mem, c, va, Read), va, p.host, p.off, Read);
      }
    }
  }

  lemma TranslatedShape(s: State, c: Ctx, va: addr, acc: Access)
    requires Shaped(s)
    ensures Shaped(Translated(s, c, va, acc)) && Translated(s, c, va, acc).csr == s.csr
  {
  }

  lemma ReadEntry(d: D.Decoder, s: State, va: addr, n: nat)
    requires Inv(d, s) && IsSize(n) && Hit(s.tlbR[IndexOf(va)], va, n)
    ensures Held(s, Slot(Read, IndexOf(va))).tag == TagOf(va)
  {
    hide ValidMem, CsrInv, Leads, CacheOk, Exclusive, CodeHeld, ContextOf, Hit, TableOk;
    EntryAt(s.mem, s.stale, DataCtx(s), s.tlbR, Read, va, n);
  }

  /** A load of any size and alignment. */
  lemma LoadLinked(d: D.Decoder, s: State, h: History, w: World, va: addr, n: nat)
    requires Inv(d, s) && Linked(s, h) && IsSize(n) && SeenLoad(h, s.mem, s.csr, w, va, n).1
    ensures Linked(MemRead(s, w, va, n).0, SeenLoad(h, s.mem, s.csr, w, va, n).0)
  {
    assert Shaped(s) && !s.exposed;
    hide Inv, Linked, ContextOf, ReadAligned, U.LoadAligned, Join;
    if va % n == 0 {
      ReadLinked(d, s, h, w, va, n);
    } else {
      var a, sz := FirstPart(va, n), PartSize(n);
      ReadLinked(d, s, h, w, a, sz);
      ReadAlignedFollows(d, s, w, a, sz);
      var s1, h1 := ReadAligned(s, w, a, sz).0, SeenRead(h, s.mem, s.csr, a).0;
      NotExposed(s1, h1);
      if ReadAligned(s, w, a, sz).1.Done? {
        ReadLinked(d, s1, h1, w, SecondPart(va, n), sz);
      }
    }
  }

  lemma NotExposed(s: State, h: History)
    requires Linked(s, h)
    ensures !s.exposed
  {
  }

  // ---------------------------------------------------------------- stores

  lemma WriteEntry(d: D.Decoder, s: State, va: addr, n: nat)
    requires Inv(d, s) && IsSize(n) && Hit(s.tlbW[IndexOf(va)], va, n)
    ensures Held(s, Slot(Write, IndexOf(va))).tag == TagOf(va)
  {
    hide ValidMem, CsrInv, Leads, CacheOk, Exclusive, CodeHeld, ContextOf, Hit, TableOk;
    EntryAt(s.mem, s.stale, DataCtx(s), s.tlbW, Write, va, n);
  }

  lemma WriteHitLinked(d: D.Decoder, s: State, h: History, va: addr, n: nat, v: bv64)
    requires Inv(d, s) && Linked(s, h) && IsSize(n) && va % n == 0 && Clean(h, true, va) && Hit(s.tlbW[IndexOf(va)], va, n)
    ensures Linked(WriteAligned(s, va, n, v).0, SeenWrite(h, s.mem, s.csr, va, n, v).0)
  {
    hide Coherent, ValidMem, CsrInv, Linked, Xlate, PlaceOf, XlateMem, PokeBytes, Stored, IndexOf, LeafPage, ContextOf, Clean,
      Used, BytesOf, Leads, Overwritten;
    var k, e := Slot(Write, IndexOf(va)), s.tlbW[IndexOf(va)];
    WriteEntry(d, s, va, n);
    HitClean(s, h, k, va);
    WriteLeads(d, s, va, n);
    HitIsFresh(s.mem, DataCtx(s), e, va, Write);
    var h1 := Marked(h, s.mem, DataCtx(s), va, Write);
    LinkedGrows(s, h, h1);
    StoredLinked(d, s, h1, e.host, e.off + va % PAGE, BytesOf(v, n));
  }

  lemma WriteLeads(d: D.Decoder, s: State, va: addr, n: nat)
    requires Inv(d, s) && IsSize(n) && Hit(s.tlbW[IndexOf(va)], va, n) && Slot(Write, IndexOf(va)) !in s.stale
    ensures var e := s.tlbW[IndexOf(va)]; Leads(s.mem, DataCtx(s), e, Write) && e.tag == TagOf(va)
  {
    hide ValidMem, CsrInv, Leads, CacheOk, Exclusive, CodeHeld, ContextOf, Hit, TableOk;
    EntryAt(s.mem, s.stale, DataCtx(s), s.tlbW, Write, va, n);
  }

  lemma WriteMissLinked(d: D.Decoder, s: State, h: History, va: addr, n: nat, v: bv64)
    requires Inv(d, s) && Linked(s, h) && IsSize(n) && va % n == 0
    ensures Linked(WriteSlow(s, va, n, v).0, SeenWrite(h, s.mem, s.csr, va, n, v).0)
  {
    hide Coherent, ValidMem, CsrInv, Linked, Xlate, PlaceOf, XlateMem, PokeBytes, Stored, IndexOf, TagOf, LeafPage, ContextOf,
      BytesOf, Leads, DropPage, Filled, PageBase, Backed;
    var c := DataCtx(s);
    var s1, h1 := Translated(s, c, va, Write), Marked(h, s.mem, c, va, Write);
    var h2 := SeenWrite(h, s.mem, s.csr, va, n, v).0;
    var t := Xlate(s.mem, c, va, Write);
    TranslatedLinked(s, h, c, va, Write);
    LinkedGrows(s, h, h2);
    LinkedGrows(s1, h1, h2);
    if t.Physical? && PlaceOf(s1.mem, t.pa).InRam? {
      var p := PlaceOf(s1.mem, t.pa);
      TranslatedInv(d, s, c, va, Write);
      TranslatedShape(s, c, va, Write);
      FilledLeads(s.mem, c, va, Write);
      FillThenDrop(d, s1, c, va, p.host, p.off);
      FilledLinked(s1, h1, va, p.host, p.off, Write);
      var s2 := Filled(s1, va, p.host, p.off, Write);
      DropLinked(s2, h1, p.host, PageBase(p.off, va));
      FillDropCsr(s1, va, p.host, p.off);
      StoredLinked(d, DropPage(s2, p.host, PageBase(p.off, va)), h1, p.host, p.off, BytesOf(v, n));
    }
  }

  lemma FillDropCsr(s: State, va: addr, host: nat, off: nat)
    requires Shaped(s)
    ensures DropPage(Filled(s, va, host, off, Write), host, PageBase(off, va)).csr == s.csr
  {
  }

  lemma WriteLinked(d: D.Decoder, s: State, h: History, va: addr, n: nat, v: bv64)
    requires Inv(d, s) && Linked(s, h) && IsSize(n) && va % n == 0 && Clean(h, true, va)
    ensures Linked(WriteAligned(s, va, n, v).0, SeenWrite(h, s.mem, s.csr, va, n, v).0)
  {
    hide Coherent, ValidMem, CsrInv, Linked, WriteSlow, SeenWrite, Stored, Hit, IndexOf, Clean, BytesOf;
    if Hit(s.tlbW[IndexOf(va)], va, n) {
      WriteHitLinked(d, s, h, va, n, v);
    } else {
      WriteMissLinked(d, s, h, va, n, v);
    }
  }

  lemma SeenBytesUnfold(h: History, m: Mem, csr: Csrs, va: addr, i: nat, n: nat, v: bv64)
    requires i < n
    ensures var r := U.StoreAligned(m, ContextOf(csr, true), Wrap(va + i), 1, ByteValue(v, i));
      var w := SeenWrite(h, m, csr, Wrap(va + i), 1, ByteValue(v, i));
      var rest := SeenBytes(w.0, r.0, csr, va, i + 1, n, v);
      SeenBytes(h, m, csr, va, i, n, v) == if r.1.Done? then (rest.0, w.1 && rest.1) else w
  {
    hide U.StoreAligned, ByteValue, SeenWrite, ContextOf;
  }

  lemma {:induction false} BytesLinked(d: D.Decoder, s: State, h: History, va: addr, i: nat, n: nat, v: bv64)
    requires Inv(d, s) && Linked(s, h) && i <= n && SeenBytes(h, s.mem, s.csr, va, i, n, v).1
    ensures Linked(WriteBytes(s, va, i, n, v).0, SeenBytes(h, s.mem, s.csr, va, i, n, v).0)
    decreases n - i
  {
    hide Coherent, ValidMem, CsrInv, Linked, ContextOf, WriteAligned, U.StoreAligned, ByteValue, WriteBytes, SeenBytes,
      Overwritten, Clean, Marked;
    WriteBytesUnfold(s, va, i, n, v);
    if i == n {
      EmptyBytes(h, s.mem, s.csr, va, n, v);
    } else {
      SeenBytesUnfold(h, s.mem, s.csr, va, i, n, v);
      var a, x := Wrap(va + i), ByteValue(v, i);
      WriteLinked(d, s, h, a, 1, x);
      WriteAlignedFollows(d, s, a, 1, x);
      var r := WriteAligned(s, a, 1, x);
      NotExposed(r.0, SeenWrite(h, s.mem, s.csr, a, 1, x).0);
      if r.1.Done? {
        BytesLinked(d, r.0, SeenWrite(h, s.mem, s.csr, a, 1, x).0, va, i + 1, n, v);
      }
    }
  }

  lemma EmptyBytes(h: History, m: Mem, csr: Csrs, va: addr, n: nat, v: bv64)
    ensures SeenBytes(h, m, csr, va, n, n, v) == (h, true)
  {
  }

  lemma StoreLinked(d: D.Decoder, s: State, h: History, va: addr, n: nat, v: bv64)
    requires Inv(d, s) && Linked(s, h) && IsSize(n) && SeenStore(h, s.mem, s.csr, va, n, v).1
    ensures Linked(MemWrite(s, va, n, v).0, SeenStore(h, s.mem, s.csr, va, n, v).0)
  {
    hide Coherent, ValidMem, CsrInv, Linked, WriteAligned, WriteBytes, SeenBytes, Clean, Overwritten, Marked;
    if va % n == 0 {
      WriteLinked(d, s, h, va, n, v);
    } else {
      BytesLinked(d, s, h, va, 0, n, v);
    }
  }

  // ---------------------------------------------------------------- fetches

  lemma FromPageLinked(s: State, h: History, host: int, base: nat, pc: addr)
    requires Shaped(s) && Linked(s, h)
    ensures Linked(FromPage(s, host, base, pc).0, SeenPiece(h, s.mem, FetchCtx(s), host, base, pc))
  {
    hide Linked, PieceAt, ContextOf, Translated, Marked, Xlate, PlaceOf, Peek;
    TranslatedLinked(s, h, FetchCtx(s), Wrap(pc + 2), Fetch);
    var h1 := Marked(h, s.mem, FetchCtx(s), Wrap(pc + 2), Fetch);
    MarkedGrows(h, s.mem, FetchCtx(s), Wrap(pc + 2), Fetch);
    LinkedGrows(s, h, h1);
  }

  lemma MarkedGrows(h: History, m: Mem, c: Ctx, va: addr, acc: Access)
    ensures Grows(h, Marked(h, m, c, va, acc))
  {
  }

  lemma FetchSlowLinked(s: State, h: History, pc: addr)
    requires Shaped(s) && Linked(s, h)
    ensures Linked(FetchSlow(s, pc).0, SeenFetch(h, s.mem, s.csr, pc).0)
  {
    hide Linked, ContextOf, Translated, Marked, Xlate, PlaceOf, Filled, FromPage, SeenPiece, PageBase;
    var c := FetchCtx(s);
    var t := Xlate(s.mem, c, pc, Fetch);
    var s1, h1 := Translated(s, c, pc, Fetch), Marked(h, s.mem, c, pc, Fetch);
    MarkedGrows(h, s.mem, c, pc, Fetch);
    LinkedGrows(s, h, h1);
    TranslatedLinked(s, h, c, pc, Fetch);
    TranslatedShape(s, c, pc, Fetch);
    if t.Physical? && PlaceOf(s1.mem, t.pa).InRam? {
      var p := PlaceOf(s1.mem, t.pa);
      FilledLinked(s1, h1, pc, p.host, p.off, Fetch);
      FilledKeeps(s1, pc, p.host, p.off);
      FromPageLinked(Filled(s1, pc, p.host, p.off, Fetch), h1, p.host, PageBase(p.off, pc), pc);
    }
    TranslatedMem(s, c, pc, Fetch);
  }

  lemma FilledKeeps(s: State, pc: addr, host: nat, off: nat)
    requires Shaped(s)
    ensures Filled(s, pc, host, off, Fetch).mem == s.mem && Filled(s, pc, host, off, Fetch).csr == s.csr
  {
  }

  lemma TranslatedMem(s: State, c: Ctx, va: addr, acc: Access)
    ensures Translated(s, c, va, acc).mem == XlateMem(s.mem, c, va, acc)
  {
  }

  lemma InstallLinked(s: State, h: History, e: Entry)
    requires Shaped(s) && Linked(s, h) && Held(s, Slot(Fetch, IndexOf(e.tag))) == e
    ensures Linked(Install(s, e), h)
  {
    hide IndexOf, D.Holds, D.Insert;
    var s' := Install(s, e);
    forall k: Slot ensures Covered(s', h, k) {
      assert Covered(s, h, k);
      assert Covered(s, h, Slot(Fetch, IndexOf(e.tag)));
    }
  }

  /** Through an entry that leads where the walk leads, a fetch marks nothing but for its second half. */
  lemma SeenThrough(h: History, m: Mem, csr: Csrs, e: Entry, pc: addr)
    requires ValidMem(m) && Leads(m, ContextOf(csr, false), e, Fetch) && e.tag == TagOf(pc)
    ensures SeenFetch(h, m, csr, pc).0 == SeenPiece(h, m, ContextOf(csr, false), e.host, e.off, pc)
    ensures CodeFrame(m, ContextOf(csr, false), pc) == {(e.host, e.off)}
  {
    hide ValidMem, Xlate, PlaceOf, XlateMem, Leads, PieceAt, ContextOf;
    HitIsFresh(m, ContextOf(csr, false), e, pc, Fetch);
    assert h.marked + {} == h.marked;
  }

  /** Reading from the installed page. */
  lemma InstalledLinked(d: D.Decoder, s: State, h: History, pc: addr)
    requires Inv(d, s) && Linked(s, h) && s.code.tag == TagOf(pc) && Clean(h, false, pc)
    ensures Linked(FromPage(s, s.code.host, s.code.off, pc).0, SeenFetch(h, s.mem, s.csr, pc).0)
    ensures Linked(ReadFromCodePage(s, pc).0, SeenFetch(h, s.mem, s.csr, pc).0)
    ensures CodeSlot !in s.stale && CodeFrame(s.mem, FetchCtx(s), pc) == {(s.code.host, s.code.off)}
  {
    hide Coherent, ValidMem, CsrInv, Linked, ContextOf, PieceAt, FromPage, FetchSlow, SeenFetch, SeenPiece, Clean, Leads;
    HitClean(s, h, CodeSlot, pc);
    F.CodeLeads(d, s, pc);
    SeenThrough(h, s.mem, s.csr, s.code, pc);
    FromPageLinked(s, h, s.code.host, s.code.off, pc);
    FetchSlowLinked(s, h, pc);
  }

  lemma FetchAndCacheLinked(d: D.Decoder, s: State, h: History, pc: addr)
    requires Inv(d, s) && Linked(s, h) && Clean(h, false, pc)
    ensures Linked(FetchAndCache(s, pc).0, SeenFetch(h, s.mem, s.csr, pc).0)
  {
    hide Coherent, ValidMem, CsrInv, Linked, ContextOf, FetchSlow, ReadFromCodePage, SeenFetch, Clean, Install, IndexOf,
      EntryOk, TagOf;
    var e, k := s.tlbX[IndexOf(pc)], Slot(Fetch, IndexOf(pc));
    if e.tag == TagOf(pc) {
      F.CodeEntry(d, s, pc);
      HitClean(s, h, k, pc);
      InstallInv(d, s, e);
      InstallLinked(s, h, e);
      F.InstallKeeps(s, e);
      InstalledLinked(d, Install(s, e), h, pc);
    } else {
      FetchSlowLinked(s, h, pc);
      F.FetchSlowFollows(d, s, pc);
      var r := FetchSlow(s, pc);
      if r.1.Done? {
        F.CodeEntry(d, r.0, pc);
        InstallLinked(r.0, SeenFetch(h, s.mem, s.csr, pc).0, r.0.tlbX[IndexOf(pc)]);
      }
    }
  }

  lemma FetchLinked(d: D.Decoder, s: State, h: History, pc: addr)
    requires Inv(d, s) && Linked(s, h) && Clean(h, false, pc)
    ensures Linked(FetchInsn(s, pc).0, SeenFetch(h, s.mem, s.csr, pc).0)
  {
    hide Coherent, ValidMem, CsrInv, Linked, ContextOf, FetchAndCache, FromPage, SeenFetch, Clean, PieceAt;
    FetchAndCacheLinked(d, s, h, pc);
    if s.code.tag == TagOf(pc) {
      InstalledLinked(d, s, h, pc);
      HitClean(s, h, CodeSlot, pc);
    }
  }

  // ---------------------------------------------------------------- dispatch

  /** A slot of a page that holds no marked leaf. */
  lemma SlotLinked(s: State, h: History, w: World, pc: addr)
    requires Shaped(s) && Linked(s, h) && (s.code.host, s.code.off) !in h.marked
    ensures Linked(DispatchSlot(s, w, pc).0, h)
  {
    hide D.DecodeSlot, D.SlotOf;
    var s' := DispatchSlot(s, w, pc).0;
    forall k: Slot ensures Covered(s', h, k) {
      assert Covered(s, h, k);
    }
  }

  /** Fetching again marks nothing more. */
  lemma SeenAgain(h: History, m: Mem, csr: Csrs, pc: addr)
    requires ValidMem(m) && U.FetchWord(m, ContextOf(csr, false), pc).1.Done?
    ensures var m' := U.FetchWord(m, ContextOf(csr, false), pc).0;
      SeenFetch(h, m', csr, pc).0 == h && CodeFrame(m', ContextOf(csr, false), pc) == CodeFrame(m, ContextOf(csr, false), pc)
  {
    hide XlateMem, ValidMem, Xlate, Settled, PlaceOf, PieceAt, U.SecondHalf, Backed, Visits, ContextOf;
    var c := ContextOf(csr, false);
    F.XlateAgain(m, c, pc);
    var m1 := XlateMem(m, c, pc, Fetch);
    var p := PlaceOf(m1, Xlate(m, c, pc, Fetch).pa);
    SamePlaces(m, m1, Xlate(m, c, pc, Fetch).pa);
    var piece := PieceAt(m1, p.host, PageBase(p.off, pc), pc);
    assert h.marked + {} == h.marked;
    if piece.Half? {
      WholePage(m1, c, pc, Fetch, pc);
      F.SecondHalfAgain(m1, c, pc, piece.low);
      SecondSettled(m1, c, pc, piece.low);
      F.SettledThrough(m1, c, pc, Wrap(pc + 2));
      F.LowHalfStays(m1, c, Wrap(pc + 2), p.host, PageBase(p.off, pc), pc);
    }
  }

  lemma SecondSettled(m: Mem, c: Ctx, pc: addr, low: bv64)
    requires ValidMem(m) && U.SecondHalf(m, c, pc, low).1.Done?
    ensures var m' := XlateMem(m, c, Wrap(pc + 2), Fetch); XlateMem(m', c, Wrap(pc + 2), Fetch) == m'
  {
    hide XlateMem, ValidMem, Xlate, Settled, PlaceOf, Peek;
    F.XlateAgain(m, c, Wrap(pc + 2));
  }

  /** A turn from the installed page; the history may already hold what the fetch marks. */
  lemma InstalledTurnLinked(d: D.Decoder, s: State, h: History, w: World, pc: addr)
    requires Inv(d, s) && d == w.decoder && Linked(s, h) && s.code.tag == TagOf(pc) && Clean(h, false, pc)
    requires (s.code.host, s.code.off) !in SeenFetch(h, s.mem, s.csr, pc).0.marked
    ensures Linked(F.InstalledTurn(s, w, pc).0, SeenFetch(h, s.mem, s.csr, pc).0)
  {
    hide Coherent, ValidMem, CsrInv, Linked, ContextOf, DispatchSlot, FetchInsn, SeenFetch, D.Uncommon, Clean;
    HitClean(s, h, CodeSlot, pc);
    SeenGrows(h, s.mem, s.csr, pc);
    SlotLinked(s, h, w, pc);
    F.SlotDispatched(d, s, w, pc);
    var r := DispatchSlot(s, w, pc);
    LinkedGrows(r.0, h, SeenFetch(h, s.mem, s.csr, pc).0);
    FetchLinked(d, r.0, h, pc);
  }

  lemma SeenGrows(h: History, m: Mem, csr: Csrs, pc: addr)
    ensures Grows(h, SeenFetch(h, m, csr, pc).0) && SeenFetch(h, m, csr, pc).0.dirty == h.dirty
  {
    hide LeafPage, Xlate, XlateMem, PlaceOf, PieceAt;
  }

  lemma TurnLinked(d: D.Decoder, s: State, h: History, w: World, pc: addr)
    requires Inv(d, s) && d == w.decoder && Linked(s, h) && SeenExecute(h, s.mem, s.csr, pc).1
    ensures Linked(Turn(s, w, pc).0, SeenFetch(h, s.mem, s.csr, pc).0)
  {
    hide Coherent, ValidMem, CsrInv, Linked, ContextOf, DispatchSlot, FetchInsn, FetchAndCache, SeenFetch, D.Uncommon, CodeFrame;
    var h1 := SeenFetch(h, s.mem, s.csr, pc).0;
    SeenFetchClean(h, s.mem, s.csr, pc);
    SeenGrows(h, s.mem, s.csr, pc);
    if s.code.tag == TagOf(pc) {
      InstalledLinked(d, s, h, pc);
      InstalledTurnLinked(d, s, h, w, pc);
      assert Turn(s, w, pc) == F.InstalledTurn(s, w, pc);
    } else {
      FetchAndCacheLinked(d, s, h, pc);
      F.FetchAndCacheFollows(d, s, pc);
      var r := FetchAndCache(s, pc);
      if r.1.Done? {
        NotExposed(r.0, h1);
        SeenAgain(h1, s.mem, s.csr, pc);
        InstalledLinked(d, r.0, h1, pc);
        InstalledTurnLinked(d, r.0, h1, w, pc);
        assert Turn(s, w, pc) == F.InstalledTurn(r.0, w, pc);
      } else {
        assert Turn(s, w, pc) == r;
      }
    }
  }

  // ---------------------------------------------------------------- device writes, fences, registers

  lemma {:induction false} DropsLinked(s: State, h: History, host: int, first: nat, last: int)
    requires Shaped(s) && Linked(s, h)
    ensures Linked(DropPages(s, host, first, last), h)
    decreases last - first
  {
    hide Linked, DropPage;
    if first <= last {
      DropLinked(s, h, host, first);
      DropsLinked(DropPage(s, host, first), h, host, first + PAGE, last);
    }
  }

  lemma TransferLinked(d: D.Decoder, s: State, h: History, host: nat, off: nat, b: seq<bv8>, last: int)
    requires Inv(d, s) && Linked(s, h)
    ensures Shaped(Stored(s, host, off, b))
    ensures Linked(DropPages(Stored(s, host, off, b), host, off - off % PAGE, last),
                   Overwritten(h, s.mem, PokeBytes(s.mem, host, off, b), s.csr))
  {
    hide Coherent, ValidMem, CsrInv, Linked, PokeBytes, Overwritten, DropPages, Hurt;
    StoredLinked(d, s, h, host, off, b);
    DropsLinked(Stored(s, host, off, b), Overwritten(h, s.mem, PokeBytes(s.mem, host, off, b), s.csr), host, off - off % PAGE, last);
  }

  lemma OverwrittenGrows(h: History, m: Mem, m': Mem, csr: Csrs)
    ensures Grows(h, Overwritten(h, m, m', csr))
  {
    hide Breaks;
  }

  lemma DmaLinked(d: D.Decoder, s: State, h: History, pa: nat, b: seq<bv8>)
    requires Shaped(s) && Inv(d, s) && Linked(s, h)
    ensures Linked(Dma(s, pa, b), Overwritten(h, s.mem, Dma(s, pa, b).mem, s.csr))
  {
    hide Inv, Linked, PlaceOf, Stored, DropPages, PokeBytes, Overwritten, Dma, InBounds;
    DmaFollows(d, s, pa, b);
    DmaUnfold(s, pa, b);
    var p := PlaceOf(s.mem, pa);
    if p.InRam? && InBounds(s.mem, p.host, p.off, |b|) {
      var end := p.off + |b| - 1;
      TransferLinked(d, s, h, p.host, p.off, b, end - end % PAGE);
    } else {
      OverwrittenGrows(h, s.mem, Dma(s, pa, b).mem, s.csr);
      LinkedGrows(s, h, Overwritten(h, s.mem, Dma(s, pa, b).mem, s.csr));
    }
  }

  lemma FlushLinked(s: State, h: History, csr: Csrs, flush: bool)
    requires Linked(s, h)
    ensures Linked(WithCsr(s, csr, flush), if flush then Flushed(h) else h) && Linked(FlushAll(s), Flushed(h))
  {
    var s', h' := WithCsr(s, csr, flush), if flush then Flushed(h) else h;
    forall k: Slot ensures Covered(s', h', k) {
      assert Covered(s, h, k);
    }
  }

  lemma FenceLinked(d: D.Decoder, s: State, h: History, va: addr)
    requires Inv(d, s) && Linked(s, h)
    ensures Linked(FenceVma(s, va), FencedPage(h, va))
  {
    assert Shaped(s);
    FencePageExact(d, s, va);
    hide Inv, FlushPage, TagOf;
    var s' := FenceVma(s, va);
    forall k: Slot ensures Covered(s', FencedPage(h, va), k) {
      assert Covered(s, h, k);
    }
  }

  lemma FenceILinked(s: State, h: History)
    requires Shaped(s) && Linked(s, h)
    ensures Linked(FenceI(s), h.(marked := {}))
  {
    var s' := FenceI(s);
    forall k: Slot ensures Covered(s', h.(marked := {}), k) {
      assert Covered(s, h, k);
    }
  }

  /** A polite event uses nothing stale, and what it makes stale the history calls dirty. */
  lemma StepLinked(d: D.Decoder, s: State, h: History, w: World, e: Event)
    requires Inv(d, s) && d == w.decoder && Linked(s, h) && Sensible(e) && Observed(h, U.Plain(s.mem, s.csr), w, e).1
    ensures Linked(Next(s, w, e).0, Observed(h, U.Plain(s.mem, s.csr), w, e).0)
  {
    hide Coherent, ValidMem, CsrInv, Linked, MemRead, MemWrite, FetchInsn, Turn, Dma, SeenLoad, SeenStore, SeenFetch,
      Overwritten, CsrAfter, FlushAll, WithCsr, FenceVma, FenceI, CodeFrame, Flushes, Flushed, FencedPage, PlaceOf, PokeBytes;
    match e {
      case Load(va, n) => LoadLinked(d, s, h, w, va, n);
      case Store(va, n, v) => StoreLinked(d, s, h, va, n, v);
      case Insn(pc) => SeenFetchClean(h, s.mem, s.csr, pc); FetchLinked(d, s, h, pc);
      case Execute(pc) => TurnLinked(d, s, h, w, pc);
      case SfenceAll => FlushLinked(s, h, s.csr, true);
      case SfencePage(va) => FenceLinked(d, s, h, va);
      case DoFenceI => FenceILinked(s, h);
      case DeviceWrite(pa, bytes) =>
        DmaLinked(d, s, h, pa, bytes);
        DmaFollows(d, s, pa, bytes);
      case _ => FlushLinked(s, h, CsrAfter(s.csr, e), Flushes(s.csr, e));
    }
  }

  lemma SeenFetchClean(h: History, m: Mem, csr: Csrs, pc: addr)
    ensures SeenFetch(h, m, csr, pc).1 == Clean(h, false, pc)
  {
  }

  /** Polite events are executed at even addresses. */
  lemma PoliteEven(h: History, p: U.Plain, w: World, e: Event)
    requires Sensible(e) && Observed(h, p, w, e).1
    ensures EvenPc(e)
  {
    hide SeenLoad, SeenStore, SeenFetch, CodeFrame, Overwritten;
  }

  // ---------------------------------------------------------------- runs

  /** Every event of the uncached run is polite: decided without the cached machine. */
  ghost predicate Polite(d: D.Decoder, h: History, p: U.Plain, cs: seq<Cycle>)
    requires Regular(d, cs)
    decreases |cs|
  {
    cs == [] ||
    var (h1, ok) := Observed(h, p, cs[0].world, cs[0].event);
    ok && Polite(d, h1, U.PlainStep(p, cs[0].world, cs[0].event).0, cs[1..])
  }

  /**
   * A guest that fences is never caught out: over every polite run of the uncached machine, the cached one answers exactly the
   * same and ends with the same memory and registers.
   */
  lemma {:induction false} FencedRefines(d: D.Decoder, s: State, h: History, cs: seq<Cycle>)
    requires Inv(d, s) && Linked(s, h) && Regular(d, cs) && Polite(d, h, U.Plain(s.mem, s.csr), cs)
    ensures var (s', os) := R.Run(d, s, cs); Inv(d, s') && (U.Plain(s'.mem, s'.csr), os) == PlainRun(d, U.Plain(s.mem, s.csr), cs)
    decreases |cs|
  {
    hide Coherent, ValidMem, CsrInv, Linked, Next, U.PlainStep, Observed;
    if cs != [] {
      var w, e, p := cs[0].world, cs[0].event, U.Plain(s.mem, s.csr);
      StepRefines(d, s, w, e);
      StepLinked(d, s, h, w, e);
      PoliteEven(h, p, w, e);
      NotExposed(Next(s, w, e).0, Observed(h, p, w, e).0);
      FencedRefines(d, Next(s, w, e).0, Observed(h, p, w, e).0, cs[1..]);
    }
  }

  lemma ResetLinked(m: Mem, csr: Csrs)
    ensures Linked(Reset(m, csr), Nothing())
  {
  }

  /** From reset on, whatever the guest maps, unmaps and remaps, as long as it fences. */
  lemma FencedFromReset(d: D.Decoder, m: Mem, csr: Csrs, cs: seq<Cycle>)
    requires ValidMem(m) && CsrInv(csr) && Regular(d, cs) && Polite(d, Nothing(), U.Plain(m, csr), cs)
    ensures var (s, os) := R.Run(d, Reset(m, csr), cs); (U.Plain(s.mem, s.csr), os) == PlainRun(d, U.Plain(m, csr), cs)
  {
    hide ValidMem, CsrInv, R.Run, PlainRun, Polite, Linked;
    ResetInv(d, m, csr);
    ResetLinked(m, csr);
    FencedRefines(d, Reset(m, csr), Nothing(), cs);
  }
}
