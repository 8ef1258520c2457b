/** What every reachable state of the memory side satisfies. */
module CpuInvariant {
  import opened Words
  import opened PhysMemory
  import opened Pte
  import opened Translate
  import opened Csr
  import opened CsrTheorems
  import opened Tlb
  import opened Cpu
  import D = Predecode

  /** A whole aligned page of an existing buffer. */
  predicate Backed(m: Mem, host: int, off: nat)
  {
    0 <= host < |m.ram| && off % PAGE == 0 && off + PAGE <= |m.ram[host]|
  }

  /** A fresh translation of the entry's page succeeds, leads to the entry's host page, and finds its leaf's A and D set. */
  predicate Leads(m: Mem, c: Ctx, e: Entry, acc: Access)
  {
    && e.tag < SPACE && e.host >= 0
    && Settled(m, c, e.tag, acc)
    && Xlate(m, c, e.tag, acc).Physical?
    && PlaceOf(m, Xlate(m, c, e.tag, acc).pa) == InRam(e.host, e.off)
  }

  /** The access an entry held in the place serves. */
  function AccessOf(k: Slot): Access { if k.CodeSlot? then Fetch else k.acc }

  /** A valid entry was filled under the current context and, unless it is stale, says what a walk would say. */
  ghost predicate EntryOk(m: Mem, stale: iset<Slot>, c: Ctx, e: Entry, k: Slot)
  {
    e.tag != INVALID ==>
      && e.tag % PAGE == 0 && e.tag < SPACE && e.filled == c && Backed(m, e.host, e.off)
      && (k !in stale ==> Leads(m, c, e, AccessOf(k)))
  }

  ghost predicate TableOk(m: Mem, stale: iset<Slot>, c: Ctx, t: seq<Entry>, acc: Access)
  {
    Placed(t) && forall i :: 0 <= i < SIZE ==> EntryOk(m, stale, c, t[i], Slot(acc, i))
  }

  /** Decoded slots say what the bytes now in RAM decode to, unless an A/D write has hit the page. */
  predicate PageOk(d: D.Decoder, m: Mem, tainted: set<PageId>, p: D.DecodedPage)
  {
    && Backed(m, p.host, p.off) && |p.slots| == D.SLOTS
    && ((p.host, p.off) !in tainted ==>
          forall k :: 0 <= k < D.SLOTS && p.slots[k].Some? ==>
            p.slots[k].value == D.DecodeSlot(d, m.ram[p.host], p.off, k))
  }

  predicate CacheOk(d: D.Decoder, m: Mem, tainted: set<PageId>, cache: D.Cache)
  {
    D.Placed(cache) && forall i :: 0 <= i < D.ENTRIES && cache[i].Some? ==> PageOk(d, m, tainted, cache[i].value)
  }

  /** No decoded page has a write entry. */
  predicate Exclusive(tlbW: seq<Entry>, cache: D.Cache)
    requires |cache| == D.ENTRIES
  {
    forall i :: 0 <= i < |tlbW| && tlbW[i].tag != INVALID ==> !D.Holds(cache, tlbW[i].host, tlbW[i].off)
  }

  /** The installed code page is a decoded page. */
  predicate CodeHeld(code: Entry, cache: D.Cache)
    requires |cache| == D.ENTRIES
  {
    code.tag != INVALID ==> D.Holds(cache, code.host, code.off)
  }

  ghost predicate TablesOk(s: State)
  {
    && TableOk(s.mem, s.stale, DataCtx(s), s.tlbR, Read)
    && TableOk(s.mem, s.stale, DataCtx(s), s.tlbW, Write)
    && TableOk(s.mem, s.stale, FetchCtx(s), s.tlbX, Fetch)
    && EntryOk(s.mem, s.stale, FetchCtx(s), s.code, CodeSlot)
  }

  /** The caches agree with memory and with each other. */
  ghost predicate Coherent(d: D.Decoder, s: State)
    requires Shaped(s)
  {
    TablesOk(s) && CacheOk(d, s.mem, s.tainted, s.cache) && Exclusive(s.tlbW, s.cache) && CodeHeld(s.code, s.cache)
  }

  ghost predicate Inv(d: D.Decoder, s: State)
  {
    Shaped(s) && ValidMem(s.mem) && CsrInv(s.csr) && Coherent(d, s)
  }

  // ---------------------------------------------------------------- changes of memory

  predicate SameShape(m: Mem, m': Mem)
  {
    m'.ranges == m.ranges && |m'.ram| == |m.ram| && forall h :: 0 <= h < |m.ram| ==> |m'.ram[h]| == |m.ram[h]|
  }

  lemma SameShapeValid(m: Mem, m': Mem)
    requires ValidMem(m) && SameShape(m, m')
    ensures ValidMem(m')
  {
  }

  /** Every entry that is not stale afterwards was not stale before, and its walk has not been damaged. */
  ghost predicate Calm(s: State, m': Mem, stale': iset<Slot>)
  {
    forall k: Slot :: k !in stale' ==> k !in s.stale && !Hurt(s, m', k)
  }

  lemma LeadsStill(m: Mem, m': Mem, c: Ctx, e: Entry, acc: Access)
    requires SameShape(m, m') && Leads(m, c, e, acc) && !Damaged(m, m', c, e.tag)
    ensures Leads(m', c, e, acc)
  {
    hide Damaged, Xlate, Settled, PlaceOf;
    UndamagedXlate(m, m', c, e.tag, acc);
    UndamagedSettled(m, m', c, e.tag, acc);
    SamePlaces(m, m', Xlate(m, c, e.tag, acc).pa);
  }

  lemma EntryStill(s: State, m': Mem, stale': iset<Slot>, k: Slot)
    requires SameShape(s.mem, m') && Calm(s, m', stale') && EntryOk(s.mem, s.stale, SlotCtx(s, k), Held(s, k), k)
    ensures EntryOk(m', stale', SlotCtx(s, k), Held(s, k), k)
  {
    hide Damaged, Leads, SlotCtx, Held;
    var e := Held(s, k);
    if e.tag != INVALID && k !in stale' {
      LeadsStill(s.mem, m', SlotCtx(s, k), e, AccessOf(k));
    }
  }

  lemma TablesStill(s: State, m': Mem, stale': iset<Slot>)
    requires Shaped(s) && TablesOk(s) && SameShape(s.mem, m') && Calm(s, m', stale')
    ensures TableOk(m', stale', DataCtx(s), s.tlbR, Read)
    ensures TableOk(m', stale', DataCtx(s), s.tlbW, Write)
    ensures TableOk(m', stale', FetchCtx(s), s.tlbX, Fetch)
    ensures EntryOk(m', stale', FetchCtx(s), s.code, CodeSlot)
  {
    hide EntryOk, Calm, SameShape, ContextOf;
    forall i | 0 <= i < SIZE ensures EntryOk(m', stale', DataCtx(s), s.tlbR[i], Slot(Read, i)) {
      EntryStill(s, m', stale', Slot(Read, i));
    }
    forall i | 0 <= i < SIZE ensures EntryOk(m', stale', DataCtx(s), s.tlbW[i], Slot(Write, i)) {
      EntryStill(s, m', stale', Slot(Write, i));
    }
    forall i | 0 <= i < SIZE ensures EntryOk(m', stale', FetchCtx(s), s.tlbX[i], Slot(Fetch, i)) {
      EntryStill(s, m', stale', Slot(Fetch, i));
    }
    EntryStill(s, m', stale', CodeSlot);
  }

  /** The bytes of one page are what they were. */
  predicate SamePageBytes(m: Mem, m': Mem, host: int, off: nat)
    requires SameShape(m, m')
  {
    Backed(m, host, off) ==> forall o :: off <= o < off + PAGE ==> m.ram[host][o] == m'.ram[host][o]
  }

  lemma SameBytesSameSlot(d: D.Decoder, m: Mem, m': Mem, host: int, off: nat, k: nat)
    requires SameShape(m, m') && Backed(m, host, off) && SamePageBytes(m, m', host, off) && k < D.SLOTS
    ensures D.DecodeSlot(d, m'.ram[host], off, k) == D.DecodeSlot(d, m.ram[host], off, k)
  {
    hide Le2, D.IsCompressed;
    Le2Same(m.ram[host], m'.ram[host], off + k * 2);
    if k < D.SLOTS - 1 {
      Le2Same(m.ram[host], m'.ram[host], off + k * 2 + 2);
    }
  }

  lemma Le2Same(s: seq<bv8>, s': seq<bv8>, o: nat)
    requires o + 2 <= |s| && o + 2 <= |s'| && s[o] == s'[o] && s[o + 1] == s'[o + 1]
    ensures Le2(s, o) == Le2(s', o)
  {
  }

  lemma PageStill(d: D.Decoder, m: Mem, m': Mem, tainted: set<PageId>, tainted': set<PageId>, p: D.DecodedPage)
    requires SameShape(m, m') && PageOk(d, m, tainted, p)
    requires (p.host, p.off) !in tainted' ==> (p.host, p.off) !in tainted && SamePageBytes(m, m', p.host, p.off)
    ensures PageOk(d, m', tainted', p)
  {
    hide D.DecodeSlot, SamePageBytes;
    if (p.host, p.off) !in tainted' {
      forall k | 0 <= k < D.SLOTS && p.slots[k].Some?
        ensures p.slots[k].value == D.DecodeSlot(d, m'.ram[p.host], p.off, k)
      {
        SameBytesSameSlot(d, m, m', p.host, p.off, k);
      }
    }
  }

  /** The cache survives a change of memory that keeps its untainted pages. */
  lemma CacheStill(d: D.Decoder, m: Mem, m': Mem, tainted: set<PageId>, tainted': set<PageId>, cache: D.Cache)
    requires SameShape(m, m') && CacheOk(d, m, tainted, cache)
    requires forall i :: 0 <= i < D.ENTRIES && cache[i].Some? && (cache[i].value.host, cache[i].value.off) !in tainted' ==>
      (cache[i].value.host, cache[i].value.off) !in tainted && SamePageBytes(m, m', cache[i].value.host, cache[i].value.off)
    ensures CacheOk(d, m', tainted', cache)
  {
    hide PageOk, SamePageBytes, SameShape;
    forall i | 0 <= i < D.ENTRIES && cache[i].Some? ensures PageOk(d, m', tainted', cache[i].value) {
      PageStill(d, m, m', tainted, tainted', cache[i].value);
    }
  }

  // ---------------------------------------------------------------- translations

  lemma XlateShape(m: Mem, c: Ctx, va: addr, acc: Access)
    requires ValidMem(m)
    ensures SameShape(m, XlateMem(m, c, va, acc)) && ValidMem(XlateMem(m, c, va, acc))
  {
    hide XlateMem, ValidMem, Walk, Xlate, PlaceOf, PteAt;
    WalkAtomic(m, c, va, acc);
    UpdateIsAdExtMem(m, c, va, acc);
  }

  /** A translation's own write damages no entry. */
  lemma XlateCalm(s: State, c: Ctx, va: addr, acc: Access)
    requires ValidMem(s.mem)
    ensures Calm(s, XlateMem(s.mem, c, va, acc), s.stale)
  {
    hide XlateMem, ValidMem, Damaged, AdExtMem, SlotCtx, Held;
    var m' := XlateMem(s.mem, c, va, acc);
    UpdateIsAdExtMem(s.mem, c, va, acc);
    forall k: Slot | k !in s.stale ensures !Hurt(s, m', k) {
      var e := Held(s, k);
      if e.tag < SPACE {
        AdExtMemUndamaged(s.mem, m', SlotCtx(s, k), e.tag);
      }
    }
  }

  /** Eight aligned bytes lie in one page. */
  lemma WordInPage(off: nat, o: nat, page: nat)
    requires off % 8 == 0 && page % PAGE == 0 && page <= o < page + PAGE && off <= o < off + 8
    ensures off - off % PAGE == page
  {
    var a, q := off / 8, page / PAGE;
    assert off == 8 * a && page == PAGE * q;
    WordAbove(a, q, o);
    PageRemainder(q, off - page);
  }

  lemma WordAbove(a: nat, q: nat, o: nat)
    requires PAGE * q <= o < PAGE * q + PAGE && 8 * a <= o < 8 * a + 8
    ensures PAGE * q <= 8 * a < PAGE * q + PAGE
  {
  }

  lemma PageRemainder(q: nat, r: nat)
    requires r < PAGE
    ensures (PAGE * q + r) % PAGE == r
  {
  }

  /** A translation writes inside its leaf's page only. */
  lemma XlateOtherPages(m: Mem, c: Ctx, va: addr, acc: Access, host: int, off: nat)
    requires ValidMem(m) && Backed(m, host, off) && (host, off) !in LeafPage(m, c, va, acc)
    ensures SameShape(m, XlateMem(m, c, va, acc)) && SamePageBytes(m, XlateMem(m, c, va, acc), host, off)
  {
    hide XlateMem, ValidMem, Xlate, PteAt, PlaceOf, WalkFrom, Canonical;
    var m' := XlateMem(m, c, va, acc);
    XlateShape(m, c, va, acc);
    WalkAtomic(m, c, va, acc);
    if m' != m {
      var a := Walk(m, c, va).pteAddr;
      var p := PlaceOf(m, a);
      WalkedAligned(m, c.root * PAGE, 2, va);
      PlaceBounds(m, a);
      EightInPage(a, p.off);
      forall o | off <= o < off + PAGE ensures m.ram[host][o] == m'.ram[host][o] {
        if host == p.host && p.off <= o < p.off + 8 {
          WordInPage(p.off, o, off);
        }
      }
    }
  }

  lemma TranslatedInv(d: D.Decoder, s: State, c: Ctx, va: addr, acc: Access)
    requires Inv(d, s)
    ensures Inv(d, Translated(s, c, va, acc)) && SameShape(s.mem, Translated(s, c, va, acc).mem)
  {
    hide XlateMem, ValidMem, CsrInv, LeafPage, TableOk, EntryOk, SamePageBytes, Calm, SameShape, PageOk, ContextOf;
    var m' := XlateMem(s.mem, c, va, acc);
    var tainted' := s.tainted + LeafPage(s.mem, c, va, acc);
    XlateShape(s.mem, c, va, acc);
    XlateCalm(s, c, va, acc);
    TablesStill(s, m', s.stale);
    forall i | 0 <= i < D.ENTRIES && s.cache[i].Some? && (s.cache[i].value.host, s.cache[i].value.off) !in tainted'
      ensures SamePageBytes(s.mem, m', s.cache[i].value.host, s.cache[i].value.off)
    {
      CachedBacked(d, s.mem, s.tainted, s.cache, i);
      XlateOtherPages(s.mem, c, va, acc, s.cache[i].value.host, s.cache[i].value.off);
    }
    CacheStill(d, s.mem, m', s.tainted, tainted', s.cache);
  }

  lemma CachedBacked(d: D.Decoder, m: Mem, tainted: set<PageId>, cache: D.Cache, i: nat)
    requires CacheOk(d, m, tainted, cache) && i < D.ENTRIES && cache[i].Some?
    ensures Backed(m, cache[i].value.host, cache[i].value.off)
  {
  }

  // ---------------------------------------------------------------- fills

  /** Where a translation leads, its whole page leads. */
  lemma WholePage(m: Mem, c: Ctx, va: addr, acc: Access, tag: addr)
    requires ValidMem(m) && Xlate(m, c, va, acc).Physical? && PlaceOf(m, Xlate(m, c, va, acc).pa).InRam?
    requires tag / PAGE == va / PAGE
    ensures var p := PlaceOf(m, Xlate(m, c, va, acc).pa);
      && Xlate(m, c, tag, acc).Physical?
      && p.off >= va % PAGE && p.off % PAGE == va % PAGE && Backed(m, p.host, p.off - va % PAGE)
      && PlaceOf(m, Xlate(m, c, tag, acc).pa) == InRam(p.host, p.off - va % PAGE + tag % PAGE)
  {
    hide ValidMem, Xlate, PlaceOf, XlateMem, Settled, Visits;
    PageUniform(m, c, va, tag, acc);
    PageUniform(m, c, tag, va, acc);
    var pa, pb := Xlate(m, c, va, acc).pa, Xlate(m, c, tag, acc).pa;
    SamePageNumber(pa, pb);
    PlaceOfPage(m, pa, pb);
    PlaceBounds(m, pa);
    PageStart(PlaceOf(m, pa).off);
  }

  lemma SamePageNumber(pa: nat, pb: nat)
    requires pa - pa % PAGE == pb - pb % PAGE
    ensures pa / PAGE == pb / PAGE
  {
  }

  lemma PageStart(off: nat)
    ensures (off - off % PAGE) % PAGE == 0
  {
  }

  lemma TagInPage(va: addr)
    ensures TagOf(va) / PAGE == va / PAGE && TagOf(va) % PAGE == 0 && IndexOf(TagOf(va)) == IndexOf(va)
  {
  }

  /** The entry filled in after a translation is as good as the translation. */
  lemma FilledLeads(m: Mem, c: Ctx, va: addr, acc: Access)
    requires ValidMem(m) && Xlate(m, c, va, acc).Physical?
    requires PlaceOf(XlateMem(m, c, va, acc), Xlate(m, c, va, acc).pa).InRam?
    ensures var m' := XlateMem(m, c, va, acc); var p := PlaceOf(m', Xlate(m, c, va, acc).pa);
      && p.off >= va % PAGE && Backed(m', p.host, PageBase(p.off, va)) && p.off % PAGE == va % PAGE
      && Leads(m', c, Entry(TagOf(va), p.host, PageBase(p.off, va), c), acc)
  {
    hide ValidMem, Xlate, PlaceOf, XlateMem, Settled, Visits, Backed;
    var m' := XlateMem(m, c, va, acc);
    XlateShape(m, c, va, acc);
    XlateSettles(m, c, va, acc);
    UpdatePreservesMeaning(m, c, va, acc, c, va, acc);
    TagInPage(va);
    WholePage(m', c, va, acc, TagOf(va));
    PageUniform(m', c, va, TagOf(va), acc);
  }

  lemma TableFilled(m: Mem, stale: iset<Slot>, c: Ctx, t: seq<Entry>, acc: Access, va: addr, host: nat, off: nat)
    requires TableOk(m, stale, c, t, acc) && Backed(m, host, off) && Leads(m, c, Entry(TagOf(va), host, off, c), acc)
    ensures TableOk(m, stale - iset{Slot(acc, IndexOf(va))}, c, t[IndexOf(va) := Entry(TagOf(va), host, off, c)], acc)
  {
    hide Leads, Backed;
    TagInPage(va);
  }

  /** Taking the mark off one place leaves the other tables as good as they were. */
  lemma OtherTable(m: Mem, stale: iset<Slot>, c: Ctx, t: seq<Entry>, acc: Access, k: Slot)
    requires TableOk(m, stale, c, t, acc) && (k.CodeSlot? || k.acc != acc)
    ensures TableOk(m, stale - iset{k}, c, t, acc)
  {
    hide Leads, Backed;
    forall i | 0 <= i < SIZE ensures EntryOk(m, stale - iset{k}, c, t[i], Slot(acc, i)) {
      assert EntryOk(m, stale, c, t[i], Slot(acc, i));
    }
  }

  /** The fill that follows a translation. */
  lemma FilledInv(d: D.Decoder, s: State, va: addr, host: nat, off: nat, acc: Access)
    requires Inv(d, s) && Backed(s.mem, host, PageBase(off, va))
    requires acc == Write ==> !D.Holds(s.cache, host, PageBase(off, va))
    requires var c := SlotCtx(s, Slot(acc, IndexOf(va))); Leads(s.mem, c, Entry(TagOf(va), host, PageBase(off, va), c), acc)
    ensures Inv(d, Filled(s, va, host, off, acc))
  {
    hide ValidMem, CsrInv, TableOk, Leads, Backed, ContextOf, CacheOk, PageBase, IndexOf, D.Holds, TagOf;
    var k := Slot(acc, IndexOf(va));
    var base := PageBase(off, va);
    match acc {
      case Read => TableFilled(s.mem, s.stale, DataCtx(s), s.tlbR, Read, va, host, base);
      case Write => TableFilled(s.mem, s.stale, DataCtx(s), s.tlbW, Write, va, host, base);
      case Fetch => TableFilled(s.mem, s.stale, FetchCtx(s), s.tlbX, Fetch, va, host, base);
    }
    if acc != Read {
      OtherTable(s.mem, s.stale, DataCtx(s), s.tlbR, Read, k);
    }
    if acc != Write {
      OtherTable(s.mem, s.stale, DataCtx(s), s.tlbW, Write, k);
    }
    if acc != Fetch {
      OtherTable(s.mem, s.stale, FetchCtx(s), s.tlbX, Fetch, k);
    }
  }

  // ---------------------------------------------------------------- decoded pages dropped and installed

  lemma DropInv(d: D.Decoder, s: State, host: int, off: nat)
    requires Inv(d, s)
    ensures Inv(d, DropPage(s, host, off)) && !D.Holds(DropPage(s, host, off).cache, host, off)
  {
    hide ValidMem, CsrInv, PageOk, TableOk, Leads, Backed, ContextOf;
    OtherTable(s.mem, s.stale, DataCtx(s), s.tlbR, Read, CodeSlot);
    OtherTable(s.mem, s.stale, DataCtx(s), s.tlbW, Write, CodeSlot);
    OtherTable(s.mem, s.stale, FetchCtx(s), s.tlbX, Fetch, CodeSlot);
  }

  /** The entry becomes the code page, as stale as it is in its table. */
  lemma CodeInstalled(s: State, e: Entry)
    requires Shaped(s) && TablesOk(s) && EntryOk(s.mem, s.stale, FetchCtx(s), e, Slot(Fetch, IndexOf(e.tag)))
    ensures var s' := Install(s, e);
      && TableOk(s.mem, s'.stale, DataCtx(s), s.tlbR, Read) && TableOk(s.mem, s'.stale, FetchCtx(s), s.tlbX, Fetch)
      && TableOk(s.mem, s'.stale, DataCtx(s), s.tlbW, Write) && EntryOk(s.mem, s'.stale, FetchCtx(s), e, CodeSlot)
  {
    hide Leads, Backed, ContextOf, IndexOf, D.Holds, Placed;
    var s' := Install(s, e);
    forall i | 0 <= i < SIZE
      ensures EntryOk(s.mem, s'.stale, DataCtx(s), s.tlbR[i], Slot(Read, i))
      ensures EntryOk(s.mem, s'.stale, DataCtx(s), s.tlbW[i], Slot(Write, i))
      ensures EntryOk(s.mem, s'.stale, FetchCtx(s), s.tlbX[i], Slot(Fetch, i))
    {
      assert EntryOk(s.mem, s.stale, DataCtx(s), s.tlbR[i], Slot(Read, i));
      assert EntryOk(s.mem, s.stale, DataCtx(s), s.tlbW[i], Slot(Write, i));
      assert EntryOk(s.mem, s.stale, FetchCtx(s), s.tlbX[i], Slot(Fetch, i));
    }
  }

  /** A fresh page for the entry, wherever it lands in the cache. */
  lemma InstallInv(d: D.Decoder, s: State, e: Entry)
    requires Inv(d, s) && e.tag != INVALID && EntryOk(s.mem, s.stale, FetchCtx(s), e, Slot(Fetch, IndexOf(e.tag)))
    ensures Inv(d, Install(s, e)) && Install(s, e).code == e && Install(s, e).mem == s.mem
  {
    hide ValidMem, CsrInv, Leads, D.DecodeSlot, ContextOf, IndexOf, TableOk;
    var s' := Install(s, e);
    CodeInstalled(s, e);
    if !D.Holds(s.cache, e.host, e.off) {
      PurgedTable(s.mem, s'.stale, DataCtx(s), s.tlbW, e);
      forall i | 0 <= i < D.ENTRIES && s'.cache[i].Some? ensures PageOk(d, s.mem, s'.tainted, s'.cache[i].value) {
        if i != D.CacheIndex(e.off) {
          assert s'.cache[i] == s.cache[i];
          assert PageOk(d, s.mem, s.tainted, s.cache[i].value);
          assert (s.cache[i].value.host, s.cache[i].value.off) != (e.host, e.off);
        }
      }
    }
  }

  lemma PurgedTable(m: Mem, stale: iset<Slot>, c: Ctx, t: seq<Entry>, e: Entry)
    requires TableOk(m, stale, c, t, Write)
    ensures TableOk(m, stale, c, Purge(t, e.host, e.off), Write)
  {
    hide Leads, Backed, ContextOf;
  }

  // ---------------------------------------------------------------- stores

  /** No decoded page shares a byte with the stretch. */
  predicate Undecoded(cache: D.Cache, host: int, off: nat, n: nat)
    requires |cache| == D.ENTRIES
  {
    forall i :: 0 <= i < D.ENTRIES && cache[i].Some? && cache[i].value.host == host ==>
      cache[i].value.off + PAGE <= off || off + n <= cache[i].value.off
  }

  /** A store into bytes that are not decoded. */
  lemma StoredInv(d: D.Decoder, s: State, host: nat, off: nat, b: seq<bv8>)
    requires Inv(d, s) && InBounds(s.mem, host, off, |b|) && Undecoded(s.cache, host, off, |b|)
    ensures Inv(d, Stored(s, host, off, b))
  {
    hide PokeBytes, ValidMem, CsrInv, TableOk, EntryOk, PageOk, SamePageBytes, Damaged, ContextOf;
    var m' := PokeBytes(s.mem, host, off, b);
    StoredTables(s, host, off, b);
    forall i | 0 <= i < D.ENTRIES && s.cache[i].Some?
      ensures SamePageBytes(s.mem, m', s.cache[i].value.host, s.cache[i].value.off)
    {
      var p := s.cache[i].value;
      CachedBacked(d, s.mem, s.tainted, s.cache, i);
      PokedPage(s.mem, host, off, b, p.host, p.off);
    }
    CacheStill(d, s.mem, m', s.tainted, s.tainted, s.cache);
  }

  lemma PokedPage(m: Mem, host: nat, off: nat, b: seq<bv8>, h: int, o: nat)
    requires InBounds(m, host, off, |b|) && Backed(m, h, o)
    requires h != host || off + |b| <= o || o + PAGE <= off
    ensures SamePageBytes(m, PokeBytes(m, host, off, b), h, o)
  {
  }

  /** A stretch inside a page that is not held. */
  lemma UndecodedInPage(d: D.Decoder, m: Mem, tainted: set<PageId>, cache: D.Cache, host: int, off: nat, n: nat, page: nat)
    requires CacheOk(d, m, tainted, cache) && !D.Holds(cache, host, page)
    requires page % PAGE == 0 && page <= off && off + n <= page + PAGE
    ensures Undecoded(cache, host, off, n)
  {
    forall i | 0 <= i < D.ENTRIES && cache[i].Some? && cache[i].value.host == host
      ensures cache[i].value.off + PAGE <= off || off + n <= cache[i].value.off
    {
      CachedBacked(d, m, tainted, cache, i);
      assert cache[i].value.off != page;
      PagesApart(cache[i].value.off, page);
    }
  }

  lemma PagesApart(a: nat, b: nat)
    requires a % PAGE == 0 && b % PAGE == 0 && a != b
    ensures a + PAGE <= b || b + PAGE <= a
  {
  }

  lemma StoredTables(s: State, host: nat, off: nat, b: seq<bv8>)
    requires Shaped(s) && ValidMem(s.mem) && TablesOk(s)
    ensures Shaped(Stored(s, host, off, b)) && ValidMem(Stored(s, host, off, b).mem) && TablesOk(Stored(s, host, off, b))
    ensures SameShape(s.mem, Stored(s, host, off, b).mem)
  {
    hide PokeBytes, ValidMem, CsrInv, TableOk, EntryOk, Damaged, ContextOf;
    var s' := Stored(s, host, off, b);
    SameShapeValid(s.mem, s'.mem);
    assert Calm(s, s'.mem, s'.stale);
    TablesStill(s, s'.mem, s'.stale);
  }

  // ---------------------------------------------------------------- flushes

  lemma EmptyTableOk(m: Mem, stale: iset<Slot>, c: Ctx, acc: Access)
    ensures TableOk(m, stale, c, EmptyTable(), acc)
  {
  }

  lemma FlushInv(d: D.Decoder, s: State, csr: Csrs, flush: bool)
    requires Inv(d, s) && CsrInv(csr) && (flush || SameContext(s.csr, csr))
    ensures Inv(d, WithCsr(s, csr, flush)) && Inv(d, FlushAll(s))
  {
    hide ValidMem, CsrInv, PageOk, TableOk, Leads, Backed, ContextOf;
    var s' := WithCsr(s, csr, flush);
    EmptyTableOk(s.mem, iset{}, DataCtx(s'), Read);
    EmptyTableOk(s.mem, iset{}, DataCtx(s'), Write);
    EmptyTableOk(s.mem, iset{}, FetchCtx(s'), Fetch);
    EmptyTableOk(s.mem, iset{}, DataCtx(s), Read);
    EmptyTableOk(s.mem, iset{}, DataCtx(s), Write);
    EmptyTableOk(s.mem, iset{}, FetchCtx(s), Fetch);
  }

  lemma FencedTable(m: Mem, stale: iset<Slot>, c: Ctx, t: seq<Entry>, acc: Access, va: addr)
    requires TableOk(m, stale, c, t, acc)
    ensures TableOk(m, stale, c, FlushPage(t, va), acc)
  {
    hide Leads, Backed, FlushPage;
    FlushPageExact(t, va);
    forall i | 0 <= i < SIZE ensures EntryOk(m, stale, c, FlushPage(t, va)[i], Slot(acc, i)) {
      assert EntryOk(m, stale, c, t[i], Slot(acc, i));
      FlushedEntry(t, va, i);
    }
  }

  lemma FlushedEntry(t: seq<Entry>, va: addr, i: nat)
    requires |t| == SIZE && i < SIZE
    ensures FlushPage(t, va)[i] == t[i] || FlushPage(t, va)[i] == EMPTY
  {
  }

  lemma FenceVmaInv(d: D.Decoder, s: State, va: addr)
    requires Inv(d, s)
    ensures Inv(d, FenceVma(s, va))
  {
    hide ValidMem, CsrInv, PageOk, TableOk, Leads, Backed, ContextOf, FlushPage;
    FencedTable(s.mem, s.stale, DataCtx(s), s.tlbR, Read, va);
    FencedTable(s.mem, s.stale, DataCtx(s), s.tlbW, Write, va);
    FencedTable(s.mem, s.stale, FetchCtx(s), s.tlbX, Fetch, va);
    forall i | 0 <= i < SIZE && FlushPage(s.tlbW, va)[i].tag != INVALID
      ensures FlushPage(s.tlbW, va)[i] == s.tlbW[i]
    {
      FlushedEntry(s.tlbW, va, i);
    }
  }

  lemma FenceIInv(d: D.Decoder, s: State)
    requires Inv(d, s)
    ensures Inv(d, FenceI(s))
  {
    hide ValidMem, CsrInv, TableOk, Leads, Backed, ContextOf;
  }
}
