/** What `sfence.vma` with an address forgets, against the leaf that translates the address. */
module FenceSpan {
  import opened Words
  import opened PhysMemory
  import opened Pte
  import opened Translate
  import opened Csr
  import opened CsrTheorems
  import opened Tlb
  import opened Cpu
  import opened CpuInvariant
  import R = CpuRefinement
  import D = Predecode

  /** The entry is for a page that the leaf of `level` behind `va` translates. */
  predicate InSpan(e: Entry, va: addr, level: nat)
    requires level < 3
  {
    e.tag != INVALID && e.tag / Span(level) == va / Span(level)
  }

  /** No entry of any table, and not the code page, comes from that leaf. */
  ghost predicate Forgotten(s: State, va: addr, level: nat)
    requires level < 3
  {
    forall k: Slot :: !InSpan(Held(s, k), va, level)
  }

  /** Entries are for whole pages and sit where they are looked up. */
  lemma HeldPlaced(d: D.Decoder, s: State, k: Slot)
    requires Inv(d, s)
    ensures var e := Held(s, k); e.tag != INVALID ==>
      e.tag % PAGE == 0 && e.tag < SPACE && (k.Slot? ==> k.i < SIZE && k.i == IndexOf(e.tag))
  {
    hide ValidMem, CsrInv, CacheOk, Exclusive, CodeHeld, ContextOf, IndexOf, Leads;
  }

  /** The fence drops the entries of the page and keeps every other. */
  lemma FenceHeld(d: D.Decoder, s: State, va: addr, k: Slot)
    requires Inv(d, s)
    ensures var e, e' := Held(s, k), Held(FenceVma(s, va), k);
      if e.tag == TagOf(va) then e'.tag == INVALID else e' == e
  {
    HeldPlaced(d, s, k);
    NeverInvalid(va, 1);
    assert IndexOf(TagOf(va)) == IndexOf(va);
    hide Inv, IndexOf, TagOf;
  }

  lemma OwnSpan(va: addr, level: nat)
    requires level < 3
    ensures TagOf(va) / Span(level) == va / Span(level)
  {
    var p, o := va / 0x1000, va % 0x1000;
    if level == 1 {
      Within2M(p / 512, p % 512, o);
      Within2M(p / 512, p % 512, 0);
    } else if level == 2 {
      Within1G(p / 0x4_0000, p % 0x4_0000, o);
      Within1G(p / 0x4_0000, p % 0x4_0000, 0);
    }
  }

  lemma Within2M(q: nat, k: nat, o: nat)
    requires k < 512 && o < 0x1000
    ensures (0x20_0000 * q + 0x1000 * k + o) / 0x20_0000 == q
  {
  }

  lemma Within1G(q: nat, k: nat, o: nat)
    requires k < 0x4_0000 && o < 0x1000
    ensures (0x4000_0000 * q + 0x1000 * k + o) / 0x4000_0000 == q
  {
  }

  /** A page is its own span at the last level. */
  lemma OnePage(t: addr, va: addr)
    requires t % PAGE == 0 && t / Span(0) == va / Span(0)
    ensures t == TagOf(va)
  {
  }

  /**
   * `sfence.vma` with an address leaves nothing of the leaf that translates it exactly when nothing was cached of the other pages
   * that leaf translates.
   */
  lemma FenceCovers(d: D.Decoder, s: State, c: Ctx, va: addr)
    requires Inv(d, s) && Walk(s.mem, c, va).Leaf? && Walk(s.mem, c, va).level < 3
    ensures var level := Walk(s.mem, c, va).level;
      Forgotten(FenceVma(s, va), va, level) <==> forall k: Slot :: InSpan(Held(s, k), va, level) ==> Held(s, k).tag == TagOf(va)
  {
    hide Coherent, ValidMem, CsrInv, Walk, Span, TagOf, FenceVma, Held;
    var level := Walk(s.mem, c, va).level;
    OwnSpan(va, level);
    forall k: Slot
      ensures InSpan(Held(FenceVma(s, va), k), va, level) <==> InSpan(Held(s, k), va, level) && Held(s, k).tag != TagOf(va)
    {
      FenceHeld(d, s, va, k);
    }
  }

  /** So a leaf of the last level, which a guest can see in its page table, is always covered. */
  lemma SmallLeafCovered(d: D.Decoder, s: State, c: Ctx, va: addr)
    requires Inv(d, s) && Walk(s.mem, c, va).Leaf? && Walk(s.mem, c, va).level == 0
    ensures Forgotten(FenceVma(s, va), va, 0)
  {
    hide Coherent, ValidMem, CsrInv, Walk, Span, TagOf, FenceVma, Held;
    FenceCovers(d, s, c, va);
    forall k: Slot | InSpan(Held(s, k), va, 0) ensures Held(s, k).tag == TagOf(va) {
      HeldPlaced(d, s, k);
      OnePage(Held(s, k).tag, va);
    }
  }

  /** An access to memory leaves an entry for its page. */
  lemma LoadLeavesEntry(d: D.Decoder, s: State, w: World, t: addr)
    requires Inv(d, s) && t % PAGE == 0 && Readable(s, t)
    ensures var s' := MemRead(s, w, t, 1).0; Inv(d, s') && Held(s', Slot(Read, IndexOf(t))).tag == t
  {
    hide Coherent, ValidMem, CsrInv, ContextOf, Xlate, XlateMem, PlaceOf, LeafPage, Peek, PageBase;
    R.LoadFollows(d, s, w, t, 1);
    TranslatedPlaces(s, t);
    assert TagOf(t) == t && AlignedTag(t, 1) == t;
  }

  /** A load of the page finds RAM. */
  predicate Readable(s: State, t: addr)
  {
    var x := Xlate(s.mem, DataCtx(s), t, Read);
    x.Physical? && PlaceOf(s.mem, x.pa).InRam?
  }

  lemma TranslatedPlaces(s: State, t: addr)
    requires ValidMem(s.mem) && Readable(s, t)
    ensures var x := Xlate(s.mem, DataCtx(s), t, Read); PlaceOf(Translated(s, DataCtx(s), t, Read).mem, x.pa).InRam?
  {
    hide Xlate, XlateMem, PlaceOf, ContextOf, LeafPage, ValidMem;
    XlateShape(s.mem, DataCtx(s), t, Read);
    SamePlaces(s.mem, Translated(s, DataCtx(s), t, Read).mem, Xlate(s.mem, DataCtx(s), t, Read).pa);
  }

  /**
   * A leaf above the last level is not: once another page of it has been read, the fence leaves that page's translation where it
   * is, in a state that is as reachable as the one before.
   */
  lemma WideLeafUncovered(d: D.Decoder, s: State, w: World, va: addr, level: nat, t: addr)
    requires Inv(d, s) && level < 3 && t % PAGE == 0 && t / Span(level) == va / Span(level) && t != TagOf(va) && Readable(s, t)
    ensures var s' := MemRead(s, w, t, 1).0; Inv(d, s') && !Forgotten(FenceVma(s', va), va, level)
  {
    hide Coherent, ValidMem, CsrInv, Span, TagOf, FenceVma, Held, IndexOf, MemRead, Readable;
    LoadLeavesEntry(d, s, w, t);
    var s' := MemRead(s, w, t, 1).0;
    FenceHeld(d, s', va, Slot(Read, IndexOf(t)));
    AlignedIsValid(t);
    assert InSpan(Held(FenceVma(s', va), Slot(Read, IndexOf(t))), va, level);
  }

  lemma AlignedIsValid(t: nat)
    requires t % PAGE == 0
    ensures t != INVALID
  {
  }

  /** `sfence.vma` for the first `n` pages from `first` on. */
  ghost function Swept(s: State, first: addr, n: nat): (s': State)
    requires Shaped(s) && first + n * PAGE <= SPACE
    ensures Shaped(s')
  {
    if n == 0 then s else FenceVma(Swept(s, first, n - 1), first + (n - 1) * PAGE)
  }

  lemma {:induction false} SweptHeld(d: D.Decoder, s: State, first: addr, n: nat, k: Slot)
    requires Inv(d, s) && first % PAGE == 0 && first + n * PAGE <= SPACE
    ensures var e, e' := Held(s, k), Held(Swept(s, first, n), k);
      && Inv(d, Swept(s, first, n))
      && if e.tag != INVALID && first <= e.tag < first + n * PAGE then e'.tag == INVALID else e' == e
    decreases n
  {
    hide Coherent, ValidMem, CsrInv, FenceVma, Held;
    if n > 0 {
      SweptHeld(d, s, first, n - 1, k);
      var s1, a := Swept(s, first, n - 1), first + (n - 1) * PAGE;
      FenceVmaInv(d, s1, a);
      FenceHeld(d, s1, a, k);
      HeldPlaced(d, s, k);
      PageStart(first, n - 1);
      if Held(s, k).tag != INVALID && a <= Held(s, k).tag < a + PAGE {
        SamePage(Held(s, k).tag, a);
      }
    }
  }

  lemma PageStart(first: addr, i: nat)
    requires first % PAGE == 0 && first + i * PAGE < SPACE
    ensures (first + i * PAGE) % PAGE == 0 && TagOf(first + i * PAGE) == first + i * PAGE && first + i * PAGE != INVALID
  {
    AlignedIsValid(first + i * PAGE);
  }

  lemma SamePage(t: nat, a: nat)
    requires t % PAGE == 0 && a % PAGE == 0 && a <= t < a + PAGE
    ensures t == a
  {
  }

  /** What covers such a leaf: one fence for every page of it. */
  lemma SweepCovers(d: D.Decoder, s: State, va: addr, level: nat)
    requires Inv(d, s) && level < 3
    ensures var first := va - va % Span(level);
      first + Span(level) / PAGE * PAGE <= SPACE && Forgotten(Swept(s, first, Span(level) / PAGE), va, level)
  {
    hide Coherent, ValidMem, CsrInv, Held, Swept;
    var first, n := va - va % Span(level), Span(level) / PAGE;
    SpanPages(va, level);
    forall k: Slot ensures !InSpan(Held(Swept(s, first, n), k), va, level) {
      SweptHeld(d, s, first, n, k);
      if InSpan(Held(s, k), va, level) {
        InStretch(Held(s, k).tag, va, level);
      }
    }
  }

  lemma SpanPages(va: addr, level: nat)
    requires level < 3
    ensures var first := va - va % Span(level);
      first % PAGE == 0 && first + Span(level) <= SPACE && Span(level) / PAGE * PAGE == Span(level)
  {
    if level == 0 {
      Pages(va / 0x1000, 1);
    } else if level == 1 {
      Pages(va / 0x20_0000, 512);
    } else {
      Pages(va / 0x4000_0000, 0x4_0000);
    }
  }

  lemma Pages(q: nat, n: nat)
    requires n == 1 || n == 512 || n == 0x4_0000
    ensures 0x1000 * n * q % PAGE == 0
    ensures 0x1000 * n * q < SPACE ==> 0x1000 * n * q + 0x1000 * n <= SPACE
  {
    if n == 512 {
      assert 0x20_0000 * q == 0x1000 * (512 * q);
    } else if n == 0x4_0000 {
      assert 0x4000_0000 * q == 0x1000 * (0x4_0000 * q);
    }
  }

  lemma InStretch(t: nat, va: addr, level: nat)
    requires level < 3 && t / Span(level) == va / Span(level)
    ensures va - va % Span(level) <= t < va - va % Span(level) + Span(level)
  {
  }
}
