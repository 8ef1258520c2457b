/** The cached machine against the uncached one. */
module CpuRefinement {
  import opened Words
  import opened PhysMemory
  import opened Pte
  import opened Translate
  import opened Csr
  import opened CsrTheorems
  import opened Tlb
  import opened Cpu
  import opened CpuInvariant
  import U = Uncached
  import D = Predecode

  /** After one operation the invariant holds again, no register has changed, and the answer is a value or a fault. */
  ghost predicate Sound(d: D.Decoder, s: State, r: (State, Outcome))
  {
    Inv(d, r.0) && r.0.csr == s.csr && (s.exposed ==> r.0.exposed) && r.1 != Crash
  }

  /** Moreover, unless something stale has been used, the uncached machine does the same. */
  ghost predicate Follows(d: D.Decoder, s: State, r: (State, Outcome), p: U.Result)
  {
    Sound(d, s, r) && (!r.0.exposed ==> (r.0.mem, r.1) == p)
  }

  // ---------------------------------------------------------------- hits and misses

  /** A hit on an entry that leads where the walk leads: the walk would not fault, would write nothing, and finds the same byte. */
  lemma HitIsFresh(m: Mem, c: Ctx, e: Entry, va: addr, acc: Access)
    requires ValidMem(m) && Leads(m, c, e, acc) && e.tag == TagOf(va)
    ensures Xlate(m, c, va, acc).Physical? && XlateMem(m, c, va, acc) == m
    ensures PlaceOf(m, Xlate(m, c, va, acc).pa) == InRam(e.host, e.off + va % PAGE)
  {
    hide ValidMem, Xlate, PlaceOf, XlateMem, Settled, Visits;
    TagInPage(va);
    WholePage(m, c, e.tag, acc, va);
    PageUniform(m, c, e.tag, va, acc);
    SettledWritesNothing(m, c, e.tag, acc);
  }

  lemma FaultNeverCrashes(s: State, data: bool, va: addr, acc: Access)
    requires CsrInv(s.csr) && !Xlate(s.mem, ContextOf(s.csr, data), va, acc).Physical?
    ensures FaultOf(Xlate(s.mem, ContextOf(s.csr, data), va, acc), acc, va) != Crash
  {
    hide CsrInv, Xlate, ContextOf;
    NoDeadModes(s.csr, s.mem, data, va, acc);
  }

  /** The entry a hit comes from. */
  lemma EntryAt(m: Mem, stale: iset<Slot>, c: Ctx, t: seq<Entry>, acc: Access, va: addr, n: nat)
    requires TableOk(m, stale, c, t, acc) && IsSize(n) && Hit(t[IndexOf(va)], va, n)
    ensures var e := t[IndexOf(va)];
      e.tag == TagOf(va) && va % n == 0 && Backed(m, e.host, e.off) && (Slot(acc, IndexOf(va)) !in stale ==> Leads(m, c, e, acc))
  {
    hide Leads, Backed, IndexOf;
    var e := t[IndexOf(va)];
    assert EntryOk(m, stale, c, e, Slot(acc, IndexOf(va)));
    NeverInvalid(va, n);
    HitMeans(e, va, n);
  }

  lemma AlignedInPage(va: addr, n: nat)
    requires IsSize(n) && va % n == 0
    ensures va % PAGE + n <= PAGE
  {
    var k, q := va / PAGE, va % PAGE;
    assert va == 4096 * k + q;
    if n == 2 {
      Remainder2(2048 * k, q);
    } else if n == 4 {
      Remainder4(1024 * k, q);
    } else if n == 8 {
      Remainder8(512 * k, q);
    }
  }

  lemma Remainder2(j: nat, q: nat)
    ensures (2 * j + q) % 2 == q % 2
  {
  }

  lemma Remainder4(j: nat, q: nat)
    ensures (4 * j + q) % 4 == q % 4
  {
  }

  lemma Remainder8(j: nat, q: nat)
    ensures (8 * j + q) % 8 == q % 8
  {
  }

  // ---------------------------------------------------------------- loads

  lemma ReadSlowFollows(d: D.Decoder, s: State, w: World, va: addr, n: nat)
    requires Inv(d, s) && IsSize(n)
    ensures Follows(d, s, ReadSlow(s, w, va, n), U.LoadAligned(s.mem, DataCtx(s), w, va, n))
  {
    hide ValidMem, CsrInv, Xlate, PlaceOf, XlateMem, TableOk, EntryOk, CacheOk;
    hide Exclusive, CodeHeld, Peek, Leads, Backed, ContextOf, LeafPage, PageBase, IndexOf;
    var c := DataCtx(s);
    if !Xlate(s.mem, c, va, Read).Physical? {
      FaultNeverCrashes(s, true, va, Read);
    } else {
      TranslatedInv(d, s, c, va, Read);
      var s1 := Translated(s, c, va, Read);
      var p := PlaceOf(s1.mem, Xlate(s.mem, c, va, Read).pa);
      if p.InRam? {
        FilledLeads(s.mem, c, va, Read);
        FilledInv(d, s1, va, p.host, p.off, Read);
      }
    }
  }

  lemma ReadAlignedFollows(d: D.Decoder, s: State, w: World, va: addr, n: nat)
    requires Inv(d, s) && IsSize(n)
    ensures Follows(d, s, ReadAligned(s, w, va, n), U.LoadAligned(s.mem, DataCtx(s), w, va, n))
  {
    hide ValidMem, CsrInv, Xlate, PlaceOf, XlateMem, TableOk, EntryOk, CacheOk;
    hide Exclusive, CodeHeld, Peek, Leads, Backed, ContextOf, ReadSlow, Hit;
    var e := s.tlbR[IndexOf(va)];
    if Hit(e, va, n) {
      EntryAt(s.mem, s.stale, DataCtx(s), s.tlbR, Read, va, n);
      if Slot(Read, IndexOf(va)) !in s.stale {
        HitIsFresh(s.mem, DataCtx(s), e, va, Read);
      }
    } else {
      ReadSlowFollows(d, s, w, va, n);
    }
  }

  /** A load of any size and alignment. */
  lemma LoadFollows(d: D.Decoder, s: State, w: World, va: addr, n: nat)
    requires Inv(d, s) && IsSize(n)
    ensures Follows(d, s, MemRead(s, w, va, n), U.Load(s.mem, DataCtx(s), w, va, n))
  {
    hide Coherent, ValidMem, CsrInv, ContextOf, ReadAligned, U.LoadAligned, Join;
    if va % n == 0 {
      ReadAlignedFollows(d, s, w, va, n);
    } else {
      ReadAlignedFollows(d, s, w, FirstPart(va, n), PartSize(n));
      var r1 := ReadAligned(s, w, FirstPart(va, n), PartSize(n));
      if r1.1.Done? {
        ReadAlignedFollows(d, r1.0, w, SecondPart(va, n), PartSize(n));
      }
    }
  }

  // ---------------------------------------------------------------- stores

  lemma WriteSlowFollows(d: D.Decoder, s: State, va: addr, n: nat, v: bv64)
    requires Inv(d, s) && IsSize(n) && va % n == 0
    ensures Follows(d, s, WriteSlow(s, va, n, v), U.StoreAligned(s.mem, DataCtx(s), va, n, v))
  {
    hide ValidMem, CsrInv, Xlate, PlaceOf, XlateMem, TableOk, EntryOk, CacheOk;
    hide PokeBytes, Leads, Backed, ContextOf, LeafPage, BytesOf, Byte, Damaged;
    var c := DataCtx(s);
    if !Xlate(s.mem, c, va, Write).Physical? {
      FaultNeverCrashes(s, true, va, Write);
    } else {
      TranslatedInv(d, s, c, va, Write);
      var s1 := Translated(s, c, va, Write);
      var p := PlaceOf(s1.mem, Xlate(s.mem, c, va, Write).pa);
      if p.InRam? {
        FilledLeads(s.mem, c, va, Write);
        WriteFill(d, s1, c, va, p, n, BytesOf(v, n));
      }
    }
  }

  /** Filling the write entry and dropping the page's decoded form, in that order. */
  lemma FillThenDrop(d: D.Decoder, s: State, c: Ctx, va: addr, host: nat, off: nat)
    requires Inv(d, s) && c == DataCtx(s) && Backed(s.mem, host, PageBase(off, va))
    requires Leads(s.mem, c, Entry(TagOf(va), host, PageBase(off, va), c), Write)
    ensures var s3 := DropPage(Filled(s, va, host, off, Write), host, PageBase(off, va));
      Inv(d, s3) && s3.mem == s.mem && !D.Holds(s3.cache, host, PageBase(off, va))
  {
    hide Coherent, ValidMem, CsrInv, Leads, ContextOf, IndexOf, TagOf, Backed, D.Holds;
    var base := PageBase(off, va);
    DropInv(d, s, host, base);
    DropThenFill(s, va, host, off);
    FilledInv(d, DropPage(s, host, base), va, host, off, Write);
  }

  /** And then storing into the page. */
  lemma WriteFill(d: D.Decoder, s: State, c: Ctx, va: addr, p: Place, n: nat, b: seq<bv8>)
    requires Inv(d, s) && c == DataCtx(s) && IsSize(n) && va % n == 0 && |b| == n && p.InRam? && p.off >= va % PAGE
    requires Backed(s.mem, p.host, PageBase(p.off, va)) && Leads(s.mem, c, Entry(TagOf(va), p.host, PageBase(p.off, va), c), Write)
    ensures var s3 := DropPage(Filled(s, va, p.host, p.off, Write), p.host, PageBase(p.off, va));
      s3.mem == s.mem && Inv(d, Stored(s3, p.host, p.off, b))
  {
    hide Coherent, ValidMem, CsrInv, PokeBytes, Leads, ContextOf, Damaged, IndexOf, TagOf, Stored, DropPage, Filled;
    var base := PageBase(p.off, va);
    FillThenDrop(d, s, c, va, p.host, p.off);
    var s3 := DropPage(Filled(s, va, p.host, p.off, Write), p.host, base);
    AlignedInPage(va, n);
    CacheOfInv(d, s3);
    UndecodedInPage(d, s3.mem, s3.tainted, s3.cache, p.host, p.off, n, base);
    StoredInv(d, s3, p.host, p.off, b);
  }

  lemma DropThenFill(s: State, va: addr, host: nat, off: nat)
    requires Shaped(s)
    ensures var s1 := DropPage(s, host, PageBase(off, va));
      && s1.mem == s.mem && DataCtx(s1) == DataCtx(s) && Filled(s1, va, host, off, Write).mem == s.mem
      && Filled(s1, va, host, off, Write).cache == s1.cache
      && DropPage(Filled(s, va, host, off, Write), host, PageBase(off, va)) == Filled(s1, va, host, off, Write)
  {
    hide ContextOf, IndexOf, TagOf, D.Holds, PageBase;
  }

  lemma CacheOfInv(d: D.Decoder, s: State)
    requires Inv(d, s)
    ensures CacheOk(d, s.mem, s.tainted, s.cache)
  {
  }

  lemma WriteAlignedFollows(d: D.Decoder, s: State, va: addr, n: nat, v: bv64)
    requires Inv(d, s) && IsSize(n) && va % n == 0
    ensures Follows(d, s, WriteAligned(s, va, n, v), U.StoreAligned(s.mem, DataCtx(s), va, n, v))
  {
    hide ValidMem, CsrInv, Xlate, PlaceOf, XlateMem, TableOk, EntryOk, CacheOk;
    hide PokeBytes, Leads, ContextOf, WriteSlow, Hit, BytesOf, Byte, Damaged, D.Holds;
    var e := s.tlbW[IndexOf(va)];
    if Hit(e, va, n) {
      EntryAt(s.mem, s.stale, DataCtx(s), s.tlbW, Write, va, n);
      AlignedInPage(va, n);
      NeverInvalid(va, n);
      if Slot(Write, IndexOf(va)) !in s.stale {
        HitIsFresh(s.mem, DataCtx(s), e, va, Write);
      }
      UndecodedInPage(d, s.mem, s.tainted, s.cache, e.host, e.off + va % PAGE, n, e.off);
      StoredInv(d, Used(s, Slot(Write, IndexOf(va))), e.host, e.off + va % PAGE, BytesOf(v, n));
    } else {
      WriteSlowFollows(d, s, va, n, v);
    }
  }

  lemma WriteBytesUnfold(s: State, va: addr, i: nat, n: nat, v: bv64)
    requires Shaped(s) && i <= n
    ensures i == n ==> WriteBytes(s, va, i, n, v) == (s, Done(0))
    ensures i < n ==>
      var r := WriteAligned(s, Wrap(va + i), 1, ByteValue(v, i));
      WriteBytes(s, va, i, n, v) == if r.1.Done? then WriteBytes(r.0, va, i + 1, n, v) else r
  {
    hide WriteAligned, ByteValue;
  }

  lemma StoreBytesUnfold(m: Mem, c: Ctx, va: addr, i: nat, n: nat, v: bv64)
    requires i <= n
    ensures i == n ==> U.StoreBytes(m, c, va, i, n, v) == (m, Done(0))
    ensures i < n ==>
      var r := U.StoreAligned(m, c, Wrap(va + i), 1, ByteValue(v, i));
      U.StoreBytes(m, c, va, i, n, v) == if r.1.Done? then U.StoreBytes(r.0, c, va, i + 1, n, v) else r
  {
    hide U.StoreAligned, ByteValue;
  }

  lemma {:induction false} WriteBytesFollows(d: D.Decoder, s: State, va: addr, i: nat, n: nat, v: bv64)
    requires Inv(d, s) && i <= n
    ensures Follows(d, s, WriteBytes(s, va, i, n, v), U.StoreBytes(s.mem, DataCtx(s), va, i, n, v))
    decreases n - i
  {
    hide Coherent, ValidMem, CsrInv, ContextOf, WriteAligned, U.StoreAligned, ByteValue, WriteBytes, U.StoreBytes;
    WriteBytesUnfold(s, va, i, n, v);
    StoreBytesUnfold(s.mem, DataCtx(s), va, i, n, v);
    if i < n {
      WriteAlignedFollows(d, s, Wrap(va + i), 1, ByteValue(v, i));
      var r := WriteAligned(s, Wrap(va + i), 1, ByteValue(v, i));
      if r.1.Done? {
        WriteBytesFollows(d, r.0, va, i + 1, n, v);
      }
    }
  }

  lemma StoreFollows(d: D.Decoder, s: State, va: addr, n: nat, v: bv64)
    requires Inv(d, s) && IsSize(n)
    ensures Follows(d, s, MemWrite(s, va, n, v), U.Store(s.mem, DataCtx(s), va, n, v))
  {
    hide Coherent, ValidMem, CsrInv, ContextOf, WriteAligned, U.StoreAligned, WriteBytes, U.StoreBytes;
    if va % n == 0 {
      WriteAlignedFollows(d, s, va, n, v);
    } else {
      WriteBytesFollows(d, s, va, 0, n, v);
    }
  }
}
