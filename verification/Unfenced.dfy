/** What goes wrong without a fence, or with one that is too narrow: concrete runs on which the two machines disagree. */
module Unfenced {
  import opened Words
  import opened PhysMemory
  import opened Pte
  import opened Translate
  import opened Csr
  import opened CsrTheorems
  import opened Tlb
  import opened Cpu
  import opened CpuRuns
  import opened SmallMemory
  import R = CpuRuns
  import U = Uncached
  import D = Predecode

  /** A supervisor translating through the table at address 0. */
  function Registers(): Csrs
  {
    var z := Reg(0);
    Csrs(Supervisor, z, 0, z, z, Reg(0xA_0000_0000), z, z, z, z, z, z, z, z,
         z, z, z, z, z, z, z, z, z, Reg(0x8000_0000_0000_0000), z, z, z, z, z, [], [])
  }

  const CONTEXT: Ctx := Ctx(Supervisor, false, false, 8, 0)

  lemma Sane(first: bv8)
    ensures ValidMem(Memory(first)) && CsrInv(Registers()) && ContextOf(Registers(), true) == CONTEXT
  {
  }

  /** A gigabyte leaf for reading and writing, accessed and dirty already. */
  lemma LeafBits()
    ensures var p := 0xC7 as bv8 as bv64; IsValid(p) && Xwr(p) == 3 && IsAccessed(p) && IsDirty(p) && !IsUser(p) && PpnBits(p) == 0
  {
  }

  lemma ZeroBits()
    ensures var p := 0 as bv8 as bv64; !IsValid(p)
  {
  }

  /** With the leaf in place addresses below a gigabyte mean themselves; without it they fault. */
  lemma Mapped(va: addr, acc: Access)
    requires va < 0x2000 && acc != Fetch
    ensures Xlate(Memory(0xC7), CONTEXT, va, acc) == Physical(va) && XlateMem(Memory(0xC7), CONTEXT, va, acc) == Memory(0xC7)
    ensures Xlate(Memory(0), CONTEXT, va, acc) == PageFault
  {
    hide IsValid, Xwr, IsAccessed, IsDirty, IsUser, PpnBits, PteAt;
    FirstEntry(0xC7);
    FirstEntry(0);
    LeafBits();
    ZeroBits();
    assert PteAddr(0, va, 2) == 0;
    assert va % 0x4000_0000 == va;
  }

  const READ_ENTRY: Entry := Entry(0x1000, 0, 0x1000, CONTEXT)

  /** The supervisor of `Registers`, its memory, and the read entry of the second page. */
  ghost predicate Cached(s: State, first: bv8)
  {
    Shaped(s) && s.mem == Memory(first) && s.csr == Registers() && s.tlbR[1] == READ_ENTRY
  }

  lemma FirstLoad(w: World)
    ensures var (s, o) := MemRead(Reset(Memory(0xC7), Registers()), w, 0x1000, 1);
      Cached(s, 0xC7) && s.tlbW == EmptyTable() && s.cache == D.EmptyCache() && o == Done(0x55)
  {
    hide Xlate, XlateMem, PlaceOf, ContextOf;
    Sane(0xC7);
    Mapped(0x1000, Read);
    At(0xC7, 0x1000);
    NeverInvalid(0x1000, 1);
    assert Peek(Memory(0xC7), 0, 0x1000, 1) == 0x55;
  }

  lemma ZeroByte()
    ensures BytesOf(0, 1) == [0]
  {
  }

  /** The byte that makes the entry valid goes. */
  lemma PokeFirst()
    ensures PokeBytes(Memory(0xC7), 0, 0, BytesOf(0, 1)) == Memory(0)
  {
    ZeroByte();
    assert Splice(Bytes(0xC7), 0, [0]) == Bytes(0);
  }

  lemma TheStore(s: State)
    requires Cached(s, 0xC7) && s.tlbW == EmptyTable() && s.cache == D.EmptyCache()
    ensures var (s', o) := MemWrite(s, 0, 1, 0); Cached(s', 0) && o == Done(0)
  {
    hide Xlate, XlateMem, PlaceOf, ContextOf, PokeBytes, BytesOf, Hurt;
    Sane(0xC7);
    Mapped(0, Write);
    At(0xC7, 0);
    NeverInvalid(0, 1);
    PokeFirst();
  }

  /** The entry still hits, and says what it always said. */
  lemma SecondLoad(s: State, w: World)
    requires Cached(s, 0)
    ensures MemRead(s, w, 0x1000, 1).1 == Done(0x55)
  {
    assert IndexOf(0x1000) == 1 && AlignedTag(0x1000, 1) == 0x1000 && 0x1000 % PAGE == 0;
    SecondPage(0);
    hide Memory, Registers, Peek, ReadSlow, ReadUnaligned, IndexOf, AlignedTag;
  }

  lemma SecondPage(first: bv8)
    ensures Peek(Memory(first), 0, 0x1000, 1) == 0x55
  {
  }

  lemma PlainAnswers(w: World)
    ensures U.Load(Memory(0xC7), CONTEXT, w, 0x1000, 1) == (Memory(0xC7), Done(0x55))
    ensures U.Store(Memory(0xC7), CONTEXT, 0, 1, 0) == (Memory(0), Done(0))
    ensures U.Load(Memory(0), CONTEXT, w, 0x1000, 1) == (Memory(0), Trapped(0xD, 0x1000))
  {
    hide Xlate, XlateMem, PlaceOf, PokeBytes, BytesOf;
    Mapped(0x1000, Read);
    Mapped(0, Write);
    At(0xC7, 0x1000);
    At(0xC7, 0);
    PokeFirst();
    assert Peek(Memory(0xC7), 0, 0x1000, 1) == 0x55;
  }

  lemma RunsOn(d: D.Decoder, s: State, p: U.Plain, c: Cycle, rest: seq<Cycle>)
    requires Shaped(s) && Regular(d, [c] + rest)
    ensures Regular(d, rest) && Sensible(c.event)
    ensures R.Run(d, s, [c] + rest).1 == [Next(s, c.world, c.event).1] + R.Run(d, Next(s, c.world, c.event).0, rest).1
    ensures PlainRun(d, p, [c] + rest).1 ==
      [U.PlainStep(p, c.world, c.event).1] + PlainRun(d, U.PlainStep(p, c.world, c.event).0, rest).1
  {
    hide Next, U.PlainStep;
    var cs := [c] + rest;
    assert cs[1..] == rest;
    forall i | 0 <= i < |rest| ensures Sensible(rest[i].event) && rest[i].world.decoder == d {
      assert rest[i] == cs[i + 1];
    }
    assert cs[0] == c;
  }

  lemma RunEnds(d: D.Decoder, s: State, p: U.Plain)
    requires Shaped(s)
    ensures Regular(d, []) && R.Run(d, s, []).1 == [] && PlainRun(d, p, []).1 == []
  {
  }

  /** The store that takes the leaf of both pages away. */
  const UNMAP: Event := Store(0, 1, 0)
  const LOOK: Event := Load(0x1000, 1)

  /**
   * Without a fence the cached translation outlives its leaf: the second load still finds the byte, and the uncached machine
   * faults. A fence of the page at address 0, which the same leaf translates, is not enough: it forgets four kilobytes.
   */
  lemma UnfencedHitDiffers(w: World)
    ensures ValidMem(Memory(0xC7)) && CsrInv(Registers())
    ensures var look, unmap := Cycle(LOOK, w), Cycle(UNMAP, w);
      && Regular(w.decoder, [look, unmap, look])
      && R.Run(w.decoder, Reset(Memory(0xC7), Registers()), [look, unmap, look]).1 == [Done(0x55), Done(0), Done(0x55)]
      && PlainRun(w.decoder, U.Plain(Memory(0xC7), Registers()), [look, unmap, look]).1
           == [Done(0x55), Done(0), Trapped(0xD, 0x1000)]
  {
    hide MemRead, MemWrite, U.Load, U.Store, CsrInv, ContextOf, R.Run, PlainRun;
    var d, s, p := w.decoder, Reset(Memory(0xC7), Registers()), U.Plain(Memory(0xC7), Registers());
    var look, unmap := Cycle(LOOK, w), Cycle(UNMAP, w);
    Sane(0xC7);
    FirstLoad(w);
    var s1 := Next(s, w, LOOK).0;
    TheStore(s1);
    var s2 := Next(s1, w, UNMAP).0;
    SecondLoad(s2, w);
    PlainAnswers(w);
    var p2 := U.Plain(Memory(0), Registers());
    assert [look, unmap, look] == [look] + ([unmap] + ([look] + []));
    assert Regular(d, [look] + ([unmap] + ([look] + [])));
    RunsOn(d, s, p, look, [unmap] + ([look] + []));
    RunsOn(d, s1, p, unmap, [look] + []);
    RunsOn(d, s2, p2, look, []);
    RunEnds(d, Next(s2, w, LOOK).0, p2);
  }

  /** The same with a fence between. */
  lemma NarrowFenceDiffers(w: World)
    ensures var look, unmap, fence := Cycle(LOOK, w), Cycle(UNMAP, w), Cycle(SfencePage(0), w);
      && Regular(w.decoder, [look, unmap, fence, look])
      && R.Run(w.decoder, Reset(Memory(0xC7), Registers()), [look, unmap, fence, look]).1 == [Done(0x55), Done(0), Done(0), Done(0x55)]
      && PlainRun(w.decoder, U.Plain(Memory(0xC7), Registers()), [look, unmap, fence, look]).1
           == [Done(0x55), Done(0), Done(0), Trapped(0xD, 0x1000)]
  {
    hide MemRead, MemWrite, U.Load, U.Store, CsrInv, ContextOf, R.Run, PlainRun, FenceVma;
    var d, s, p := w.decoder, Reset(Memory(0xC7), Registers()), U.Plain(Memory(0xC7), Registers());
    var look, unmap, fence := Cycle(LOOK, w), Cycle(UNMAP, w), Cycle(SfencePage(0), w);
    Sane(0xC7);
    FirstLoad(w);
    var s1 := Next(s, w, LOOK).0;
    TheStore(s1);
    var s2 := Next(s1, w, UNMAP).0;
    FenceMisses(s2);
    var s3 := Next(s2, w, SfencePage(0)).0;
    SecondLoad(s3, w);
    PlainAnswers(w);
    var p2 := U.Plain(Memory(0), Registers());
    assert [look, unmap, fence, look] == [look] + ([unmap] + ([fence] + ([look] + [])));
    assert Regular(d, [look] + ([unmap] + ([fence] + ([look] + []))));
    RunsOn(d, s, p, look, [unmap] + ([fence] + ([look] + [])));
    RunsOn(d, s1, p, unmap, [fence] + ([look] + []));
    RunsOn(d, s2, p2, fence, [look] + []);
    RunsOn(d, s3, p2, look, []);
    RunEnds(d, Next(s3, w, LOOK).0, p2);
  }

  lemma FenceMisses(s: State)
    requires Cached(s, 0)
    ensures Cached(FenceVma(s, 0), 0)
  {
  }
}
