/** A memory small enough to compute with, for the concrete runs. */
module SmallMemory {
  import opened Words
  import opened PhysMemory
  import opened Translate

  /** Two pages of RAM: the first begins with the root table's first entry, the second with 0x55. */
  function Bytes(first: bv8): (b: seq<bv8>)
    ensures |b| == 0x2000 && b[0] == first && b[0x1000] == 0x55
    ensures forall i :: 0 < i < 0x1000 ==> b[i] == 0
  {
    seq(0x2000, i => if i == 0 then first else if i == 0x1000 then 0x55 else 0)
  }

  function Memory(first: bv8): Mem { Mem([Ram(0, 0x2000, true, 0)], [Bytes(first)]) }

  lemma At(first: bv8, pa: nat)
    requires pa < 0x2000
    ensures PlaceOf(Memory(first), pa) == InRam(0, pa)
  {
  }

  lemma LowWord(first: bv8)
    ensures Quads(Halves(Pair(first, 0), Pair(0, 0)), Halves(Pair(0, 0), Pair(0, 0))) == first as bv64
  {
  }

  lemma FirstEntry(first: bv8)
    ensures PteAt(Memory(first), 0) == Some(first as bv64)
  {
    hide Quads, Halves, Pair;
    At(first, 0);
    LowWord(first);
    var b := Bytes(first);
    assert b[1] == 0 && b[2] == 0 && b[2 + 1] == 0 && b[4] == 0 && b[4 + 1] == 0 && b[4 + 2] == 0 && b[4 + 2 + 1] == 0;
  }
}
