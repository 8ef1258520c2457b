/** Guest RAM as the emulator holds it: a map of ranges and one byte buffer behind each RAM range. */
module GuestMemory {
  import opened Words
  import opened PhysMemory
  import opened Cpu

  class Ram {
    const memMap: PhysMemoryMap
    const buffers: seq<array<bv8>>

    ghost predicate Valid()
      reads memMap
    {
      memMap.Valid() && forall i, j :: 0 <= i < j < |buffers| ==> buffers[i] != buffers[j]
    }

    ghost function Contents(): (m: Mem)
      reads memMap, buffers
      ensures m.ranges == memMap.ranges && |m.ram| == |buffers|
      ensures forall h :: 0 <= h < |buffers| ==> m.ram[h] == buffers[h][..]
    {
      Mem(memMap.ranges, seq(|buffers|, h requires 0 <= h < |buffers| reads buffers => buffers[h][..]))
    }

    constructor (memMap: PhysMemoryMap, buffers: seq<array<bv8>>)
      requires memMap.Valid() && forall i, j :: 0 <= i < j < |buffers| ==> buffers[i] != buffers[j]
      ensures Valid() && this.memMap == memMap && this.buffers == buffers
    {
      this.memMap := memMap;
      this.buffers := buffers;
    }

    /** `findRange` and the offset into the range. */
    method Locate(pa: nat) returns (p: Place)
      requires Valid()
      ensures p == PlaceOf(Contents(), pa)
    {
      var r := memMap.FindRange(pa);
      match r {
        case None => p := Nowhere;
        case Some(Device(_, _, _)) => p := InDevice;
        case Some(Ram(base, _, _, host)) => p := InRam(host, pa - base);
      }
    }

    /** `getUint8` to `getUint64`. */
    method Get(host: nat, off: nat, n: nat) returns (v: bv64)
      requires Valid() && IsSize(n) && InBounds(Contents(), host, off, n)
      ensures v == Peek(Contents(), host, off, n)
    {
      var view := buffers[host][off..off + n];
      v := ReadLe(view, 0, n);
      ReadSame(view, 0, buffers[host][..], off, n);
    }

    /** `setUint8` to `setUint64`, byte by byte. */
    method Put(host: nat, off: nat, bytes: seq<bv8>)
      requires Valid() && InBounds(Contents(), host, off, |bytes|)
      modifies buffers
      ensures Valid() && Contents() == PokeBytes(old(Contents()), host, off, bytes)
    {
      var buffer := buffers[host];
      var i := 0;
      while i < |bytes|
        invariant 0 <= i <= |bytes|
        invariant forall h :: 0 <= h < |buffers| && h != host ==> buffers[h][..] == old(buffers[h][..])
        invariant forall o :: 0 <= o < buffer.Length ==> buffer[o] == if off <= o < off + i then bytes[o - off] else old(buffer[o])
      {
        buffer[off + i] := bytes[i];
        i := i + 1;
      }
      assert buffer[..] == Splice(old(buffer[..]), off, bytes);
      assert Contents().ram == PokeBytes(old(Contents()), host, off, bytes).ram;
    }
  }
}
