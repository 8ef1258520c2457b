/** The physical memory map: sorted ranges, RAM buffers behind some of them. */
module PhysMemory {
  import opened Words

  datatype Option<+T> = None | Some(value: T)

  /** A RAM range names its host buffer; buffers are told apart by their index, as `identical` tells `ByteData` objects apart. */
  datatype Range =
    | Ram(base: nat, size: nat, enabled: bool, host: nat)
    | Device(base: nat, size: nat, enabled: bool)

  predicate Inside(r: Range, pa: nat) { r.base <= pa < r.base + r.size }

  predicate Sorted(rs: seq<Range>)
  {
    forall i, j :: 0 <= i < j < |rs| ==> rs[i].base + rs[i].size <= rs[j].base
  }

  /** The enabled range holding `pa`. */
  function Find(rs: seq<Range>, pa: nat): (r: Option<Range>)
    ensures r.Some? ==> Inside(r.value, pa) && r.value.enabled && r.value in rs
  {
    if rs == [] then None
    else if Inside(rs[0], pa) then (if rs[0].enabled then Some(rs[0]) else None)
    else Find(rs[1..], pa)
  }

  lemma {:induction false} FindAt(rs: seq<Range>, pa: nat, i: nat)
    requires Sorted(rs) && i < |rs| && Inside(rs[i], pa)
    ensures Find(rs, pa) == if rs[i].enabled then Some(rs[i]) else None
    decreases |rs|
  {
    if i > 0 {
      assert rs[0].base + rs[0].size <= rs[i].base;
      assert rs[1..][i - 1] == rs[i];
      FindAt(rs[1..], pa, i - 1);
    }
  }

  lemma {:induction false} FindNone(rs: seq<Range>, pa: nat)
    requires forall i :: 0 <= i < |rs| ==> !Inside(rs[i], pa)
    ensures Find(rs, pa) == None
    decreases |rs|
  {
    if rs != [] {
      assert forall i :: 0 <= i < |rs[1..]| ==> rs[1..][i] == rs[i + 1];
      FindNone(rs[1..], pa);
    }
  }

  datatype Mem = Mem(ranges: seq<Range>, ram: seq<seq<bv8>>)

  const TOP: nat := 0x8000_0000_0000_0000

  /** RAM comes in whole aligned pages, each buffer behind one range; everything lies at non-negative signed addresses. */
  predicate ValidMem(m: Mem)
  {
    && Sorted(m.ranges)
    && (forall i :: 0 <= i < |m.ranges| ==> m.ranges[i].base + m.ranges[i].size <= TOP)
    && (forall i :: 0 <= i < |m.ranges| && m.ranges[i].Ram? ==>
          && m.ranges[i].base % PAGE == 0 && m.ranges[i].size % PAGE == 0
          && m.ranges[i].host < |m.ram| && |m.ram[m.ranges[i].host]| == m.ranges[i].size)
    && (forall i, j :: 0 <= i < j < |m.ranges| && m.ranges[i].Ram? && m.ranges[j].Ram? ==>
          m.ranges[i].host != m.ranges[j].host)
  }

  datatype Place = Nowhere | InDevice | InRam(host: nat, off: nat)

  /** Where a physical address leads: `findRange`, then the offset into the buffer. */
  function PlaceOf(m: Mem, pa: nat): (p: Place)
  {
    var r := Find(m.ranges, pa);
    if r.None? then Nowhere
    else if r.value.Device? then InDevice
    else InRam(r.value.host, pa - r.value.base)
  }

  lemma PlaceBounds(m: Mem, pa: nat)
    requires ValidMem(m) && PlaceOf(m, pa).InRam?
    ensures var p := PlaceOf(m, pa);
      && p.host < |m.ram| && p.off < |m.ram[p.host]| && |m.ram[p.host]| % PAGE == 0
      && p.off % PAGE == pa % PAGE && pa < TOP
      && p.off - p.off % PAGE + PAGE <= |m.ram[p.host]|
  {
    var r := Find(m.ranges, pa).value;
    var i :| 0 <= i < |m.ranges| && m.ranges[i] == r;
    assert m.ranges[i].Ram?;
    WholePages(r.size, pa - r.base);
  }

  lemma WholePages(size: nat, off: nat)
    requires size % PAGE == 0 && off < size
    ensures off - off % PAGE + PAGE <= size
  {
  }

  /**
   * Where an address leads: nowhere without a range that holds it or where that is disabled, else to the device, or as far into the
   * buffer as into the range.
   */
  lemma PlaceMeaning(m: Mem, pa: nat)
    requires ValidMem(m)
    ensures forall i :: 0 <= i < |m.ranges| && Inside(m.ranges[i], pa) ==>
      PlaceOf(m, pa) ==
        if !m.ranges[i].enabled then Nowhere
        else if m.ranges[i].Device? then InDevice
        else InRam(m.ranges[i].host, pa - m.ranges[i].base)
    ensures (forall i :: 0 <= i < |m.ranges| ==> !Inside(m.ranges[i], pa)) ==> PlaceOf(m, pa) == Nowhere
  {
    hide Find;
    forall i | 0 <= i < |m.ranges| && Inside(m.ranges[i], pa)
      ensures PlaceOf(m, pa) == if !m.ranges[i].enabled then Nowhere
        else if m.ranges[i].Device? then InDevice
        else InRam(m.ranges[i].host, pa - m.ranges[i].base)
    {
      FindAt(m.ranges, pa, i);
    }
    if forall i :: 0 <= i < |m.ranges| ==> !Inside(m.ranges[i], pa) {
      FindNone(m.ranges, pa);
    }
  }

  /** Different addresses lead to different bytes. */
  lemma PlaceInjective(m: Mem, pa: nat, pb: nat)
    requires ValidMem(m) && PlaceOf(m, pa).InRam? && PlaceOf(m, pa) == PlaceOf(m, pb)
    ensures pa == pb
  {
    var r, s := Find(m.ranges, pa).value, Find(m.ranges, pb).value;
    var i :| 0 <= i < |m.ranges| && m.ranges[i] == r;
    var j :| 0 <= j < |m.ranges| && m.ranges[j] == s;
  }

  /** A page of the address space is a page of one buffer, or none of it is RAM. */
  lemma PlaceOfPage(m: Mem, pa: nat, pb: nat)
    requires ValidMem(m) && PlaceOf(m, pa).InRam? && pa / PAGE == pb / PAGE
    ensures PlaceOf(m, pb) == InRam(PlaceOf(m, pa).host, PlaceOf(m, pa).off - pa % PAGE + pb % PAGE)
  {
    var r := Find(m.ranges, pa).value;
    var i :| 0 <= i < |m.ranges| && m.ranges[i] == r;
    assert m.ranges[i].base % PAGE == 0 && m.ranges[i].size % PAGE == 0;
    PageInside(r.base, r.size, pa, pb);
    FindAt(m.ranges, pb, i);
  }

  lemma PageInside(base: nat, size: nat, pa: nat, pb: nat)
    requires base % PAGE == 0 && size % PAGE == 0 && base <= pa < base + size && pa / PAGE == pb / PAGE
    ensures base <= pb < base + size
    ensures pb == pa - pa % PAGE + pb % PAGE
  {
  }

  lemma InsertedSorted(rs: seq<Range>, i: nat, r: Range)
    requires Sorted(rs) && i <= |rs|
    requires forall k :: 0 <= k < |rs| ==> if k < i then rs[k].base + rs[k].size <= r.base else r.base + r.size <= rs[k].base
    ensures Sorted(rs[..i] + [r] + rs[i..])
  {
    var rs' := rs[..i] + [r] + rs[i..];
    forall j, k | 0 <= j < k < |rs'| ensures rs'[j].base + rs'[j].size <= rs'[k].base {
      assert rs'[j] == if j < i then rs[j] else if j == i then r else rs[j - 1];
      assert rs'[k] == if k < i then rs[k] else if k == i then r else rs[k - 1];
    }
  }

  lemma InsertedBag(rs: seq<Range>, i: nat, r: Range)
    requires i <= |rs|
    ensures multiset(rs[..i] + [r] + rs[i..]) == multiset(rs) + multiset{r}
  {
    assert rs == rs[..i] + rs[i..];
  }

  /** The map class of the source: ranges kept sorted, looked up by binary search. */
  class PhysMemoryMap {
    var ranges: seq<Range>

    predicate Valid() reads this { Sorted(ranges) }

    constructor ()
      ensures Valid() && ranges == []
    {
      ranges := [];
    }

    /** `_insertSorted`, for a range disjoint from those present. */
    method InsertSorted(r: Range)
      requires Valid() && r.size > 0
      requires forall i :: 0 <= i < |ranges| ==> ranges[i].size > 0
      requires forall i :: 0 <= i < |ranges| ==> ranges[i].base + ranges[i].size <= r.base || r.base + r.size <= ranges[i].base
      modifies this
      ensures Valid() && multiset(ranges) == multiset(old(ranges)) + multiset{r}
    {
      var i := 0;
      while i < |ranges| && ranges[i].base < r.base
        invariant 0 <= i <= |ranges|
        invariant forall k :: 0 <= k < i ==> ranges[k].base < r.base
      {
        i := i + 1;
      }
      ghost var before := ranges;
      forall k | 0 <= k < |before| ensures if k < i then before[k].base + before[k].size <= r.base else r.base + r.size <= before[k].base {
        assert k > i ==> before[i].base + before[i].size <= before[k].base;
      }
      InsertedSorted(before, i, r);
      InsertedBag(before, i, r);
      ranges := ranges[..i] + [r] + ranges[i..];
    }

    /** `findRange`: the binary search finds the one enabled range that holds the address. */
    method FindRange(pa: nat) returns (r: Option<Range>)
      requires Valid()
      ensures r == Find(ranges, pa)
    {
      var lo, hi := 0, |ranges| - 1;
      while lo <= hi
        invariant 0 <= lo <= hi + 1 <= |ranges|
        invariant forall k :: 0 <= k < lo ==> !Inside(ranges[k], pa)
        invariant forall k :: hi < k < |ranges| ==> !Inside(ranges[k], pa)
        decreases hi - lo
      {
        var mid := (lo + hi) / 2;
        var range := ranges[mid];
        if pa < range.base {
          hi := mid - 1;
        } else if pa >= range.base + range.size {
          assert forall k :: 0 <= k < mid ==> ranges[k].base + ranges[k].size <= ranges[mid].base;
          lo := mid + 1;
        } else {
          FindAt(ranges, pa, mid);
          if range.enabled {
            return Some(range);
          }
          return None;
        }
      }
      FindNone(ranges, pa);
      return None;
    }
  }
}
