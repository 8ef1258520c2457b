/** The cache of decoded pages as an array of slots, one page per index. */
module PredecodeClass {
  import opened Words
  import opened PhysMemory
  import D = Predecode

  class PredecodeCache {
    const pages: array<Option<D.DecodedPage>>

    ghost predicate Valid() { pages.Length == D.ENTRIES }

    constructor ()
      ensures Valid() && fresh(pages) && pages[..] == D.EmptyCache()
    {
      pages := new Option<D.DecodedPage>[D.ENTRIES](i => None);
      new;
      assert pages[..] == D.EmptyCache();
    }

    /** `lookup`, as to whether there is one. */
    method Lookup(host: int, off: nat) returns (held: bool)
      requires Valid()
      ensures held == D.Holds(pages[..], host, off)
    {
      var existing := pages[D.CacheIndex(off)];
      held := existing.Some? && existing.value.off == off && existing.value.host == host;
    }

    /** `insert` */
    method Insert(host: int, off: nat)
      requires Valid()
      modifies pages
      ensures pages[..] == D.Insert(old(pages[..]), host, off)
    {
      pages[D.CacheIndex(off)] := Some(D.Fresh(host, off));
    }

    /** `invalidateAll` */
    method InvalidateAll()
      requires Valid()
      modifies pages
      ensures pages[..] == D.EmptyCache()
    {
      var i := 0;
      while i < pages.Length
        invariant 0 <= i <= pages.Length
        invariant forall k :: 0 <= k < i ==> pages[k] == None
      {
        pages[i] := None;
        i := i + 1;
      }
      assert pages[..] == D.EmptyCache();
    }

    /** `invalidatePage` */
    method InvalidatePage(host: int, off: nat) returns (dropped: bool)
      requires Valid()
      modifies pages
      ensures dropped == D.Holds(old(pages[..]), host, off) && pages[..] == D.Drop(old(pages[..]), host, off)
    {
      var existing := pages[D.CacheIndex(off)];
      dropped := existing.Some? && existing.value.off == off && existing.value.host == host;
      if dropped {
        pages[D.CacheIndex(off)] := None;
      }
    }

    /** The slot of a held page set to its decoded op. */
    method StoreSlot(off: nat, slot: nat, op: D.MicroOp)
      requires Valid() && pages[D.CacheIndex(off)].Some? && slot < |pages[D.CacheIndex(off)].value.slots|
      modifies pages
      ensures var i, page := D.CacheIndex(off), old(pages[D.CacheIndex(off)]).value;
        pages[..] == old(pages[..])[i := Some(page.(slots := page.slots[slot := Some(op)]))]
    {
      var page := pages[D.CacheIndex(off)].value;
      pages[D.CacheIndex(off)] := Some(page.(slots := page.slots[slot := Some(op)]));
    }
  }
}
