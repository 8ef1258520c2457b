/** Page-table entries: the flag tests of `mmu.dart` on 64-bit words. */
module Pte {
  import opened Words

  datatype Access = Fetch | Read | Write

  predicate IsValid(pte: bv64) { pte & 0x01 != 0 }
  function Xwr(pte: bv64): bv64 { (pte >> 1) & 7 }
  predicate IsLeaf(pte: bv64) { Xwr(pte) != 0 }
  predicate IsUser(pte: bv64) { pte & 0x10 != 0 }
  predicate IsAccessed(pte: bv64) { pte & 0x40 != 0 }
  predicate IsDirty(pte: bv64) { pte & 0x80 != 0 }
  /** Everything but A and D. */
  function Others(pte: bv64): bv64 { pte & 0xFFFF_FFFF_FFFF_FF3F }
  function PpnBits(pte: bv64): bv64 { (pte >> 10) & 0xFFF_FFFF_FFFF }
  function Ppn(pte: bv64): nat { PpnBits(pte) as nat }

  /** Write without read is reserved. */
  predicate Reserved(pte: bv64) { Xwr(pte) == 2 || Xwr(pte) == 6 }

  /** Rights after MXR: executable pages become readable. */
  function EffectiveXwr(pte: bv64, mxr: bool): bv64
  {
    if mxr then (Xwr(pte) | (Xwr(pte) >> 2)) & 7 else Xwr(pte)
  }

  predicate Permits(pte: bv64, acc: Access, mxr: bool)
  {
    match acc
    case Read => EffectiveXwr(pte, mxr) & 1 != 0
    case Write => EffectiveXwr(pte, mxr) & 2 != 0
    case Fetch => EffectiveXwr(pte, mxr) & 4 != 0
  }

  predicate NeedsUpdate(pte: bv64, acc: Access)
  {
    !IsAccessed(pte) || (acc == Write && !IsDirty(pte))
  }

  /** The word `_updateAccessedDirtyBits` leaves behind. */
  function Updated(pte: bv64, acc: Access): bv64
  {
    if !NeedsUpdate(pte, acc) then pte
    else if acc == Write then pte | 0x40 | 0x80
    else pte | 0x40
  }

  lemma SetAccessed(pte: bv64)
    ensures IsValid(pte | 0x40) == IsValid(pte) && Xwr(pte | 0x40) == Xwr(pte)
    ensures IsUser(pte | 0x40) == IsUser(pte) && PpnBits(pte | 0x40) == PpnBits(pte)
    ensures (pte | 0x40) & pte == pte && Others(pte | 0x40) == Others(pte)
    ensures IsAccessed(pte | 0x40) && IsDirty(pte | 0x40) == IsDirty(pte)
  {
  }

  lemma SetAccessedDirty(pte: bv64)
    ensures IsValid(pte | 0x40 | 0x80) == IsValid(pte) && Xwr(pte | 0x40 | 0x80) == Xwr(pte)
    ensures IsUser(pte | 0x40 | 0x80) == IsUser(pte) && PpnBits(pte | 0x40 | 0x80) == PpnBits(pte)
    ensures (pte | 0x40 | 0x80) & pte == pte && Others(pte | 0x40 | 0x80) == Others(pte)
    ensures IsAccessed(pte | 0x40 | 0x80) && IsDirty(pte | 0x40 | 0x80)
  {
  }

  /** No bit is ever cleared, A is set, D for writes only, no other bit touched, and a second update finds nothing to do. */
  lemma UpdateSets(pte: bv64, acc: Access)
    ensures var u := Updated(pte, acc);
      && u & pte == pte && Others(u) == Others(pte)
      && IsAccessed(u) && (if acc == Write then IsDirty(u) else IsDirty(u) == IsDirty(pte))
      && !NeedsUpdate(u, acc)
  {
    hide IsValid, Xwr, IsUser, PpnBits, IsAccessed, IsDirty, Others;
    SetAccessed(pte);
    SetAccessedDirty(pte);
    assert pte & pte == pte;
  }

  lemma SetLowBits(pte: bv64)
    ensures forall i :: 0 < i < 8 ==> Byte(pte | 0x40, i) == Byte(pte, i) && Byte(pte | 0x40 | 0x80, i) == Byte(pte, i)
  {
  }

  /** Both bits lie in the lowest byte. */
  lemma UpdateInLowByte(pte: bv64, acc: Access, i: nat)
    requires 0 < i < 8
    ensures Byte(Updated(pte, acc), i) == Byte(pte, i)
  {
    hide Byte;
    SetLowBits(pte);
  }
}
