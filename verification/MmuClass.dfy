/** The Sv39 walk as `mmu.dart` runs it: a loop down the page tables, and the A/D write in place. */
module MmuClass {
  import opened Words
  import opened PhysMemory
  import opened Pte
  import opened Translate
  import opened Csr
  import opened Cpu
  import opened CpuState
  import opened GuestMemory

  class Mmu {
    const state: HartState
    const memory: Ram

    constructor (state: HartState, memory: Ram)
      ensures this.state == state && this.memory == memory
    {
      this.state := state;
      this.memory := memory;
    }

    /** `_readPte` */
    method ReadPte(a: nat) returns (pte: Option<bv64>)
      requires memory.Valid()
      ensures pte == PteAt(memory.Contents(), a)
    {
      hide PlaceOf, Le8;
      var p := memory.Locate(a);
      if p.InRam? && p.host < |memory.buffers| && p.off + 8 <= memory.buffers[p.host].Length {
        var v := memory.Get(p.host, p.off, 8);
        pte := Some(v);
      } else {
        pte := None;
      }
    }

    /** `_updateAccessedDirtyBits` */
    method UpdateAccessedDirtyBits(a: nat, pte: bv64, acc: Access)
      requires memory.Valid() && PteAt(memory.Contents(), a).Some?
      modifies memory.buffers
      ensures memory.Valid()
      ensures memory.Contents() ==
        if NeedsUpdate(pte, acc) then Poke8(old(memory.Contents()), a, Updated(pte, acc)) else old(memory.Contents())
    {
      hide PlaceOf, Le8, NeedsUpdate, Updated, Byte;
      if NeedsUpdate(pte, acc) {
        var p := memory.Locate(a);
        memory.Put(p.host, p.off, BytesOf(Updated(pte, acc), 8));
      }
    }

    /** `_walkSv39` under the context; the exceptions it throws are results here. */
    method WalkSv39(c: Ctx, va: addr, acc: Access) returns (t: Translation)
      requires memory.Valid() && Paging(c) && c.mode == SV39
      modifies memory.buffers
      ensures memory.Valid() && t == Xlate(old(memory.Contents()), c, va, acc)
      ensures memory.Contents() == XlateMem(old(memory.Contents()), c, va, acc)
    {
      hide IsValid, Xwr, PpnBits, PteAt, NeedsUpdate, Updated, LeafOk, BuildPa, Vpn;
      if !Canonical(va) {
        return PageFault;
      }
      ghost var m := memory.Contents();
      var base: nat := c.root * PAGE;
      var level: nat := 2;
      while true
        invariant 0 <= level < 3
        invariant memory.Contents() == m && WalkFrom(m, base, level, va) == Walk(m, c, va)
        decreases level
      {
        var a := PteAddr(base, va, level);
        var pte := ReadPte(a);
        if pte.None? || !IsValid(pte.value) {
          return PageFault;
        }
        if !IsLeaf(pte.value) {
          if level == 0 {
            return PageFault;
          }
          base := Ppn(pte.value) * PAGE;
          level := level - 1;
        } else {
          if !LeafOk(pte.value, level, acc, c) {
            return PageFault;
          }
          UpdateAccessedDirtyBits(a, pte.value, acc);
          return Physical(BuildPa(pte.value, va, level));
        }
      }
    }

    /** `translate` */
    method Translate(va: addr, acc: Access) returns (t: Translation)
      requires memory.Valid() && state.Valid()
      modifies memory.buffers
      ensures memory.Valid()
      ensures var c := ContextOf(old(state.Registers()), acc != Fetch);
        t == Xlate(old(memory.Contents()), c, va, acc) && memory.Contents() == XlateMem(old(memory.Contents()), c, va, acc)
    {
      hide Walk, PrivOf, Mpp, Mprv, SumBit, MxrBit, SatpMode, SatpPpn, NeedsUpdate;
      var effective := EffectivePrivilege(acc);
      var mode := SatpMode(state.satp.bits) as nat;
      var c := Ctx(effective, SumBit(state.mstatus.bits), MxrBit(state.mstatus.bits), mode, SatpPpn(state.satp.bits) as nat);
      if effective == Machine || mode == 0 {
        return Physical(va);
      }
      if mode == SV39 {
        t := WalkSv39(c, va, acc);
      } else if mode == SV48 {
        t := Unimplemented;
      } else {
        t := AccessFault;
      }
    }

    /** `_effectivePrivilege` */
    method EffectivePrivilege(acc: Access) returns (p: Priv)
      ensures p == EffectivePriv(state.Registers(), acc != Fetch)
    {
      hide PrivOf, Mpp, Mprv;
      if state.privilege == Machine && acc != Fetch && Mprv(state.mstatus.bits) {
        p := PrivOf(Mpp(state.mstatus.bits));
      } else {
        p := state.privilege;
      }
    }
  }
}
