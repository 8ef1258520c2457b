/** The mutable processor state: registers and the three translation tables, as `cpu_state.dart` and `tlb.dart` keep them. */
module CpuState {
  import opened Words
  import opened Translate
  import opened Csr
  import opened Tlb

  const PMP_CFGS: nat := 4
  const PMP_ADDRS: nat := 16

  class HartState {
    var privilege: Priv
    var pc: Reg
    var instructionCounter: nat
    var fflags: Reg
    var frm: Reg
    var mstatus: Reg
    var mtvec: Reg
    var mscratch: Reg
    var mepc: Reg
    var mcause: Reg
    var mtval: Reg
    var mhartid: Reg
    var misa: Reg
    var mie: Reg
    var mip: Reg
    var medeleg: Reg
    var mideleg: Reg
    var mcounteren: Reg
    var stvec: Reg
    var sscratch: Reg
    var sepc: Reg
    var scause: Reg
    var stval: Reg
    var satp: Reg
    var scounteren: Reg
    var menvcfg: Reg
    var menvcfgh: Reg
    var mcountinhibit: Reg
    var tselect: Reg
    const pmpCfg: array<Reg>
    const pmpAddr: array<Reg>

    const tlbRead: array<Entry>
    const tlbWrite: array<Entry>
    const tlbCode: array<Entry>

    /** The code page of the executor, which the flush callback invalidates. */
    var codePage: Entry

    ghost predicate Valid()
    {
      && tlbRead.Length == SIZE && tlbWrite.Length == SIZE && tlbCode.Length == SIZE
      && tlbRead != tlbWrite && tlbRead != tlbCode && tlbWrite != tlbCode
      && pmpCfg.Length == PMP_CFGS && pmpAddr.Length == PMP_ADDRS && pmpCfg != pmpAddr
    }

    ghost function Registers(): Csrs
      reads this, pmpCfg, pmpAddr
    {
      Csrs(privilege, pc, instructionCounter, fflags, frm, mstatus, mtvec, mscratch, mepc, mcause, mtval,
           mhartid, misa, mie, mip, medeleg, mideleg, mcounteren, stvec, sscratch, sepc, scause, stval, satp, scounteren,
           menvcfg, menvcfgh, mcountinhibit, tselect, pmpCfg[..], pmpAddr[..])
    }

    /** All translation entries, and the code page. */
    ghost function Entries(): (seq<Entry>, seq<Entry>, seq<Entry>, Entry)
      reads this`codePage, tlbRead, tlbWrite, tlbCode
    {
      (tlbRead[..], tlbWrite[..], tlbCode[..], codePage)
    }

    /** What `flushTlb` leaves. */
    ghost predicate Flushed(code: Entry)
      reads this`codePage, tlbRead, tlbWrite, tlbCode
    {
      Entries() == (EmptyTable(), EmptyTable(), EmptyTable(), code.(tag := INVALID))
    }

    /** The tables are emptied if `flush` says so, and otherwise as they were. */
    twostate predicate FlushedIf(flush: bool)
      reads this`codePage, tlbRead, tlbWrite, tlbCode
    {
      if flush then Flushed(old(codePage)) else Entries() == old(Entries())
    }

    constructor ()
      ensures Valid() && fresh(tlbRead) && fresh(tlbWrite) && fresh(tlbCode) && fresh(pmpCfg) && fresh(pmpAddr)
      ensures Entries() == (EmptyTable(), EmptyTable(), EmptyTable(), EMPTY)
      ensures privilege == Machine && mstatus == Reg(0xA_0000_0000) && satp == Reg(0)
    {
      privilege, pc, instructionCounter, fflags, frm := Machine, Reg(0), 0, Reg(0), Reg(0);
      mstatus, mtvec, mscratch, mepc, mcause, mtval := Reg(0xA_0000_0000), Reg(0), Reg(0), Reg(0), Reg(0), Reg(0);
      mhartid, misa, mie, mip, medeleg, mideleg, mcounteren := Reg(0), Reg(0x8000_0000_0014_112D), Reg(0), Reg(0), Reg(0), Reg(0), Reg(0);
      stvec, sscratch, sepc, scause, stval, satp, scounteren := Reg(0), Reg(0), Reg(0), Reg(0), Reg(0), Reg(0), Reg(0);
      menvcfg, menvcfgh, mcountinhibit, tselect := Reg(0), Reg(0), Reg(0), Reg(0);
      pmpCfg := new Reg[PMP_CFGS](i => Reg(0));
      pmpAddr := new Reg[PMP_ADDRS](i => Reg(0));
      tlbRead := new Entry[SIZE](i => EMPTY);
      tlbWrite := new Entry[SIZE](i => EMPTY);
      tlbCode := new Entry[SIZE](i => EMPTY);
      codePage := EMPTY;
      new;
      assert tlbRead[..] == EmptyTable() && tlbWrite[..] == EmptyTable() && tlbCode[..] == EmptyTable();
    }

    /** The fields as the registers they are. */
    lemma InRegisters()
      ensures var r := Registers();
        && r.priv == privilege && r.pc == pc && r.mstatus == mstatus && r.satp == satp
        && r.mtvec == mtvec && r.stvec == stvec && r.mepc == mepc && r.sepc == sepc
        && r.mie == mie && r.mip == mip && r.mideleg == mideleg && r.medeleg == medeleg && r.counter == instructionCounter
    {
    }

    /** All of them. */
    lemma AllInRegisters()
      ensures Registers() == Csrs(privilege, pc, instructionCounter, fflags, frm, mstatus, mtvec, mscratch, mepc, mcause, mtval,
           mhartid, misa, mie, mip, medeleg, mideleg, mcounteren, stvec, sscratch, sepc, scause, stval, satp, scounteren,
           menvcfg, menvcfgh, mcountinhibit, tselect, pmpCfg[..], pmpAddr[..])
    {
    }

    lemma PmpInRegisters()
      requires Valid()
      ensures |Registers().pmpCfg| == PMP_CFGS && |Registers().pmpAddr| == PMP_ADDRS
      ensures forall i :: 0 <= i < PMP_CFGS ==> Registers().pmpCfg[i] == pmpCfg[i]
      ensures forall i :: 0 <= i < PMP_ADDRS ==> Registers().pmpAddr[i] == pmpAddr[i]
    {
    }

    // The setters of the register fields.

    method SetPc(v: Reg)
      modifies this`pc
      ensures pc == v && Registers() == old(Registers()).(pc := v)
    {
      pc := v;
    }

    method SetCodePage(e: Entry)
      modifies this`codePage
      ensures codePage == e && Registers() == old(Registers())
    {
      codePage := e;
    }

    method SetFflags(v: Reg)
      modifies this`fflags
      ensures fflags == v && Registers() == old(Registers()).(fflags := v)
    {
      fflags := v;
    }

    method SetFrm(v: Reg)
      modifies this`frm
      ensures frm == v && Registers() == old(Registers()).(frm := v)
    {
      frm := v;
    }

    method SetMstatus(v: Reg)
      modifies this`mstatus
      ensures mstatus == v && Registers() == old(Registers()).(mstatus := v)
    {
      mstatus := v;
    }

    method SetMtvec(v: Reg)
      modifies this`mtvec
      ensures mtvec == v && Registers() == old(Registers()).(mtvec := v)
    {
      mtvec := v;
    }

    method SetMscratch(v: Reg)
      modifies this`mscratch
      ensures mscratch == v && Registers() == old(Registers()).(mscratch := v)
    {
      mscratch := v;
    }

    method SetMepc(v: Reg)
      modifies this`mepc
      ensures mepc == v && Registers() == old(Registers()).(mepc := v)
    {
      mepc := v;
    }

    method SetMcause(v: Reg)
      modifies this`mcause
      ensures mcause == v && Registers() == old(Registers()).(mcause := v)
    {
      mcause := v;
    }

    method SetMtval(v: Reg)
      modifies this`mtval
      ensures mtval == v && Registers() == old(Registers()).(mtval := v)
    {
      mtval := v;
    }

    method SetMisa(v: Reg)
      modifies this`misa
      ensures misa == v && Registers() == old(Registers()).(misa := v)
    {
      misa := v;
    }

    method SetMie(v: Reg)
      modifies this`mie
      ensures mie == v && Registers() == old(Registers()).(mie := v)
    {
      mie := v;
    }

    method SetMip(v: Reg)
      modifies this`mip
      ensures mip == v && Registers() == old(Registers()).(mip := v)
    {
      mip := v;
    }

    method SetMedeleg(v: Reg)
      modifies this`medeleg
      ensures medeleg == v && Registers() == old(Registers()).(medeleg := v)
    {
      medeleg := v;
    }

    method SetMideleg(v: Reg)
      modifies this`mideleg
      ensures mideleg == v && Registers() == old(Registers()).(mideleg := v)
    {
      mideleg := v;
    }

    method SetMcounteren(v: Reg)
      modifies this`mcounteren
      ensures mcounteren == v && Registers() == old(Registers()).(mcounteren := v)
    {
      mcounteren := v;
    }

    method SetStvec(v: Reg)
      modifies this`stvec
      ensures stvec == v && Registers() == old(Registers()).(stvec := v)
    {
      stvec := v;
    }

    method SetSscratch(v: Reg)
      modifies this`sscratch
      ensures sscratch == v && Registers() == old(Registers()).(sscratch := v)
    {
      sscratch := v;
    }

    method SetSepc(v: Reg)
      modifies this`sepc
      ensures sepc == v && Registers() == old(Registers()).(sepc := v)
    {
      sepc := v;
    }

    method SetScause(v: Reg)
      modifies this`scause
      ensures scause == v && Registers() == old(Registers()).(scause := v)
    {
      scause := v;
    }

    method SetStval(v: Reg)
      modifies this`stval
      ensures stval == v && Registers() == old(Registers()).(stval := v)
    {
      stval := v;
    }

    method SetSatp(v: Reg)
      modifies this`satp
      ensures satp == v && Registers() == old(Registers()).(satp := v)
    {
      satp := v;
    }

    method SetScounteren(v: Reg)
      modifies this`scounteren
      ensures scounteren == v && Registers() == old(Registers()).(scounteren := v)
    {
      scounteren := v;
    }

    method SetMenvcfg(v: Reg)
      modifies this`menvcfg
      ensures menvcfg == v && Registers() == old(Registers()).(menvcfg := v)
    {
      menvcfg := v;
    }

    method SetMenvcfgh(v: Reg)
      modifies this`menvcfgh
      ensures menvcfgh == v && Registers() == old(Registers()).(menvcfgh := v)
    {
      menvcfgh := v;
    }

    method SetMcountinhibit(v: Reg)
      modifies this`mcountinhibit
      ensures mcountinhibit == v && Registers() == old(Registers()).(mcountinhibit := v)
    {
      mcountinhibit := v;
    }

    method SetTselect(v: Reg)
      modifies this`tselect
      ensures tselect == v && Registers() == old(Registers()).(tselect := v)
    {
      tselect := v;
    }

    method SetPrivilege(p: Priv)
      modifies this`privilege
      ensures privilege == p && Registers() == old(Registers()).(priv := p)
    {
      privilege := p;
    }

    method SetCounter(n: nat)
      modifies this`instructionCounter
      ensures instructionCounter == n && Registers() == old(Registers()).(counter := n)
    {
      instructionCounter := n;
    }

    /** `flushTlb` and the callback behind it. */
    method FlushTlb()
      requires Valid()
      modifies this`codePage, tlbRead, tlbWrite, tlbCode
      ensures Valid() && Flushed(old(codePage)) && Registers() == old(Registers())
    {
      var i := 0;
      while i < SIZE
        invariant 0 <= i <= SIZE
        invariant forall k :: 0 <= k < i ==> tlbRead[k] == EMPTY && tlbWrite[k] == EMPTY && tlbCode[k] == EMPTY
        modifies tlbRead, tlbWrite, tlbCode
      {
        tlbRead[i] := EMPTY;
        tlbWrite[i] := EMPTY;
        tlbCode[i] := EMPTY;
        i := i + 1;
      }
      assert tlbRead[..] == EmptyTable() && tlbWrite[..] == EmptyTable() && tlbCode[..] == EmptyTable();
      codePage := codePage.(tag := INVALID);
    }

    /** `_invalidateIfMatches` on the slot the address selects. */
    method FlushSlot(table: array<Entry>, va: addr)
      requires table.Length == SIZE
      modifies table
      ensures table[..] == FlushPage(old(table[..]), va)
    {
      if table[IndexOf(va)].tag == TagOf(va) {
        table[IndexOf(va)] := EMPTY;
      }
    }

    /** `flushTlbPage`, and the code page with it, as sfence.vma does. */
    method FlushTlbPage(va: addr)
      requires Valid()
      modifies this`codePage, tlbRead, tlbWrite, tlbCode
      ensures Valid() && Registers() == old(Registers())
      ensures Entries() ==
        (FlushPage(old(tlbRead[..]), va), FlushPage(old(tlbWrite[..]), va), FlushPage(old(tlbCode[..]), va),
         if old(codePage).tag == TagOf(va) then old(codePage).(tag := INVALID) else old(codePage))
    {
      FlushSlot(tlbRead, va);
      FlushSlot(tlbWrite, va);
      FlushSlot(tlbCode, va);
      if TagOf(va) == codePage.tag {
        codePage := codePage.(tag := INVALID);
      }
    }

    /** `_purgeWriteTlbForPage` */
    method PurgeWriteTlb(host: int, off: nat)
      requires Valid()
      modifies tlbWrite
      ensures tlbWrite[..] == Purge(old(tlbWrite[..]), host, off)
    {
      var i := 0;
      while i < tlbWrite.Length
        invariant 0 <= i <= tlbWrite.Length
        invariant forall k :: 0 <= k < tlbWrite.Length ==>
          tlbWrite[k] == if k < i && old(tlbWrite[k]).off == off && old(tlbWrite[k]).host == host then EMPTY else old(tlbWrite[k])
      {
        if tlbWrite[i].off == off && tlbWrite[i].host == host {
          tlbWrite[i] := EMPTY;
        }
        i := i + 1;
      }
      assert tlbWrite[..] == Purge(old(tlbWrite[..]), host, off);
    }
  }
}
