/** Traps taken inside trap handlers, to any depth, and what each return resumes. */
module TrapNesting {
  import opened Words
  import opened Translate
  import opened Csr
  import opened CsrTheorems

  // ---------------------------------------------------------------- brackets

  /** What runs between a trap and its return: register steps, and traps with their handlers, to any depth. */
  datatype Item = Straight(op: Op) | Bracket(cause: bv64, tval: bv64, body: seq<Item>)

  /** A bracket is a trap, its handler, and the return of the level that took it. */
  function RunItems(s: Csrs, items: seq<Item>): Csrs
    decreases items
  {
    if items == [] then s else RunItems(RunItem(s, items[0]), items[1..])
  }

  function RunItem(s: Csrs, item: Item): Csrs
    decreases item
  {
    match item
    case Straight(op) => Step(s, op)
    case Bracket(cause, tval, body) =>
      var e := Step(s, TrapOp(cause, tval));
      Step(RunItems(e, body), if e.priv == Machine then MretOp(0) else SretOp(0))
  }

  /** Every handler ends at its own level with its frame as it found it. */
  predicate WellBracketed(s: Csrs, items: seq<Item>)
    decreases items
  {
    items == [] || (WellClosed(s, items[0]) && WellBracketed(RunItem(s, items[0]), items[1..]))
  }

  predicate WellClosed(s: Csrs, item: Item)
    decreases item
  {
    item.Bracket? ==>
      var e := Trap(s, item.cause, item.tval);
      var b := RunItems(e, item.body);
      && WellBracketed(e, item.body) && b.priv == e.priv
      && (if Delegated(s, item.cause) then SavedFrame(e, b) else MachineFrame(e, b))
  }

  /** After every bracket, at every depth, the interrupted code goes on where it was. */
  predicate AllResume(s: Csrs, items: seq<Item>)
    decreases items
  {
    items == [] || (ItemResumes(s, items[0]) && AllResume(RunItem(s, items[0]), items[1..]))
  }

  predicate ItemResumes(s: Csrs, item: Item)
    decreases item
  {
    item.Bracket? ==> AllResume(Trap(s, item.cause, item.tval), item.body) && Resumed(s, RunItem(s, item))
  }

  lemma TrapLevel(s: Csrs, cause: bv64, tval: bv64)
    ensures Trap(s, cause, tval).priv == if Delegated(s, cause) then Supervisor else Machine
  {
    hide Delegated;
  }

  lemma {:induction false} ItemReturns(s: Csrs, item: Item)
    requires WellClosed(s, item)
    ensures ItemResumes(s, item)
    decreases item
  {
    hide Delegated, Trap, Mret, Sret, SavedFrame, MachineFrame, Resumed;
    if item.Bracket? {
      var e := Trap(s, item.cause, item.tval);
      TrapLevel(s, item.cause, item.tval);
      BracketsResume(e, item.body);
      if Delegated(s, item.cause) {
        SupervisorTrapReturns(s, item.cause, item.tval, RunItems(e, item.body));
      } else {
        MachineTrapReturns(s, item.cause, item.tval, RunItems(e, item.body));
      }
    }
  }

  /** Traps nest: in every well-bracketed run every return resumes the code its trap interrupted. */
  lemma {:induction false} BracketsResume(s: Csrs, items: seq<Item>)
    requires WellBracketed(s, items)
    ensures AllResume(s, items)
    decreases items
  {
    hide WellClosed, ItemResumes, RunItem;
    if items != [] {
      ItemReturns(s, items[0]);
      BracketsResume(RunItem(s, items[0]), items[1..]);
    }
  }

  // ---------------------------------------------------------------- what a handler need not save

  /**
   * A stretch of a supervisor handler that saves nothing: its own steps leave the frame and the level alone, and so do those of
   * the machine handlers that interrupt it, which keep their own frames.
   */
  predicate Considerate(s: Csrs, items: seq<Item>)
    decreases items
  {
    items == [] || (Sparing(s, items[0]) && Considerate(RunItem(s, items[0]), items[1..]))
  }

  predicate Sparing(s: Csrs, item: Item)
    decreases item
  {
    match item
    case Straight(op) => SavedFrame(s, Step(s, op)) && Step(s, op).priv == s.priv
    case Bracket(cause, tval, body) =>
      var e := Trap(s, cause, tval);
      !Delegated(s, cause) && Considerate(e, body) && MachineFrame(e, RunItems(e, body))
  }

  lemma FrameTrans(s: Csrs, t: Csrs, u: Csrs)
    requires SavedFrame(s, t) && SavedFrame(t, u)
    ensures SavedFrame(s, u)
  {
    hide Spp, Spie;
  }

  lemma LeaveKeepsS(ms: bv64, p: Priv, bit: bv64)
    requires bit <= 1
    ensures Spp(LeaveM(WithEnableBit(ms, p, bit))) == Spp(ms) && Spie(LeaveM(WithEnableBit(ms, p, bit))) == Spie(ms)
  {
    match p {
      case User =>
      case Supervisor =>
      case Hypervisor =>
      case Machine =>
    }
  }

  lemma EnterKeepsS(ms: bv64, level: bv64, bit: bv64)
    requires level <= 3 && bit <= 1
    ensures Spp(EnterM(ms, level, bit)) == Spp(ms) && Spie(EnterM(ms, level, bit)) == Spie(ms)
  {
  }

  lemma MpieSmall(ms: bv64)
    ensures Mpie(ms) <= 1
  {
  }

  /** Entering and leaving machine level touches nothing a supervisor handler depends on. */
  lemma MachineSparesFrame(s: Csrs, cause: bv64, tval: bv64)
    ensures !Delegated(s, cause) ==> SavedFrame(s, Trap(s, cause, tval))
    ensures SavedFrame(s, Mret(s))
  {
    hide EnterM, LeaveM, EnableBit, WithEnableBit, Spp, Spie, Mpp, Mpie, PrivOf, Delegated;
    EnableBitSmall(s.mstatus.bits, s.priv);
    EnterKeepsS(s.mstatus.bits, PrivBits(s.priv), EnableBit(s.mstatus.bits, s.priv));
    MpieSmall(s.mstatus.bits);
    LeaveKeepsS(s.mstatus.bits, PrivOf(Mpp(s.mstatus.bits)), Mpie(s.mstatus.bits));
  }

  lemma {:induction false} SparingKeeps(s: Csrs, item: Item)
    requires Sparing(s, item)
    ensures SavedFrame(s, RunItem(s, item)) && RunItem(s, item).priv == s.priv
    decreases item
  {
    hide Delegated, Trap, Mret, Sret, SavedFrame, MachineFrame, Resumed, Considerate;
    if item.Bracket? {
      var e := Trap(s, item.cause, item.tval);
      var b := RunItems(e, item.body);
      TrapLevel(s, item.cause, item.tval);
      ConsiderateKeeps(e, item.body);
      MachineSparesFrame(s, item.cause, item.tval);
      MachineSparesFrame(b, item.cause, item.tval);
      FrameTrans(s, e, b);
      FrameTrans(s, b, Mret(b));
      MachineTrapReturns(s, item.cause, item.tval, b);
      ResumedLevel(s, Mret(b));
    }
  }

  lemma ResumedLevel(s: Csrs, s': Csrs)
    requires Resumed(s, s')
    ensures s'.priv == s.priv && s'.pc == s.pc
  {
    hide SameEnables, EnabledSet;
  }

  lemma FrameRefl(s: Csrs)
    ensures SavedFrame(s, s)
  {
  }

  lemma {:induction false} ConsiderateKeeps(s: Csrs, items: seq<Item>)
    requires Considerate(s, items)
    ensures SavedFrame(s, RunItems(s, items)) && RunItems(s, items).priv == s.priv
    decreases items
  {
    hide Sparing, RunItem, SavedFrame;
    FrameRefl(s);
    if items != [] {
      SparingKeeps(s, items[0]);
      ConsiderateKeeps(RunItem(s, items[0]), items[1..]);
      FrameTrans(s, RunItem(s, items[0]), RunItems(s, items));
    }
  }

  /**
   * A supervisor handler that saves nothing may be interrupted by machine traps wherever and as deep as may be: its sret still
   * resumes the code its own trap interrupted.
   */
  lemma TrapsNest(s: Csrs, cause: bv64, tval: bv64, items: seq<Item>)
    requires Delegated(s, cause) && Considerate(Trap(s, cause, tval), items)
    ensures Resumed(s, Sret(RunItems(Trap(s, cause, tval), items)))
  {
    hide Delegated, Resumed, SavedFrame, Sret, Trap, Considerate;
    ConsiderateKeeps(Trap(s, cause, tval), items);
    SupervisorTrapReturns(s, cause, tval, RunItems(Trap(s, cause, tval), items));
  }
}
