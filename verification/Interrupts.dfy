/** Interrupt dispatch: which pending interrupt is taken at an instruction boundary, and to
    which privilege level it goes. Section 3.1.9 of the RISC-V Privileged Architecture is the
    reference. */
module Interrupts {

  import opened PageTable
  import opened Privileged

  // ---- the simulator's selection -----------------------------------------------------------

  /** The fixed order MEI, MSI, MTI, SEI, SSI, STI. */
  const PRIORITY_ORDER: seq<nat> := [11, 3, 7, 9, 1, 5]

  function Highest(mask: set<nat>): (r: nat)
    requires mask != {}
    ensures r in mask && forall i :: i in mask ==> i <= r
  {
    HighestExists(mask);
    var r :| r in mask && forall i :: i in mask ==> i <= r;
    r
  }

  lemma {:induction false} HighestExists(mask: set<nat>)
    requires mask != {}
    ensures exists r :: r in mask && forall i :: i in mask ==> i <= r
    decreases |mask|
  {
    var x :| x in mask;
    var rest := mask - {x};
    if rest != {} {
      HighestExists(rest);
      var r :| r in rest && forall i :: i in rest ==> i <= r;
      var m := if x <= r then r else x;
      assert m in mask && forall i :: i in mask ==> i <= m by {
        forall i | i in mask ensures i <= m {
          assert i == x || i in rest;
        }
      }
    } else {
      assert forall i :: i in mask ==> i == x by {
        forall i | i in mask ensures i == x {
          assert i == x || i in rest;
        }
      }
    }
  }

  function FirstInOrder(mask: set<nat>, order: seq<nat>): nat
    requires mask != {}
    decreases |order|
  {
    if order == [] then Highest(mask)
    else if order[0] in mask then order[0]
    else FirstInOrder(mask, order[1..])
  }

  /** First of the fixed order that is in the mask, else the highest-numbered bit. */
  function SelectHighestPriority(mask: set<nat>): nat
    requires mask != {}
  {
    FirstInOrder(mask, PRIORITY_ORDER)
  }

  predicate EnabledHere(s: Arch, i: nat) {
    match s.priv
    case Machine => s.mstatus.mie && i !in s.irqs.mideleg
    case Supervisor => i !in s.irqs.mideleg || s.mstatus.sie
    case User => true
  }

  function Mask(s: Arch): set<nat> {
    set i | i in s.irqs.mip * s.irqs.mie && EnabledHere(s, i)
  }

  /** Takes the selected interrupt, if any, at the current pc. */
  function Dispatch(s: Arch): Arch {
    if Mask(s) == {} then s else RaiseException(s, Interrupt(SelectHighestPriority(Mask(s))), 0)
  }

  // ---- section 3.1.9 -----------------------------------------------------------------------

  predicate TrapsToMachine(s: Arch, i: nat) {
    && (BelowMachine(s.priv) || s.mstatus.mie)
    && i in s.irqs.mip && i in s.irqs.mie && i !in s.irqs.mideleg
  }

  predicate TrapsToSupervisor(s: Arch, i: nat) {
    && (s.priv.User? || (s.priv.Supervisor? && s.mstatus.sie))
    && i in s.irqs.mip && i in s.irqs.mie && i in s.irqs.mideleg
  }

  /** Position in the fixed order; platform interrupts come after, highest number first. */
  function Rank(i: nat): int {
    match i
    case 11 => -6 case 3 => -5 case 7 => -4 case 9 => -3 case 1 => -2 case 5 => -1
    case _ => 0
  }

  /** i comes before or ties with j. */
  predicate Precedes(i: nat, j: nat) {
    Rank(i) < Rank(j) || (Rank(i) == Rank(j) && j <= i)
  }

  /** An interrupt is taken exactly when the standard allows one for its destination. */
  lemma TakenIffAllowed(s: Arch, i: nat)
    ensures i in Mask(s) <==> TrapsToMachine(s, i) || TrapsToSupervisor(s, i)
    ensures !(TrapsToMachine(s, i) && TrapsToSupervisor(s, i))
  {
  }

  /** Rank and the order array are inverse to each other. */
  lemma RankOfOrder(k: nat, i: nat)
    requires k < 6
    ensures Rank(PRIORITY_ORDER[k]) == k - 6
    ensures -6 <= Rank(i) <= 0 && (Rank(i) == k - 6 ==> i == PRIORITY_ORDER[k])
  {
  }

  /** Once the first k places are excluded, every remaining interrupt ranks at k or later. */
  lemma RankFrom(mask: set<nat>, k: nat, i: nat)
    requires i in mask && k <= 6 && forall n :: 0 <= n < k ==> PRIORITY_ORDER[n] !in mask
    ensures k - 6 <= Rank(i) <= 0
  {
    assert PRIORITY_ORDER[0] == 11 && PRIORITY_ORDER[1] == 3 && PRIORITY_ORDER[2] == 7;
    assert PRIORITY_ORDER[3] == 9 && PRIORITY_ORDER[4] == 1 && PRIORITY_ORDER[5] == 5;
  }

  lemma {:induction false} FirstInOrderIsFirst(mask: set<nat>, k: nat, i: nat)
    requires i in mask && k <= 6
    requires forall n :: 0 <= n < k ==> PRIORITY_ORDER[n] !in mask
    ensures FirstInOrder(mask, PRIORITY_ORDER[k..]) in mask
    ensures Precedes(FirstInOrder(mask, PRIORITY_ORDER[k..]), i)
    decreases 6 - k
  {
    hide Rank;
    RankFrom(mask, k, i);
    if k == 6 {
      RankFrom(mask, 6, Highest(mask));
    } else if PRIORITY_ORDER[k] in mask {
      RankOfOrder(k, i);
    } else {
      assert PRIORITY_ORDER[k..][1..] == PRIORITY_ORDER[k + 1..];
      FirstInOrderIsFirst(mask, k + 1, i);
    }
  }

  /** The selected interrupt is pending and enabled, and precedes every other one in the fixed
      order. */
  lemma SelectedIsFirst(mask: set<nat>, i: nat)
    requires i in mask
    ensures SelectHighestPriority(mask) in mask && Precedes(SelectHighestPriority(mask), i)
  {
    assert PRIORITY_ORDER[0..] == PRIORITY_ORDER;
    FirstInOrderIsFirst(mask, 0, i);
  }

  lemma PrecedesTotal(i: nat, j: nat, k: nat)
    ensures Precedes(i, j) || Precedes(j, i)
    ensures Precedes(i, j) && Precedes(j, i) ==> i == j
    ensures Precedes(i, j) && Precedes(j, k) ==> Precedes(i, k)
  {
  }

  /** Dispatch enters the level whose enable rule admitted the interrupt, never lowers
      privilege, and records the interrupt and the interrupted pc there; with nothing eligible
      it changes nothing. */
  lemma DestinationMatchesRule(s: Arch)
    requires Legal(s) && forall i :: i in s.irqs.mideleg ==> i < 64
    ensures Mask(s) == {} ==> Dispatch(s) == s
    ensures Mask(s) != {} ==>
              var i, t := SelectHighestPriority(Mask(s)), Dispatch(s);
              && Level(t.priv) >= Level(s.priv)
              && (TrapsToMachine(s, i) <==> t.priv.Machine?)
              && (TrapsToSupervisor(s, i) <==> t.priv.Supervisor?)
              && (t.priv.Machine? ==> t.mx.cause == Interrupt(i) && t.mx.epc == s.pc && t.sx == s.sx)
              && (t.priv.Supervisor? ==> t.sx.cause == Interrupt(i) && t.sx.epc == s.pc && t.mx == s.mx)
  {
    hide TrapVector, FirstInOrder;
    if Mask(s) != {} {
      var i :| i in Mask(s);
      SelectedIsFirst(Mask(s), i);
      var j := SelectHighestPriority(Mask(s));
      TakenIffAllowed(s, j);
    }
  }

  // ---- interrupts to M-mode take priority over interrupts to lower modes -------------------

  /** i is what the standard takes: among the allowed interrupts, those destined for M-mode
      first, and within one destination the fixed order. */
  predicate StandardChoice(s: Arch, i: nat) {
    && i in Mask(s)
    && (forall j :: j in Mask(s) && TrapsToMachine(s, j) ==> TrapsToMachine(s, i) && Precedes(i, j))
    && (!TrapsToMachine(s, i) ==> forall j :: j in Mask(s) ==> Precedes(i, j))
  }

  /** A delegated interrupt that may be taken precedes, in the fixed order, every undelegated
      one that may be taken, and there is such an undelegated one. */
  predicate DelegatedOutranks(s: Arch) {
    && (exists u :: u in Mask(s) && u !in s.irqs.mideleg)
    && exists d :: d in Mask(s) && d in s.irqs.mideleg
               && forall u :: u in Mask(s) && u !in s.irqs.mideleg ==> Precedes(d, u)
  }

  /** One mask for both destinations: the selection is the standard's choice exactly when no
      delegated interrupt outranks all undelegated ones. */
  lemma ChoiceIsStandardIff(s: Arch)
    requires Mask(s) != {}
    ensures StandardChoice(s, SelectHighestPriority(Mask(s))) <==> !DelegatedOutranks(s)
  {
    hide FirstInOrder, Rank, Precedes;
    var i := SelectHighestPriority(Mask(s));
    forall j | j in Mask(s) ensures i in Mask(s) && Precedes(i, j) {
      SelectedIsFirst(Mask(s), j);
    }
    var w :| w in Mask(s);
    assert i in Mask(s);
    forall j | j in Mask(s)
      ensures TrapsToMachine(s, j) <==> j !in s.irqs.mideleg
    {
      TakenIffAllowed(s, j);
    }
    if DelegatedOutranks(s) {
      var d :| d in Mask(s) && d in s.irqs.mideleg
           && forall u :: u in Mask(s) && u !in s.irqs.mideleg ==> Precedes(d, u);
      var u :| u in Mask(s) && u !in s.irqs.mideleg;
      if i !in s.irqs.mideleg {
        PrecedesTotal(i, d, i);
        assert false;
      }
      assert TrapsToMachine(s, u) && !TrapsToMachine(s, i);
    } else if i in s.irqs.mideleg {
      assert forall u :: u in Mask(s) ==> u in s.irqs.mideleg;
    }
  }

  /** The two disagree on a reachable configuration: with only SEI delegated and SEI and STI
      pending and enabled in U-mode, SEI is taken to S-mode while the standard takes STI to
      M-mode. */
  lemma ChoiceDiffersFromStandard(s: Arch)
    requires s.priv == User && s.irqs == Irqs({}, {9}, {9, 5}, {9, 5})
    ensures Mask(s) == {9, 5} && SelectHighestPriority(Mask(s)) == 9
    ensures StandardChoice(s, 5) && !StandardChoice(s, 9)
  {
    assert Mask(s) == {9, 5};
    SelectedIsFirst({9, 5}, 9);
    SelectedIsFirst({9, 5}, 5);
    assert 5 in Mask(s) && TrapsToMachine(s, 5) && !TrapsToMachine(s, 9);
  }

  // ---- the commit stages and the cached path agree -----------------------------------------

  datatype Outcome = Next(pc: nat) | Taken(target: nat) | Pending(code: nat, tval: nat)

  /** The commit stage (the pipeline's and the bare-metal one are the same): the mask is
      computed first, then an exception or a misaligned target wins, else the pc moves and the
      interrupt is taken there. */
  function Commit(s: Arch, o: Outcome): Arch {
    var mask := Mask(s);
    match o
    case Pending(code, tval) => RaiseException(s, Exception(code), tval)
    case Taken(target) =>
      if target % Ialign(s) != 0 then RaiseException(s, Exception(0), target)
      else
        var t := s.(pc := target);
        if mask != {} then RaiseException(t, Interrupt(SelectHighestPriority(mask)), 0) else t
    case Next(pc) =>
      var t := s.(pc := pc);
      if mask != {} then RaiseException(t, Interrupt(SelectHighestPriority(mask)), 0) else t
  }

  /** The cached fast path: move the pc, then dispatch only if something is pending. */
  function CommitCached(s: Arch, pc: nat): Arch {
    var t := s.(pc := pc);
    if t.irqs.mip * t.irqs.mie != {} then Dispatch(t) else t
  }

  /** With no exception and an aligned next pc, all dispatch copies reach the same state: the
      pc moves, and then the one selected interrupt, if any, is taken. */
  lemma DispatchCopiesAgree(s: Arch, pc: nat)
    requires pc % Ialign(s) == 0
    ensures Commit(s, Next(pc)) == Commit(s, Taken(pc)) == CommitCached(s, pc) == Dispatch(s.(pc := pc))
  {
    hide RaiseException, FirstInOrder;
    assert Mask(s.(pc := pc)) == Mask(s);
    if s.irqs.mip * s.irqs.mie == {} {
      assert Mask(s) == {};
    }
  }

  // ---- the copies in place ------------------------------------------------------------------

  method EnabledSet(a: ArchState) returns (mask: set<nat>)
    ensures mask == Mask(a.Value())
  {
    var pending := a.irqs.mip * a.irqs.mie;
    mask := {};
    if pending != {} {
      match a.priv {
        case Machine =>
          if a.mstatus.mie {
            mask := pending - a.irqs.mideleg;
          }
        case Supervisor =>
          mask := pending - a.irqs.mideleg;
          if a.mstatus.sie {
            mask := mask + pending * a.irqs.mideleg;
          }
        case User =>
          mask := pending;
      }
    }
  }

  /** The cached path's dispatch. */
  method DispatchPendingInterrupts(a: ArchState)
    modifies a
    ensures a.Value() == Dispatch(old(a.Value()))
  {
    hide RaiseException, FirstInOrder;
    var mask := EnabledSet(a);
    if mask != {} {
      a.Raise(Interrupt(SelectHighestPriority(mask)), 0);
    }
  }

  /** The end of the pipeline's commit stage. */
  method CommitControlFlow(a: ArchState, o: Outcome)
    modifies a
    ensures a.Value() == Commit(old(a.Value()), o)
  {
    hide RaiseException, FirstInOrder, EnabledHere;
    var mask := EnabledSet(a);
    match o {
      case Pending(code, tval) =>
        a.Raise(Exception(code), tval);
        return;
      case Taken(target) =>
        if target % (if a.isa.c then 2 else 4) != 0 {
          a.Raise(Exception(0), target);
          return;
        }
        a.pc := target;
      case Next(pc) =>
        a.pc := pc;
    }
    if mask != {} {
      a.Raise(Interrupt(SelectHighestPriority(mask)), 0);
    }
  }

  /** The end of the bare-metal commit stage, a copy of its own that picks the interrupt together with
      the mask. */
  method CommitBareMetal(a: ArchState, o: Outcome)
    modifies a
    ensures a.Value() == Commit(old(a.Value()), o)
  {
    hide RaiseException, FirstInOrder;
    var pending := a.irqs.mip * a.irqs.mie;
    var enabled := pending;
    if a.priv.Machine? {
      enabled := if a.mstatus.mie then pending - a.irqs.mideleg else {};
    } else if a.priv.Supervisor? {
      enabled := if a.mstatus.sie then pending else pending - a.irqs.mideleg;
    }
    assert enabled == Mask(a.Value());
    var irq := if enabled != {} then SelectHighestPriority(enabled) else 32;
    if o.Pending? {
      a.Raise(Exception(o.code), o.tval);
    } else {
      var misaligned := o.Taken? && o.target % (if a.isa.c then 2 else 4) != 0;
      if misaligned {
        a.Raise(Exception(0), o.target);
        return;
      }
      a.pc := if o.Taken? then o.target else o.pc;
      if enabled != {} {
        a.Raise(Interrupt(irq), 0);
      }
    }
  }
}
