/** The load-reserved / store-conditional reservation: one address register and one flag, updated
    by three execution paths, by traps and by returns. */
module Reservation {

  /** Scalar instructions as the reservation sees them. `Other` has no memory access. */
  datatype Insn =
    | Load | LoadFp | Store | StoreFp | AmoOp
    | Lr(addr: nat, width: nat) | Sc(addr: nat, width: nat)
    | Mret | Sret | Other

  /** The staged pipeline, its copy for bare-metal runs, and the decoded-instruction cache, which
      has its own load and store and otherwise falls back on the staged pipeline. */
  datatype Path = Staged | BareMetal | Cached

  /** What the rest of the machine does during one instruction: an exception before the memory
      stage, the outcome of its load, the memory its store leaves and whether it faults (a store
      that crosses a page may write some bytes first), and an interrupt at the end. */
  datatype Event<M> = Event(path: Path, insn: Insn, early: bool, loadFaults: bool,
                            stored: M, storeFaults: bool, interrupt: bool)

  /** M is guest memory as scalar stores change it. */
  datatype Core<M> = Core(memory: M, loadRes: nat, reserved: bool)

  /** An instruction either traps or retires; a retired SC wrote `scResult` to its destination. */
  datatype Retired = Trapped | Done(scResult: nat)

  predicate Aligned(insn: Insn) { insn.Sc? ==> insn.width > 0 && insn.addr % insn.width == 0 }

  // ---- what a trace says, without any flag -------------------------------------------------

  /** The instruction ends every reservation: a store of any kind, a return, or a trap. */
  predicate Breaks<M>(e: Event<M>) {
    || e.early || e.interrupt
    || e.insn.Store? || e.insn.StoreFp? || e.insn.AmoOp? || e.insn.Sc? || e.insn.Mret? || e.insn.Sret?
    || ((e.insn.Load? || e.insn.LoadFp? || e.insn.Lr?) && e.loadFaults)
  }

  /** The LR at j is the last one and nothing after it ended the reservation. */
  ghost predicate Holds<M>(trace: seq<Event<M>>, j: nat, addr: nat) {
    && j < |trace| && trace[j].insn.Lr? && trace[j].insn.addr == addr && !Breaks(trace[j])
    && forall k :: j < k < |trace| ==> !Breaks(trace[k]) && !trace[k].insn.Lr?
  }

  ghost predicate Live<M>(trace: seq<Event<M>>, addr: nat) {
    exists j: nat :: Holds(trace, j, addr)
  }

  /** This SC will store and write 0. */
  ghost predicate Paired<M>(trace: seq<Event<M>>, e: Event<M>)
    requires e.insn.Sc?
  {
    !e.early && Aligned(e.insn) && !e.storeFaults && Live(trace, e.insn.addr)
  }

  // ---- the object ----------------------------------------------------------------------------

  class Cpu<M(0)> {
    var memory: M
    var loadRes: nat
    var reserved: bool
    var pending: bool
    var wbData: nat

    ghost function State(): Core<M>
      reads this
    {
      Core(memory, loadRes, reserved)
    }

    constructor (memory: M)
      ensures State() == Core(memory, 0, false)
    {
      this.memory := memory;
      loadRes, reserved, pending, wbData := 0, false, false, 0;
    }

    /** The SC arm of execute: alignment first, then the reservation decides the result. */
    method ExecuteSc(insn: Insn)
      requires insn.Sc?
      modifies this`pending, this`wbData
      ensures pending == (old(pending) || !Aligned(insn))
      ensures Aligned(insn) ==> wbData == if insn.addr == loadRes && reserved then 0 else 1
      ensures !Aligned(insn) ==> wbData == old(wbData)
    {
      if insn.width == 0 || insn.addr % insn.width != 0 {
        pending := true;
        return;
      }
      wbData := if insn.addr == loadRes && reserved then 0 else 1;
    }

    /** storeInt and storeFp: nothing happens with an exception pending. */
    method StoreAccess(e: Event<M>)
      modifies this`memory, this`pending
      ensures memory == if old(pending) then old(memory) else e.stored
      ensures pending == (old(pending) || e.storeFaults)
    {
      if !pending {
        memory := e.stored;
        pending := e.storeFaults;
      }
    }

    /** Integer, FP and atomic loads, and the reservation of an LR. */
    method LoadPart(e: Event<M>)
      modifies this`pending, this`loadRes, this`reserved
      ensures e.insn.Lr? ==> loadRes == e.insn.addr && reserved
      ensures !e.insn.Lr? ==> loadRes == old(loadRes) && reserved == old(reserved)
      ensures var loads := e.insn.Load? || e.insn.LoadFp? || e.insn.AmoOp? || e.insn.Lr?;
              pending == (old(pending) || (loads && e.loadFaults))
    {
      if e.insn.Load? || e.insn.AmoOp? || e.insn.Lr? || e.insn.LoadFp? {
        pending := pending || e.loadFaults;
      }
      if e.insn.Lr? {
        loadRes := e.insn.addr;
        reserved := true;
      }
    }

    /** The store phase: an SC stores only with result 0 and a live reservation. */
    method StorePart(e: Event<M>)
      modifies this`memory, this`pending, this`reserved
      ensures var stores := e.insn.Store? || e.insn.StoreFp? || e.insn.AmoOp?
                            || (e.insn.Sc? && wbData == 0 && old(reserved));
              && memory == (if stores && !old(pending) then e.stored else old(memory))
              && pending == (old(pending) || (stores && e.storeFaults))
      ensures var drops := e.insn.Store? || e.insn.StoreFp? || e.insn.AmoOp? || e.insn.Sc?;
              reserved == (old(reserved) && (pending || !drops))
    {
      if e.insn.Store? || (e.insn.Sc? && wbData == 0 && reserved) || e.insn.AmoOp? {
        StoreAccess(e);
      }
      if e.insn.StoreFp? {
        StoreAccess(e);
      }
      if e.insn.Store? || e.insn.StoreFp? || e.insn.AmoOp? || e.insn.Sc? {
        if !pending {
          reserved := false;
        }
      }
    }

    /** memory_load_phase then memory_store_phase, each a no-op with an exception pending. */
    method MemoryStageStaged(e: Event<M>)
      modifies this
      ensures wbData == old(wbData)
      ensures AfterMemory(e, old(pending), old(State()), old(wbData), pending, State())
    {
      if !pending {
        LoadPart(e);
      }
      if !pending {
        StorePart(e);
      }
    }

    /** run_memory_stage_baremetal: one check at the start only. */
    method MemoryStageBareMetal(e: Event<M>)
      modifies this
      ensures wbData == old(wbData)
      ensures AfterMemory(e, old(pending), old(State()), old(wbData), pending, State())
    {
      if pending {
        return;
      }
      LoadPart(e);
      StorePart(e);
    }

    /** The memory stage's promise, shared by both copies of it. */
    static ghost predicate AfterMemory(e: Event<M>, pend: bool, s: Core<M>, wb: nat, pend': bool, s': Core<M>) {
      if pend then pend' && s' == s
      else match e.insn
        case Load | LoadFp => pend' == e.loadFaults && s' == s
        case Store | StoreFp =>
          pend' == e.storeFaults && s'.memory == e.stored && s'.loadRes == s.loadRes && (!pend' ==> !s'.reserved)
        case AmoOp =>
          && pend' == (e.loadFaults || e.storeFaults) && s'.loadRes == s.loadRes && (!pend' ==> !s'.reserved)
          && s'.memory == (if e.loadFaults then s.memory else e.stored)
        case Lr(addr, _) => pend' == e.loadFaults && s' == Core(s.memory, addr, true)
        case Sc(addr, width) =>
          var stores := wb == 0 && s.reserved;
          && pend' == (stores && e.storeFaults) && s'.loadRes == s.loadRes && (!pend' ==> !s'.reserved)
          && s'.memory == (if stores then e.stored else s.memory)
        case Mret | Sret | Other => !pend' && s' == s
    }

    /** raiseException and both returns drop the reservation. */
    method RaiseException()
      modifies this`reserved, this`pending
      ensures !reserved && !pending
    {
      reserved := false;
      pending := false;
    }

    method Return()
      modifies this`reserved
      ensures !reserved
    {
      reserved := false;
    }

    /** execute_cached_load and execute_cached_store. */
    method CachedAccess(e: Event<M>)
      requires e.insn.Load? || e.insn.Store?
      requires !pending
      modifies this
      ensures AfterMemory(e, false, old(State()), 0, pending, State())
    {
      if e.insn.Load? {
        pending := e.loadFaults;
        return;
      }
      StoreAccess(e);
      if pending {
        return;
      }
      reserved := false;
    }

    /** One instruction on any path: the execute stage, the memory stage, the trap or return, and
        a pending interrupt. */
    method StepInstruction(e: Event<M>) returns (r: Retired)
      modifies this
      ensures Advances(e, old(State()), State(), r)
    {
      pending, wbData := e.early, 1;
      if e.insn.Sc? && !pending {
        ExecuteSc(e.insn);
      }
      if !pending && e.path == Cached && (e.insn.Load? || e.insn.Store?) {
        CachedAccess(e);
      } else if e.path == BareMetal {
        MemoryStageBareMetal(e);
      } else {
        MemoryStageStaged(e);
      }
      if pending {
        RaiseException();
        return Trapped;
      }
      r := Done(wbData);
      if e.insn.Mret? || e.insn.Sret? {
        Return();
      }
      if e.interrupt {
        RaiseException();
      }
    }

    /** One step, on every path: what becomes of memory, of the reservation and of an SC. */
    static ghost predicate Advances(e: Event<M>, s: Core<M>, s': Core<M>, r: Retired) {
      var hit := e.insn.Sc? && !e.early && Aligned(e.insn) && s.reserved && s.loadRes == e.insn.addr;
      && (Breaks(e) ==> !s'.reserved)
      && (!Breaks(e) && e.insn.Lr? ==> s'.reserved && s'.loadRes == e.insn.addr)
      && (!Breaks(e) && !e.insn.Lr? ==> s'.reserved == s.reserved && s'.loadRes == s.loadRes)
      && (!Breaks(e) ==> s'.memory == s.memory)
      && (e.insn.Sc? ==> (r == Done(0) <==> hit && !e.storeFaults))
      && (e.insn.Sc? ==> s'.memory == if hit then e.stored else s.memory)
    }

    /** A whole run from a fresh core: the outcome and the memory before each instruction. */
    method RunTrace(trace: seq<Event<M>>) returns (outcomes: seq<Retired>, ghost before: seq<Core<M>>)
      requires !reserved
      modifies this
      ensures |outcomes| == |trace| && |before| == |trace| + 1 && before[|trace|] == State()
      ensures before[0] == old(State())
      ensures forall i :: 0 <= i < |trace| ==> Advances(trace[i], before[i], before[i + 1], outcomes[i])
      ensures forall i :: 0 <= i < |trace| && trace[i].insn.Sc? ==>
                (outcomes[i] == Done(0) <==> Paired(trace[..i], trace[i]))
    {
      hide Advances, Paired;
      outcomes := [];
      before := [State()];
      for i := 0 to |trace|
        invariant |outcomes| == i && |before| == i + 1 && before[i] == State()
        invariant before[0] == old(State())
        invariant forall k :: 0 <= k < i ==> Advances(trace[k], before[k], before[k + 1], outcomes[k])
      {
        var r := StepInstruction(trace[i]);
        outcomes := outcomes + [r];
        before := before + [State()];
      }
      forall i | 0 <= i < |trace| && trace[i].insn.Sc?
        ensures outcomes[i] == Done(0) <==> Paired(trace[..i], trace[i])
      {
        ScIffPaired(trace, before, outcomes, i);
      }
    }
  }

  // ---- whole runs ----------------------------------------------------------------------------

  ghost predicate IsRun<M(0)>(trace: seq<Event<M>>, before: seq<Core<M>>, outcomes: seq<Retired>) {
    && |outcomes| == |trace| && |before| == |trace| + 1 && !before[0].reserved
    && forall i :: 0 <= i < |trace| ==> Cpu<M>.Advances(trace[i], before[i], before[i + 1], outcomes[i])
  }

  /** The flag and the address register say exactly which LR, if any, still holds. */
  lemma {:induction false} FlagMeansLive<M(0)>(trace: seq<Event<M>>, before: seq<Core<M>>, outcomes: seq<Retired>,
                                               n: nat, addr: nat)
    requires IsRun(trace, before, outcomes) && n <= |trace|
    ensures before[n].reserved && before[n].loadRes == addr <==> Live(trace[..n], addr)
    decreases n
  {
    hide Holds;
    if n == 0 {
      NothingLive(trace, addr);
    } else {
      FlagMeansLive(trace, before, outcomes, n - 1, addr);
      assert Cpu<M>.Advances(trace[n - 1], before[n - 1], before[n], outcomes[n - 1]);
      LiveStep(trace[..n - 1], trace[..n], trace[n - 1], addr);
    }
  }

  lemma NothingLive<M>(trace: seq<Event<M>>, addr: nat)
    ensures !Live(trace[..0], addr)
  {
  }

  lemma LiveStep<M>(p: seq<Event<M>>, q: seq<Event<M>>, e: Event<M>, addr: nat)
    requires |q| == |p| + 1 && q[|p|] == e && forall k :: 0 <= k < |p| ==> q[k] == p[k]
    ensures Breaks(e) ==> !Live(q, addr)
    ensures !Breaks(e) && e.insn.Lr? ==> (Live(q, addr) <==> e.insn.addr == addr)
    ensures !Breaks(e) && !e.insn.Lr? ==> (Live(q, addr) <==> Live(p, addr))
  {
    if !Breaks(e) && e.insn.Lr? && e.insn.addr == addr {
      assert Holds(q, |p|, addr);
    }
    if !Breaks(e) && !e.insn.Lr? {
      forall j: nat | Holds(p, j, addr) ensures Holds(q, j, addr) {
        assert forall k :: j < k < |q| ==> !Breaks(q[k]) && !q[k].insn.Lr?;
      }
      forall j: nat | Holds(q, j, addr) ensures Holds(p, j, addr) {
        assert forall k :: j < k < |p| ==> p[k] == q[k];
      }
    }
  }

  /** An SC stores and writes 0 if and only if its most recent LR was to the same address and
      nothing since was a store, AMO, SC, trap or return. */
  lemma ScIffPaired<M(0)>(trace: seq<Event<M>>, before: seq<Core<M>>, outcomes: seq<Retired>, i: nat)
    requires IsRun(trace, before, outcomes) && i < |trace| && trace[i].insn.Sc?
    ensures outcomes[i] == Done(0) <==> Paired(trace[..i], trace[i])
  {
    FlagMeansLive(trace, before, outcomes, i, trace[i].insn.addr);
    assert Cpu<M>.Advances(trace[i], before[i], before[i + 1], outcomes[i]);
  }

  /** Between the two, memory has not changed: the SC overwrites what the LR read. */
  lemma {:induction false} PairSeesSameMemory<M(0)>(trace: seq<Event<M>>, before: seq<Core<M>>, outcomes: seq<Retired>,
                                                   i: nat, j: nat, k: nat)
    requires IsRun(trace, before, outcomes) && i < |trace| && trace[i].insn.Sc?
    requires Holds(trace[..i], j, trace[i].insn.addr) && j <= k <= i
    ensures before[k].memory == before[j].memory
    decreases k
  {
    if k > j {
      assert trace[..i][k - 1] == trace[k - 1];
      PairSeesSameMemory(trace, before, outcomes, i, j, k - 1);
    }
  }

  /** The reservation remembers an address and not a width: after an LR of any width an aligned SC of
      any other width at its address succeeds. */
  lemma WidthIsNotChecked<M(0)>(m: M, m': M, addr: nat, read: nat, written: nat)
    requires written > 0 && addr % written == 0
    ensures var lr := Event(Staged, Lr(addr, read), false, false, m, false, false);
            var sc := Event(Staged, Sc(addr, written), false, false, m', false, false);
            Paired([lr], sc)
  {
    var lr := Event(Staged, Lr(addr, read), false, false, m, false, false);
    assert Holds([lr], 0, addr);
  }
}
