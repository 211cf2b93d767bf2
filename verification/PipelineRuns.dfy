/** What holds over every run of the timing pipeline: order, conservation, hazards, divide
    residency and cycle accounting. */
module PipelineRuns {

  import opened Predictor
  import opened Pipeline

  type Config = Pipeline.Config

  ghost predicate TablesOk(cfg: Config, p: Pipe) { Predictor.WellFormed(cfg.bp, p.tables) }

  // ---- the issue loop ----------------------------------------------------------------------

  /** Ticks until F can take an instruction; returns the state reached and the ticks spent. */
  function Drain(cfg: Config, p: Pipe): (r: (Pipe, nat))
    requires TablesOk(cfg, p)
    ensures Ready(cfg, r.0) && TablesOk(cfg, r.0)
    decreases OpenControl(p), Distance(p), Owed(p)
  {
    if Ready(cfg, p) then (p, 0)
    else
      TickDrops(cfg, p);
      var (q, n) := Drain(cfg, Tick(cfg, p));
      (q, n + 1)
  }

  /** step_instruction: drain, issue, tick once more. */
  function StepInstruction(cfg: Config, p: Pipe, i: Inst): (r: (Pipe, nat))
    requires TablesOk(cfg, p)
    ensures TablesOk(cfg, r.0)
  {
    var (q, n) := Drain(cfg, p);
    (Tick(cfg, Issue(cfg, q, i)), n + 1)
  }

  /** step_instruction counts in a uint32_t. */
  function Count32(n: nat): nat { n % 0x1_0000_0000 }

  /** Feeds a program; returns the final state and the number of ticks spent. */
  function RunProgram(cfg: Config, p: Pipe, program: seq<Inst>): (r: (Pipe, nat))
    requires TablesOk(cfg, p)
    ensures TablesOk(cfg, r.0)
    decreases |program|
  {
    if program == [] then (p, 0)
    else
      var (q, n) := StepInstruction(cfg, p, program[0]);
      var (q', n') := RunProgram(cfg, q, program[1..]);
      (q', n + n')
  }

  // ---- cycle accounting --------------------------------------------------------------------

  predicate StallsAddUp(s: Stats) {
    s.stalls == s.dcache + s.structural + s.dataHazard + s.tlb + s.icache + s.control
  }

  lemma TickCounts(cfg: Config, p: Pipe)
    requires TablesOk(cfg, p)
    ensures Tick(cfg, p).stats.cycles == p.stats.cycles + 1
    ensures StallsAddUp(p.stats) ==> StallsAddUp(Tick(cfg, p).stats)
  {
    hide StallMem, StallEx, StallId, StallIf, Resolve, Shift, ShiftCounters, Predictor.WellFormed;
  }

  lemma {:induction false} DrainCounts(cfg: Config, p: Pipe)
    requires TablesOk(cfg, p)
    ensures var (q, n) := Drain(cfg, p);
            q.stats.cycles == p.stats.cycles + n && (StallsAddUp(p.stats) ==> StallsAddUp(q.stats))
    decreases OpenControl(p), Distance(p), Owed(p)
  {
    hide Tick, Predictor.WellFormed, Ready, StallsAddUp, OpenControl, Distance, Owed;
    if !Ready(cfg, p) {
      TickCounts(cfg, p);
      DropsMeansLess(cfg, p);
      DrainCounts(cfg, Tick(cfg, p));
    }
  }

  lemma DropsMeansLess(cfg: Config, p: Pipe)
    requires TablesOk(cfg, p) && !Ready(cfg, p)
    ensures var q := Tick(cfg, p);
            || OpenControl(q) < OpenControl(p)
            || (OpenControl(q) == OpenControl(p) && Distance(q) < Distance(p))
            || (OpenControl(q) == OpenControl(p) && Distance(q) == Distance(p) && Owed(q) < Owed(p))
  {
    hide Tick, Ready, OpenControl, Distance, Owed;
    TickDrops(cfg, p);
  }

  /** The cycle counter grows by the ticks spent, and the stall counter is exactly the sum of its
      six categories. */
  lemma {:induction false} CyclesAddUp(cfg: Config, p: Pipe, program: seq<Inst>)
    requires TablesOk(cfg, p) && StallsAddUp(p.stats)
    ensures var (q, n) := RunProgram(cfg, p, program);
            q.stats.cycles == p.stats.cycles + n && StallsAddUp(q.stats)
    decreases |program|
  {
    hide Tick, Predictor.WellFormed, Ready, StallsAddUp, Drain;
    if program != [] {
      var (d, n) := Drain(cfg, p);
      DrainCounts(cfg, p);
      TickCounts(cfg, Issue(cfg, d, program[0]));
      CyclesAddUp(cfg, StepInstruction(cfg, p, program[0]).0, program[1..]);
    }
  }

  /** The sum of the counts the calls of a program return. */
  function ReturnedSum(cfg: Config, p: Pipe, program: seq<Inst>): nat
    requires TablesOk(cfg, p)
    decreases |program|
  {
    if program == [] then 0
    else
      var (q, n) := StepInstruction(cfg, p, program[0]);
      Count32(n) + ReturnedSum(cfg, q, program[1..])
  }

  /** No call of the program spends 2^32 ticks or more. */
  predicate AllShort(cfg: Config, p: Pipe, program: seq<Inst>)
    requires TablesOk(cfg, p)
    decreases |program|
  {
    program == [] ||
    (var (q, n) := StepInstruction(cfg, p, program[0]);
     n < 0x1_0000_0000 && AllShort(cfg, q, program[1..]))
  }

  lemma CountOneMore(n: nat)
    ensures Count32(n + 1) == (Count32(n) + 1) % 0x1_0000_0000
  {
  }

  lemma Count32Exact(n: nat)
    ensures Count32(n) <= n && (Count32(n) == n <==> n < 0x1_0000_0000)
  {
  }

  /** Over any program the returned counts add up to the growth of the cycle counter if and only if
      no single call spends 2^32 ticks; otherwise they fall short of it. */
  lemma {:induction false} ReturnedAddUpIff(cfg: Config, p: Pipe, program: seq<Inst>)
    requires TablesOk(cfg, p) && StallsAddUp(p.stats)
    ensures var grown := RunProgram(cfg, p, program).0.stats.cycles - p.stats.cycles;
            && ReturnedSum(cfg, p, program) <= grown
            && (ReturnedSum(cfg, p, program) == grown <==> AllShort(cfg, p, program))
    decreases |program|
  {
    hide Predictor.WellFormed, StepInstruction, StallsAddUp, Count32;
    CyclesAddUp(cfg, p, program);
    ReturnedSumTicks(cfg, p, program);
  }

  lemma {:induction false} ReturnedSumTicks(cfg: Config, p: Pipe, program: seq<Inst>)
    requires TablesOk(cfg, p)
    ensures ReturnedSum(cfg, p, program) <= RunProgram(cfg, p, program).1
    ensures ReturnedSum(cfg, p, program) == RunProgram(cfg, p, program).1 <==> AllShort(cfg, p, program)
    decreases |program|
  {
    hide Predictor.WellFormed, StepInstruction, Count32;
    if program != [] {
      var (q, n) := StepInstruction(cfg, p, program[0]);
      Count32Exact(n);
      ReturnedSumTicks(cfg, q, program[1..]);
    }
  }

  /** A call spends at most the cost of what is in the pipeline, and one tick more. */
  lemma {:induction false} DrainWithinCost(cfg: Config, p: Pipe)
    requires TablesOk(cfg, p)
    ensures Drain(cfg, p).1 <= Cost(cfg, p)
    decreases OpenControl(p), Distance(p), Owed(p)
  {
    hide Tick, Predictor.WellFormed, Ready, Cost, OpenControl, Distance, Owed;
    if !Ready(cfg, p) {
      TickPays(cfg, p);
      DropsMeansLess(cfg, p);
      DrainWithinCost(cfg, Tick(cfg, p));
    }
  }

  /** Checkable before the call: with less than 2^32 - 1 cycles owed by the instructions in the
      pipeline, the returned count is the number of cycles that pass. */
  lemma CheapCallIsExact(cfg: Config, p: Pipe, i: Inst)
    requires TablesOk(cfg, p) && Cost(cfg, p) + 1 < 0x1_0000_0000
    ensures var (q, n) := StepInstruction(cfg, p, i);
            Count32(n) == n && q.stats.cycles == p.stats.cycles + Count32(n)
  {
    hide Tick, Predictor.WellFormed, Ready, Cost, Drain;
    var (d, n) := Drain(cfg, p);
    DrainWithinCost(cfg, p);
    DrainCounts(cfg, p);
    TickCounts(cfg, Issue(cfg, d, i));
  }

  // ---- the count wraps: a divide with latency 0 ---------------------------------------------

  const DIVIDE := Inst(0, 0, OpOther, Divider, 0, 0, 0, false, false, false, false, false, false)
  const NOP := Inst(0, 0, OpOther, Alu, 0, 0, 0, false, false, false, false, false, false)

  /** A divide in E, a no-op behind it, nothing else: only the busy counter holds the pipeline. */
  predicate DivideHoldsAll(p: Pipe) {
    && p.st.f.Bubble? && p.st.m.Bubble? && p.st.w.Bubble?
    && p.st.d.Busy? && p.st.d.inst == NOP && p.st.e.Busy? && p.st.e.inst == DIVIDE
    && p.ct.bubble == 0
  }

  lemma DivideHoldsTick(cfg: Config, p: Pipe)
    requires TablesOk(cfg, p) && DivideHoldsAll(p)
    ensures Ready(cfg, p) <==> p.ct.div == 0
    ensures p.ct.div > 0 ==> DivideHoldsAll(Tick(cfg, p)) && Tick(cfg, p).ct.div == p.ct.div - 1
  {
    hide Predictor.WellFormed, ToInt, Charge;
  }

  lemma {:induction false} DivideDrain(cfg: Config, p: Pipe)
    requires TablesOk(cfg, p) && DivideHoldsAll(p)
    ensures Drain(cfg, p).1 == p.ct.div
    decreases p.ct.div
  {
    hide Predictor.WellFormed, Tick, Ready, DivideHoldsAll;
    DivideHoldsTick(cfg, p);
    if p.ct.div > 0 {
      DivideDrain(cfg, Tick(cfg, p));
    }
  }

  /** The state after a divide and a no-op from reset. */
  lemma DivideInE(cfg: Config)
    requires cfg.divLatency == 0
    ensures var q := RunProgram(cfg, Reset(cfg), [DIVIDE, NOP]).0;
            DivideHoldsAll(q) && q.ct.div == 0xFFFF_FFFF
  {
    hide Predictor.WellFormed, ToInt, Charge;
    var p := Reset(cfg);
    var p1 := StepInstruction(cfg, p, DIVIDE).0;
    assert Drain(cfg, p) == (p, 0);
    assert Drain(cfg, p1) == (p1, 0);
    var p2 := StepInstruction(cfg, p1, NOP).0;
    assert [DIVIDE, NOP][1..] == [NOP];
    assert RunProgram(cfg, p2, []) == (p2, 0);
    assert RunProgram(cfg, p1, [NOP]).0 == p2;
  }

  /** With div_latency 0, which the configuration file may say, the third instruction after reset
      spends 2^32 cycles and the call returns 0. */
  lemma CountWraps(cfg: Config)
    requires cfg.divLatency == 0
    ensures var q := RunProgram(cfg, Reset(cfg), [DIVIDE, NOP]).0;
            var (r, n) := StepInstruction(cfg, q, NOP);
            n == 0x1_0000_0000 && Count32(n) == 0 && r.stats.cycles == q.stats.cycles + n
  {
    hide Predictor.WellFormed, Tick, Ready, DivideHoldsAll, RunProgram, Drain;
    DivideInE(cfg);
    var q := RunProgram(cfg, Reset(cfg), [DIVIDE, NOP]).0;
    DivideDrain(cfg, q);
    DrainCounts(cfg, q);
    TickCounts(cfg, Issue(cfg, Drain(cfg, q).0, NOP));
  }

  // ---- from the configuration alone: how long a call can take ---------------------------------

  /** No counter holds more than the configuration loads it with. */
  predicate WithinPenalties(cfg: Config, c: Counters) {
    && c.bubble <= Max(cfg.bp.mispredictPenalty, 1) && c.tlb <= cfg.tlbPenalty && c.icache <= cfg.icachePenalty
    && c.dcache <= cfg.dcachePenalty && c.div <= DivideLoad(cfg)
  }

  /** Ticks no call exceeds when a divide loads the busy counter with that many. */
  function BoundWith(cfg: Config, load: nat): nat {
    19 + 4 * Max(cfg.bp.mispredictPenalty, 1) + cfg.tlbPenalty + cfg.icachePenalty + 4 * cfg.dcachePenalty + 3 * load
  }

  function CallBound(cfg: Config): nat { BoundWith(cfg, DivideLoad(cfg)) }

  lemma CostWithinBound(cfg: Config, p: Pipe)
    requires WithinPenalties(cfg, p.ct)
    ensures Cost(cfg, p) + 1 <= CallBound(cfg)
  {
    hide Max, DivideLoad;
    assert forall s: Stage :: ControlCredit(cfg, s) <= Max(cfg.bp.mispredictPenalty, 1) + 1;
    assert forall s: Stage :: DivideCredit(cfg, s) <= DivideLoad(cfg);
    assert Distance(p) <= 15;
  }

  lemma TickKeepsWithin(cfg: Config, p: Pipe)
    requires TablesOk(cfg, p) && WithinPenalties(cfg, p.ct)
    ensures WithinPenalties(cfg, Tick(cfg, p).ct)
  {
    hide Resolve, Predictor.WellFormed, Charge, Shift, Max, StallMem, StallEx, StallId, StallIf, ControlCredit, ToInt;
    if p.ct.bubble == 0 && Unresolved(p.st.e) {
      ResolveWithinCredit(cfg, p.tables, p.st.e);
      CreditWithinPenalty(cfg, p.st.e);
    }
  }

  lemma CreditWithinPenalty(cfg: Config, s: Stage)
    ensures ControlCredit(cfg, s) <= Max(cfg.bp.mispredictPenalty, 1) + 1
  {
  }

  lemma {:induction false} DrainKeepsWithin(cfg: Config, p: Pipe)
    requires TablesOk(cfg, p) && WithinPenalties(cfg, p.ct)
    ensures WithinPenalties(cfg, Drain(cfg, p).0.ct)
    decreases OpenControl(p), Distance(p), Owed(p)
  {
    hide Tick, Predictor.WellFormed, Ready, OpenControl, Distance, Owed, WithinPenalties;
    if !Ready(cfg, p) {
      TickKeepsWithin(cfg, p);
      DropsMeansLess(cfg, p);
      DrainKeepsWithin(cfg, Tick(cfg, p));
    }
  }

  /** One call: within the bound, and every counter stays within its penalty. */
  lemma CallWithinBound(cfg: Config, p: Pipe, i: Inst)
    requires TablesOk(cfg, p) && WithinPenalties(cfg, p.ct)
    ensures var (q, n) := StepInstruction(cfg, p, i); n <= CallBound(cfg) && WithinPenalties(cfg, q.ct)
  {
    hide Tick, Predictor.WellFormed, Ready, Drain, Cost, CallBound, DivideLoad, Max;
    var d := Drain(cfg, p).0;
    DrainKeepsWithin(cfg, p);
    DrainWithinCost(cfg, p);
    CostWithinBound(cfg, p);
    TickKeepsWithin(cfg, Issue(cfg, d, i));
  }

  lemma {:induction false} RunWithinBound(cfg: Config, p: Pipe, program: seq<Inst>)
    requires TablesOk(cfg, p) && WithinPenalties(cfg, p.ct) && CallBound(cfg) < 0x1_0000_0000
    ensures AllShort(cfg, p, program)
    decreases |program|
  {
    hide Predictor.WellFormed, StepInstruction, WithinPenalties, CallBound;
    if program != [] {
      CallWithinBound(cfg, p, program[0]);
      RunWithinBound(cfg, StepInstruction(cfg, p, program[0]).0, program[1..]);
    }
  }

  /** The penalties and latencies leave room in 32 bits. */
  predicate Modest(cfg: Config) { BoundWith(cfg, Dec(cfg.divLatency)) < 0x1_0000_0000 }

  lemma ModestBound(cfg: Config)
    requires Modest(cfg) && cfg.divLatency >= 1
    ensures CallBound(cfg) < 0x1_0000_0000
  {
    hide Max;
    assert DivideLoad(cfg) == cfg.divLatency - 1;
  }

  /** From reset the returned counts of every program add up to the cycle counter if and only if
      the configuration gives a divide a latency. */
  lemma CountsAddUpIff(cfg: Config)
    requires Modest(cfg)
    ensures (forall program: seq<Inst> ::
               ReturnedSum(cfg, Reset(cfg), program) == RunProgram(cfg, Reset(cfg), program).0.stats.cycles)
            <==> cfg.divLatency >= 1
  {
    hide Predictor.WellFormed, RunProgram, ReturnedSum, AllShort, Modest, CallBound, StepInstruction;
    var p := Reset(cfg);
    if cfg.divLatency >= 1 {
      ModestBound(cfg);
      forall program: seq<Inst> ensures ReturnedSum(cfg, p, program) == RunProgram(cfg, p, program).0.stats.cycles {
        ReturnedAddUpIff(cfg, p, program);
        RunWithinBound(cfg, p, program);
      }
    } else {
      ReturnedAddUpIff(cfg, p, [DIVIDE, NOP, NOP]);
      WrapsInThree(cfg);
    }
  }

  lemma WrapsInThree(cfg: Config)
    requires cfg.divLatency == 0
    ensures !AllShort(cfg, Reset(cfg), [DIVIDE, NOP, NOP])
  {
    hide Predictor.WellFormed, StepInstruction;
    var p := Reset(cfg);
    var p1 := StepInstruction(cfg, p, DIVIDE).0;
    var p2 := StepInstruction(cfg, p1, NOP).0;
    CountWraps(cfg);
    assert [DIVIDE, NOP][1..] == [NOP] && [DIVIDE, NOP, NOP][1..] == [NOP, NOP] && [NOP, NOP][1..] == [NOP];
    assert RunProgram(cfg, p2, []) == (p2, 0);
    assert RunProgram(cfg, p1, [NOP]).0 == p2;
    assert !AllShort(cfg, p2, [NOP]);
    assert !AllShort(cfg, p1, [NOP, NOP]);
  }

  // ---- every instruction is in exactly one place -------------------------------------------

  /** The pipeline together with what has left it: through W in order, or flushed. */
  datatype Ledger = Ledger(p: Pipe, retired: seq<nat>, flushed: multiset<nat>)

  /** Ticking flushes: a control transfer in E is resolved with a penalty. */
  predicate Flushes(cfg: Config, p: Pipe)
    requires TablesOk(cfg, p)
  {
    p.ct.bubble == 0 && Unresolved(p.st.e) && Resolve(cfg, p.tables, p.st.e).0 > 0
  }

  function IdsOf(s: Stage): multiset<nat> { if s.Busy? then multiset{s.id} else multiset{} }

  function Retire(s: Stage): seq<nat> { if s.Busy? then [s.id] else [] }

  /** One tick, with the books kept. */
  function TickLedger(cfg: Config, l: Ledger): (r: Ledger)
    requires TablesOk(cfg, l.p)
    ensures TablesOk(cfg, r.p)
  {
    if Flushes(cfg, l.p) then
      Ledger(Tick(cfg, l.p), l.retired, l.flushed + IdsOf(l.p.st.f) + IdsOf(l.p.st.d))
    else
      Ledger(Tick(cfg, l.p), l.retired + Retire(l.p.st.w), l.flushed)
  }

  /** A run of the machine: ticks, and issues wherever F is ready. */
  datatype Micro = DoTick | DoIssue(inst: Inst)

  function MicroStep(cfg: Config, l: Ledger, s: Micro): (r: Ledger)
    requires TablesOk(cfg, l.p)
    ensures TablesOk(cfg, r.p)
  {
    match s
    case DoTick => TickLedger(cfg, l)
    case DoIssue(i) => if Ready(cfg, l.p) then l.(p := Issue(cfg, l.p, i)) else l
  }

  function MicroRun(cfg: Config, l: Ledger, steps: seq<Micro>): (r: Ledger)
    requires TablesOk(cfg, l.p)
    ensures TablesOk(cfg, r.p)
    decreases |steps|
  {
    if steps == [] then l else MicroRun(cfg, MicroStep(cfg, l, steps[0]), steps[1..])
  }

  function Start(cfg: Config): Ledger { Ledger(Reset(cfg), [], multiset{}) }

  function Has(s: Stage, id: nat): nat { if s.Busy? && s.id == id then 1 else 0 }

  function InStages(st: Stages, id: nat): nat {
    Has(st.f, id) + Has(st.d, id) + Has(st.e, id) + Has(st.m, id) + Has(st.w, id)
  }

  /** In how many places the instruction is. */
  function Places(l: Ledger, id: nat): nat {
    InStages(l.p.st, id) + multiset(l.retired)[id] + l.flushed[id]
  }

  lemma ShiftConserves(cfg: Config, st: Stages, mem: bool, ex: bool, id: bool, fetch: bool, k: nat)
    requires (mem ==> ex) && (ex ==> id) && (id ==> fetch)
    ensures InStages(Shift(cfg, st, mem, ex, id, fetch), k) + Has(st.w, k) == InStages(st, k)
  {
    hide ToInt;
  }

  lemma BubbleTickMoves(cfg: Config, p: Pipe, k: nat)
    requires p.ct.bubble > 0
    ensures var q := BubbleTick(cfg, p);
            q.nextId == p.nextId && InStages(q.st, k) + Has(p.st.w, k) == InStages(p.st, k)
  {
    hide ToInt, DivBusy;
  }

  /** Ageing and resolving leave every instruction where it is. */
  lemma MarkMoves(st: Stages, k: nat)
    ensures InStages(MarkResolved(AgeAll(st)), k) == InStages(st, k)
    ensures Has(MarkResolved(AgeAll(st)).w, k) == Has(st.w, k)
    ensures MarkResolved(AgeAll(st)).f == st.f && MarkResolved(AgeAll(st)).d == st.d
  {
  }

  lemma TickMoves(cfg: Config, p: Pipe, k: nat)
    requires TablesOk(cfg, p)
    ensures var q := Tick(cfg, p);
            q.nextId == p.nextId &&
            if Flushes(cfg, p) then InStages(q.st, k) + Has(p.st.f, k) + Has(p.st.d, k) == InStages(p.st, k)
            else InStages(q.st, k) + Has(p.st.w, k) == InStages(p.st, k)
  {
    hide ToInt, Resolve, Predictor.WellFormed, StallMem, StallEx, StallId, StallIf, Charge, Shift, ShiftCounters,
         CountDown, DivBusy, BubbleTick, MarkResolved, AgeAll, Has;
    if p.ct.bubble > 0 {
      BubbleTickMoves(cfg, p, k);
    } else {
      MarkMoves(p.st, k);
      NoBubble(k);
      ShiftConserves(cfg, MarkResolved(AgeAll(p.st)), MemStalled(p), ExStalled(p), IdStalled(cfg, p), IfStalled(cfg, p),
                     k);
    }
  }

  lemma NoBubble(k: nat)
    ensures Has(Bubble, k) == 0
  {
  }

  lemma CountRetired(retired: seq<nat>, s: Stage, k: nat)
    ensures multiset(retired + Retire(s))[k] == multiset(retired)[k] + Has(s, k)
  {
    if s.Busy? {
      assert multiset(retired + [s.id]) == multiset(retired) + multiset([s.id]);
      assert multiset([s.id])[k] == Has(s, k);
    } else {
      assert retired + [] == retired;
    }
  }

  /** A tick neither loses nor duplicates any instruction. */
  lemma TickConserves(cfg: Config, l: Ledger, k: nat)
    requires TablesOk(cfg, l.p)
    ensures Places(TickLedger(cfg, l), k) == Places(l, k)
  {
    hide Tick, TablesOk, Flushes, InStages, Retire;
    TickMoves(cfg, l.p, k);
    CountRetired(l.retired, l.p.st.w, k);
    assert IdsOf(l.p.st.f)[k] == Has(l.p.st.f, k) && IdsOf(l.p.st.d)[k] == Has(l.p.st.d, k);
  }

  lemma {:induction false} RunConserves(cfg: Config, l: Ledger, steps: seq<Micro>, k: nat)
    requires TablesOk(cfg, l.p)
    ensures var r := MicroRun(cfg, l, steps);
            && l.p.nextId <= r.p.nextId
            && Places(r, k) == Places(l, k) + (if l.p.nextId < k <= r.p.nextId then 1 else 0)
    decreases |steps|
  {
    hide Tick, TablesOk, Flushes, Ready, TickLedger;
    if steps != [] {
      var l1 := MicroStep(cfg, l, steps[0]);
      match steps[0] {
        case DoTick =>
          TickConserves(cfg, l, k);
          TickKeepsNextId(cfg, l);
        case DoIssue(i) =>
          if Ready(cfg, l.p) { IssuePlaces(cfg, l, i, k); }
      }
      RunConserves(cfg, l1, steps[1..], k);
    }
  }

  lemma TickKeepsNextId(cfg: Config, l: Ledger)
    requires TablesOk(cfg, l.p)
    ensures TickLedger(cfg, l).p.nextId == l.p.nextId
  {
    hide Resolve, Flushes, Predictor.WellFormed;
  }

  lemma IssuePlaces(cfg: Config, l: Ledger, i: Inst, k: nat)
    requires TablesOk(cfg, l.p) && Ready(cfg, l.p)
    ensures var l1 := l.(p := Issue(cfg, l.p, i));
            l1.p.nextId == l.p.nextId + 1 && Places(l1, k) == Places(l, k) + (if k == l.p.nextId + 1 then 1 else 0)
  {
    hide StallMem, StallEx, StallId, StallIf, Predictor.WellFormed;
  }

  /** In every reachable state every issued instruction is in exactly one place - one stage
      register, retired, or flushed - and nothing else is anywhere. */
  lemma ExactlyOnePlace(cfg: Config, steps: seq<Micro>, k: nat)
    ensures var r := MicroRun(cfg, Start(cfg), steps);
            Places(r, k) == if 1 <= k <= r.p.nextId then 1 else 0
  {
    hide MicroRun;
    RunConserves(cfg, Start(cfg), steps, k);
  }

  // ---- order, bubbles ------------------------------------------------------------------------

  /** a is in an earlier stage than b and was issued later. */
  predicate Younger(a: Stage, b: Stage) { a.Busy? && b.Busy? ==> a.id > b.id }

  predicate Ordered(st: Stages) {
    && Younger(st.f, st.d) && Younger(st.f, st.e) && Younger(st.f, st.m) && Younger(st.f, st.w)
    && Younger(st.d, st.e) && Younger(st.d, st.m) && Younger(st.d, st.w)
    && Younger(st.e, st.m) && Younger(st.e, st.w) && Younger(st.m, st.w)
  }

  /** Ids lie above the last retired one and at most at the last issued one. */
  predicate Between(s: Stage, lo: nat, hi: nat) { s.Busy? ==> lo < s.id <= hi }

  predicate AllBetween(st: Stages, lo: nat, hi: nat) {
    && Between(st.f, lo, hi) && Between(st.d, lo, hi) && Between(st.e, lo, hi)
    && Between(st.m, lo, hi) && Between(st.w, lo, hi)
  }

  /** While bubbles are owed F and D are empty, and E holds nothing or a resolved control
      transfer. */
  predicate BubblesDrained(p: Pipe) {
    p.ct.bubble > 0 ==> p.st.f.Bubble? && p.st.d.Bubble? && (p.st.e.Busy? ==> p.st.e.resolved && p.st.e.inst.Control())
  }

  function LastRetired(l: Ledger): nat { if l.retired == [] then 0 else l.retired[|l.retired| - 1] }

  predicate Increasing(s: seq<nat>) { forall i, j :: 0 <= i < j < |s| ==> s[i] < s[j] }

  ghost predicate Inv(cfg: Config, l: Ledger) {
    && TablesOk(cfg, l.p)
    && Ordered(l.p.st) && AllBetween(l.p.st, LastRetired(l), l.p.nextId) && LastRetired(l) <= l.p.nextId
    && BubblesDrained(l.p) && Increasing(l.retired)
  }

  lemma ShiftOrdered(cfg: Config, st: Stages, mem: bool, ex: bool, id: bool, fetch: bool, lo: nat, hi: nat)
    requires (mem ==> ex) && (ex ==> id) && (id ==> fetch)
    requires Ordered(st) && AllBetween(st, lo, hi)
    ensures var r := Shift(cfg, st, mem, ex, id, fetch);
            Ordered(r) && AllBetween(r, if st.w.Busy? then st.w.id else lo, hi)
  {
    hide ToInt;
  }

  /** The tick's effect on the stages: a plain shift while bubbles are owed, a flush, or a shift
      under the stall conditions. */
  lemma TickShape(cfg: Config, p: Pipe)
    requires TablesOk(cfg, p)
    ensures var q, st := Tick(cfg, p), MarkResolved(AgeAll(p.st));
            && q.nextId == p.nextId
            && (p.ct.bubble > 0 ==> q.st == Shift(cfg, p.st, false, false, false, false))
            && (p.ct.bubble > 0 ==> q.ct.bubble == p.ct.bubble - 1)
            && (p.ct.bubble == 0 && Flushes(cfg, p) ==>
                  q.st == st.(f := Bubble, d := Bubble) && q.ct.bubble > 0 && p.st.e.inst.Control())
            && (p.ct.bubble == 0 && !Flushes(cfg, p) ==>
                  && q.st == Shift(cfg, st, MemStalled(p), ExStalled(p), IdStalled(cfg, p), IfStalled(cfg, p))
                  && q.ct.bubble == 0)
  {
    hide Predictor.WellFormed, MemStalled, ExStalled, IdStalled, IfStalled, Charge, DivBusy, ResolveJump, ResolveBranch,
         AgeAll, MarkResolved, Enter;
    if p.ct.bubble > 0 {
      hide Resolve;
    }
  }

  lemma FlushKeepsOrder(p: Pipe, lo: nat)
    requires Ordered(p.st) && AllBetween(p.st, lo, p.nextId)
    ensures var st := MarkResolved(AgeAll(p.st)); Ordered(st) && AllBetween(st, lo, p.nextId)
    ensures var st := MarkResolved(AgeAll(p.st)); st.w.Busy? == p.st.w.Busy? && (st.w.Busy? ==> st.w.id == p.st.w.id)
    ensures var st := MarkResolved(AgeAll(p.st));
            st.e.Busy? == p.st.e.Busy? && (st.e.Busy? ==> st.e.resolved && st.e.inst == p.st.e.inst)
  {
  }

  lemma TickKeepsInv(cfg: Config, l: Ledger)
    requires Inv(cfg, l)
    ensures Inv(cfg, TickLedger(cfg, l))
  {
    hide Tick, Predictor.WellFormed, Flushes, Shift, Ordered, AllBetween, MarkResolved, AgeAll, MemStalled, ExStalled,
         IdStalled, IfStalled;
    var p, lo := l.p, LastRetired(l);
    TickShape(cfg, p);
    StalledChain(cfg, p);
    FlushKeepsOrder(p, lo);
    WBetween(p.st, lo, p.nextId);
    if p.ct.bubble > 0 {
      ShiftOrdered(cfg, p.st, false, false, false, false, lo, p.nextId);
      BubbleShiftDrained(cfg, p.st);
      assert !Flushes(cfg, p) by { NoFlushWithBubbles(cfg, p); }
    } else {
      var st := MarkResolved(AgeAll(p.st));
      if Flushes(cfg, p) {
        FlushOrdered(st, lo, p.nextId);
      } else {
        ShiftOrdered(cfg, st, MemStalled(p), ExStalled(p), IdStalled(cfg, p), IfStalled(cfg, p), lo, p.nextId);
      }
    }
  }

  lemma NoFlushWithBubbles(cfg: Config, p: Pipe)
    requires TablesOk(cfg, p) && p.ct.bubble > 0
    ensures !Flushes(cfg, p)
  {
  }

  lemma StalledChain(cfg: Config, p: Pipe)
    ensures (MemStalled(p) ==> ExStalled(p)) && (ExStalled(p) ==> IdStalled(cfg, p))
    ensures IdStalled(cfg, p) ==> IfStalled(cfg, p)
  {
  }

  lemma WBetween(st: Stages, lo: nat, hi: nat)
    requires AllBetween(st, lo, hi)
    ensures st.w.Busy? ==> lo < st.w.id <= hi
  {
  }

  lemma BubbleShiftDrained(cfg: Config, st: Stages)
    ensures st.f.Bubble? && st.d.Bubble? ==>
              var r := Shift(cfg, st, false, false, false, false); r.f.Bubble? && r.d.Bubble? && r.e.Bubble?
  {
  }

  lemma FlushOrdered(st: Stages, lo: nat, hi: nat)
    requires Ordered(st) && AllBetween(st, lo, hi)
    ensures Ordered(st.(f := Bubble, d := Bubble)) && AllBetween(st.(f := Bubble, d := Bubble), lo, hi)
  {
  }

  lemma IssueKeepsInv(cfg: Config, l: Ledger, i: Inst)
    requires Inv(cfg, l) && Ready(cfg, l.p)
    ensures Inv(cfg, l.(p := Issue(cfg, l.p, i)))
  {
    hide Predictor.WellFormed, StallMem, StallEx, StallId, StallIf, Increasing;
  }

  lemma {:induction false} RunKeepsInv(cfg: Config, l: Ledger, steps: seq<Micro>)
    requires Inv(cfg, l)
    ensures Inv(cfg, MicroRun(cfg, l, steps))
    decreases |steps|
  {
    hide Predictor.WellFormed, TickLedger, Ready, Ordered, AllBetween, BubblesDrained, Increasing;
    if steps != [] {
      match steps[0] {
        case DoTick => TickKeepsInv(cfg, l);
        case DoIssue(i) => if Ready(cfg, l.p) { IssueKeepsInv(cfg, l, i); }
      }
      RunKeepsInv(cfg, MicroStep(cfg, l, steps[0]), steps[1..]);
    }
  }

  /** In every reachable state the issue numbers obey F > D > E > M > W, instructions retire
      through W in increasing order, and F and D are empty whenever bubbles are owed. */
  lemma ReachableOrdered(cfg: Config, steps: seq<Micro>)
    ensures Inv(cfg, MicroRun(cfg, Start(cfg), steps))
  {
    hide MicroRun;
    RunKeepsInv(cfg, Start(cfg), steps);
  }

  /** Only an older control transfer in E flushes: what it removes from F and D was issued after
      it. */
  lemma FlushIsByOlder(cfg: Config, l: Ledger)
    requires Inv(cfg, l) && Flushes(cfg, l.p)
    ensures var st := l.p.st;
            && st.e.Busy? && st.e.inst.Control()
            && (st.f.Busy? ==> st.f.id > st.e.id) && (st.d.Busy? ==> st.d.id > st.e.id)
  {
    hide Predictor.WellFormed, ResolveJump, ResolveBranch;
  }

  // ---- hazards ---------------------------------------------------------------------------------

  /** Whoever enters E does so with every source register available: any earlier writer of one
      still in E or M has finished its latency and that stage forwards. Ticks that skip the
      checks are no exception, because D is empty during them. */
  lemma EntersWithSourcesReady(cfg: Config, l: Ledger)
    requires Inv(cfg, l)
    requires var q := Tick(cfg, l.p); q.st.e.Busy? && (l.p.st.e.Busy? ==> q.st.e.id != l.p.st.e.id)
    ensures var p, q := l.p, Tick(cfg, l.p);
            && p.st.d.Busy? && q.st.e.id == p.st.d.id && q.st.e.inst == p.st.d.inst
            && (Feeds(p.st.e, p.st.d) ==> cfg.forwarding && cfg.exForwarding && p.st.e.latency <= 0)
            && (Feeds(p.st.m, p.st.d) ==> cfg.forwarding && cfg.memForwarding && p.st.m.latency <= 0)
            && !StallEx(p) && !StallMem(p)
  {
    hide Predictor.WellFormed, Tick, Flushes, ToInt, StallMem, StallEx, StallIf, Feeds;
    TickShape(cfg, l.p);
  }

  /** A divide in E, not a control transfer, with n busy cycles left. */
  predicate Dividing(p: Pipe, id: nat, n: nat) {
    && p.st.e.Busy? && p.st.e.id == id && p.st.e.inst.unit.Divider? && !p.st.e.inst.Control()
    && p.ct.bubble == 0 && p.ct.div >= n
  }

  lemma DivideHolds(cfg: Config, p: Pipe, id: nat, n: nat)
    requires TablesOk(cfg, p) && Dividing(p, id, n) && n > 0
    ensures Dividing(Tick(cfg, p), id, n - 1)
  {
    hide Predictor.WellFormed, StallMem, StallId, StallIf, Charge, ToInt, DivBusy;
  }

  lemma IssueKeepsDividing(cfg: Config, p: Pipe, i: Inst, id: nat, n: nat)
    requires Ready(cfg, p) && Dividing(p, id, n)
    ensures Dividing(Issue(cfg, p, i), id, n)
  {
    hide StallMem, StallEx, StallId, StallIf;
  }

  function Ticks(steps: seq<Micro>): nat
    decreases |steps|
  {
    if steps == [] then 0 else Ticks(steps[1..]) + (if steps[0].DoTick? then 1 else 0)
  }

  lemma {:induction false} DivideStays(cfg: Config, l: Ledger, steps: seq<Micro>, id: nat, n: nat)
    requires TablesOk(cfg, l.p) && Dividing(l.p, id, n) && Ticks(steps) <= n
    ensures Dividing(MicroRun(cfg, l, steps).p, id, n - Ticks(steps))
    decreases |steps|
  {
    hide Predictor.WellFormed, Tick, Flushes, Ready, Issue, Dividing;
    if steps != [] {
      if steps[0].DoTick? {
        DivideHolds(cfg, l.p, id, n);
        DivideStays(cfg, MicroStep(cfg, l, steps[0]), steps[1..], id, n - 1);
      } else {
        if Ready(cfg, l.p) { IssueKeepsDividing(cfg, l.p, steps[0].inst, id, n); }
        DivideStays(cfg, MicroStep(cfg, l, steps[0]), steps[1..], id, n);
      }
    }
  }

  /** A divide that has just entered E is still there after any further steps with fewer than
      divLatency ticks among them, whatever is issued meanwhile. */
  lemma DivideResidency(cfg: Config, l: Ledger, steps: seq<Micro>)
    requires Inv(cfg, l) && 1 <= cfg.divLatency < 0x1_0000_0000
    requires var q := Tick(cfg, l.p);
             && Divides(q.st.e) && !q.st.e.inst.Control()
             && (l.p.st.e.Busy? ==> q.st.e.id != l.p.st.e.id)
    requires Ticks(steps) < cfg.divLatency
    ensures var id, r := Tick(cfg, l.p).st.e.id, MicroRun(cfg, TickLedger(cfg, l), steps);
            r.p.st.e.Busy? && r.p.st.e.id == id
  {
    hide Predictor.WellFormed, Tick, Flushes, MicroRun;
    DivideEnters(cfg, l);
    DivideStays(cfg, TickLedger(cfg, l), steps, Tick(cfg, l.p).st.e.id, cfg.divLatency - 1);
  }

  lemma DivideEnters(cfg: Config, l: Ledger)
    requires Inv(cfg, l) && 1 <= cfg.divLatency < 0x1_0000_0000
    requires var q := Tick(cfg, l.p);
             Divides(q.st.e) && !q.st.e.inst.Control() && (l.p.st.e.Busy? ==> q.st.e.id != l.p.st.e.id)
    ensures Dividing(Tick(cfg, l.p), Tick(cfg, l.p).st.e.id, cfg.divLatency - 1)
  {
    hide Predictor.WellFormed, StallMem, StallEx, StallId, StallIf, Charge, ToInt, Ordered, AllBetween, Increasing,
         ResolveJump, ResolveBranch;
    assert (cfg.divLatency + 0xFFFF_FFFF) % 0x1_0000_0000 == cfg.divLatency - 1;
  }

  // ---- step_instruction runs are such runs -----------------------------------------------------

  lemma {:induction false} MicroRunConcat(cfg: Config, l: Ledger, a: seq<Micro>, b: seq<Micro>)
    requires TablesOk(cfg, l.p)
    ensures MicroRun(cfg, l, a + b) == MicroRun(cfg, MicroRun(cfg, l, a), b)
    decreases |a|
  {
    hide Predictor.WellFormed, MicroStep;
    if a == [] {
      assert a + b == b;
    } else {
      assert (a + b)[0] == a[0] && (a + b)[1..] == a[1..] + b;
      MicroRunConcat(cfg, MicroStep(cfg, l, a[0]), a[1..], b);
    }
  }

  /** The micro-steps of draining. */
  function DrainSteps(cfg: Config, p: Pipe): seq<Micro>
    requires TablesOk(cfg, p)
    decreases OpenControl(p), Distance(p), Owed(p)
  {
    if Ready(cfg, p) then []
    else
      TickDrops(cfg, p);
      [DoTick] + DrainSteps(cfg, Tick(cfg, p))
  }

  lemma {:induction false} DrainIsMicroRun(cfg: Config, l: Ledger)
    requires TablesOk(cfg, l.p)
    ensures MicroRun(cfg, l, DrainSteps(cfg, l.p)).p == Drain(cfg, l.p).0
    decreases OpenControl(l.p), Distance(l.p), Owed(l.p)
  {
    hide Predictor.WellFormed, Tick, Ready, Flushes, OpenControl, Distance, Owed;
    if !Ready(cfg, l.p) {
      DropsMeansLess(cfg, l.p);
      DrainIsMicroRun(cfg, TickLedger(cfg, l));
      var rest := DrainSteps(cfg, Tick(cfg, l.p));
      assert ([DoTick] + rest)[0] == DoTick && ([DoTick] + rest)[1..] == rest;
    }
  }

  function ProgramSteps(cfg: Config, p: Pipe, program: seq<Inst>): seq<Micro>
    requires TablesOk(cfg, p)
    decreases |program|
  {
    if program == [] then []
    else DrainSteps(cfg, p) + [DoIssue(program[0]), DoTick]
         + ProgramSteps(cfg, StepInstruction(cfg, p, program[0]).0, program[1..])
  }

  lemma {:induction false} ProgramIsMicroRun(cfg: Config, l: Ledger, program: seq<Inst>)
    requires TablesOk(cfg, l.p)
    ensures MicroRun(cfg, l, ProgramSteps(cfg, l.p, program)).p == RunProgram(cfg, l.p, program).0
    decreases |program|
  {
    hide Predictor.WellFormed, Tick, Ready, Flushes, Drain, DrainSteps;
    if program != [] {
      var a, b := DrainSteps(cfg, l.p), [DoIssue(program[0]), DoTick];
      var q := StepInstruction(cfg, l.p, program[0]).0;
      var rest := ProgramSteps(cfg, q, program[1..]);
      DrainIsMicroRun(cfg, l);
      var l1 := MicroRun(cfg, l, a);
      IssueAndTick(cfg, l1, program[0]);
      var l2 := MicroRun(cfg, l1, b);
      MicroRunConcat(cfg, l, a + b, rest);
      MicroRunConcat(cfg, l, a, b);
      ProgramIsMicroRun(cfg, l2, program[1..]);
    }
  }

  lemma IssueAndTick(cfg: Config, l: Ledger, i: Inst)
    requires TablesOk(cfg, l.p) && Ready(cfg, l.p)
    ensures MicroRun(cfg, l, [DoIssue(i), DoTick]).p == Tick(cfg, Issue(cfg, l.p, i))
  {
    hide Predictor.WellFormed, Tick, Ready, Flushes;
    assert [DoIssue(i), DoTick][1..] == [DoTick] && [DoTick][1..] == [];
  }

  /** Whatever program is fed from reset, the books balance and the order holds at the end of it:
      some record of retirements and flushes satisfies both. */
  lemma ProgramOrderedAndConserved(cfg: Config, program: seq<Inst>)
    ensures exists l: Ledger ::
              && l.p == RunProgram(cfg, Reset(cfg), program).0 && Inv(cfg, l)
              && forall k: nat :: Places(l, k) == if 1 <= k <= l.p.nextId then 1 else 0
  {
    hide Inv, Places, MicroRun;
    var steps := ProgramSteps(cfg, Reset(cfg), program);
    var l := MicroRun(cfg, Start(cfg), steps);
    ProgramIsMicroRun(cfg, Start(cfg), program);
    ReachableOrdered(cfg, steps);
    forall k: nat ensures Places(l, k) == if 1 <= k <= l.p.nextId then 1 else 0 {
      ExactlyOnePlace(cfg, steps, k);
    }
  }

  // ---- save and restore ------------------------------------------------------------------------

  /** A snapshot holds everything except the issue counter, so restoring keeps the current
      counter. */
  function RestoreState(current: Pipe, saved: Pipe): Pipe { saved.(nextId := current.nextId) }

  /** Restoring an earlier snapshot keeps the order of issue numbers, because the counter only
      grows: later instructions get fresh numbers. */
  lemma RestoreKeepsInv(cfg: Config, current: Ledger, saved: Ledger)
    requires Inv(cfg, saved) && Inv(cfg, current) && saved.p.nextId <= current.p.nextId
    ensures Inv(cfg, saved.(p := RestoreState(current.p, saved.p)))
  {
    hide Predictor.WellFormed, Increasing;
  }

  // ---- conservation after a restore --------------------------------------------------------

  /** The record after a restore: what the snapshot's record said, with the current counter. */
  function Restored(current: Ledger, saved: Ledger): Ledger {
    saved.(p := RestoreState(current.p, saved.p))
  }

  /** After a restore the numbers issued since the snapshot are in no place at all. */
  lemma RestoreLosesNumbers(cfg: Config, before: seq<Micro>, since: seq<Micro>, k: nat)
    ensures var saved := MicroRun(cfg, Start(cfg), before);
            var current := MicroRun(cfg, saved, since);
            && saved.p.nextId <= current.p.nextId
            && Places(Restored(current, saved), k) == (if 1 <= k <= saved.p.nextId then 1 else 0)
  {
    hide MicroRun, InStages;
    var saved := MicroRun(cfg, Start(cfg), before);
    ExactlyOnePlace(cfg, before, k);
    RunConserves(cfg, saved, since, k);
    assert Restored(MicroRun(cfg, saved, since), saved).p.st == saved.p.st;
  }

  /** Every issued number being in exactly one place survives a restore if and only if nothing was
      issued since the snapshot. */
  lemma ConservationSurvivesIff(cfg: Config, before: seq<Micro>, since: seq<Micro>)
    ensures var saved := MicroRun(cfg, Start(cfg), before);
            var current := MicroRun(cfg, saved, since);
            var r := Restored(current, saved);
            (forall k: nat :: Places(r, k) == (if 1 <= k <= r.p.nextId then 1 else 0))
            <==> current.p.nextId == saved.p.nextId
  {
    hide MicroRun, Places;
    var saved := MicroRun(cfg, Start(cfg), before);
    var current := MicroRun(cfg, saved, since);
    RestoreLosesNumbers(cfg, before, since, current.p.nextId);
    forall k: nat
      ensures Places(Restored(current, saved), k) == (if 1 <= k <= saved.p.nextId then 1 else 0)
    {
      RestoreLosesNumbers(cfg, before, since, k);
    }
  }
}
