/** Exact timings: how many cycles a call spends because of a miss, a divide, a dependence or a wrong
    prediction, and what they are charged to. The pipeline is idle before the instruction that causes the
    delay. */
module TimingLaws {

  import opened Predictor
  import opened Pipeline
  import opened PipelineRuns
  import opened PredictorLaws

  type Config = Pipeline.Config

  // ---- a resolution in E -----------------------------------------------------------------------------

  /** The control transfer an instruction stands for. */
  function TransferOf(i: Inst): Transfer
    requires i.Control()
  {
    if i.isJump then Jump(i.pc, i.opcode.OpJalr?, i.target) else Branch(i.pc, i.target, i.branched)
  }

  /** Bubbles that resolving the transfer costs: the mispredict penalty for a wrong direction or a missing
      target, one for a JAL without its target. */
  function Bubbles(cfg: Config, t: Tables, x: Transfer): nat
    requires Predictor.WellFormed(cfg.bp, t)
  {
    if WrongDirection(cfg.bp, t, x) || MissingTarget(cfg.bp, t, x) then cfg.bp.mispredictPenalty
    else if MissingJal(cfg.bp, t, x) then 1 else 0
  }

  /** The tick that resolves a transfer in E: if it costs bubbles, F and D are empty afterwards and that many
      bubbles are owed; otherwise none is. Each bubble then takes a tick in which nothing is issued. */
  lemma ResolutionFlushes(cfg: Config, p: Pipe)
    requires TablesOk(cfg, p) && p.ct.bubble == 0 && Unresolved(p.st.e) && p.st.e.inst.Control()
    ensures var n := Bubbles(cfg, p.tables, TransferOf(p.st.e.inst));
            var q := Tick(cfg, p);
            && q.ct.bubble == n && (n > 0 ==> q.st.f.Bubble? && q.st.d.Bubble? && q.st.e.Busy? && q.st.e.resolved)
            && q.tables == ResolveTransfer(cfg.bp, p.tables, TransferOf(p.st.e.inst)).1
  {
    hide Predictor.WellFormed, BhtIndex, Predicts, Train, Charge, Shift, ToInt;
    TransferCosts(cfg, p.tables, p.st.e);
  }

  lemma TransferCosts(cfg: Config, t: Tables, e: Stage)
    requires Predictor.WellFormed(cfg.bp, t) && e.Busy? && e.inst.Control()
    ensures Resolve(cfg, t, e) == ResolveTransfer(cfg.bp, t, TransferOf(e.inst))
    ensures Resolve(cfg, t, e).0 == Bubbles(cfg, t, TransferOf(e.inst))
  {
    hide Predictor.WellFormed, BhtIndex, Predicts, Train;
  }

  /** Owed bubbles are paid one a tick, each charged to control. */
  lemma {:induction false} BubblesArePaid(cfg: Config, p: Pipe)
    requires TablesOk(cfg, p) && p.st.f.Bubble? && p.st.d.Bubble? && p.ct.div == 0
    requires p.st.e.Busy? ==> p.st.e.resolved && !p.st.e.inst.dcacheMiss
    requires p.st.m.Busy? ==> !p.st.m.inst.dcacheMiss
    requires p.ct.dcache == 0
    ensures var (q, n) := Drain(cfg, p);
            n == p.ct.bubble && q.tables == p.tables
            && q.stats == p.stats.(cycles := p.stats.cycles + n, stalls := p.stats.stalls + n,
                                   control := p.stats.control + n)
    decreases p.ct.bubble
  {
    hide Predictor.WellFormed, ToInt, Drain;
    DrainOnce(cfg, p);
    if p.ct.bubble > 0 {
      BubblesArePaid(cfg, Tick(cfg, p));
    }
  }

  lemma DrainOnce(cfg: Config, p: Pipe)
    requires TablesOk(cfg, p)
    ensures Ready(cfg, p) ==> Drain(cfg, p) == (p, 0)
    ensures !Ready(cfg, p) ==>
              var (q, n) := Drain(cfg, Tick(cfg, p)); Drain(cfg, p) == (q, n + 1)
  {
    hide Tick, Ready, Predictor.WellFormed;
  }

  // ---- from an idle pipeline -------------------------------------------------------------------------

  predicate Idle(p: Pipe) { p.st == EMPTY_STAGES && p.ct == Counters(0, 0, 0, 0, 0) }

  /** Cycles a fetch waits. */
  function FetchDelay(cfg: Config, i: Inst): nat {
    Max(if i.tlbMiss then cfg.tlbPenalty else 0, if i.icacheMiss then cfg.icachePenalty else 0)
  }

  /** The stalls of a fetch, which are those of the TLB if the TLB missed. */
  function FetchStalled(s: Stats, i: Inst, n: nat): Stats {
    var t := s.(cycles := s.cycles + n, stalls := s.stalls + n);
    if i.tlbMiss then t.(tlb := t.tlb + n) else t.(icache := t.icache + n)
  }

  lemma {:induction false} FetchWaits(cfg: Config, p: Pipe)
    requires TablesOk(cfg, p) && p.st.f.Busy? && p.st == Stages(p.st.f, Bubble, Bubble, Bubble, Bubble)
    requires p.ct.bubble == 0 && p.ct.dcache == 0 && p.ct.div == 0
    ensures var i := p.st.f.inst;
            var n := Max(if i.tlbMiss then p.ct.tlb else 0, if i.icacheMiss then p.ct.icache else 0);
            var (q, k) := Drain(cfg, p);
            && k == n + 1 && q.st == Stages(Bubble, p.st.f, Bubble, Bubble, Bubble)
            && q.ct.bubble == 0 && q.ct.dcache == 0 && q.ct.div == 0
            && q.stats == FetchStalled(p.stats, i, n).(cycles := p.stats.cycles + n + 1) && q.nextId == p.nextId
            && q.tables == p.tables
    decreases p.ct.tlb + p.ct.icache
  {
    hide Predictor.WellFormed, ToInt, Drain;
    DrainOnce(cfg, p);
    var q := Tick(cfg, p);
    var i := p.st.f.inst;
    if (i.tlbMiss && p.ct.tlb > 0) || (i.icacheMiss && p.ct.icache > 0) {
      FetchWaits(cfg, q);
    } else {
      DrainOnce(cfg, q);
    }
  }

  /** Only i is in the pipeline, in D. */
  predicate InD(p: Pipe, i: Inst) {
    && p.st == Stages(Bubble, p.st.d, Bubble, Bubble, Bubble) && p.st.d.Busy?
    && p.st.d.inst == i && p.st.d.latency == 0 && !p.st.d.resolved
    && p.ct == Counters(0, 0, 0, 0, 0)
  }

  /** A 32-bit word as a signed integer. */
  function Signed32(x: nat): int { if x < 0x8000_0000 then x else x - 0x1_0000_0000 }

  /** Cycles the execution of i takes beyond its first; a divide's are those of the busy counter. */
  function Latency(cfg: Config, i: Inst): int {
    if i.opcode.OpLoad? then 1
    else if i.unit.Multiplier? then Signed32(cfg.mulLatency) - 1
    else if i.unit.Divider? then Signed32(cfg.divLatency) - 1
    else 0
  }

  /** i has just entered E, with j behind it. */
  predicate InE(cfg: Config, p: Pipe, i: Inst, j: Inst) {
    && p.st == Stages(Bubble, p.st.d, p.st.e, Bubble, Bubble) && p.st.d.Busy? && p.st.e.Busy?
    && p.st.d.inst == j && p.st.d.latency == 0 && !p.st.d.resolved
    && p.st.e.inst == i && p.st.e.latency == Latency(cfg, i) && !p.st.e.resolved
    && p.ct == Counters(0, 0, 0, 0, p.ct.div)
    && p.ct.div == if i.unit.Divider? && !i.opcode.OpLoad? then DivideLoad(cfg) else 0
  }

  /** Nothing but the passing of the cycle. */
  function Passed(s: Stats, n: nat): Stats { s.(cycles := s.cycles + n) }

  lemma FirstCall(cfg: Config, p: Pipe, i: Inst)
    requires TablesOk(cfg, p) && Idle(p) && FetchDelay(cfg, i) == 0
    ensures var (q, n) := StepInstruction(cfg, p, i);
            n == 1 && InD(q, i) && q.stats == Passed(p.stats, 1) && q.tables == p.tables
  {
    hide Predictor.WellFormed, ToInt, Drain, Resolve;
    DrainOnce(cfg, p);
  }

  lemma SecondCall(cfg: Config, p: Pipe, i: Inst, j: Inst)
    requires TablesOk(cfg, p) && InD(p, i) && FetchDelay(cfg, j) == 0
    ensures var (q, n) := StepInstruction(cfg, p, j);
            n == 1 && InE(cfg, q, i, j) && q.stats == Passed(p.stats, 1) && q.tables == p.tables
  {
    hide Predictor.WellFormed, Drain, Resolve;
    DrainOnce(cfg, p);
  }

  // ---- fetch misses ----------------------------------------------------------------------------------

  /** After an instruction that misses in the instruction TLB or cache, the next call waits for the longer of
      the two penalties, and the wait is charged to the TLB if it missed and else to the cache. */
  lemma FetchMissTiming(cfg: Config, p: Pipe, i: Inst, j: Inst)
    requires TablesOk(cfg, p) && Idle(p) && FetchDelay(cfg, j) == 0
    ensures var wait := FetchDelay(cfg, i);
            var (q1, n1) := StepInstruction(cfg, p, i);
            var (q2, n2) := StepInstruction(cfg, q1, j);
            && n1 == 1 && n2 == 1 + wait
            && q2.stats == (if wait > 0 then FetchStalled(p.stats, i, wait) else p.stats)
                           .(cycles := p.stats.cycles + wait + 2)
  {
    hide Predictor.WellFormed, ToInt, Drain, Resolve, Tick;
    if FetchDelay(cfg, i) > 0 {
      DrainOnce(cfg, p);
      var p1 := Issue(cfg, p, i);
      OneWait(cfg, p, i);
      FetchWaits(cfg, Tick(cfg, p1));
      var d := Drain(cfg, Tick(cfg, p1)).0;
      LoneInD(cfg, d, j);
    } else {
      FirstCall(cfg, p, i);
      SecondCall(cfg, StepInstruction(cfg, p, i).0, i, j);
    }
  }

  lemma OneWait(cfg: Config, p: Pipe, i: Inst)
    requires TablesOk(cfg, p) && Idle(p) && FetchDelay(cfg, i) > 0
    ensures Ready(cfg, p)
    ensures var q := Tick(cfg, Issue(cfg, p, i));
            && q.st == Stages(q.st.f, Bubble, Bubble, Bubble, Bubble) && q.st.f.Busy? && q.st.f.inst == i
            && q.ct.bubble == 0 && q.ct.dcache == 0 && q.ct.div == 0 && q.tables == p.tables
            && Max(if i.tlbMiss then q.ct.tlb else 0, if i.icacheMiss then q.ct.icache else 0) == FetchDelay(cfg, i) - 1
            && q.stats == FetchStalled(p.stats, i, 1)
  {
    hide Predictor.WellFormed, ToInt, Resolve;
  }

  /** A tick with an instruction in D and one just issued that hits. */
  lemma LoneInD(cfg: Config, p: Pipe, j: Inst)
    requires TablesOk(cfg, p) && Ready(cfg, p) && p.st.e.Bubble? && p.st.m.Bubble? && FetchDelay(cfg, j) == 0
    ensures Tick(cfg, Issue(cfg, p, j)).stats == Passed(p.stats, 1)
  {
    hide Predictor.WellFormed, ToInt, Resolve;
  }

  // ---- dependences -----------------------------------------------------------------------------------

  /** j reads the register i writes; x0 is never written, nor is any by a store or branch. */
  predicate Reads(i: Inst, j: Inst) {
    i.rd != 0 && !i.opcode.OpStore? && !i.opcode.OpBranch? && (j.rs1 == i.rd || j.rs2 == i.rd)
  }

  /** Cycles j waits for a result of i that it reads, when i in E has so many cycles left: none if that is none and
      E forwards, one if it will be none in M and M forwards, else until i has left M. */
  function DependenceDelay(cfg: Config, i: Inst, j: Inst, left: int): nat {
    if !Reads(i, j) then 0
    else if cfg.forwarding && cfg.exForwarding && left <= 0 then 0
    else if cfg.forwarding && cfg.memForwarding && left <= 1 then 1
    else 2
  }

  /** One instruction in E, one in D, and nothing else going on. */
  predicate Pair(p: Pipe) {
    && p.st == Stages(Bubble, p.st.d, p.st.e, Bubble, Bubble) && p.st.d.Busy? && p.st.e.Busy?
    && !p.st.e.inst.isBranch && !p.st.e.inst.isJump && !p.st.e.inst.dcacheMiss
    && p.ct.bubble == 0 && p.ct.dcache == 0
  }

  function HazardStalled(s: Stats, n: nat): Stats {
    s.(cycles := s.cycles + n, stalls := s.stalls + n, dataHazard := s.dataHazard + n)
  }

  lemma DependenceWaits(cfg: Config, p: Pipe)
    requires TablesOk(cfg, p) && Pair(p) && p.ct.div == 0
    ensures var (q, n) := Drain(cfg, p);
            n == DependenceDelay(cfg, p.st.e.inst, p.st.d.inst, p.st.e.latency) && q.stats == HazardStalled(p.stats, n)
  {
    hide Predictor.WellFormed, ToInt, Drain, Tick;
    DrainOnce(cfg, p);
    if DependenceDelay(cfg, p.st.e.inst, p.st.d.inst, p.st.e.latency) > 0 {
      FirstHazard(cfg, p);
      DependenceInM(cfg, Tick(cfg, p));
    }
  }

  lemma FirstHazard(cfg: Config, p: Pipe)
    requires TablesOk(cfg, p) && Pair(p) && p.ct.div == 0
    requires DependenceDelay(cfg, p.st.e.inst, p.st.d.inst, p.st.e.latency) > 0
    ensures var q := Tick(cfg, p);
            && q.st == Stages(Bubble, p.st.d, Bubble, q.st.m, Bubble) && q.st.m.Busy? && q.st.m.inst == p.st.e.inst
            && q.st.m.latency == (if p.st.e.latency > 0 then p.st.e.latency - 1 else p.st.e.latency)
            && q.ct.bubble == 0 && q.ct.div == 0 && q.stats == HazardStalled(p.stats, 1) && !Ready(cfg, p)
  {
    hide Predictor.WellFormed, ToInt;
  }

  lemma DependenceInM(cfg: Config, p: Pipe)
    requires TablesOk(cfg, p) && p.st == Stages(Bubble, p.st.d, Bubble, p.st.m, Bubble) && p.st.d.Busy? && p.st.m.Busy?
    requires p.ct.bubble == 0 && p.ct.div == 0 && !p.st.m.inst.dcacheMiss
    ensures var (q, n) := Drain(cfg, p);
            var finished := cfg.forwarding && cfg.memForwarding && p.st.m.latency <= 0;
            n == (if Reads(p.st.m.inst, p.st.d.inst) && !finished then 1 else 0) && q.stats == HazardStalled(p.stats, n)
  {
    hide Predictor.WellFormed, ToInt, Drain;
    DrainOnce(cfg, p);
    DrainOnce(cfg, Tick(cfg, p));
  }

  /** The instruction right behind a load, a multiplication or an ALU operation: the call after it waits if it reads
      the result and for no other reason, and the wait is charged to data hazards. */
  lemma DependenceTiming(cfg: Config, p: Pipe, i: Inst, j: Inst, k: Inst)
    requires TablesOk(cfg, p) && Idle(p) && FetchDelay(cfg, i) == 0 && FetchDelay(cfg, j) == 0
    requires !i.unit.Divider? && !i.isBranch && !i.isJump && !i.dcacheMiss
    ensures var wait := DependenceDelay(cfg, i, j, Latency(cfg, i));
            var (q1, n1) := StepInstruction(cfg, p, i);
            var (q2, n2) := StepInstruction(cfg, q1, j);
            var (q3, n3) := StepInstruction(cfg, q2, k);
            && n1 == 1 && n2 == 1 && n3 == 1 + wait
            && Drain(cfg, q2).0.stats.dataHazard == p.stats.dataHazard + wait
  {
    hide Predictor.WellFormed, ToInt, Drain, Tick;
    FirstCall(cfg, p, i);
    var q1 := StepInstruction(cfg, p, i).0;
    SecondCall(cfg, q1, i, j);
    DependenceWaits(cfg, StepInstruction(cfg, q1, j).0);
  }

  // ---- divides ---------------------------------------------------------------------------------------

  /** A divide holds E until its busy counter is zero, whatever is behind it; by then it is finished, and a
      dependent instruction waits as for any finished result. */
  lemma {:induction false} DivideWaits(cfg: Config, p: Pipe)
    requires TablesOk(cfg, p) && Pair(p) && p.st.e.inst.unit.Divider?
    requires p.st.e.latency <= p.ct.div
    ensures var use := DependenceDelay(cfg, p.st.e.inst, p.st.d.inst, 0);
            var (q, n) := Drain(cfg, p);
            n == p.ct.div + use
            && q.stats == p.stats.(cycles := p.stats.cycles + n, stalls := p.stats.stalls + n,
                                   structural := p.stats.structural + p.ct.div, dataHazard := p.stats.dataHazard + use)
    decreases p.ct.div
  {
    hide Predictor.WellFormed, ToInt, Drain;
    DrainOnce(cfg, p);
    if p.ct.div > 0 {
      DivideWaits(cfg, Tick(cfg, p));
    } else {
      DependenceWaits(cfg, p);
    }
  }

  /** A divide: the second call after it takes `div_latency` cycles, all but one charged to the unit, and the wait of
      a dependent instruction on top, charged to data hazards. */
  lemma DivideTiming(cfg: Config, p: Pipe, i: Inst, j: Inst, k: Inst)
    requires TablesOk(cfg, p) && Idle(p) && FetchDelay(cfg, i) == 0 && FetchDelay(cfg, j) == 0
    requires i.unit.Divider? && !i.opcode.OpLoad? && !i.isBranch && !i.isJump && !i.dcacheMiss
    requires 1 <= cfg.divLatency <= 0x1_0000_0000
    ensures var use := DependenceDelay(cfg, i, j, 0);
            var (q1, n1) := StepInstruction(cfg, p, i);
            var (q2, n2) := StepInstruction(cfg, q1, j);
            var (q3, n3) := StepInstruction(cfg, q2, k);
            && n1 == 1 && n2 == 1 && n3 == cfg.divLatency + use
            && Drain(cfg, q2).0.stats.structural == p.stats.structural + cfg.divLatency - 1
            && Drain(cfg, q2).0.stats.dataHazard == p.stats.dataHazard + use
  {
    hide Predictor.WellFormed, ToInt, Drain, Tick;
    FirstCall(cfg, p, i);
    var q1 := StepInstruction(cfg, p, i).0;
    SecondCall(cfg, q1, i, j);
    assert DivideLoad(cfg) == cfg.divLatency - 1;
    DivideWaits(cfg, StepInstruction(cfg, q1, j).0);
  }

  // ---- data misses -----------------------------------------------------------------------------------

  /** The second instruction does not read what the first writes. */
  predicate Independent(i: Inst, j: Inst) { !Reads(i, j) }

  /** Neither instruction holds the other up. */
  predicate Free(i: Inst, j: Inst) {
    !i.unit.Divider? && !i.Control() && !j.unit.Divider? && !j.Control() && Independent(i, j)
  }

  /** i in M, j behind it, and one more instruction in D. */
  predicate InM(cfg: Config, p: Pipe, i: Inst, j: Inst, k: Inst) {
    && p.st == Stages(Bubble, p.st.d, p.st.e, p.st.m, Bubble) && p.st.d.Busy? && p.st.e.Busy? && p.st.m.Busy?
    && p.st.d.inst == k && p.st.e.inst == j && p.st.m.inst == i
    && p.ct == Counters(0, 0, 0, if i.dcacheMiss then cfg.dcachePenalty else 0, 0)
  }

  lemma ThirdCall(cfg: Config, p: Pipe, i: Inst, j: Inst, k: Inst)
    requires TablesOk(cfg, p) && InE(cfg, p, i, j) && Free(i, j) && FetchDelay(cfg, k) == 0
    ensures var (q, n) := StepInstruction(cfg, p, k);
            n == 1 && InM(cfg, q, i, j, k) && q.stats == Passed(p.stats, 1) && q.tables == p.tables
  {
    hide Predictor.WellFormed, ToInt, Drain;
    DrainOnce(cfg, p);
  }

  /** A load or store that misses, independent instructions behind it: M is held while the miss lasts, and each
      cycle is charged to the data cache. */
  lemma {:induction false} MissWaits(cfg: Config, p: Pipe)
    requires TablesOk(cfg, p) && p.st == Stages(Bubble, p.st.d, p.st.e, p.st.m, Bubble)
    requires p.st.m.Busy? && p.st.m.inst.dcacheMiss && p.ct.bubble == 0 && p.ct.div == 0
    requires p.st.e.Busy? ==> !p.st.e.inst.Control()
    requires !Feeds(p.st.e, p.st.d) && !Feeds(p.st.m, p.st.d)
    ensures var (q, n) := Drain(cfg, p);
            n == p.ct.dcache
            && q.stats == p.stats.(cycles := p.stats.cycles + n, stalls := p.stats.stalls + n,
                                   dcache := p.stats.dcache + n)
    decreases p.ct.dcache
  {
    hide Predictor.WellFormed, ToInt, Drain;
    DrainOnce(cfg, p);
    if p.ct.dcache > 0 {
      MissWaits(cfg, Tick(cfg, p));
    }
  }

  /** A data miss: the third call after the instruction waits for the penalty. */
  lemma DataMissTiming(cfg: Config, p: Pipe, i: Inst, j: Inst, k: Inst, l: Inst)
    requires TablesOk(cfg, p) && Idle(p) && i.dcacheMiss && Free(i, j) && Free(i, k) && Free(j, k)
    requires FetchDelay(cfg, i) == 0 && FetchDelay(cfg, j) == 0 && FetchDelay(cfg, k) == 0
    ensures var (q1, n1) := StepInstruction(cfg, p, i);
            var (q2, n2) := StepInstruction(cfg, q1, j);
            var (q3, n3) := StepInstruction(cfg, q2, k);
            var (q4, n4) := StepInstruction(cfg, q3, l);
            && n1 == 1 && n2 == 1 && n3 == 1 && n4 == 1 + cfg.dcachePenalty
            && Drain(cfg, q3).0.stats.dcache == p.stats.dcache + cfg.dcachePenalty
  {
    hide Predictor.WellFormed, ToInt, Drain, Tick;
    FirstCall(cfg, p, i);
    var q1 := StepInstruction(cfg, p, i).0;
    SecondCall(cfg, q1, i, j);
    var q2 := StepInstruction(cfg, q1, j).0;
    ThirdCall(cfg, q2, i, j, k);
    MissWaits(cfg, StepInstruction(cfg, q2, k).0);
  }

  // ---- control transfers -----------------------------------------------------------------------------

  /** A branch or jump: the two calls after it go on as if nothing happened, then the transfer is resolved and
      the call after that pays the bubbles. */
  lemma TransferTiming(cfg: Config, p: Pipe, i: Inst, j: Inst, k: Inst, l: Inst)
    requires TablesOk(cfg, p) && Idle(p) && i.Control() && i.unit.Alu? && !i.dcacheMiss
    requires !j.unit.Divider? && !j.Control() && Independent(i, j) && Independent(i, k) && Independent(j, k)
    requires FetchDelay(cfg, i) == 0 && FetchDelay(cfg, j) == 0 && FetchDelay(cfg, k) == 0
    ensures var cost := Bubbles(cfg, p.tables, TransferOf(i));
            var (q1, n1) := StepInstruction(cfg, p, i);
            var (q2, n2) := StepInstruction(cfg, q1, j);
            var (q3, n3) := StepInstruction(cfg, q2, k);
            var (q4, n4) := StepInstruction(cfg, q3, l);
            && n1 == 1 && n2 == 1 && n3 == 1 && n4 == 1 + cost
            && Drain(cfg, q3).0.stats.control == p.stats.control + cost
            && q3.tables == ResolveTransfer(cfg.bp, p.tables, TransferOf(i)).1
  {
    hide Predictor.WellFormed, ToInt, Drain, Tick, ResolveTransfer, Bubbles;
    FirstCall(cfg, p, i);
    var q1 := StepInstruction(cfg, p, i).0;
    SecondCall(cfg, q1, i, j);
    var q2 := StepInstruction(cfg, q1, j).0;
    TransferCall(cfg, q2, i, j, k);
    var q3 := StepInstruction(cfg, q2, k).0;
    if q3.ct.bubble > 0 {
      BubblesArePaid(cfg, q3);
    } else {
      DrainOnce(cfg, q3);
    }
  }

  lemma TransferCall(cfg: Config, p: Pipe, i: Inst, j: Inst, k: Inst)
    requires TablesOk(cfg, p) && InE(cfg, p, i, j) && i.Control() && i.unit.Alu? && !i.dcacheMiss
    requires !j.unit.Divider? && !j.Control() && FetchDelay(cfg, k) == 0
    requires Independent(i, j) && Independent(i, k) && Independent(j, k)
    ensures var cost := Bubbles(cfg, p.tables, TransferOf(i));
            var (q, n) := StepInstruction(cfg, p, k);
            && n == 1 && q.stats == Passed(p.stats, 1) && q.ct == Counters(cost, 0, 0, 0, 0)
            && q.tables == ResolveTransfer(cfg.bp, p.tables, TransferOf(i)).1
            && (cost > 0 ==> q.st.f.Bubble? && q.st.d.Bubble? && q.st.e.Busy? && q.st.e.resolved && q.st.e.inst == i
                             && q.st.m.Bubble?)
            && (cost == 0 ==> Ready(cfg, q))
  {
    hide Predictor.WellFormed, ToInt, Drain, ResolveTransfer, Bubbles, Resolve;
    DrainOnce(cfg, p);
    TransferCosts(cfg, p.tables, p.st.e);
  }
}
