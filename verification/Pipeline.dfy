/** The in-order timing model: five stage registers, five countdown counters, hazard stalls and
    branch flushes, as a step machine on values. */
module Pipeline {

  import opened Predictor

  datatype Opcode = OpLoad | OpStore | OpBranch | OpJal | OpJalr | OpOther

  datatype FunctionalUnit = Alu | Multiplier | Divider

  /** One instruction as the functional simulator reports it. */
  datatype Inst = Inst(pc: nat, target: nat, opcode: Opcode, unit: FunctionalUnit,
                       rd: nat, rs1: nat, rs2: nat,
                       isBranch: bool, isJump: bool, branched: bool,
                       tlbMiss: bool, icacheMiss: bool, dcacheMiss: bool) {
    predicate WritesReg() { rd != 0 && !opcode.OpBranch? && !opcode.OpStore? }
    predicate Control() { isBranch || isJump }
  }

  /** A stage register: empty, or an instruction with its issue number, its remaining latency
      and whether its control transfer has been resolved. */
  datatype Stage = Bubble | Busy(id: nat, inst: Inst, latency: int, resolved: bool)

  datatype Stages = Stages(f: Stage, d: Stage, e: Stage, m: Stage, w: Stage)

  datatype Counters = Counters(bubble: nat, tlb: nat, icache: nat, dcache: nat, div: nat)

  datatype Stats = Stats(cycles: nat, stalls: nat, dcache: nat, structural: nat, dataHazard: nat,
                         tlb: nat, icache: nat, control: nat)

  datatype Config = Config(icachePenalty: nat, dcachePenalty: nat, tlbPenalty: nat,
                           mulLatency: nat, divLatency: nat,
                           forwarding: bool, exForwarding: bool, memForwarding: bool,
                           bp: Predictor.Config)

  datatype Pipe = Pipe(st: Stages, ct: Counters, stats: Stats, tables: Tables, nextId: nat)

  const EMPTY_STAGES := Stages(Bubble, Bubble, Bubble, Bubble, Bubble)

  function Reset(cfg: Config): Pipe {
    Pipe(EMPTY_STAGES, Counters(0, 0, 0, 0, 0), Stats(0, 0, 0, 0, 0, 0, 0, 0), Initial(cfg.bp), 0)
  }

  // ---- stall conditions ------------------------------------------------------------------

  predicate StallMem(p: Pipe) {
    p.st.m.Busy? && p.st.m.inst.dcacheMiss && p.ct.dcache > 0
  }

  predicate StallEx(p: Pipe) {
    p.st.e.Busy? && p.st.e.inst.unit.Divider? && p.ct.div > 0
  }

  /** The stage will write a register that the instruction in D reads. */
  predicate Feeds(x: Stage, d: Stage) {
    && x.Busy? && d.Busy? && x.inst.WritesReg()
    && ((d.inst.rs1 != 0 && d.inst.rs1 == x.inst.rd) || (d.inst.rs2 != 0 && d.inst.rs2 == x.inst.rd))
  }

  predicate Hazard(x: Stage, d: Stage, forward: bool) {
    Feeds(x, d) && (!forward || x.latency > 0)
  }

  predicate StallId(cfg: Config, p: Pipe) {
    || Hazard(p.st.e, p.st.d, cfg.forwarding && cfg.exForwarding)
    || Hazard(p.st.m, p.st.d, cfg.forwarding && cfg.memForwarding)
  }

  predicate StallIf(p: Pipe) {
    p.st.f.Busy? && ((p.st.f.inst.tlbMiss && p.ct.tlb > 0) || (p.st.f.inst.icacheMiss && p.ct.icache > 0))
  }

  // A stall holds every stage behind it.
  predicate MemStalled(p: Pipe) { StallMem(p) }
  predicate ExStalled(p: Pipe) { MemStalled(p) || StallEx(p) }
  predicate IdStalled(cfg: Config, p: Pipe) { ExStalled(p) || StallId(cfg, p) }
  predicate IfStalled(cfg: Config, p: Pipe) { IdStalled(cfg, p) || StallIf(p) }

  // ---- one tick --------------------------------------------------------------------------

  /** uint32_t to int. */
  function ToInt(x: nat): int { if x < 0x8000_0000 then x else x - 0x1_0000_0000 }

  predicate Divides(s: Stage) { s.Busy? && !s.inst.opcode.OpLoad? && s.inst.unit.Divider? }

  /** Entering E: the latency is set. */
  function Enter(cfg: Config, s: Stage): Stage {
    if s.Bubble? then s
    else if s.inst.opcode.OpLoad? then s.(latency := 1)
    else if s.inst.unit.Multiplier? then s.(latency := ToInt(cfg.mulLatency) - 1)
    else if s.inst.unit.Divider? then s.(latency := ToInt(cfg.divLatency) - 1)
    else s.(latency := 0)
  }

  /** What a divide entering E loads the busy counter with, a 32-bit word. */
  function DivideLoad(cfg: Config): nat { (cfg.divLatency + 0xFFFF_FFFF) % 0x1_0000_0000 }

  function DivBusy(cfg: Config, entering: Stage, busy: nat): nat {
    if Divides(entering) then DivideLoad(cfg) else busy
  }

  function Dec(n: nat): nat { if n > 0 then n - 1 else 0 }

  function Age(s: Stage): Stage {
    if s.Busy? && s.latency > 0 then s.(latency := s.latency - 1) else s
  }

  /** A tick while bubbles are owed: everything shifts, no check is made. */
  function BubbleTick(cfg: Config, p: Pipe): Pipe
    requires p.ct.bubble > 0
  {
    Pipe(Stages(Bubble, p.st.f, Enter(cfg, p.st.d), p.st.e, p.st.m),
         p.ct.(bubble := p.ct.bubble - 1, div := DivBusy(cfg, p.st.d, p.ct.div)),
         p.stats.(cycles := p.stats.cycles + 1, stalls := p.stats.stalls + 1, control := p.stats.control + 1),
         p.tables, p.nextId)
  }

  /** Each stalled cycle is charged to one category, the one furthest down the pipeline. */
  function Charge(cfg: Config, p: Pipe): Stats {
    var s := p.stats.(cycles := p.stats.cycles + 1);
    if StallMem(p) then s.(stalls := s.stalls + 1, dcache := s.dcache + 1)
    else if StallEx(p) then s.(stalls := s.stalls + 1, structural := s.structural + 1)
    else if StallId(cfg, p) then s.(stalls := s.stalls + 1, dataHazard := s.dataHazard + 1)
    else if StallIf(p) then
      if p.st.f.inst.tlbMiss then s.(stalls := s.stalls + 1, tlb := s.tlb + 1)
      else s.(stalls := s.stalls + 1, icache := s.icache + 1)
    else s
  }

  function CountDown(c: Counters): Counters {
    Counters(c.bubble, Dec(c.tlb), Dec(c.icache), Dec(c.dcache), Dec(c.div))
  }

  function AgeAll(st: Stages): Stages { Stages(st.f, st.d, Age(st.e), Age(st.m), Age(st.w)) }

  /** The penalty of resolving E's control transfer, and what the tables learn. */
  function Resolve(cfg: Config, t: Tables, e: Stage): (nat, Tables)
    requires Predictor.WellFormed(cfg.bp, t) && e.Busy?
  {
    if e.inst.isJump then ResolveJump(cfg.bp, t, e.inst.pc, e.inst.opcode.OpJalr?, e.inst.target)
    else if e.inst.isBranch then ResolveBranch(cfg.bp, t, e.inst.pc, e.inst.target, e.inst.branched)
    else (0, t)
  }

  predicate Unresolved(s: Stage) { s.Busy? && !s.resolved }

  function MarkResolved(st: Stages): Stages {
    if Unresolved(st.e) then st.(e := st.e.(resolved := true)) else st
  }

  /** Moves the instructions on, given which stages are stalled. */
  function Shift(cfg: Config, st: Stages, mem: bool, ex: bool, id: bool, fetch: bool): Stages {
    Stages(if fetch then st.f else Bubble,
           if id then st.d else if fetch then Bubble else st.f,
           if ex then st.e else if id then Bubble else Enter(cfg, st.d),
           if mem then st.m else if ex then Bubble else st.e,
           if mem then Bubble else st.m)
  }

  function ShiftCounters(cfg: Config, st: Stages, c: Counters, mem: bool, ex: bool, id: bool): Counters {
    c.(dcache := if !mem && !ex && st.e.Busy? && st.e.inst.dcacheMiss then cfg.dcachePenalty else c.dcache,
       div := if !ex && !id then DivBusy(cfg, st.d, c.div) else c.div)
  }

  /** A tick with the hazard checks. Resolving a control transfer with a penalty empties F and D
      and skips the shift. */
  function CheckedTick(cfg: Config, p: Pipe): Pipe
    requires p.ct.bubble == 0 && Predictor.WellFormed(cfg.bp, p.tables)
  {
    var stats, ct, st := Charge(cfg, p), CountDown(p.ct), MarkResolved(AgeAll(p.st));
    var (bubbles, tables) := if Unresolved(p.st.e) then Resolve(cfg, p.tables, p.st.e) else (0, p.tables);
    if bubbles > 0 then
      Pipe(st.(f := Bubble, d := Bubble), ct.(bubble := bubbles), stats, tables, p.nextId)
    else
      Pipe(Shift(cfg, st, MemStalled(p), ExStalled(p), IdStalled(cfg, p), IfStalled(cfg, p)),
           ShiftCounters(cfg, st, ct, MemStalled(p), ExStalled(p), IdStalled(cfg, p)), stats, tables, p.nextId)
  }

  function Tick(cfg: Config, p: Pipe): (r: Pipe)
    requires Predictor.WellFormed(cfg.bp, p.tables)
    ensures Predictor.WellFormed(cfg.bp, r.tables)
  {
    if p.ct.bubble > 0 then BubbleTick(cfg, p) else CheckedTick(cfg, p)
  }

  /** F may take a new instruction: nothing stalls, no bubble is owed, F is empty. */
  predicate Ready(cfg: Config, p: Pipe) {
    !(StallMem(p) || StallEx(p) || StallId(cfg, p) || StallIf(p)) && p.ct.bubble == 0 && p.st.f.Bubble?
  }

  /** Places a new instruction in F. */
  function Issue(cfg: Config, p: Pipe, i: Inst): (r: Pipe)
    requires Ready(cfg, p)
    ensures r.tables == p.tables
  {
    p.(st := p.st.(f := Busy(p.nextId + 1, i, 0, false)),
       ct := p.ct.(tlb := if i.tlbMiss then cfg.tlbPenalty else p.ct.tlb,
                   icache := if i.icacheMiss then cfg.icachePenalty else p.ct.icache),
       nextId := p.nextId + 1)
  }

  // ---- step_instruction terminates -----------------------------------------------------------

  function Weight(s: Stage, n: nat): nat { if s.Busy? then n else 0 }

  function Unit(s: Stage): nat { if Unresolved(s) then 1 else 0 }

  /** Control transfers still to be resolved. */
  function OpenControl(p: Pipe): nat { Unit(p.st.f) + Unit(p.st.d) + Unit(p.st.e) }

  /** Stages the instructions still have to travel. */
  function Distance(p: Pipe): nat {
    Weight(p.st.f, 5) + Weight(p.st.d, 4) + Weight(p.st.e, 3) + Weight(p.st.m, 2) + Weight(p.st.w, 1)
  }

  function Owed(p: Pipe): nat { p.ct.bubble + p.ct.tlb + p.ct.icache + p.ct.dcache + p.ct.div }

  /** The lexicographic measure (open control, distance, owed cycles) drops. */
  predicate Drops(p: Pipe, q: Pipe) {
    || OpenControl(q) < OpenControl(p)
    || (OpenControl(q) == OpenControl(p) && Distance(q) < Distance(p))
    || (OpenControl(q) == OpenControl(p) && Distance(q) == Distance(p) && Owed(q) < Owed(p))
  }

  lemma BubbleTickDrops(cfg: Config, p: Pipe)
    requires p.ct.bubble > 0
    ensures Drops(p, BubbleTick(cfg, p))
  {
    hide ToInt;
  }

  lemma CheckedTickDrops(cfg: Config, p: Pipe)
    requires p.ct.bubble == 0 && Predictor.WellFormed(cfg.bp, p.tables) && !Ready(cfg, p)
    ensures Drops(p, CheckedTick(cfg, p))
  {
    hide ToInt, Resolve, Predictor.WellFormed;
  }

  /** Every tick of the issue loop makes progress, from every state and for every
      configuration. */
  lemma TickDrops(cfg: Config, p: Pipe)
    requires Predictor.WellFormed(cfg.bp, p.tables) && !Ready(cfg, p)
    ensures Drops(p, Tick(cfg, p))
  {
    hide Drops, CheckedTick, BubbleTick, Predictor.WellFormed;
    if p.ct.bubble > 0 { BubbleTickDrops(cfg, p); } else { CheckedTickDrops(cfg, p); }
  }

  // ---- how long a drain can take -----------------------------------------------------------

  function Max(a: nat, b: nat): nat { if a < b then b else a }

  /** Cycles the resolution of one control transfer may cost: its own, and its bubbles. */
  function ControlCredit(cfg: Config, s: Stage): nat {
    if Unresolved(s) && s.inst.Control() then Max(cfg.bp.mispredictPenalty, 1) + 1 else 0
  }

  /** Busy cycles an instruction that has yet to enter E may load. */
  function DivideCredit(cfg: Config, s: Stage): nat {
    if Divides(s) then DivideLoad(cfg) else 0
  }

  /** Miss cycles an instruction that has yet to enter M may load. */
  function MissCredit(cfg: Config, s: Stage): nat {
    if s.Busy? && s.inst.dcacheMiss then cfg.dcachePenalty else 0
  }

  function ControlCredits(cfg: Config, st: Stages): nat {
    ControlCredit(cfg, st.f) + ControlCredit(cfg, st.d) + ControlCredit(cfg, st.e)
  }

  function DivideCredits(cfg: Config, st: Stages): nat { DivideCredit(cfg, st.f) + DivideCredit(cfg, st.d) }

  function MissCredits(cfg: Config, st: Stages): nat {
    MissCredit(cfg, st.f) + MissCredit(cfg, st.d) + MissCredit(cfg, st.e)
  }

  function Credits(cfg: Config, st: Stages): nat {
    ControlCredits(cfg, st) + DivideCredits(cfg, st) + MissCredits(cfg, st)
  }

  /** Everything the instructions in the pipeline may still cost, counters included. */
  function Cost(cfg: Config, p: Pipe): nat { Distance(p) + Owed(p) + Credits(cfg, p.st) }

  lemma BubbleTickPays(cfg: Config, p: Pipe)
    requires p.ct.bubble > 0
    ensures Cost(cfg, BubbleTick(cfg, p)) + 1 <= Cost(cfg, p)
  {
    hide ToInt;
  }

  /** Moving on never costs, and pays one if anything in F, E or M moves. */
  lemma ShiftPays(cfg: Config, p: Pipe, mem: bool, ex: bool, id: bool, fetch: bool)
    requires (mem ==> ex) && (ex ==> id) && (id ==> fetch)
    ensures var q := p.(st := Shift(cfg, p.st, mem, ex, id, fetch), ct := ShiftCounters(cfg, p.st, p.ct, mem, ex, id));
            var moved := (!fetch && p.st.f.Busy?) || (!ex && p.st.e.Busy?) || (!mem && p.st.m.Busy?);
            Cost(cfg, q) + (if moved then 1 else 0) <= Cost(cfg, p)
  {
    hide Shift, ShiftCounters, ControlCredits, DivideCredits, MissCredits, Distance;
    ShiftDistance(cfg, p, mem, ex, id, fetch);
    ShiftCredits(cfg, p.st, p.ct, mem, ex, id, fetch);
  }

  lemma ShiftDistance(cfg: Config, p: Pipe, mem: bool, ex: bool, id: bool, fetch: bool)
    requires (mem ==> ex) && (ex ==> id) && (id ==> fetch)
    ensures var q := p.(st := Shift(cfg, p.st, mem, ex, id, fetch), ct := ShiftCounters(cfg, p.st, p.ct, mem, ex, id));
            var moved := (!fetch && p.st.f.Busy?) || (!ex && p.st.e.Busy?) || (!mem && p.st.m.Busy?);
            Distance(q) + (if moved then 1 else 0) <= Distance(p)
  {
    hide ToInt, ShiftCounters;
  }

  lemma ShiftCredits(cfg: Config, st: Stages, c: Counters, mem: bool, ex: bool, id: bool, fetch: bool)
    requires (mem ==> ex) && (ex ==> id) && (id ==> fetch)
    ensures var st', c' := Shift(cfg, st, mem, ex, id, fetch), ShiftCounters(cfg, st, c, mem, ex, id);
            && ControlCredits(cfg, st') <= ControlCredits(cfg, st)
            && DivideCredits(cfg, st') + c'.div <= DivideCredits(cfg, st) + c.div
            && MissCredits(cfg, st') + c'.dcache <= MissCredits(cfg, st) + c.dcache
            && c'.bubble == c.bubble && c'.tlb == c.tlb && c'.icache == c.icache
  {
    hide ToInt, Max;
  }

  /** Counting down and marking E resolved never cost; a running countdown pays one. */
  lemma CountDownPays(cfg: Config, p: Pipe)
    ensures var q := p.(st := MarkResolved(AgeAll(p.st)), ct := CountDown(p.ct));
            var counted := p.ct.tlb > 0 || p.ct.icache > 0 || p.ct.dcache > 0 || p.ct.div > 0;
            Cost(cfg, q) + (if counted then 1 else 0) <= Cost(cfg, p)
  {
    hide ToInt;
  }

  /** No penalty exceeds the credit of its transfer. */
  lemma ResolveWithinCredit(cfg: Config, t: Tables, e: Stage)
    requires Predictor.WellFormed(cfg.bp, t) && Unresolved(e)
    ensures Resolve(cfg, t, e).0 > 0 ==> Resolve(cfg, t, e).0 + 1 <= ControlCredit(cfg, e)
  {
    hide Predictor.WellFormed, BhtIndex, BtbHit;
  }

  /** A flush spends the credit of the transfer that causes it. */
  lemma FlushPays(cfg: Config, p: Pipe, bubbles: nat)
    requires p.ct.bubble == 0 && Unresolved(p.st.e) && bubbles + 1 <= ControlCredit(cfg, p.st.e)
    ensures var st := MarkResolved(AgeAll(p.st));
            Cost(cfg, p.(st := st.(f := Bubble, d := Bubble), ct := CountDown(p.ct).(bubble := bubbles))) + 1
            <= Cost(cfg, p)
  {
    hide ToInt, Max;
  }

  lemma SameCost(cfg: Config, p: Pipe, q: Pipe)
    requires p.st == q.st && p.ct == q.ct
    ensures Cost(cfg, p) == Cost(cfg, q)
  {
  }

  lemma CheckedTickPays(cfg: Config, p: Pipe)
    requires p.ct.bubble == 0 && Predictor.WellFormed(cfg.bp, p.tables) && !Ready(cfg, p)
    ensures Cost(cfg, CheckedTick(cfg, p)) + 1 <= Cost(cfg, p)
  {
    hide ToInt, Predictor.WellFormed, Cost, Resolve, ControlCredit, Shift, ShiftCounters;
    var st := MarkResolved(AgeAll(p.st));
    var q := p.(st := st, ct := CountDown(p.ct));
    if Unresolved(p.st.e) {
      var (bubbles, tables) := Resolve(cfg, p.tables, p.st.e);
      ResolveWithinCredit(cfg, p.tables, p.st.e);
      if bubbles > 0 {
        FlushPays(cfg, p, bubbles);
        SameCost(cfg, p.(st := st.(f := Bubble, d := Bubble), ct := CountDown(p.ct).(bubble := bubbles)),
                 CheckedTick(cfg, p));
        return;
      }
    }
    CountDownPays(cfg, p);
    SameCost(cfg, p.(st := Shift(cfg, st, MemStalled(p), ExStalled(p), IdStalled(cfg, p), IfStalled(cfg, p)),
                     ct := ShiftCounters(cfg, st, q.ct, MemStalled(p), ExStalled(p), IdStalled(cfg, p))),
             CheckedTick(cfg, p));
    ShiftPays(cfg, q, MemStalled(p), ExStalled(p), IdStalled(cfg, p), IfStalled(cfg, p));
  }

  /** Every tick of the issue loop pays for itself out of that cost. */
  lemma TickPays(cfg: Config, p: Pipe)
    requires Predictor.WellFormed(cfg.bp, p.tables) && !Ready(cfg, p)
    ensures Cost(cfg, Tick(cfg, p)) + 1 <= Cost(cfg, p)
  {
    hide Cost, CheckedTick, BubbleTick, Predictor.WellFormed, Ready;
    if p.ct.bubble > 0 { BubbleTickPays(cfg, p); } else { CheckedTickPays(cfg, p); }
  }
}
