/** The pipeline object: stage registers, counters, predictor tables and statistics updated in
    place, and the issue loop. */
module InOrderPipeline {

  import Arith
  import opened Predictor
  import opened Pipeline
  import PipelineRuns

  class InOrderPipeline {
    const cfg: Pipeline.Config

    var f: Stage
    var d: Stage
    var e: Stage
    var m: Stage
    var w: Stage
    var ct: Counters
    var stats: Stats
    var bht: seq<nat>
    var btb: seq<BtbEntry>
    var history: nat
    var nextId: nat

    ghost function Value(): Pipe
      reads this
    {
      Pipe(Stages(f, d, e, m, w), ct, stats, Tables(bht, btb, history), nextId)
    }

    ghost predicate Valid()
      reads this
    {
      Predictor.WellFormed(cfg.bp, Tables(bht, btb, history))
    }

    constructor (cfg: Pipeline.Config)
      ensures Valid() && this.cfg == cfg && Value() == Reset(cfg)
    {
      this.cfg := cfg;
      f, d, e, m, w := Bubble, Bubble, Bubble, Bubble, Bubble;
      ct := Counters(0, 0, 0, 0, 0);
      stats := Stats(0, 0, 0, 0, 0, 0, 0, 0);
      bht := seq(BHT_SIZE, _ => 1);
      btb := seq(cfg.bp.btbEntries, _ => BtbEntry(0, 0, false));
      history := 0;
      nextId := 0;
    }

    predicate CheckStallMem()
      reads this
    {
      m.Busy? && m.inst.dcacheMiss && ct.dcache > 0
    }

    predicate CheckStallEx()
      reads this
    {
      e.Busy? && e.inst.unit.Divider? && ct.div > 0
    }

    predicate CheckStallId()
      reads this
    {
      d.Busy? && (Hazard(e, d, cfg.forwarding && cfg.exForwarding) || Hazard(m, d, cfg.forwarding && cfg.memForwarding))
    }

    predicate CheckStallIf()
      reads this
    {
      f.Busy? && ((f.inst.tlbMiss && ct.tlb > 0) || (f.inst.icacheMiss && ct.icache > 0))
    }

    lemma ChecksAgree()
      ensures CheckStallMem() == StallMem(Value()) && CheckStallEx() == StallEx(Value())
      ensures CheckStallId() == StallId(cfg, Value()) && CheckStallIf() == StallIf(Value())
    {
    }

    /** Loads the latency of an instruction entering E, and the divider's busy counter. */
    method InitExecutionLatency()
      modifies this`e, this`ct
      ensures e == Enter(cfg, old(e)) && ct == old(ct).(div := DivBusy(cfg, old(e), old(ct).div))
    {
      if e.Bubble? {
        return;
      }
      if e.inst.opcode.OpLoad? {
        e := e.(latency := 1);
      } else if e.inst.unit.Multiplier? {
        e := e.(latency := ToInt(cfg.mulLatency) - 1);
      } else if e.inst.unit.Divider? {
        e := e.(latency := ToInt(cfg.divLatency) - 1);
        ct := ct.(div := (cfg.divLatency + 0xFFFF_FFFF) % 0x1_0000_0000);
      } else {
        e := e.(latency := 0);
      }
    }

    method UpdateStallStats(stallMem: bool, stallEx: bool, stallId: bool, stallIf: bool)
      requires stallIf ==> f.Busy?
      requires stallMem == StallMem(Value()) && stallEx == StallEx(Value())
      requires stallId == StallId(cfg, Value()) && stallIf == StallIf(Value())
      modifies this`stats
      ensures stats == Charge(cfg, old(Value()))
    {
      hide StallMem, StallEx, StallId, StallIf;
      if stallMem {
        stats := stats.(dcache := stats.dcache + 1, stalls := stats.stalls + 1);
      } else if stallEx {
        stats := stats.(structural := stats.structural + 1, stalls := stats.stalls + 1);
      } else if stallId {
        stats := stats.(dataHazard := stats.dataHazard + 1, stalls := stats.stalls + 1);
      } else if stallIf {
        if f.inst.tlbMiss {
          stats := stats.(tlb := stats.tlb + 1, stalls := stats.stalls + 1);
        } else {
          stats := stats.(icache := stats.icache + 1, stalls := stats.stalls + 1);
        }
      }
      stats := stats.(cycles := stats.cycles + 1);
    }

    method DecrementLatencies()
      modifies this`e, this`m, this`w
      ensures e == Age(old(e)) && m == Age(old(m)) && w == Age(old(w))
    {
      if e.Busy? && e.latency > 0 { e := e.(latency := e.latency - 1); }
      if m.Busy? && m.latency > 0 { m := m.(latency := m.latency - 1); }
      if w.Busy? && w.latency > 0 { w := w.(latency := w.latency - 1); }
    }

    /** Records the target of a taken transfer, if there is a target buffer. */
    method UpdateBtb(pc: nat, target: nat)
      requires |btb| == cfg.bp.btbEntries
      modifies this`btb
      ensures Tables(bht, btb, history) == SetBtb(cfg.bp, old(Tables(bht, btb, history)), pc, target)
    {
      if cfg.bp.btbEntries > 0 {
        btb := btb[BtbIndex(cfg.bp, pc) := BtbEntry(pc, target, true)];
      }
    }

    method ResolveJumpEx(pc: nat, jalr: bool, target: nat) returns (bubbles: nat)
      requires Valid()
      modifies this`btb
      ensures Valid()
      ensures (bubbles, Tables(bht, btb, history))
           == ResolveJump(cfg.bp, old(Tables(bht, btb, history)), pc, jalr, target)
    {
      if BtbHit(cfg.bp, Tables(bht, btb, history), pc, target) {
        return 0;
      }
      UpdateBtb(pc, target);
      return if jalr then cfg.bp.mispredictPenalty else 1;
    }

    method ResolveBranchEx(pc: nat, target: nat, branched: bool) returns (bubbles: nat)
      requires Valid()
      modifies this`bht, this`btb, this`history
      ensures Valid()
      ensures (bubbles, Tables(bht, btb, history))
           == ResolveBranch(cfg.bp, old(Tables(bht, btb, history)), pc, target, branched)
    {
      hide BtbIndex, XorLow;
      var idx := BhtIndex(cfg.bp, Tables(bht, btb, history), pc);
      var predicted := Predicts(cfg.bp.bpType, bht[idx]);
      bubbles := 0;
      if predicted != branched {
        bubbles := cfg.bp.mispredictPenalty;
      } else if predicted {
        if !BtbHit(cfg.bp, Tables(bht, btb, history), pc, target) {
          bubbles := cfg.bp.mispredictPenalty;
        }
      }
      bht := bht[idx := Train(cfg.bp.bpType, bht[idx], branched)];
      if cfg.bp.bpType.Gshare? {
        history := (2 * history + (if branched then 1 else 0)) % Arith.Pow2(cfg.bp.historyBits);
      }
      if branched {
        UpdateBtb(pc, target);
      }
    }

    /** Resolves E's control transfer once; a penalty empties F and D. */
    method ResolveBranchesEx() returns (flushed: bool)
      requires Valid() && ct.bubble == 0
      modifies this`e, this`f, this`d, this`ct, this`bht, this`btb, this`history
      ensures Valid()
      ensures var (bubbles, tables) := if Unresolved(old(e)) then Resolve(cfg, old(Tables(bht, btb, history)), old(e))
                                       else (0, old(Tables(bht, btb, history)));
              && Tables(bht, btb, history) == tables && flushed == (bubbles > 0)
              && e == (if Unresolved(old(e)) then old(e).(resolved := true) else old(e))
              && f == (if flushed then Bubble else old(f)) && d == (if flushed then Bubble else old(d))
              && ct == old(ct).(bubble := bubbles)
    {
      hide Predictor.WellFormed, ResolveJump, ResolveBranch;
      if e.Bubble? || e.resolved {
        return false;
      }
      e := e.(resolved := true);
      var bubbles := 0;
      if e.inst.isJump {
        bubbles := ResolveJumpEx(e.inst.pc, e.inst.opcode.OpJalr?, e.inst.target);
      } else if e.inst.isBranch {
        bubbles := ResolveBranchEx(e.inst.pc, e.inst.target, e.inst.branched);
      }
      if bubbles > 0 {
        ct := ct.(bubble := bubbles);
        f := Bubble;
        d := Bubble;
        return true;
      }
      return false;
    }

    method StageRegisterTransfers(mem: bool, ex: bool, id: bool, fetch: bool)
      requires (mem ==> ex) && (ex ==> id) && (id ==> fetch)
      modifies this`f, this`d, this`e, this`m, this`w, this`ct
      ensures Stages(f, d, e, m, w) == Shift(cfg, old(Stages(f, d, e, m, w)), mem, ex, id, fetch)
      ensures ct == ShiftCounters(cfg, old(Stages(f, d, e, m, w)), old(ct), mem, ex, id)
    {
      hide Enter, DivBusy;
      w := if !mem then m else Bubble;
      if !mem {
        if !ex {
          m := e;
          if m.Busy? && m.inst.dcacheMiss {
            ct := ct.(dcache := cfg.dcachePenalty);
          }
        } else {
          m := Bubble;
        }
      }
      if !ex {
        if !id {
          e := d;
          InitExecutionLatency();
        } else {
          e := Bubble;
        }
      }
      if !id {
        d := if !fetch then f else Bubble;
      }
      if !fetch {
        f := Bubble;
      }
    }

    method TickPipeline()
      requires Valid()
      modifies this
      ensures Valid() && Value() == Tick(cfg, old(Value()))
    {
      hide Predictor.WellFormed, StallMem, StallEx, StallId, StallIf, Enter, DivBusy, Resolve, Charge, Shift,
           ShiftCounters,
           CheckStallMem, CheckStallEx, CheckStallId, CheckStallIf;
      if ct.bubble > 0 {
        BubbleTickPipeline();
        return;
      }
      ChecksAgree();
      var stallMem, stallEx, stallId, stallIf := CheckStallMem(), CheckStallEx(), CheckStallId(), CheckStallIf();
      var mem := stallMem;
      var ex := mem || stallEx;
      var id := ex || stallId;
      var fetch := id || stallIf;
      StallIfMeansBusy();
      UpdateStallStats(stallMem, stallEx, stallId, stallIf);
      ct := Counters(ct.bubble, Dec(ct.tlb), Dec(ct.icache), Dec(ct.dcache), Dec(ct.div));
      DecrementLatencies();
      ResolveIgnoresLatency(cfg, old(Tables(bht, btb, history)), old(e));
      var flushed := ResolveBranchesEx();
      if flushed {
        return;
      }
      StageRegisterTransfers(mem, ex, id, fetch);
    }

    lemma StallIfMeansBusy()
      ensures CheckStallIf() ==> f.Busy?
    {
    }

    method BubbleTickPipeline()
      requires ct.bubble > 0
      modifies this
      ensures Value() == BubbleTick(cfg, old(Value()))
    {
      hide Enter, DivBusy;
      ct := ct.(bubble := ct.bubble - 1);
      stats := stats.(control := stats.control + 1, stalls := stats.stalls + 1, cycles := stats.cycles + 1);
      w := m;
      m := e;
      e := d;
      InitExecutionLatency();
      d := f;
      f := Bubble;
    }

    method IssueIntoF(i: Inst)
      requires Ready(cfg, Value())
      modifies this`f, this`ct, this`nextId
      ensures Value() == Issue(cfg, old(Value()), i)
    {
      hide StallMem, StallEx, StallId, StallIf;
      nextId := nextId + 1;
      f := Busy(nextId, i, 0, false);
      if i.tlbMiss {
        ct := ct.(tlb := cfg.tlbPenalty);
      }
      if i.icacheMiss {
        ct := ct.(icache := cfg.icachePenalty);
      }
    }

    /** Ticks until F is free, issues, ticks once more: the loop terminates from every state, F is
        never overwritten, and the returned uint32_t is the number of cycles that passed, modulo
        2^32. */
    method StepInstruction(i: Inst) returns (cycles: nat)
      requires Valid()
      modifies this
      ensures Valid()
      ensures var (q, n) := PipelineRuns.StepInstruction(cfg, old(Value()), i);
              Value() == q && cycles == PipelineRuns.Count32(n) && stats.cycles == old(stats.cycles) + n
    {
      hide Predictor.WellFormed, StallMem, StallEx, StallId, StallIf, Tick, OpenControl, Distance, Owed,
           CheckStallMem, CheckStallEx, CheckStallId, CheckStallIf, PipelineRuns.Count32;
      ghost var p0 := Value();
      ghost var ticks: nat := 0;
      cycles := 0;
      PipelineRuns.Count32Exact(0);
      while true
        invariant Valid() && PipelineRuns.TablesOk(cfg, p0) && cycles == PipelineRuns.Count32(ticks)
        invariant var (q, n) := PipelineRuns.Drain(cfg, Value()); PipelineRuns.Drain(cfg, p0) == (q, ticks + n)
        decreases OpenControl(Value()), Distance(Value()), Owed(Value())
      {
        ChecksAgree();
        var stalled := CheckStallMem() || CheckStallEx() || CheckStallId() || CheckStallIf();
        if !stalled && ct.bubble == 0 && f.Bubble? {
          break;
        }
        PipelineRuns.DropsMeansLess(cfg, Value());
        TickPipeline();
        PipelineRuns.CountOneMore(ticks);
        cycles, ticks := (cycles + 1) % 0x1_0000_0000, ticks + 1;
      }
      ghost var q := Value();
      IssueIntoF(i);
      TickPipeline();
      PipelineRuns.CountOneMore(ticks);
      cycles := (cycles + 1) % 0x1_0000_0000;
      PipelineRuns.DrainCounts(cfg, p0);
      PipelineRuns.TickCounts(cfg, Issue(cfg, q, i));
    }

    /** The checkpoint for reverse stepping. */
    method SaveState() returns (saved: Pipe)
      ensures saved == Value()
    {
      saved := Pipe(Stages(f, d, e, m, w), ct, stats, Tables(bht, btb, history), nextId);
    }

    /** Restores everything but the issue counter. */
    method RestoreState(saved: Pipe)
      requires Predictor.WellFormed(cfg.bp, saved.tables)
      modifies this
      ensures Valid() && Value() == PipelineRuns.RestoreState(old(Value()), saved)
    {
      f, d, e, m, w := saved.st.f, saved.st.d, saved.st.e, saved.st.m, saved.st.w;
      bht, btb, history := saved.tables.bht, saved.tables.btb, saved.tables.history;
      ct := saved.ct;
      stats := saved.stats;
    }

    /** Saves, runs a program and takes it back: every register, counter, statistic and predictor table
        is as it was, and the issue counter stays where the program left it. */
    method RunAndTakeBack(program: seq<Inst>)
      requires Valid()
      modifies this
      ensures Valid()
      ensures Value() == old(Value()).(nextId := PipelineRuns.RunProgram(cfg, old(Value()), program).0.nextId)
    {
      hide Predictor.WellFormed, PipelineRuns.StepInstruction;
      ghost var last := PipelineRuns.RunProgram(cfg, Value(), program).0;
      var saved := SaveState();
      assert program[0..] == program;
      for k := 0 to |program|
        invariant Valid() && PipelineRuns.RunProgram(cfg, Value(), program[k..]).0 == last
      {
        assert program[k..][0] == program[k] && program[k..][1..] == program[k + 1..];
        var _ := StepInstruction(program[k]);
      }
      RestoreState(saved);
    }
  }

  /** Resolution looks at the instruction, not at its remaining latency. */
  lemma ResolveIgnoresLatency(cfg: Pipeline.Config, t: Tables, s: Stage)
    requires Predictor.WellFormed(cfg.bp, t)
    ensures Unresolved(Age(s)) == Unresolved(s)
    ensures s.Busy? ==> Resolve(cfg, t, Age(s)) == Resolve(cfg, t, s)
  {
  }
}
