/** Branch direction predictors and the branch target buffer of the timing pipeline. */
module Predictor {

  import opened Arith

  datatype BtbEntry = BtbEntry(pc: nat, target: nat, valid: bool)

  datatype PredictorType = StaticNotTaken | StaticTaken | OneBitBimodal | TwoBitBimodal | Gshare

  /** Table sizes and penalties, from the CPU configuration. */
  datatype Config = Config(bpType: PredictorType, btbEntries: nat, historyBits: nat, mispredictPenalty: nat)

  /** History table, target buffer and global history. */
  datatype Tables = Tables(bht: seq<nat>, btb: seq<BtbEntry>, history: nat)

  const BHT_SIZE: nat := 256

  function Initial(cfg: Config): (t: Tables)
    ensures WellFormed(cfg, t)
  {
    Tables(seq(BHT_SIZE, _ => 1), seq(cfg.btbEntries, _ => BtbEntry(0, 0, false)), 0)
  }

  function BtbIndex(cfg: Config, pc: nat): (r: nat)
    requires cfg.btbEntries > 0
    ensures r < cfg.btbEntries
  {
    (pc / 2) % cfg.btbEntries
  }

  /** Counters stay in 0..3 and every valid target entry sits at the index of its own pc. */
  ghost predicate WellFormed(cfg: Config, t: Tables) {
    && |t.bht| == BHT_SIZE && (forall i :: 0 <= i < BHT_SIZE ==> t.bht[i] <= 3)
    && |t.btb| == cfg.btbEntries
    && (forall i :: 0 <= i < |t.btb| && t.btb[i].valid ==> i == BtbIndex(cfg, t.btb[i].pc))
  }

  /** Exclusive or of the n low bits. */
  function XorLow(a: nat, b: nat, n: nat): (r: nat)
    ensures r < Pow2(n)
  {
    if n == 0 then 0 else 2 * XorLow(a / 2, b / 2, n - 1) + (a + b) % 2
  }

  function BhtIndex(cfg: Config, t: Tables, pc: nat): (r: nat)
    ensures r < BHT_SIZE
  {
    assert Pow2(8) == 256;
    match cfg.bpType
    case Gshare => XorLow(pc / 2, t.history, 8)
    case OneBitBimodal => (pc / 2) % 256
    case TwoBitBimodal => (pc / 2) % 256
    case _ => 0
  }

  predicate Predicts(kind: PredictorType, counter: nat) {
    match kind
    case StaticNotTaken => false
    case StaticTaken => true
    case OneBitBimodal => counter != 0
    case _ => counter >= 2
  }

  function Train(kind: PredictorType, counter: nat, branched: bool): nat {
    match kind
    case OneBitBimodal => if branched then 1 else 0
    case StaticNotTaken => counter
    case StaticTaken => counter
    case _ => if branched then (if counter < 3 then counter + 1 else counter)
              else (if counter > 0 then counter - 1 else counter)
  }

  predicate BtbHit(cfg: Config, t: Tables, pc: nat, target: nat)
    requires |t.btb| == cfg.btbEntries
  {
    cfg.btbEntries > 0 &&
    var e := t.btb[BtbIndex(cfg, pc)];
    e.valid && e.pc == pc && e.target == target
  }

  function SetBtb(cfg: Config, t: Tables, pc: nat, target: nat): Tables
    requires |t.btb| == cfg.btbEntries
  {
    if cfg.btbEntries == 0 then t
    else t.(btb := t.btb[BtbIndex(cfg, pc) := BtbEntry(pc, target, true)])
  }

  /** A jump: free on a target-buffer hit; otherwise JALR pays the full penalty, JAL one. */
  function ResolveJump(cfg: Config, t: Tables, pc: nat, isJalr: bool, target: nat): (r: (nat, Tables))
    requires WellFormed(cfg, t)
    ensures WellFormed(cfg, r.1)
  {
    if BtbHit(cfg, t, pc, target) then (0, t)
    else (if isJalr then cfg.mispredictPenalty else 1, SetBtb(cfg, t, pc, target))
  }

  /** A conditional branch: the penalty is paid on a wrong direction, or on a taken prediction
      without the right target; then the tables learn the outcome. */
  function ResolveBranch(cfg: Config, t: Tables, pc: nat, target: nat, branched: bool): (r: (nat, Tables))
    requires WellFormed(cfg, t)
    ensures WellFormed(cfg, r.1)
  {
    var i := BhtIndex(cfg, t, pc);
    var predicted := Predicts(cfg.bpType, t.bht[i]);
    var bubbles :=
      if predicted != branched then cfg.mispredictPenalty
      else if predicted && !BtbHit(cfg, t, pc, target) then cfg.mispredictPenalty
      else 0;
    var t1 := t.(bht := t.bht[i := Train(cfg.bpType, t.bht[i], branched)]);
    var shifted := 2 * t.history + (if branched then 1 else 0);
    var t2 := if cfg.bpType.Gshare? then t1.(history := shifted % Pow2(cfg.historyBits)) else t1;
    (bubbles, if branched then SetBtb(cfg, t2, pc, target) else t2)
  }

  // ---- how often a bimodal entry is wrong --------------------------------------------------

  /** Direction mispredictions of one table entry over the outcomes it sees. */
  function Mispredictions(kind: PredictorType, counter: nat, outcomes: seq<bool>): nat
    decreases |outcomes|
  {
    if outcomes == [] then 0
    else
      var wrong := if Predicts(kind, counter) != outcomes[0] then 1 else 0;
      wrong + Mispredictions(kind, Train(kind, counter, outcomes[0]), outcomes[1..])
  }

  /** Maximal runs of equal outcomes. */
  function Runs(outcomes: seq<bool>): nat
    decreases |outcomes|
  {
    if outcomes == [] then 0
    else if |outcomes| == 1 then 1
    else Runs(outcomes[1..]) + (if outcomes[0] != outcomes[1] then 1 else 0)
  }

  /** Mispredictions a two-bit counter can still make before it agrees with direction b. */
  function WrongLeft(counter: nat, b: bool): nat {
    if b then (if counter >= 2 then 0 else 2 - counter) else (if counter >= 2 then counter - 1 else 0)
  }

  lemma {:induction false} TwoBitPotential(kind: PredictorType, counter: nat, outcomes: seq<bool>)
    requires (kind == TwoBitBimodal || kind == Gshare) && counter <= 3 && outcomes != []
    ensures Mispredictions(kind, counter, outcomes) + 2 <= 2 * Runs(outcomes) + WrongLeft(counter, outcomes[0])
    decreases |outcomes|
  {
    var c := Train(kind, counter, outcomes[0]);
    if |outcomes| == 1 {
      assert outcomes[1..] == [];
    } else {
      TwoBitPotential(kind, c, outcomes[1..]);
      assert outcomes[1..][0] == outcomes[1];
    }
  }

  /** Two-bit counters, from any state: at most two mispredictions per maximal run of equal
      outcomes. */
  lemma TwoBitBound(kind: PredictorType, counter: nat, outcomes: seq<bool>)
    requires (kind == TwoBitBimodal || kind == Gshare) && counter <= 3
    ensures Mispredictions(kind, counter, outcomes) <= 2 * Runs(outcomes)
  {
    if outcomes != [] {
      TwoBitPotential(kind, counter, outcomes);
    }
  }

  lemma {:induction false} OneBitPotential(counter: nat, outcomes: seq<bool>)
    requires outcomes != []
    ensures Mispredictions(OneBitBimodal, counter, outcomes) + 1
         <= Runs(outcomes) + (if Predicts(OneBitBimodal, counter) == outcomes[0] then 0 else 1)
    decreases |outcomes|
  {
    var c := Train(OneBitBimodal, counter, outcomes[0]);
    if |outcomes| == 1 {
      assert outcomes[1..] == [];
    } else {
      OneBitPotential(c, outcomes[1..]);
      assert outcomes[1..][0] == outcomes[1];
    }
  }

  /** One-bit counters: at most one misprediction per maximal run. */
  lemma OneBitBound(counter: nat, outcomes: seq<bool>)
    ensures Mispredictions(OneBitBimodal, counter, outcomes) <= Runs(outcomes)
  {
    if outcomes != [] {
      OneBitPotential(counter, outcomes);
    }
  }

  // ---- the table under a run ---------------------------------------------------------------

  /** One control transfer resolved in E. */
  datatype Transfer = Branch(pc: nat, target: nat, taken: bool) | Jump(pc: nat, isJalr: bool, target: nat)

  function ResolveTransfer(cfg: Config, t: Tables, x: Transfer): (r: (nat, Tables))
    requires WellFormed(cfg, t)
    ensures WellFormed(cfg, r.1)
  {
    match x
    case Branch(pc, target, taken) => ResolveBranch(cfg, t, pc, target, taken)
    case Jump(pc, isJalr, target) => ResolveJump(cfg, t, pc, isJalr, target)
  }

  /** The branch is predicted by table entry i. */
  predicate LandsOn(cfg: Config, t: Tables, x: Transfer, i: nat) {
    x.Branch? && BhtIndex(cfg, t, x.pc) == i
  }

  /** Wrong direction predictions of the whole run that table entry i made. */
  function WrongAt(cfg: Config, t: Tables, xs: seq<Transfer>, i: nat): nat
    requires WellFormed(cfg, t) && i < BHT_SIZE
    decreases |xs|
  {
    if xs == [] then 0
    else
      (if LandsOn(cfg, t, xs[0], i) && Predicts(cfg.bpType, t.bht[i]) != xs[0].taken then 1 else 0)
      + WrongAt(cfg, ResolveTransfer(cfg, t, xs[0]).1, xs[1..], i)
  }

  /** The outcomes entry i sees in the run. */
  function SeenAt(cfg: Config, t: Tables, xs: seq<Transfer>, i: nat): seq<bool>
    requires WellFormed(cfg, t)
    decreases |xs|
  {
    if xs == [] then []
    else
      (if LandsOn(cfg, t, xs[0], i) then [xs[0].taken] else [])
      + SeenAt(cfg, ResolveTransfer(cfg, t, xs[0]).1, xs[1..], i)
  }

  /** In any run of branches and jumps, whatever they share, each table entry behaves like one
      counter fed the outcomes that reach it. */
  lemma {:induction false} EntryIsCounter(cfg: Config, t: Tables, xs: seq<Transfer>, i: nat)
    requires WellFormed(cfg, t) && i < BHT_SIZE
    ensures WrongAt(cfg, t, xs, i) == Mispredictions(cfg.bpType, t.bht[i], SeenAt(cfg, t, xs, i))
    decreases |xs|
  {
    hide Predicts, Train, BhtIndex, BtbIndex;
    if xs != [] {
      var t' := ResolveTransfer(cfg, t, xs[0]).1;
      EntryIsCounter(cfg, t', xs[1..], i);
      var seen := SeenAt(cfg, t', xs[1..], i);
      if LandsOn(cfg, t, xs[0], i) {
        assert ([xs[0].taken] + seen)[1..] == seen;
      } else {
        assert [] + seen == seen;
      }
    }
  }

  /** In any run, two-bit bimodal or gshare, entry i is wrong at most twice per maximal run of
      equal outcomes it sees. */
  lemma TwoBitTableBound(cfg: Config, t: Tables, xs: seq<Transfer>, i: nat)
    requires WellFormed(cfg, t) && i < BHT_SIZE && (cfg.bpType == TwoBitBimodal || cfg.bpType == Gshare)
    ensures WrongAt(cfg, t, xs, i) <= 2 * Runs(SeenAt(cfg, t, xs, i))
  {
    EntryIsCounter(cfg, t, xs, i);
    TwoBitBound(cfg.bpType, t.bht[i], SeenAt(cfg, t, xs, i));
  }

  /** With one-bit counters, at most once. */
  lemma OneBitTableBound(cfg: Config, t: Tables, xs: seq<Transfer>, i: nat)
    requires WellFormed(cfg, t) && i < BHT_SIZE && cfg.bpType == OneBitBimodal
    ensures WrongAt(cfg, t, xs, i) <= Runs(SeenAt(cfg, t, xs, i))
  {
    EntryIsCounter(cfg, t, xs, i);
    OneBitBound(t.bht[i], SeenAt(cfg, t, xs, i));
  }

  // ---- an always-taken branch ----------------------------------------------------------------

  /** The transfer uses neither the target-buffer entry nor, if it is a branch, the bimodal
      counter of the branch at pc. */
  predicate Elsewhere(cfg: Config, x: Transfer, pc: nat)
    requires cfg.btbEntries > 0
  {
    BtbIndex(cfg, x.pc) != BtbIndex(cfg, pc) && (x.Branch? ==> (x.pc / 2) % BHT_SIZE != (pc / 2) % BHT_SIZE)
  }

  /** Penalties paid in a run by the takings of the branch at pc. */
  function Penalties(cfg: Config, t: Tables, pc: nat, target: nat, xs: seq<Transfer>): nat
    requires WellFormed(cfg, t)
    decreases |xs|
  {
    if xs == [] then 0
    else
      var (b, t') := ResolveTransfer(cfg, t, xs[0]);
      (if xs[0] == Branch(pc, target, true) && b > 0 then 1 else 0) + Penalties(cfg, t', pc, target, xs[1..])
  }

  /** Penalties the branch can still pay: until its target is cached and its counter predicts
      taken. */
  function PenaltiesLeft(cfg: Config, t: Tables, pc: nat, target: nat): (n: nat)
    requires WellFormed(cfg, t)
    ensures n <= 2
  {
    var counter := t.bht[BhtIndex(cfg, t, pc)];
    var wrong := if cfg.bpType.OneBitBimodal? then (if counter == 0 then 1 else 0) else WrongLeft(counter, true);
    if wrong == 0 && !BtbHit(cfg, t, pc, target) then 1 else wrong
  }

  lemma {:induction false} PenaltiesBounded(cfg: Config, t: Tables, pc: nat, target: nat, xs: seq<Transfer>)
    requires WellFormed(cfg, t) && cfg.btbEntries > 0
    requires cfg.bpType == TwoBitBimodal || cfg.bpType == OneBitBimodal
    requires forall k :: 0 <= k < |xs| ==> xs[k] == Branch(pc, target, true) || Elsewhere(cfg, xs[k], pc)
    ensures Penalties(cfg, t, pc, target, xs) <= PenaltiesLeft(cfg, t, pc, target)
    decreases |xs|
  {
    hide BtbIndex;
    if xs != [] {
      PenaltiesBounded(cfg, ResolveTransfer(cfg, t, xs[0]).1, pc, target, xs[1..]);
    }
  }

  /** With a target buffer and a bimodal predictor, a branch that is always taken to one target
      costs at most two penalties in a whole run, however often it runs and whatever other
      branches and jumps run in between, as long as they use other table entries. */
  lemma AlwaysTakenCost(cfg: Config, t: Tables, pc: nat, target: nat, xs: seq<Transfer>)
    requires WellFormed(cfg, t) && cfg.btbEntries > 0
    requires cfg.bpType == TwoBitBimodal || cfg.bpType == OneBitBimodal
    requires forall k :: 0 <= k < |xs| ==> xs[k] == Branch(pc, target, true) || Elsewhere(cfg, xs[k], pc)
    ensures Penalties(cfg, t, pc, target, xs) <= 2
  {
    PenaltiesBounded(cfg, t, pc, target, xs);
  }
}
