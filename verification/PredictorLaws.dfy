/** What the predictors remember and what a wrong prediction costs, in terms of the outcomes of a run. */
module PredictorLaws {

  import opened Arith
  import opened Predictor

  // ---- what a run pays -------------------------------------------------------------------------------

  /** Penalty cycles of the run. */
  function Paid(cfg: Config, t: Tables, xs: seq<Transfer>): nat
    requires WellFormed(cfg, t)
    decreases |xs|
  {
    if xs == [] then 0
    else
      var (bubbles, t1) := ResolveTransfer(cfg, t, xs[0]);
      bubbles + Paid(cfg, t1, xs[1..])
  }

  /** The direction predicted for the branch at pc. */
  predicate Predicted(cfg: Config, t: Tables, pc: nat)
    requires WellFormed(cfg, t)
  {
    Predicts(cfg.bpType, t.bht[BhtIndex(cfg, t, pc)])
  }

  /** The target buffer holds this transfer. */
  predicate KnowsTarget(cfg: Config, t: Tables, pc: nat, target: nat)
    requires WellFormed(cfg, t)
  {
    cfg.btbEntries > 0 && t.btb[(pc / 2) % cfg.btbEntries] == BtbEntry(pc, target, true)
  }

  predicate WrongDirection(cfg: Config, t: Tables, x: Transfer)
    requires WellFormed(cfg, t)
  {
    x.Branch? && Predicted(cfg, t, x.pc) != x.taken
  }

  /** Rightly predicted taken, or a JALR, without the right target. */
  predicate MissingTarget(cfg: Config, t: Tables, x: Transfer)
    requires WellFormed(cfg, t)
  {
    ((x.Branch? && Predicted(cfg, t, x.pc) && x.taken) || (x.Jump? && x.isJalr)) && !KnowsTarget(cfg, t, x.pc, x.target)
  }

  predicate MissingJal(cfg: Config, t: Tables, x: Transfer)
    requires WellFormed(cfg, t)
  {
    x.Jump? && !x.isJalr && !KnowsTarget(cfg, t, x.pc, x.target)
  }

  function WrongDirections(cfg: Config, t: Tables, xs: seq<Transfer>): nat
    requires WellFormed(cfg, t)
    decreases |xs|
  {
    if xs == [] then 0
    else
      Count(WrongDirection(cfg, t, xs[0]))
      + WrongDirections(cfg, ResolveTransfer(cfg, t, xs[0]).1, xs[1..])
  }

  function MissingTargets(cfg: Config, t: Tables, xs: seq<Transfer>): nat
    requires WellFormed(cfg, t)
    decreases |xs|
  {
    if xs == [] then 0
    else
      Count(MissingTarget(cfg, t, xs[0]))
      + MissingTargets(cfg, ResolveTransfer(cfg, t, xs[0]).1, xs[1..])
  }

  function MissingJals(cfg: Config, t: Tables, xs: seq<Transfer>): nat
    requires WellFormed(cfg, t)
    decreases |xs|
  {
    if xs == [] then 0
    else
      Count(MissingJal(cfg, t, xs[0])) + MissingJals(cfg, ResolveTransfer(cfg, t, xs[0]).1, xs[1..])
  }

  function Count(b: bool): nat { if b then 1 else 0 }

  lemma OnePays(cfg: Config, t: Tables, x: Transfer)
    requires WellFormed(cfg, t)
    ensures ResolveTransfer(cfg, t, x).0
         == cfg.mispredictPenalty * (Count(WrongDirection(cfg, t, x)) + Count(MissingTarget(cfg, t, x)))
            + Count(MissingJal(cfg, t, x))
  {
    hide BhtIndex, Predicts, Train;
  }

  /** The penalties of any run of branches and jumps are the mispredict penalty for every wrong direction, for
      every rightly predicted taken branch without its target and for every JALR without its target, and one
      cycle for every JAL without its target. */
  lemma {:induction false} PaidIsMispredicted(cfg: Config, t: Tables, xs: seq<Transfer>)
    requires WellFormed(cfg, t)
    ensures Paid(cfg, t, xs)
         == cfg.mispredictPenalty * (WrongDirections(cfg, t, xs) + MissingTargets(cfg, t, xs)) + MissingJals(cfg, t, xs)
    decreases |xs|
  {
    hide WellFormed, ResolveTransfer, WrongDirection, MissingTarget, MissingJal, Count;
    if xs != [] {
      var t1 := ResolveTransfer(cfg, t, xs[0]).1;
      OnePays(cfg, t, xs[0]);
      PaidIsMispredicted(cfg, t1, xs[1..]);
      var here := Count(WrongDirection(cfg, t, xs[0])) + Count(MissingTarget(cfg, t, xs[0]));
      var rest := WrongDirections(cfg, t1, xs[1..]) + MissingTargets(cfg, t1, xs[1..]);
      assert cfg.mispredictPenalty * (here + rest) == cfg.mispredictPenalty * here + cfg.mispredictPenalty * rest;
    }
  }

  /** Wrong directions of the entries below n. */
  function WrongBelow(cfg: Config, t: Tables, xs: seq<Transfer>, n: nat): nat
    requires WellFormed(cfg, t) && n <= BHT_SIZE
  {
    if n == 0 then 0 else WrongBelow(cfg, t, xs, n - 1) + WrongAt(cfg, t, xs, n - 1)
  }

  lemma {:induction false} WrongBelowUnrolled(cfg: Config, t: Tables, xs: seq<Transfer>, n: nat)
    requires WellFormed(cfg, t) && n <= BHT_SIZE
    ensures xs == [] ==> WrongBelow(cfg, t, xs, n) == 0
    ensures xs != [] ==>
              WrongBelow(cfg, t, xs, n)
              == (if WrongDirection(cfg, t, xs[0]) && BhtIndex(cfg, t, xs[0].pc) < n then 1 else 0)
                 + WrongBelow(cfg, ResolveTransfer(cfg, t, xs[0]).1, xs[1..], n)
    decreases n
  {
    hide Predicts, Train, BhtIndex, ResolveTransfer;
    if n > 0 {
      WrongBelowUnrolled(cfg, t, xs, n - 1);
    }
  }

  /** Every wrong direction is the mistake of one table entry. */
  lemma {:induction false} WrongIsSumOfEntries(cfg: Config, t: Tables, xs: seq<Transfer>)
    requires WellFormed(cfg, t)
    ensures WrongDirections(cfg, t, xs) == WrongBelow(cfg, t, xs, BHT_SIZE)
    decreases |xs|
  {
    hide Predicts, Train, ResolveTransfer, WrongDirection, WrongBelow;
    WrongBelowUnrolled(cfg, t, xs, BHT_SIZE);
    if xs != [] {
      WrongIsSumOfEntries(cfg, ResolveTransfer(cfg, t, xs[0]).1, xs[1..]);
    }
  }

  // ---- what a counter remembers ----------------------------------------------------------------------

  /** A counter after these outcomes. */
  function Trained(kind: PredictorType, counter: nat, outcomes: seq<bool>): nat
    decreases |outcomes|
  {
    if outcomes == [] then counter else Trained(kind, Train(kind, counter, outcomes[0]), outcomes[1..])
  }

  lemma {:induction false} TrainedAppend(kind: PredictorType, counter: nat, a: seq<bool>, b: seq<bool>)
    ensures Trained(kind, counter, a + b) == Trained(kind, Trained(kind, counter, a), b)
    decreases |a|
  {
    hide Train;
    if a == [] {
      assert a + b == b;
    } else {
      assert (a + b)[1..] == a[1..] + b;
      TrainedAppend(kind, Train(kind, counter, a[0]), a[1..], b);
    }
  }

  lemma {:induction false} TrainedBounded(kind: PredictorType, counter: nat, outcomes: seq<bool>)
    requires counter <= 3
    ensures Trained(kind, counter, outcomes) <= 3
    decreases |outcomes|
  {
    if outcomes != [] {
      TrainedBounded(kind, Train(kind, counter, outcomes[0]), outcomes[1..]);
    }
  }

  lemma One(kind: PredictorType, c: nat, x: bool)
    ensures Trained(kind, c, [x]) == Train(kind, c, x)
  {
    assert [x][1..] == [];
  }

  lemma Two(kind: PredictorType, c: nat, x: bool, y: bool)
    ensures Trained(kind, c, [x, y]) == Train(kind, Train(kind, c, x), y)
  {
    assert [x, y] == [x] + [y];
    TrainedAppend(kind, c, [x], [y]);
    One(kind, c, x);
    One(kind, Train(kind, c, x), y);
  }

  lemma Four(kind: PredictorType, c: nat, b: bool, e: bool)
    ensures Trained(kind, c, [b, b, b, e]) == Train(kind, Train(kind, Train(kind, Train(kind, c, b), b), b), e)
  {
    assert [b, b, b, e] == [b, b] + [b, e];
    TrainedAppend(kind, c, [b, b], [b, e]);
    Two(kind, c, b, b);
    Two(kind, Train(kind, Train(kind, c, b), b), b, e);
  }

  /** A two-bit counter, whatever came before: two equal outcomes make it predict them, and after three it
      withstands one opposite outcome but not two. */
  lemma TwoBitRemembers(kind: PredictorType, counter: nat, before: seq<bool>, b: bool)
    requires (kind == TwoBitBimodal || kind == Gshare) && counter <= 3
    ensures Predicts(kind, Trained(kind, counter, before + [b, b])) == b
    ensures Predicts(kind, Trained(kind, counter, before + [b, b, b, !b])) == b
    ensures Predicts(kind, Trained(kind, counter, before + [b, b, b, !b, !b])) == !b
  {
    TrainedAppend(kind, counter, before, [b, b]);
    TrainedAppend(kind, counter, before, [b, b, b, !b]);
    TrainedAppend(kind, counter, before, [b, b, b, !b, !b]);
    TrainedBounded(kind, counter, before);
    var c := Trained(kind, counter, before);
    Two(kind, c, b, b);
    Four(kind, c, b, !b);
    assert [b, b, b, !b, !b] == [b, b, b, !b] + [!b];
    TrainedAppend(kind, c, [b, b, b, !b], [!b]);
    One(kind, Trained(kind, c, [b, b, b, !b]), !b);
  }

  /** A one-bit counter predicts the last outcome. */
  lemma OneBitRemembers(counter: nat, before: seq<bool>, b: bool)
    ensures Predicts(OneBitBimodal, Trained(OneBitBimodal, counter, before + [b])) == b
  {
    TrainedAppend(OneBitBimodal, counter, before, [b]);
    One(OneBitBimodal, Trained(OneBitBimodal, counter, before), b);
  }

  /** At reset a two-bit counter predicts not taken and one taken outcome changes that, a one-bit counter
      predicts taken; a static predictor never changes. */
  lemma AtReset(cfg: Config, pc: nat, before: seq<bool>)
    ensures var p := Predicted(cfg, Initial(cfg), pc);
            var c := Initial(cfg).bht[BhtIndex(cfg, Initial(cfg), pc)];
            match cfg.bpType
            case StaticNotTaken => !Predicts(cfg.bpType, Trained(cfg.bpType, c, before))
            case StaticTaken => Predicts(cfg.bpType, Trained(cfg.bpType, c, before))
            case OneBitBimodal => p
            case _ => !p && Predicts(cfg.bpType, Trained(cfg.bpType, c, [true]))
    ensures Initial(cfg).history == 0 && forall target: nat :: !KnowsTarget(cfg, Initial(cfg), pc, target)
  {
    hide BhtIndex;
    One(cfg.bpType, 1, true);
  }

  /** In any run an entry holds the counter trained with the outcomes it saw. */
  lemma {:induction false} EntryIsTrained(cfg: Config, t: Tables, xs: seq<Transfer>, i: nat)
    requires WellFormed(cfg, t) && i < BHT_SIZE
    ensures AfterRun(cfg, t, xs).bht[i] == Trained(cfg.bpType, t.bht[i], SeenAt(cfg, t, xs, i))
    decreases |xs|
  {
    hide Predicts, Train, BhtIndex, BtbIndex;
    if xs != [] {
      var t1 := ResolveTransfer(cfg, t, xs[0]).1;
      EntryIsTrained(cfg, t1, xs[1..], i);
      var seen := SeenAt(cfg, t1, xs[1..], i);
      if LandsOn(cfg, t, xs[0], i) {
        assert ([xs[0].taken] + seen)[1..] == seen;
      } else {
        assert [] + seen == seen;
      }
    }
  }

  function AfterRun(cfg: Config, t: Tables, xs: seq<Transfer>): (r: Tables)
    requires WellFormed(cfg, t)
    ensures WellFormed(cfg, r)
    decreases |xs|
  {
    if xs == [] then t else AfterRun(cfg, ResolveTransfer(cfg, t, xs[0]).1, xs[1..])
  }

  // ---- which entry ------------------------------------------------------------------------------------

  /** Bimodal predictors use bits 8 to 1 of the pc. */
  lemma BimodalEntry(cfg: Config, t: Tables, pc: nat)
    requires cfg.bpType == OneBitBimodal || cfg.bpType == TwoBitBimodal
    ensures BhtIndex(cfg, t, pc) == (pc / 2) % 256
  {
  }

  lemma {:induction false} XorBit(a: nat, b: nat, n: nat, k: nat)
    requires k < n
    ensures (XorLow(a, b, n) / Pow2(k)) % 2 == (a / Pow2(k) + b / Pow2(k)) % 2
    decreases n
  {
    var x := XorLow(a, b, n);
    ModUnique(x, 2, XorLow(a / 2, b / 2, n - 1), (a + b) % 2);
    if k > 0 {
      XorBit(a / 2, b / 2, n - 1, k - 1);
      DivDiv(x, 2, Pow2(k - 1));
      DivDiv(a, 2, Pow2(k - 1));
      DivDiv(b, 2, Pow2(k - 1));
    }
  }

  /** Gshare uses the exclusive or of those bits with the history, bit by bit. */
  lemma GshareEntry(cfg: Config, t: Tables, pc: nat, k: nat)
    requires cfg.bpType == Gshare && k < 8
    ensures (BhtIndex(cfg, t, pc) / Pow2(k)) % 2 == (pc / 2 / Pow2(k) + t.history / Pow2(k)) % 2
  {
    XorBit(pc / 2, t.history, 8, k);
  }

  /** Outcomes of the branches of a run, oldest first; jumps have none. */
  function Outcomes(xs: seq<Transfer>): seq<bool>
    decreases |xs|
  {
    if xs == [] then [] else (if xs[0].Branch? then [xs[0].taken] else []) + Outcomes(xs[1..])
  }

  /** Outcomes as a number, the latest in bit 0, on top of h. */
  function Shifted(h: nat, outcomes: seq<bool>): nat
    decreases |outcomes|
  {
    if outcomes == [] then h else Shifted(2 * h + (if outcomes[0] then 1 else 0), outcomes[1..])
  }

  lemma {:induction false} ShiftedMod(h: nat, g: nat, outcomes: seq<bool>, m: nat)
    requires m >= 1 && h % m == g % m
    ensures Shifted(h, outcomes) % m == Shifted(g, outcomes) % m
    decreases |outcomes|
  {
    if outcomes != [] {
      var b := if outcomes[0] then 1 else 0;
      var q, r := h / m - g / m, g % m;
      assert h == m * (h / m) + r && g == m * (g / m) + r;
      var v, w := 2 * h + b, 2 * g + b;
      SameRemainder(v, w, m, 2 * q);
      ShiftedMod(v, w, outcomes[1..], m);
    }
  }

  lemma SameRemainder(v: nat, w: nat, m: nat, q: int)
    requires m >= 1 && v == w + m * q
    ensures v % m == w % m
  {
    assert w == m * (w / m) + w % m;
    assert m * (w / m) + m * q == (w / m + q) * m;
    ModUnique(v, m, w / m + q, w % m);
  }

  /** The gshare history is the number formed by the last outcomes, as many as it has bits; other predictors
      keep none. */
  lemma {:induction false} HistoryIsOutcomes(cfg: Config, t: Tables, xs: seq<Transfer>)
    requires WellFormed(cfg, t) && t.history < Pow2(cfg.historyBits)
    ensures AfterRun(cfg, t, xs).history
         == if cfg.bpType.Gshare? then Shifted(t.history, Outcomes(xs)) % Pow2(cfg.historyBits) else t.history
    decreases |xs|
  {
    hide Predicts, Train, BhtIndex, BtbIndex, BtbHit, Pow2;
    var m := Pow2(cfg.historyBits);
    if xs == [] {
      ModUnique(t.history, m, 0, t.history);
    } else {
      var t1 := ResolveTransfer(cfg, t, xs[0]).1;
      HistoryIsOutcomes(cfg, t1, xs[1..]);
      if xs[0].Branch? {
        var b := xs[0].taken;
        var rest := Outcomes(xs[1..]);
        assert ([b] + rest)[1..] == rest;
        var shifted := 2 * t.history + (if b then 1 else 0);
        Remainder(shifted, m);
        ShiftedMod(shifted, shifted % m, rest, m);
      } else {
        assert [] + Outcomes(xs[1..]) == Outcomes(xs[1..]);
      }
    }
  }

  lemma Remainder(v: nat, m: nat)
    requires m >= 1
    ensures (v % m) % m == v % m
  {
  }

  // ---- the target buffer ------------------------------------------------------------------------------

  /** What entry i of the target buffer holds after the run: the last taken branch or jump that maps to it. */
  function LastTarget(cfg: Config, e: BtbEntry, xs: seq<Transfer>, i: nat): BtbEntry
    requires cfg.btbEntries > 0
    decreases |xs|
  {
    if xs == [] then e
    else
      var x := xs[0];
      var mine := (x.pc / 2) % cfg.btbEntries == i && (x.Jump? || x.taken);
      LastTarget(cfg, if mine then BtbEntry(x.pc, x.target, true) else e, xs[1..], i)
  }

  lemma {:induction false} BufferHoldsLast(cfg: Config, t: Tables, xs: seq<Transfer>, i: nat)
    requires WellFormed(cfg, t) && i < cfg.btbEntries
    ensures AfterRun(cfg, t, xs).btb[i] == LastTarget(cfg, t.btb[i], xs, i)
    decreases |xs|
  {
    hide Predicts, Train, BhtIndex, Pow2;
    if xs != [] {
      BufferHoldsLast(cfg, ResolveTransfer(cfg, t, xs[0]).1, xs[1..], i);
    }
  }
}
