/** The platform-level interrupt controller: 31 sources, a machine-mode context 0 and a
    supervisor-mode context 1, claim and completion, and the two interrupt lines to the hart. */
module Plic {

  import opened Bits

  const SOURCES: nat := 32
  const WORD: nat := 64

  /** The registers. Word 0 of the pending bits is the only one that is ever written. */
  datatype Registers = Registers(
    pending: Bits,
    priorities: seq<nat>,
    enables: seq<seq<Bits>>,
    threshold: seq<nat>,
    claim: seq<nat>)
  {
    predicate Valid() {
      && |pending| == WORD && |priorities| == 1024
      && |enables| == 2 && |threshold| == 2 && |claim| == 2
      && (forall c :: 0 <= c < 2 ==> |enables[c]| == 32)
      && (forall c, k :: 0 <= c < 2 && 0 <= k < 32 ==> |enables[c][k]| == WORD)
    }
  }

  const RESET := Registers(Zero(WORD), seq(1024, _ => 0), seq(2, _ => seq(32, _ => Zero(WORD))), [0, 0], [0, 0])

  // ---- what the claim process promises ----------------------------------------------------------

  predicate Candidate(p: Registers, c: nat, i: nat)
    requires p.Valid() && c < 2
  {
    1 <= i < SOURCES && p.pending[i] && p.enables[c][0][i]
  }

  /** A source that may interrupt the context: pending, enabled, and above its threshold. */
  predicate Claimable(p: Registers, c: nat, i: nat)
    requires p.Valid() && c < 2
  {
    Candidate(p, c, i) && p.priorities[i] > p.threshold[c]
  }

  ghost predicate Asserted(p: Registers, c: nat)
    requires p.Valid() && c < 2
  {
    exists i: nat :: Claimable(p, c, i)
  }

  /** r is the answer to a claim: the lowest-numbered claimable source of maximal priority, or 0
      when there is none. */
  ghost predicate IsClaim(p: Registers, c: nat, r: nat)
    requires p.Valid() && c < 2
  {
    if Asserted(p, c) then
      Claimable(p, c, r)
      && forall i: nat :: Claimable(p, c, i) ==>
           p.priorities[i] < p.priorities[r] || (p.priorities[i] == p.priorities[r] && r <= i)
    else r == 0
  }

  /** There is one answer only. */
  lemma ClaimUnique(p: Registers, c: nat, r: nat, r': nat)
    requires p.Valid() && c < 2 && IsClaim(p, c, r) && IsClaim(p, c, r')
    ensures r == r'
  {
  }

  /** The best of the sources below n that a scan has found: its priority and its number. */
  ghost predicate Best(p: Registers, c: nat, n: nat, prio: nat, id: nat)
    requires p.Valid() && c < 2
  {
    && (id == 0 ==> prio == 0)
    && (id != 0 ==> id < n && Candidate(p, c, id) && p.priorities[id] == prio && prio > 0)
    && (forall i: nat :: i < n && Candidate(p, c, i) ==>
          p.priorities[i] <= prio && (id != 0 && p.priorities[i] == prio ==> id <= i))
  }

  lemma BestDecides(p: Registers, c: nat, prio: nat, id: nat)
    requires p.Valid() && c < 2 && Best(p, c, SOURCES, prio, id)
    ensures prio > p.threshold[c] <==> Asserted(p, c)
    ensures IsClaim(p, c, if prio <= p.threshold[c] then 0 else id)
  {
    if prio > p.threshold[c] {
      assert Claimable(p, c, id);
    }
  }

  // ---- the effect of each operation on the registers ----------------------------------------------

  /** Which context a register offset belongs to, if any. */
  datatype Place =
    | Priority(index: nat) | Pending(word: nat) | Enable(context: nat, word: nat)
    | Threshold(context: nat) | Claim(context: nat) | Nothing

  function Decode(offset: nat): (r: Place)
    ensures r.Priority? ==> r.index < 1024
    ensures (r.Pending? || r.Enable?) ==> r.word < 32
    ensures (r.Enable? || r.Threshold? || r.Claim?) ==> r.context < 2
  {
    if offset < 0x1000 then Priority(offset / 4)
    else if 0x1000 <= offset < 0x1080 then Pending((offset - 0x1000) / 4)
    else if 0x2000 <= offset < 0x2080 then Enable(0, (offset - 0x2000) / 4)
    else if 0x2080 <= offset < 0x2100 then Enable(1, (offset - 0x2080) / 4)
    else if offset == 0x20_0000 then Threshold(0)
    else if offset == 0x20_0004 then Claim(0)
    else if offset == 0x20_1000 then Threshold(1)
    else if offset == 0x20_1004 then Claim(1)
    else Nothing
  }

  /** The enable word as stored: source 0 cannot be enabled. */
  function EnableWord(word: nat, data: nat): (r: Bits)
    ensures |r| == WORD
  {
    var w := ToBits(data, WORD);
    if word == 0 then w[0 := false] else w
  }

  function SetEnable(p: Registers, c: nat, word: nat, data: nat): (r: Registers)
    requires p.Valid() && c < 2 && word < 32
    ensures r.Valid()
  {
    p.(enables := p.enables[c := p.enables[c][word := EnableWord(word, data)]])
  }

  function SetPending(p: Registers, i: int, level: bool): (r: Registers)
    requires p.Valid()
    ensures r.Valid()
  {
    if 0 < i < SOURCES then p.(pending := p.pending[i := level]) else p
  }

  /** A claim clears the pending bit of the claimed source and nothing else that is visible. */
  function Claimed(p: Registers, c: nat, id: nat): (r: Registers)
    requires p.Valid() && c < 2 && id < SOURCES
    ensures r.Valid()
  {
    if id == 0 then p else p.(pending := p.pending[id := false], claim := p.claim[c := id])
  }

  /** A completion of the claimed source: pending again if its device still asks (sources 1 to 3). */
  function Completed(p: Registers, c: nat, data: nat, asking: nat -> bool): (r: Registers)
    requires p.Valid() && c < 2
    ensures r.Valid()
  {
    if p.claim[c] == data && data != 0 then
      var q := p.(claim := p.claim[c := 0]);
      if 1 <= data <= 3 && asking(data) then SetPending(q, data, true) else q
    else p
  }

  function Written(p: Registers, offset: nat, data: nat, asking: nat -> bool): (r: Registers)
    requires p.Valid()
    ensures r.Valid()
  {
    match Decode(offset)
    case Priority(index) => if offset != 0 then p.(priorities := p.priorities[index := data]) else p
    case Enable(c, word) => SetEnable(p, c, word, data)
    case Threshold(c) => p.(threshold := p.threshold[c := data])
    case Claim(c) => Completed(p, c, data, asking)
    case Pending(_) => p
    case Nothing => p
  }

  // ---- runs ---------------------------------------------------------------------------------------

  datatype Op =
    | Irq(source: int, level: bool)
    | Read(offset: nat)
    | Write(offset: nat, data: nat, asking: nat -> bool)

  /** The registers after an operation that answered `answer`. */
  function Next(p: Registers, op: Op, answer: nat): (r: Registers)
    requires p.Valid() && answer < SOURCES
    ensures r.Valid()
  {
    match op
    case Irq(source, level) => SetPending(p, source, level)
    case Read(offset) => if Decode(offset).Claim? then Claimed(p, Decode(offset).context, answer) else p
    case Write(offset, data, asking) => Written(p, offset, data, asking)
  }

  /** The operation raises source i: a device does, or a completion of the very source the
      context has claimed finds its device still asking. */
  predicate RaisesSource(p: Registers, op: Op, i: nat)
    requires p.Valid()
  {
    match op
    case Irq(source, level) => source == i && level
    case Read(_) => false
    case Write(offset, data, asking) =>
      Decode(offset).Claim? && data == i && p.claim[Decode(offset).context] == i && 1 <= i <= 3 && asking(i)
  }

  /** The answer as far as the registers depend on it: only a claim's does. */
  function ClaimAnswer(op: Op, answer: nat): (r: nat)
    ensures r < SOURCES
  {
    if op.Read? && Decode(op.offset).Claim? && answer < SOURCES then answer else 0
  }

  /** The registers along a run. */
  function After(p: Registers, ops: seq<Op>, answers: seq<nat>): (r: Registers)
    requires p.Valid() && |ops| == |answers|
    ensures r.Valid()
    decreases |ops|
  {
    if ops == [] then p else After(Next(p, ops[0], ClaimAnswer(ops[0], answers[0])), ops[1..], answers[1..])
  }

  /** Every claim of the run got the answer the claim rule prescribes at that moment. */
  ghost predicate ClaimsRight(p: Registers, ops: seq<Op>, answers: seq<nat>)
    requires p.Valid() && |ops| == |answers|
    decreases |ops|
  {
    ops == [] ||
    (&& (ops[0].Read? && Decode(ops[0].offset).Claim? ==>
           answers[0] < SOURCES && IsClaim(p, Decode(ops[0].offset).context, answers[0]))
     && ClaimsRight(Next(p, ops[0], ClaimAnswer(ops[0], answers[0])), ops[1..], answers[1..]))
  }

  /** How often the source was raised in the run. */
  ghost function Raises(p: Registers, ops: seq<Op>, answers: seq<nat>, i: nat): nat
    requires p.Valid() && |ops| == |answers|
    decreases |ops|
  {
    if ops == [] then 0
    else
      (if RaisesSource(p, ops[0], i) then 1 else 0)
      + Raises(Next(p, ops[0], ClaimAnswer(ops[0], answers[0])), ops[1..], answers[1..], i)
  }

  /** How often a claim returned the source. */
  ghost function Claims(ops: seq<Op>, answers: seq<nat>, i: nat): nat
    requires |ops| == |answers|
  {
    if ops == [] then 0
    else
      (if ops[0].Read? && Decode(ops[0].offset).Claim? && answers[0] == i then 1 else 0)
      + Claims(ops[1..], answers[1..], i)
  }

  ghost function Waiting(p: Registers, i: nat): nat
    requires p.Valid()
  {
    if i < SOURCES && p.pending[i] then 1 else 0
  }

  class PlicMmio {
    var regs: Registers
    /** mip.MEIP, the two components of mip.SEIP, and mip.SEIP itself. */
    var meip: bool
    var seipExternal: bool
    var seipSoftware: bool
    var seip: bool

    /** Each line is asserted exactly when a claim by its context would return a source. */
    ghost predicate Valid()
      reads this
    {
      && regs.Valid()
      && (meip <==> Asserted(regs, 0))
      && (seipExternal <==> Asserted(regs, 1))
      && (seip <==> seipExternal || seipSoftware)
    }

    constructor ()
      ensures Valid() && regs == RESET && !seipSoftware
    {
      regs := RESET;
      meip, seipExternal, seipSoftware, seip := false, false, false, false;
    }

    /** The scan both interrupt evaluation and claims use. */
    method Scan(c: nat) returns (prio: nat, id: nat)
      requires regs.Valid() && c < 2
      ensures Best(regs, c, SOURCES, prio, id)
    {
      prio, id := 0, 0;
      for i := 1 to SOURCES
        invariant Best(regs, c, i, prio, id)
      {
        if regs.pending[i] && regs.enables[c][0][i] {
          if regs.priorities[i] > prio {
            prio, id := regs.priorities[i], i;
          }
        }
      }
    }

    method UpdateMip()
      requires regs.Valid()
      modifies this
      ensures Valid() && regs == old(regs) && seipSoftware == old(seipSoftware)
    {
      var m, mid := Scan(0);
      var s, sid := Scan(1);
      BestDecides(regs, 0, m, mid);
      BestDecides(regs, 1, s, sid);
      meip := m > regs.threshold[0];
      seipExternal := s > regs.threshold[1];
      seip := seipSoftware || seipExternal;
    }

    method SetIrq(irq: int, level: bool)
      requires Valid()
      modifies this
      ensures Valid() && regs == SetPending(old(regs), irq, level) && seipSoftware == old(seipSoftware)
    {
      if irq <= 0 || irq >= SOURCES {
        return;
      }
      regs := regs.(pending := regs.pending[irq := level]);
      UpdateMip();
    }

    /** A claim returns the lowest-numbered source of maximal priority above the threshold. */
    method ClaimFor(c: nat) returns (id: nat)
      requires Valid() && c < 2
      modifies this
      ensures Valid() && IsClaim(old(regs), c, id) && id < SOURCES
      ensures id != 0 <==> (if c == 0 then old(meip) else old(seipExternal))
      ensures regs == Claimed(old(regs), c, id) && seipSoftware == old(seipSoftware)
    {
      var prio, best := Scan(c);
      BestDecides(regs, c, prio, best);
      id := if prio <= regs.threshold[c] then 0 else best;
      if id > 0 {
        regs := regs.(pending := regs.pending[id := false], claim := regs.claim[c := id]);
        UpdateMip();
      }
    }

    /** Reads: the claim register has a side effect, no other register has. */
    method MmioRead(offset: nat) returns (data: nat)
      requires Valid()
      modifies this
      ensures Valid() && seipSoftware == old(seipSoftware)
      ensures var place := Decode(offset);
              if place.Claim? then
                IsClaim(old(regs), place.context, data) && data < SOURCES
                && regs == Claimed(old(regs), place.context, data)
              else regs == old(regs)
      ensures offset == 0 ==> data == 0
      ensures 0 < offset < 0x1000 ==> data == regs.priorities[offset / 4]
      ensures 0x1000 <= offset < 0x1004 ==> ToBits(data, WORD) == regs.pending
      ensures 0x2000 <= offset < 0x2004 ==> ToBits(data, WORD) == regs.enables[0][0][0 := false]
      ensures 0x2004 <= offset < 0x2080 ==> ToBits(data, WORD) == regs.enables[0][(offset - 0x2000) / 4]
      ensures 0x2080 <= offset < 0x2084 ==> ToBits(data, WORD) == regs.enables[1][0][0 := false]
      ensures 0x2084 <= offset < 0x2100 ==> ToBits(data, WORD) == regs.enables[1][(offset - 0x2080) / 4]
      ensures offset == 0x20_0000 ==> data == regs.threshold[0]
      ensures offset == 0x20_1000 ==> data == regs.threshold[1]
      ensures offset == 0x20_0004 ==> IsClaim(old(regs), 0, data)
      ensures offset == 0x20_1004 ==> IsClaim(old(regs), 1, data)
      ensures 0x1004 <= offset < 0x2000 || 0x2100 <= offset < 0x20_0000 ==> data == 0
      ensures offset > 0x20_0000 && offset !in {0x20_0004, 0x20_1000, 0x20_1004} ==> data == 0
    {
      data := 0;
      match Decode(offset)
      case Priority(index) =>
        if offset != 0 {
          data := regs.priorities[index];
        }
      case Pending(word) =>
        if word == 0 {
          BitsOfNumber(regs.pending);
          data := FromBits(regs.pending);
        }
      case Enable(c, word) =>
        var w := if word == 0 then regs.enables[c][0][0 := false] else regs.enables[c][word];
        BitsOfNumber(w);
        data := FromBits(w);
      case Threshold(c) =>
        data := regs.threshold[c];
      case Claim(c) =>
        data := ClaimFor(c);
      case Nothing =>
    }

    method MmioWrite(offset: nat, data: nat, asking: nat -> bool)
      requires Valid()
      modifies this
      ensures Valid() && regs == Written(old(regs), offset, data, asking) && seipSoftware == old(seipSoftware)
    {
      match Decode(offset) {
        case Priority(index) =>
          if offset != 0 {
            regs := regs.(priorities := regs.priorities[index := data]);
          }
        case Enable(c, word) =>
          regs := SetEnable(regs, c, word, data);
        case Threshold(c) =>
          regs := regs.(threshold := regs.threshold[c := data]);
        case Claim(c) =>
          if regs.claim[c] == data && data != 0 {
            regs := regs.(claim := regs.claim[c := 0]);
            if 1 <= data <= 3 && asking(data) {
              regs := regs.(pending := regs.pending[data := true]);
            }
          }
        case Pending(_) =>
        case Nothing =>
      }
      UpdateMip();
    }

    method Perform(op: Op) returns (answer: nat)
      requires Valid()
      modifies this
      ensures Valid() && regs == Next(old(regs), op, ClaimAnswer(op, answer))
      ensures op.Read? && Decode(op.offset).Claim? ==>
                answer < SOURCES && IsClaim(old(regs), Decode(op.offset).context, answer)
    {
      hide IsClaim;
      answer := 0;
      match op
      case Irq(source, level) => SetIrq(source, level);
      case Read(offset) => answer := MmioRead(offset);
      case Write(offset, data, asking) => MmioWrite(offset, data, asking);
    }

    /** In any run the two lines stay right, every claim is answered by the claim rule, and a
        source is claimed at most as often as it was raised, whichever contexts claim it. */
    method Play(ops: seq<Op>) returns (answers: seq<nat>)
      requires Valid()
      modifies this
      ensures Valid() && |answers| == |ops| && regs == After(old(regs), ops, answers)
      ensures ClaimsRight(old(regs), ops, answers)
      ensures forall i :: 1 <= i < SOURCES ==>
                Claims(ops, answers, i) + Waiting(regs, i)
                <= Raises(old(regs), ops, answers, i) + Waiting(old(regs), i)
    {
      hide IsClaim, Next, ClaimAnswer, Registers.Valid, Waiting;
      answers := [];
      assert ops[..0] == [];
      for k := 0 to |ops|
        invariant Valid() && |answers| == k && old(regs).Valid()
        invariant regs == After(old(regs), ops[..k], answers)
        invariant ClaimsRight(old(regs), ops[..k], answers)
      {
        var a := Perform(ops[k]);
        AfterSnoc(old(regs), ops[..k], answers, ops[k], a);
        assert ops[..k + 1] == ops[..k] + [ops[k]];
        answers := answers + [a];
      }
      assert ops[..|ops|] == ops;
      forall i | 1 <= i < SOURCES
        ensures Claims(ops, answers, i) + Waiting(regs, i)
             <= Raises(old(regs), ops, answers, i) + Waiting(old(regs), i)
      {
        ClaimedAtMostRaised(old(regs), ops, answers, i);
      }
    }
  }

  lemma {:induction false} AfterSnoc(p: Registers, ops: seq<Op>, answers: seq<nat>, op: Op, a: nat)
    requires p.Valid() && |ops| == |answers|
    ensures After(p, ops + [op], answers + [a]) == Next(After(p, ops, answers), op, ClaimAnswer(op, a))
    ensures ClaimsRight(p, ops + [op], answers + [a])
            <==> && ClaimsRight(p, ops, answers)
                 && (op.Read? && Decode(op.offset).Claim? ==>
                       a < SOURCES && IsClaim(After(p, ops, answers), Decode(op.offset).context, a))
    decreases |ops|
  {
    hide Registers.Valid, Next, IsClaim, ClaimAnswer;
    if ops == [] {
      assert ops + [op] == [op] && answers + [a] == [a];
    } else {
      assert (ops + [op])[1..] == ops[1..] + [op] && (answers + [a])[1..] == answers[1..] + [a];
      AfterSnoc(Next(p, ops[0], ClaimAnswer(ops[0], answers[0])), ops[1..], answers[1..], op, a);
    }
  }

  /** One operation: a claim takes a waiting source, and only a raise makes one wait. */
  lemma StepBalance(p: Registers, op: Op, answer: nat, i: nat)
    requires p.Valid() && 1 <= i < SOURCES
    requires op.Read? && Decode(op.offset).Claim? ==>
               answer < SOURCES && IsClaim(p, Decode(op.offset).context, answer)
    ensures (if op.Read? && Decode(op.offset).Claim? && answer == i then 1 else 0)
            + Waiting(Next(p, op, ClaimAnswer(op, answer)), i)
            <= (if RaisesSource(p, op, i) then 1 else 0) + Waiting(p, i)
  {
  }

  /** A source is claimed at most once per raise. */
  lemma {:induction false} ClaimedAtMostRaised(p: Registers, ops: seq<Op>, answers: seq<nat>, i: nat)
    requires p.Valid() && |ops| == |answers| && 1 <= i < SOURCES && ClaimsRight(p, ops, answers)
    ensures Claims(ops, answers, i) + Waiting(After(p, ops, answers), i)
         <= Raises(p, ops, answers, i) + Waiting(p, i)
    decreases |ops|
  {
    hide Registers.Valid, Next, IsClaim, ClaimAnswer, RaisesSource, Waiting;
    if ops != [] {
      StepBalance(p, ops[0], answers[0], i);
      ClaimedAtMostRaised(Next(p, ops[0], ClaimAnswer(ops[0], answers[0])), ops[1..], answers[1..], i);
    }
  }
}
