/** The register map of the interrupt controller, offset by offset, and what a claim means. Context 0 is
    M-mode and drives MEIP, context 1 is S-mode and drives SEIP. */
module PlicLaws {

  import opened Bits
  import opened Plic

  /** Offset 4 * i holds the priority of source i; that of source 0 cannot be written. */
  lemma PriorityMap(p: Registers, i: nat, data: nat, asking: nat -> bool)
    requires p.Valid() && i < 1024
    ensures Written(p, 4 * i, data, asking) == if i == 0 then p else p.(priorities := p.priorities[i := data])
  {
  }

  /** The 32 enable words of context 0 start at 0x2000, those of context 1 at 0x2080. Source 0 cannot be
      enabled. */
  lemma EnableMap(p: Registers, word: nat, data: nat, asking: nat -> bool)
    requires p.Valid() && word < 32
    ensures var w := ToBits(data, 64)[0 := data % 2 == 1 && word != 0];
            && Written(p, 0x2000 + 4 * word, data, asking) == p.(enables := [p.enables[0][word := w], p.enables[1]])
            && Written(p, 0x2080 + 4 * word, data, asking) == p.(enables := [p.enables[0], p.enables[1][word := w]])
  {
    var w := ToBits(data, 64);
    assert w[0] == (data % 2 == 1);
    assert word != 0 ==> w[0 := data % 2 == 1] == w;
  }

  /** The thresholds are at 0x20_0000 and 0x20_1000. */
  lemma ThresholdMap(p: Registers, data: nat, asking: nat -> bool)
    requires p.Valid()
    ensures Written(p, 0x20_0000, data, asking) == p.(threshold := [data, p.threshold[1]])
    ensures Written(p, 0x20_1000, data, asking) == p.(threshold := [p.threshold[0], data])
  {
  }

  /** Reading 0x20_0004 or 0x20_1004 claims: the source is no longer pending and is recorded for the context. No
      other read changes anything. */
  lemma ClaimMap(p: Registers, offset: nat, id: nat)
    requires p.Valid() && id < 32
    ensures Next(p, Read(offset), id)
         == if id == 0 then p
            else if offset == 0x20_0004 then p.(pending := p.pending[id := false], claim := [id, p.claim[1]])
            else if offset == 0x20_1004 then p.(pending := p.pending[id := false], claim := [p.claim[0], id])
            else p
  {
  }

  /** Writing the recorded source there completes it; one of the devices 1 to 3 that still asks becomes pending
      again. Any other value is ignored. */
  lemma CompleteMap(p: Registers, data: nat, asking: nat -> bool)
    requires p.Valid()
    ensures var again := if 1 <= data <= 3 && asking(data) then p.pending[data := true] else p.pending;
            && Written(p, 0x20_0004, data, asking)
               == (if data != 0 && p.claim[0] == data then p.(claim := [0, p.claim[1]], pending := again) else p)
            && Written(p, 0x20_1004, data, asking)
               == (if data != 0 && p.claim[1] == data then p.(claim := [p.claim[0], 0], pending := again) else p)
  {
  }

  /** The pending words, read-only, are at 0x1000, and nothing else is mapped. */
  lemma NothingElse(p: Registers, offset: nat, data: nat, asking: nat -> bool)
    requires p.Valid() && offset >= 0x1000 && !(0x2000 <= offset < 0x2100)
    requires offset !in {0x20_0000, 0x20_0004, 0x20_1000, 0x20_1004}
    ensures Written(p, offset, data, asking) == p
  {
  }

  /** An interrupt line changes the pending bit of its source, 1 to 31. */
  lemma LineMap(p: Registers, source: int, level: bool, answer: nat)
    requires p.Valid() && answer < 32
    ensures Next(p, Irq(source, level), answer)
         == if 1 <= source <= 31 then p.(pending := p.pending[source := level]) else p
  {
  }

  /** A source that may be claimed: pending, enabled, and of a priority above the threshold. */
  predicate Waits(p: Registers, c: nat, i: nat)
    requires p.Valid() && c < 2
  {
    1 <= i <= 31 && p.pending[i] && p.enables[c][0][i] && p.priorities[i] > p.threshold[c]
  }

  /** A claim returns the waiting source of highest priority, the lowest-numbered among equals, or 0 when none
      waits. */
  lemma ClaimMeans(p: Registers, c: nat, r: nat)
    requires p.Valid() && c < 2
    ensures IsClaim(p, c, r) <==>
            if r == 0 then forall i: nat :: !Waits(p, c, i)
            else
              Waits(p, c, r) && forall i: nat :: Waits(p, c, i) ==>
                p.priorities[i] < p.priorities[r] || (p.priorities[i] == p.priorities[r] && r <= i)
  {
    assert forall i: nat :: Waits(p, c, i) <==> Claimable(p, c, i);
  }

  /** The lines a hart sees after any operation: MEIP if a source waits for context 0, the external part of SEIP
      if one waits for context 1. */
  lemma LinesMean(plic: PlicMmio)
    requires plic.Valid()
    ensures plic.meip <==> exists i: nat :: Waits(plic.regs, 0, i)
    ensures plic.seip <==> plic.seipSoftware || exists i: nat :: Waits(plic.regs, 1, i)
  {
    assert forall c: nat, i: nat :: c < 2 ==> (Waits(plic.regs, c, i) <==> Claimable(plic.regs, c, i));
  }
}
