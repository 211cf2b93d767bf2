/** The hart that runs decoded instructions: its translation caches and the decode cache together,
    against the hart that fetches, decodes and walks afresh at every step. */
module DecodedRuns {

  import opened PageTable
  import opened PageWalker
  import opened Privileged
  import opened CachelessHart
  import opened KeptTranslation
  import opened DecodeCache
  import opened Translation

  // ---- the reference run -------------------------------------------------------------------------

  function RefRun(xlen: nat, w: World, ms: seq<Move>): (seq<Outcome>, World)
    requires forall k :: 0 <= k < |ms| ==> MoveWellFormed(ms[k])
    decreases |ms|
  {
    if ms == [] then ([], w)
    else
      var (r1, w1) := RefStep(xlen, w, ms[0]);
      var (rs, w2) := RefRun(xlen, w1, ms[1..]);
      ([r1] + rs, w2)
  }

  /** The step translates no stale page, an access of the decoded path fits, and so does a hit in the
      decode cache, which is of pages that are not stale. */
  ghost predicate MoveFresh(xlen: nat, w: World, stale: iset<nat>, c: Table, m: Move)
    requires |c| == DECODE_SIZE && MoveWellFormed(m)
  {
    match m
    case Guest(op) => Fresh(xlen, w, stale, op)
    case DecodedFetch(pc, inst) =>
      if Hits(c, pc) then EntryFresh(stale, c[Index(pc)]) && HitFits(xlen, w, c[Index(pc)], inst)
      else FreshFetch(xlen, w, stale, pc, inst.wide)
    case FenceI => true
  }

  ghost predicate MovesFresh(xlen: nat, w: World, stale: iset<nat>, c: Table, ms: seq<Move>)
    requires |c| == DECODE_SIZE && forall k :: 0 <= k < |ms| ==> MoveWellFormed(ms[k])
    decreases |ms|
  {
    ms == [] ||
    (MoveFresh(xlen, w, stale, c, ms[0])
     && MovesFresh(xlen, RefStep(xlen, w, ms[0]).1, MoveStale(xlen, w, stale, ms[0]), NextTable(xlen, w, c, ms[0]),
                   ms[1..]))
  }

  lemma RefRunUnrolled(xlen: nat, w: World, stale: iset<nat>, c: Table, ms: seq<Move>, k: nat)
    requires |c| == DECODE_SIZE && k < |ms| && forall i :: 0 <= i < |ms| ==> MoveWellFormed(ms[i])
    ensures var (r1, w1) := RefStep(xlen, w, ms[k]);
            var (rs, w2) := RefRun(xlen, w1, ms[k + 1..]);
            RefRun(xlen, w, ms[k..]) == ([r1] + rs, w2)
    ensures MovesFresh(xlen, w, stale, c, ms[k..]) ==>
              && MoveFresh(xlen, w, stale, c, ms[k])
              && MovesFresh(xlen, RefStep(xlen, w, ms[k]).1, MoveStale(xlen, w, stale, ms[k]),
                            NextTable(xlen, w, c, ms[k]), ms[k + 1..])
  {
    hide RefStep, NextTable, MoveFresh, MoveStale, MoveWellFormed;
    assert ms[k..][0] == ms[k] && ms[k..][1..] == ms[k + 1..];
  }

  lemma RefRunOver(xlen: nat, w: World, ms: seq<Move>)
    requires forall i :: 0 <= i < |ms| ==> MoveWellFormed(ms[i])
    ensures RefRun(xlen, w, ms[|ms|..]) == ([], w)
  {
  }

  // ---- the runs that break it -----------------------------------------------------------------------

  /** An instruction executed at pc leaves an entry that hits there and stands for it. */
  lemma FirstExecution(xlen: nat, w: World, c: Table, pc: nat, inst: Inst)
    requires |c| == DECODE_SIZE && !Hits(c, pc) && FetchDecode(xlen, w, pc, inst).0.Executes?
    ensures var (f, w1) := FetchDecode(xlen, w, pc, inst);
            var c1 := NextTable(xlen, w, c, DecodedFetch(pc, inst));
            && c1[Index(pc)] == Decoded(pc, inst, w.arch.priv, f.pas) && Hits(c1, pc)
            && EntryOk(xlen, w1, c1[Index(pc)]) && inst.legal
            && w1.arch == w.arch && w1.satp == w.satp
  {
    hide FetchAny, EntryOk, WorldSteady, EnvOf;
    FilledSound(xlen, w, pc, inst);
    FetchSteady(xlen, w, pc, inst.wide, iset{});
    SteadyMeans(xlen, w, FetchAny(xlen, w, pc, inst.wide).1);
  }

  lemma SteadyMeans(xlen: nat, w: World, w1: World)
    requires WorldSteady(xlen, w, w1, iset{}, iset{})
    ensures w1.arch == w.arch && w1.satp == w.satp && w1.context == w.context
  {
  }

  /** An entry stays what it stands for when neither memory, satp, SUM nor MXR changes. */
  lemma EntryStays(xlen: nat, w: World, w': World, e: DecodedOp)
    requires EntryOk(xlen, w, e)
    requires w'.dram == w.dram && w'.satp == w.satp && w'.arch.isa == w.arch.isa && EnvOf(xlen, w') == EnvOf(xlen, w)
    ensures EntryOk(xlen, w', e)
  {
    hide FetchAny, SatpSpace, SatpAsid;
    if e.Decoded? {
      SameEnvFetch(xlen, AtPriv(w, e.priv), AtPriv(w', e.priv), e.cpc, e.inst.wide);
    }
  }

  /** S-mode executes a page, then returns to U-mode at the same pc. The decode cache, which SRET
      leaves alone and which is looked up by pc only, still answers with the supervisor's
      instruction; a fetch faults. */
  lemma StaleAfterSret(xlen: nat, w: World, c: Table, pc: nat, inst: Inst)
    requires |c| == DECODE_SIZE && !Hits(c, pc)
    requires w.arch.priv == Supervisor && w.arch.isa.s && !EnvOf(xlen, w).sp.Bare?
    requires !w.arch.mstatus.spp && w.arch.sx.epc == pc
    requires FetchDecode(xlen, w, pc, inst).0.Executes?
    ensures var fetch, ret := DecodedFetch(pc, inst), Guest(ReturnSupervisor);
            var (f, w1) := FetchDecode(xlen, w, pc, inst);
            var c1 := NextTable(xlen, w, c, fetch);
            var w2, c2 := RefStep(xlen, w1, ret).1, NextTable(xlen, w1, c1, ret);
            && w2.arch.pc == pc && w2.arch.priv == User
            && Hits(c2, pc) && Executes(c2[Index(pc)].inst, c2[Index(pc)].pas) == f
            && FetchDecode(xlen, w2, pc, inst) == (Faults(12, pc), w2)
  {
    hide Translate, SatpSpace, SatpAsid, Sret, FetchAny, EntryOk, Index;
    FirstExecution(xlen, w, c, pc, inst);
    var (f, w1) := FetchDecode(xlen, w, pc, inst);
    var e := Decoded(pc, inst, Supervisor, f.pas);
    var w2 := System(w1.(arch := Sret(w1.arch)));
    SretToUser(xlen, w1);
    EntryAligned(xlen, w1, e);
    TransferKeepsEnv(xlen, w1, Exception(0), 0);
    SameEnv(xlen, w1.(arch := w2.arch), w2);
    EntryStays(xlen, w1, w2, e);
    CrossModeFetch(xlen, w2, e);
  }

  lemma SretToUser(xlen: nat, w: World)
    requires !w.arch.mstatus.spp
    ensures Sret(w.arch).priv == User && Sret(w.arch).pc == EpcRead(w.arch, w.arch.sx.epc)
  {
  }

  /** M-mode code at a physical pc, then MRET to a level that maps this pc elsewhere: the cache hits
      on the machine-mode instruction, which is not the one a fetch would find. */
  lemma StaleAfterMret(xlen: nat, w: World, c: Table, pc: nat, inst: Inst)
    requires |c| == DECODE_SIZE && !Hits(c, pc)
    requires w.arch.priv == Machine && BelowMachine(w.arch.mstatus.mpp) && !EnvOf(xlen, w).sp.Bare?
    requires w.arch.mx.epc == pc && !IdentityMapped(xlen, w, w.arch.mstatus.mpp, pc, inst.wide)
    requires FetchDecode(xlen, w, pc, inst).0.Executes?
    ensures var fetch, ret := DecodedFetch(pc, inst), Guest(ReturnMachine);
            var (f, w1) := FetchDecode(xlen, w, pc, inst);
            var c1 := NextTable(xlen, w, c, fetch);
            var w2, c2 := RefStep(xlen, w1, ret).1, NextTable(xlen, w1, c1, ret);
            && w2.arch.pc == pc && w2.arch.priv == w.arch.mstatus.mpp
            && Hits(c2, pc) && Executes(c2[Index(pc)].inst, c2[Index(pc)].pas) == f
            && FetchDecode(xlen, w2, pc, inst) != (f, w2)
  {
    hide Translate, SatpSpace, SatpAsid, Mret, FetchAny, EntryOk, Index, PageOf, NextHalf, Wrap;
    FirstExecution(xlen, w, c, pc, inst);
    var (f, w1) := FetchDecode(xlen, w, pc, inst);
    StillAligned(xlen, w, pc, inst.wide);
    UntranslatedFetch(xlen, w, pc, inst.wide);
    var e := Decoded(pc, inst, Machine, f.pas);
    var w2 := System(w1.(arch := Mret(w1.arch)));
    MretDown(w1);
    TransferKeepsEnv(xlen, w1, Exception(0), 0);
    SameEnv(xlen, w1.(arch := w2.arch), w2);
    EntryStays(xlen, w1, w2, e);
    HitIsFetchIff(xlen, w2, e, inst);
    assert IdentityMapped(xlen, w2, w2.arch.priv, pc, inst.wide)
        == IdentityMapped(xlen, w, w2.arch.priv, pc, inst.wide);
  }

  lemma MretDown(w: World)
    ensures Mret(w.arch).priv == w.arch.mstatus.mpp && Mret(w.arch).pc == EpcRead(w.arch, w.arch.mx.epc)
  {
  }

  /** mstatus with what the instruction needs switched off. */
  function SwitchedOff(m: Mstatus, need: Need): Mstatus {
    match need
    case Neither => m
    case Float => m.(other := m.other.(fs := 0))
    case Vector => m.(other := m.other.(vs := 0))
  }

  /** A floating-point or vector instruction is executed at pc, sstatus is written with FS or VS off,
      and control comes back to pc: the write empties no cache, the hit executes, and a fetch reports
      an illegal instruction. */
  lemma StaleAfterSwitchOff(xlen: nat, w: World, c: Table, pc: nat, inst: Inst)
    requires |c| == DECODE_SIZE && !Hits(c, pc) && Legal(w.arch) && !inst.need.Neither?
    requires FetchDecode(xlen, w, pc, inst).0.Executes?
    ensures var fetch, off := DecodedFetch(pc, inst), Guest(WriteSstatus(SwitchedOff(w.arch.mstatus, inst.need)));
            var (f, w1) := FetchDecode(xlen, w, pc, inst);
            var c1 := NextTable(xlen, w, c, fetch);
            var w2, c2 := RefStep(xlen, w1, off).1, NextTable(xlen, w1, c1, off);
            && w2.arch.priv == w.arch.priv && w2.arch.mstatus == SwitchedOff(w.arch.mstatus, inst.need)
            && Hits(c2, pc) && Executes(c2[Index(pc)].inst, c2[Index(pc)].pas) == f
            && FetchDecode(xlen, w2, pc, inst) == (Faults(2, inst.bits), w2)
  {
    hide SatpSpace, SatpAsid, FetchAny, EntryOk, Index, Legal, Implemented, StatusFlushes;
    FirstExecution(xlen, w, c, pc, inst);
    var (f, w1) := FetchDecode(xlen, w, pc, inst);
    var s := SwitchedOff(w.arch.mstatus, inst.need);
    SwitchOffWrites(w.arch, inst.need);
    var w2 := System(w1.(arch := w1.arch.(mstatus := s)));
    var e := Decoded(pc, inst, w.arch.priv, f.pas);
    SameFetchAfter(xlen, w1, w2, e);
  }

  /** Such a write stores what it says and flushes nothing. */
  lemma SwitchOffWrites(a: Arch, need: Need)
    requires Legal(a)
    ensures var s := SwitchedOff(a.mstatus, need);
            && SetSstatus(a.isa, a.mstatus, s) == s
            && !StatusFlushes(a, SstatusAsMstatus(a.mstatus, s), Level(a.mstatus.mpp))
            && s.sum == a.mstatus.sum && s.mxr == a.mstatus.mxr
            && (!need.Neither? ==> !Enabled(s, need))
  {
  }

  lemma SameFetchAfter(xlen: nat, w: World, w': World, e: DecodedOp)
    requires e.Decoded? && EntryOk(xlen, w, e) && e.priv == w.arch.priv && w'.arch.priv == w.arch.priv
    requires w'.dram == w.dram && w'.satp == w.satp && w'.arch.isa == w.arch.isa
    requires w'.arch.mstatus.sum == w.arch.mstatus.sum && w'.arch.mstatus.mxr == w.arch.mstatus.mxr
    ensures FetchAny(xlen, w', e.cpc, e.inst.wide) == (Reached(e.pas), w')
  {
    hide FetchAny, SatpSpace, SatpAsid;
    assert AtPriv(w, e.priv) == w;
    SameEnvFetch(xlen, w, w', e.cpc, e.inst.wide);
  }

  // ---- the object --------------------------------------------------------------------------------

  class DecodingHart {
    const hart: Hart
    const decoded: array<DecodedOp>

    /** The caches of the hart agree with fresh walks, and every decoded instruction is where a fetch
        at the privilege of its insertion would find it, stale pages apart. */
    ghost predicate Valid()
      reads this, hart, hart.Repr, decoded
    {
      hart.Valid() && decoded.Length == DECODE_SIZE && TableSound(hart.xlen, hart.Value(), hart.stale, decoded[..])
    }

    ghost function Value(): World
      reads hart, hart.mmu.mmem
    {
      hart.Value()
    }

    constructor (hart: Hart)
      requires hart.Valid()
      ensures Valid() && this.hart == hart && fresh(decoded) && decoded[..] == EmptyTable()
    {
      hide FetchAny, Hart.Valid;
      this.hart := hart;
      decoded := new DecodedOp[DECODE_SIZE](_ => Nothing);
      new;
      assert decoded[..] == EmptyTable();
      EmptySound(hart.xlen, hart.Value(), hart.stale, decoded[..]);
    }

    method FlushDecoded()
      requires decoded.Length == DECODE_SIZE
      modifies decoded
      ensures decoded[..] == EmptyTable()
    {
      for i := 0 to decoded.Length
        invariant forall k :: 0 <= k < i ==> decoded[k] == Nothing
      {
        decoded[i] := Nothing;
      }
    }

    /** The fetch stage of the fast execution modes: a hit skips fetch, translation and decoding, a miss
        does them and remembers. A hit is the fresh fetch and decode if and only if it fits. */
    method FetchDecoded(pc: nat, inst: Inst) returns (f: Fetched)
      requires Valid()
      requires !Hits(decoded[..], pc) ==> FreshFetch(hart.xlen, Value(), hart.stale, pc, inst.wide)
      modifies hart.Repr, decoded
      ensures Valid() && hart.stale == old(hart.stale)
      ensures decoded[..] == NextTable(hart.xlen, old(Value()), old(decoded[..]), DecodedFetch(pc, inst))
      ensures !old(Hits(decoded[..], pc)) ==> (f, Value()) == FetchDecode(hart.xlen, old(Value()), pc, inst)
      ensures old(Hits(decoded[..], pc)) ==>
                var e := old(decoded[Index(pc)]);
                && f == Executes(e.inst, e.pas) && Value() == old(Value())
                && (EntryFresh(hart.stale, e) ==>
                      ((f, Value()) == FetchDecode(hart.xlen, old(Value()), pc, inst)
                       <==> HitFits(hart.xlen, old(Value()), e, inst)))
    {
      hide FetchAny, Hart.Valid, HitFits, EntryOk, EntryFresh, Index;
      ghost var w, c := Value(), decoded[..];
      TableStaysSoundFetch(c, pc, inst);
      var e := decoded[Index(pc)];
      assert c[Index(pc)] == e;
      if e.Decoded? && e.cpc == pc {
        if EntryFresh(hart.stale, e) {
          assert EntryOk(hart.xlen, w, c[Index(pc)]);
          HitIsFetchIff(hart.xlen, w, e, inst);
        }
        NoChange(hart.xlen, w, c, DecodedFetch(pc, inst));
        return Executes(e.inst, e.pas);
      }
      var r := hart.Fetch(pc, inst.wide);
      FetchKeepsArch(hart.xlen, w, pc, inst.wide);
      if r.Trap? {
        return Faults(r.cause, r.tval);
      }
      if !inst.legal || !Enabled(hart.arch.mstatus, inst.need) {
        return Faults(2, inst.bits);
      }
      decoded[Index(pc)] := Decoded(pc, inst, hart.arch.priv, r.pas);
      assert decoded[..] == c[Index(pc) := Decoded(pc, inst, w.arch.priv, r.pas)];
      return Executes(inst, r.pas);
    }

    lemma FetchKeepsArch(xlen: nat, w: World, pc: nat, wide: bool)
      ensures FetchAny(xlen, w, pc, wide).1.arch == w.arch
    {
      hide WorldSteady, FetchAny;
      FetchSteady(xlen, w, pc, wide, iset{});
      SteadyMeans(xlen, w, FetchAny(xlen, w, pc, wide).1);
    }

    lemma NoChange(xlen: nat, w: World, c: Table, m: Move)
      requires |c| == DECODE_SIZE && m.DecodedFetch? && Hits(c, m.pc)
      ensures NextTable(xlen, w, c, m) == c
    {
      hide FetchAny;
    }

    lemma TableStaysSoundFetch(c: Table, pc: nat, inst: Inst)
      requires hart.Valid() && |c| == DECODE_SIZE && TableSound(hart.xlen, hart.Value(), hart.stale, c)
      ensures TableSound(hart.xlen, FetchDecode(hart.xlen, hart.Value(), pc, inst).1, hart.stale,
                         NextTable(hart.xlen, hart.Value(), c, DecodedFetch(pc, inst)))
    {
      hide FetchAny, TableSound, Hart.Valid;
      hart.IsLegal();
      TableStaysSound(hart.xlen, hart.Value(), hart.stale, c, DecodedFetch(pc, inst));
    }

    /** Whether the step empties the decode cache. */
    method Flushes(op: Op) returns (flush: bool)
      ensures flush == (match op
                        case WriteSatp(v) => SatpModeSupported(SatpMode(v, hart.xlen), hart.xlen) && v != hart.satp
                        case WriteMstatus(s, mpp) => StatusFlushes(hart.arch, s, mpp)
                        case WriteSstatus(s) =>
                          StatusFlushes(hart.arch, SstatusAsMstatus(hart.arch.mstatus, s), Level(hart.arch.mstatus.mpp))
                        case SfenceVma(_, _, _, _) => true
                        case _ => false)
    {
      match op
      case WriteSatp(v) => flush := SatpModeSupported(SatpMode(v, hart.xlen), hart.xlen) && v != hart.satp;
      case WriteMstatus(s, mpp) => flush := StatusFlushes(hart.arch, s, mpp);
      case WriteSstatus(s) =>
        flush := StatusFlushes(hart.arch, SstatusAsMstatus(hart.arch.mstatus, s), Level(hart.arch.mstatus.mpp));
      case SfenceVma(_, _, _, _) => flush := true;
      case _ => flush := false;
    }

    /** Any other step of the guest. */
    method GuestStep(op: Op) returns (r: Result)
      requires Valid() && WellFormed(op) && Fresh(hart.xlen, Value(), hart.stale, op)
      modifies hart.Repr, decoded
      ensures Valid()
      ensures (r, Value()) == Step(hart.xlen, old(Value()), op)
      ensures hart.stale == NextStale(hart.xlen, old(Value()), old(hart.stale), op)
      ensures decoded[..] == NextTable(hart.xlen, old(Value()), old(decoded[..]), Guest(op))
    {
      hide FetchAny, AccessAny, FreshAny, Step, TableSound, StatusFlushes, SatpMode, SatpModeSupported, Fresh,
           NextStale,
           Hart.Valid;
      ghost var w, c := Value(), decoded[..];
      hart.IsLegal();
      TableStaysSound(hart.xlen, w, hart.stale, c, Guest(op));
      var flush := Flushes(op);
      r := hart.Perform(op);
      if flush {
        FlushDecoded();
      }
    }

    method Perform(m: Move) returns (r: Outcome)
      requires Valid() && MoveWellFormed(m) && MoveFresh(hart.xlen, Value(), hart.stale, decoded[..], m)
      modifies hart.Repr, decoded
      ensures Valid()
      ensures (r, Value()) == RefStep(hart.xlen, old(Value()), m)
      ensures hart.stale == MoveStale(hart.xlen, old(Value()), old(hart.stale), m)
      ensures decoded[..] == NextTable(hart.xlen, old(Value()), old(decoded[..]), m)
    {
      hide FetchDecode, HitFits, Step, Fresh, NextStale, Hart.Valid, TableSound, EntryOk, EntryFresh, FreshFetch;
      match m
      case Guest(op) =>
        var s := GuestStep(op);
        r := Stepped(s);
      case DecodedFetch(pc, inst) =>
        var f := FetchDecoded(pc, inst);
        r := Fetching(f);
      case FenceI =>
        hart.SetContext(Plain);
        FlushDecoded();
        EmptyIsSound();
        r := Stepped(Reached([]));
    }

    lemma EmptyIsSound()
      requires hart.Valid() && decoded[..] == EmptyTable()
      ensures TableSound(hart.xlen, hart.Value(), hart.stale, decoded[..])
    {
      hide Hart.Valid;
      EmptySound(hart.xlen, hart.Value(), hart.stale, decoded[..]);
    }

    /** The main law: any run of staged and decoded fetches, loads and stores of both paths, satp and
        status writes, traps, returns, SFENCE.VMA and FENCE.I in which no page is translated between an
        edit of its translation and a fence that covers it, and whose decoded accesses and decode-cache
        hits fit, gives step by step the instructions, addresses and faults of the hart that fetches,
        decodes and walks afresh, and leaves the same memory. */
    method RunAll(ms: seq<Move>) returns (rs: seq<Outcome>)
      requires Valid() && forall k :: 0 <= k < |ms| ==> MoveWellFormed(ms[k])
      requires MovesFresh(hart.xlen, Value(), hart.stale, decoded[..], ms)
      modifies hart.Repr, decoded
      ensures Valid()
      ensures (rs, Value()) == RefRun(hart.xlen, old(Value()), ms)
    {
      hide Hart.Valid, TableSound, RefStep, NextTable, MoveFresh, MoveStale, MoveWellFormed, RefRun, MovesFresh;
      rs := [];
      ghost var whole := RefRun(hart.xlen, Value(), ms);
      assert rs + whole.0 == whole.0 && ms[0..] == ms;
      for k := 0 to |ms|
        invariant Valid() && MovesFresh(hart.xlen, Value(), hart.stale, decoded[..], ms[k..])
        invariant var (rest, w) := RefRun(hart.xlen, Value(), ms[k..]); whole == (rs + rest, w)
      {
        RefRunUnrolled(hart.xlen, Value(), hart.stale, decoded[..], ms, k);
        var r := Perform(ms[k]);
        ghost var rest := RefRun(hart.xlen, Value(), ms[k + 1..]).0;
        assert rs + ([r] + rest) == (rs + [r]) + rest;
        rs := rs + [r];
      }
      RefRunOver(hart.xlen, Value(), ms);
      assert rs + [] == rs;
    }
  }
}
