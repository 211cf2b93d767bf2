/** The cache of decoded instructions, looked up by pc alone in place of a fetch, and when a hit is
    what a fresh fetch would have been. */
module DecodeCache {

  import opened Memory
  import opened PageTable
  import opened PageWalker
  import opened Privileged
  import opened TlbCoherence
  import opened CachelessHart
  import opened KeptTranslation

  const DECODE_SIZE: nat := 4096

  /** What an instruction needs mstatus to have switched on. */
  datatype Need = Neither | Float | Vector

  /** The instruction word memory holds at a pc: its bits, its length, whether it is legal apart from
      FS and VS (the extensions and the width are fixed), and what it needs. */
  datatype Inst = Inst(bits: nat, wide: bool, legal: bool, need: Need)

  predicate Enabled(m: Mstatus, need: Need) {
    match need
    case Neither => true
    case Float => m.other.fs != 0
    case Vector => m.other.vs != 0
  }

  /** An entry: the pc it was inserted with, the decoded instruction, and, to say what it stands for,
      where its halfwords were fetched and at which privilege level. */
  datatype DecodedOp = Nothing | Decoded(cpc: nat, inst: Inst, priv: Priv, pas: seq<nat>)

  type Table = seq<DecodedOp>

  function EmptyTable(): (c: Table)
    ensures |c| == DECODE_SIZE && forall i :: 0 <= i < |c| ==> c[i] == Nothing
  {
    seq(DECODE_SIZE, _ => Nothing)
  }

  function Index(pc: nat): (i: nat)
    ensures i < DECODE_SIZE
  {
    (pc / 2) % DECODE_SIZE
  }

  predicate Hits(c: Table, pc: nat)
    requires |c| == DECODE_SIZE
  {
    c[Index(pc)].Decoded? && c[Index(pc)].cpc == pc
  }

  // ---- the guest's steps with a decode cache ----------------------------------------------------

  /** A step of the hart without the decode cache, a fetch through it of the instruction `inst` that
      memory holds at pc, or FENCE.I. */
  datatype Move = Guest(op: Op) | DecodedFetch(pc: nat, inst: Inst) | FenceI

  predicate MoveWellFormed(m: Move) { m.Guest? ==> WellFormed(m.op) }

  /** What a fetch and decode leads to: an instruction that executes, or a fault. */
  datatype Fetched = Executes(inst: Inst, pas: seq<nat>) | Faults(cause: nat, tval: nat)

  datatype Outcome = Stepped(r: Result) | Fetching(f: Fetched)

  /** The whole fetch stage: the halfwords, then the decoder, which refuses an instruction that is
      illegal or switched off by FS or VS. */
  function FetchDecode(xlen: nat, w: World, pc: nat, inst: Inst): (Fetched, World) {
    var (r, w1) := FetchAny(xlen, w, pc, inst.wide);
    match r
    case Trap(cause, tval) => (Faults(cause, tval), w1)
    case Reached(pas) =>
      (if inst.legal && Enabled(w.arch.mstatus, inst.need) then Executes(inst, pas) else Faults(2, inst.bits), w1)
  }

  /** The reference fetches and decodes afresh every time. */
  function RefStep(xlen: nat, w: World, m: Move): (Outcome, World)
    requires MoveWellFormed(m)
  {
    match m
    case Guest(op) => var (r, w1) := Step(xlen, w, op); (Stepped(r), w1)
    case DecodedFetch(pc, inst) => var (f, w1) := FetchDecode(xlen, w, pc, inst); (Fetching(f), w1)
    case FenceI => (Stepped(Reached([])), System(w))
  }

  /** What a step does to the decode cache: a full or selective TLB flush, a new satp and FENCE.I
      empty it, a fetch that misses fills it. Traps, returns and writes of FS and VS leave it alone. */
  function NextTable(xlen: nat, w: World, c: Table, m: Move): (r: Table)
    requires MoveWellFormed(m) && |c| == DECODE_SIZE
    ensures |r| == DECODE_SIZE
  {
    match m
    case DecodedFetch(pc, inst) =>
      var f := FetchDecode(xlen, w, pc, inst).0;
      if Hits(c, pc) || f.Faults? then c
      else c[Index(pc) := Decoded(pc, inst, w.arch.priv, f.pas)]
    case FenceI => EmptyTable()
    case Guest(WriteSatp(v)) => if SatpModeSupported(SatpMode(v, xlen), xlen) && v != w.satp then EmptyTable() else c
    case Guest(WriteMstatus(s, mpp)) => if StatusFlushes(w.arch, s, mpp) then EmptyTable() else c
    case Guest(WriteSstatus(s)) =>
      if StatusFlushes(w.arch, SstatusAsMstatus(w.arch.mstatus, s), Level(w.arch.mstatus.mpp)) then EmptyTable() else c
    case Guest(SfenceVma(_, _, _, _)) => EmptyTable()
    case Guest(_) => c
  }

  /** The stale pages after the step. */
  ghost function MoveStale(xlen: nat, w: World, stale: iset<nat>, m: Move): iset<nat>
    requires MoveWellFormed(m)
  {
    if m.Guest? then NextStale(xlen, w, stale, m.op) else stale
  }

  /** An instruction whose halfwords were reached executes if it is legal and FS is not off for a floating-point
      one nor VS for a vector one, whatever else mstatus holds; otherwise it is illegal, cause 2, with its bits
      as value. A refused halfword reports its own fault. */
  lemma DecodeFaults(xlen: nat, w: World, pc: nat, inst: Inst)
    ensures var (r, w1) := FetchAny(xlen, w, pc, inst.wide);
            var (f, w2) := FetchDecode(xlen, w, pc, inst);
            var other := w.arch.mstatus.other;
            var off := (inst.need.Float? && other.fs == 0) || (inst.need.Vector? && other.vs == 0);
            && w2 == w1
            && (r.Trap? ==> f == Faults(r.cause, r.tval))
            && (r.Reached? && inst.legal && !off ==> f == Executes(inst, r.pas))
            && (r.Reached? && (!inst.legal || off) ==> f == Faults(2, inst.bits))
  {
    hide FetchAny;
  }

  /** A miss that executes takes the place of the instruction at another pc if and only if the two have bits 12
      to 1 in common; the place is then its own. */
  lemma EvictsIff(xlen: nat, w: World, c: Table, pc: nat, at: nat, inst: Inst)
    requires |c| == DECODE_SIZE && Hits(c, at) && !Hits(c, pc) && FetchDecode(xlen, w, pc, inst).0.Executes?
    ensures Hits(NextTable(xlen, w, c, DecodedFetch(pc, inst)), at) <==> (at / 2) % 4096 != (pc / 2) % 4096
    ensures Hits(NextTable(xlen, w, c, DecodedFetch(pc, inst)), pc)
  {
    hide FetchDecode;
  }

  // ---- what an entry stands for -------------------------------------------------------------------

  function AtPriv(w: World, p: Priv): World { w.(arch := w.arch.(priv := p)) }

  /** Refetched now at the privilege of its insertion, the entry's instruction is still where it
      was found, and the fetch would write nothing. Whether it may execute is a matter of FS and VS. */
  predicate EntryOk(xlen: nat, w: World, e: DecodedOp) {
    e.Decoded? ==>
      && e.inst.legal
      && FetchAny(xlen, AtPriv(w, e.priv), e.cpc, e.inst.wide) == (Reached(e.pas), AtPriv(w, e.priv))
  }

  /** The entry was fetched without translation, or from pages that are not stale. */
  ghost predicate EntryFresh(stale: iset<nat>, e: DecodedOp)
    requires e.Decoded?
  {
    e.priv.Machine? ||
    (PageOf(e.cpc) !in stale && (Split(e.cpc, e.inst.wide) ==> PageOf(NextHalf(e.cpc)) !in stale))
  }

  ghost predicate TableSound(xlen: nat, w: World, stale: iset<nat>, c: Table) {
    forall i :: 0 <= i < |c| && c[i].Decoded? && EntryFresh(stale, c[i]) ==> EntryOk(xlen, w, c[i])
  }

  /** The page of this half is mapped to itself for execution at privilege q, accessed already. */
  predicate Identity(xlen: nat, w: World, q: Priv, half: nat) {
    Translate(w.dram, EnvOf(xlen, w).sp, half, Code, EnvOf(xlen, w).Mode(q)) == (Mapped(half % Wrap(xlen)), w.dram)
  }

  predicate IdentityMapped(xlen: nat, w: World, q: Priv, pc: nat, wide: bool) {
    Identity(xlen, w, q, pc) && (Split(pc, wide) ==> Identity(xlen, w, q, NextHalf(pc)))
  }

  /** When a hit may stand for a fetch: memory still holds the instruction inserted, what it needs is
      switched on, and translation is off, or the privilege is the one of the insertion, or one of the
      two is M and the page is mapped to itself for the other. Between S and U a hit never fits. */
  predicate HitFits(xlen: nat, w: World, e: DecodedOp, inst: Inst)
    requires e.Decoded?
  {
    && e.inst == inst && Enabled(w.arch.mstatus, inst.need)
    && (|| EnvOf(xlen, w).sp.Bare?
        || e.priv == w.arch.priv
        || (e.priv.Machine? && IdentityMapped(xlen, w, w.arch.priv, e.cpc, inst.wide))
        || (w.arch.priv.Machine? && IdentityMapped(xlen, w, e.priv, e.cpc, inst.wide)))
  }

  // ---- a hit fits exactly when it is the fresh fetch ----------------------------------------------

  /** A translated fetch finds its halfwords at their own addresses, and writes nothing, exactly
      when their pages are mapped to themselves and accessed already. */
  lemma IdentityIff(xlen: nat, w: World, pc: nat, wide: bool)
    requires Translating(EnvOf(xlen, w).sp, EnvOf(xlen, w).Mode(w.arch.priv)) && pc % Ialign(w.arch) == 0
    ensures FetchAny(xlen, w, pc, wide) == (Reached(Physical(xlen, pc, wide)), w)
            <==> IdentityMapped(xlen, w, w.arch.priv, pc, wide)
  {
    hide Translate, SatpSpace, SatpAsid, PageOf, Wrap, Ialign, NextHalf;
    EnvFits(xlen, w);
    var sp, m := EnvOf(xlen, w).sp, EnvOf(xlen, w).Mode(w.arch.priv);
    if Split(pc, wide) {
      TwoHalves(w.dram, sp, pc, NextHalf(pc), m);
      var (t1, d1) := Translate(w.dram, sp, pc, Code, m);
      var w1 := w.(dram := d1);
      var (t2, d2) := Translate(d1, sp, NextHalf(pc), Code, m);
      assert FetchHalf(xlen, w, pc).1 == w1 && EnvOf(xlen, w1) == EnvOf(xlen, w);
      if t1.Mapped? && t2.Mapped? {
        assert FetchAny(xlen, w, pc, wide) == (Reached([t1.pa] + [t2.pa]), w.(dram := d2));
        assert [t1.pa] + [t2.pa] == [t1.pa, t2.pa];
      }
    }
  }

  /** Two walks in a row: both are settled exactly when memory is unchanged after the second. */
  lemma TwoHalves(d: Dram, sp: Space, a: nat, b: nat, m: Mode)
    requires sp.Paged? ==> sp.root % 4096 == 0
    ensures var d1 := Translate(d, sp, a, Code, m).1;
            && Translate(d1, sp, b, Code, m).0 == Translate(d, sp, b, Code, m).0
            && (Translate(d1, sp, b, Code, m).1 == d
                <==> d1 == d && Translate(d, sp, b, Code, m).1 == d)
  {
    hide Translate;
    var d1 := Translate(d, sp, a, Code, m).1;
    TranslationInvisible(d, sp, a, Code, m, sp, b, Code, m);
    var walks := [Lookup(a, Code, m), Lookup(b, Code, m)];
    assert walks[1..] == [Lookup(b, Code, m)] && walks[1..][1..] == [];
    assert WalkAll(Translate(d1, sp, b, Code, m).1, sp, []) == Translate(d1, sp, b, Code, m).1;
    assert WalkAll(d1, sp, walks[1..]) == Translate(d1, sp, b, Code, m).1;
    assert WalkAll(d, sp, walks) == Translate(d1, sp, b, Code, m).1;
    WalkAllSettled(d, sp, walks);
    assert AllSettled(d, sp, walks) ==> walks[0] == Lookup(a, Code, m) && d1 == d;
  }

  /** A page that may be executed in one of S and U may not be executed in the other. */
  lemma OtherModeFaults(d: Dram, sp: Space, va: nat, m: Mode, m': Mode)
    requires Translating(sp, m) && Translating(sp, m') && m.priv != m'.priv
    requires Translate(d, sp, va, Code, m).0.Mapped?
    ensures Translate(d, sp, va, Code, m') == (Denied(12), d)
  {
    hide Walk, V, R, W, X, U, A, D, Ppn, ReservedHigh, SuperPages, LeafAddress, Canonical, WithAD;
  }

  /** The privilege level matters to a fetch only through translation. */
  lemma SameModeFetch(xlen: nat, w: World, p: Priv, pc: nat, wide: bool)
    requires p == w.arch.priv || EnvOf(xlen, w).sp.Bare?
    ensures FetchAny(xlen, AtPriv(w, p), pc, wide).0 == FetchAny(xlen, w, pc, wide).0
    ensures FetchAny(xlen, AtPriv(w, p), pc, wide).1 == AtPriv(w, p) <==> FetchAny(xlen, w, pc, wide).1 == w
  {
    hide SatpSpace, SatpAsid, PageOf, Wrap, NextHalf, Canonical, PageWalk;
    assert p == w.arch.priv ==> AtPriv(w, p) == w;
  }

  lemma EntryAligned(xlen: nat, w: World, e: DecodedOp)
    requires e.Decoded? && EntryOk(xlen, w, e)
    ensures e.cpc % Ialign(w.arch) == 0 && Ialign(AtPriv(w, e.priv).arch) == Ialign(w.arch)
  {
    hide FetchHalf, PageOf, NextHalf;
  }

  /** The law of the decode cache: a hit is the fresh fetch and decode, in the instruction, in the
      addresses it was fetched from and in the memory it leaves, if and only if it fits. */
  lemma HitIsFetchIff(xlen: nat, w: World, e: DecodedOp, inst: Inst)
    requires e.Decoded? && EntryOk(xlen, w, e)
    ensures FetchDecode(xlen, w, e.cpc, inst) == (Executes(e.inst, e.pas), w) <==> HitFits(xlen, w, e, inst)
  {
    hide FetchAny, Translate, SatpSpace, SatpAsid, IdentityMapped, Wrap, Ialign, Physical;
    if e.inst == inst {
      AddressesIff(xlen, w, e);
    }
  }

  /** The part of the law that is about addresses. */
  lemma AddressesIff(xlen: nat, w: World, e: DecodedOp)
    requires e.Decoded? && EntryOk(xlen, w, e)
    ensures FetchAny(xlen, w, e.cpc, e.inst.wide) == (Reached(e.pas), w)
            <==> (|| EnvOf(xlen, w).sp.Bare?
                  || e.priv == w.arch.priv
                  || (e.priv.Machine? && IdentityMapped(xlen, w, w.arch.priv, e.cpc, e.inst.wide))
                  || (w.arch.priv.Machine? && IdentityMapped(xlen, w, e.priv, e.cpc, e.inst.wide)))
  {
    hide FetchAny, Translate, SatpSpace, SatpAsid, IdentityMapped, Wrap, Ialign, Physical;
    var w0, wide := AtPriv(w, e.priv), e.inst.wide;
    EntryAligned(xlen, w, e);
    var sp := EnvOf(xlen, w).sp;
    assert EnvOf(xlen, w0).sp == sp;
    if sp.Bare? || e.priv == w.arch.priv {
      SameModeFetch(xlen, w, e.priv, e.cpc, wide);
    } else if e.priv.Machine? {
      UntranslatedFetch(xlen, w0, e.cpc, wide);
      IdentityIff(xlen, w, e.cpc, wide);
    } else if w.arch.priv.Machine? {
      UntranslatedFetch(xlen, w, e.cpc, wide);
      IdentityIff(xlen, w0, e.cpc, wide);
      SameIdentity(xlen, w, e.priv, e.cpc, wide);
    } else {
      CrossModeFetch(xlen, w, e);
    }
  }

  lemma SameIdentity(xlen: nat, w: World, p: Priv, pc: nat, wide: bool)
    ensures IdentityMapped(xlen, AtPriv(w, p), p, pc, wide) == IdentityMapped(xlen, w, p, pc, wide)
  {
    hide Translate, SatpSpace, SatpAsid, Wrap, PageOf, NextHalf;
  }

  /** Between S and U a fresh fetch faults where the cache would hit. */
  lemma CrossModeFetch(xlen: nat, w: World, e: DecodedOp)
    requires e.Decoded? && EntryOk(xlen, w, e) && !EnvOf(xlen, w).sp.Bare?
    requires e.priv != w.arch.priv && !e.priv.Machine? && !w.arch.priv.Machine?
    ensures forall wide :: FetchAny(xlen, w, e.cpc, wide) == (Trap(12, e.cpc), w)
  {
    hide Translate, SatpSpace, SatpAsid, PageOf, Wrap, NextHalf;
    var env := EnvOf(xlen, w);
    OtherModeFaults(w.dram, env.sp, e.cpc, env.Mode(e.priv), env.Mode(w.arch.priv));
  }

  // ---- steps keep the table sound -----------------------------------------------------------------

  /** A settled half stays what it is when its page is steady. */
  lemma HalfSteady(d: Dram, d': Dram, env: Env, va: nat, p: Priv, pa: nat, stale: iset<nat>)
    requires Translating(env.sp, env.Mode(p)) && Steady(d, d', env, stale) && PageOf(va) !in stale
    requires Translate(d, env.sp, va, Code, env.Mode(p)) == (Mapped(pa), d)
    ensures Translate(d', env.sp, va, Code, env.Mode(p)) == (Mapped(pa), d')
  {
    hide PageWalk;
    assert Settled(d, env, va, Code, p, pa);
    SamePage(d, env.sp, va, Code, env.Mode(p));
    var page := pa - va % 4096;
    assert Settled(d, env, PageOf(va), Code, p, page);
    assert Settled(d', env, PageOf(va), Code, p, page);
    SettledSamePage(d', env, va, Code, p, page);
  }

  /** A settled fetch stays what it is when its pages are steady. */
  lemma SettledFetchSteady(xlen: nat, w: World, w': World, pc: nat, wide: bool, stale: iset<nat>)
    requires w'.arch == w.arch && w'.satp == w.satp && Steady(w.dram, w'.dram, EnvOf(xlen, w), stale)
    requires FetchAny(xlen, w, pc, wide).0.Reached? && FetchAny(xlen, w, pc, wide).1 == w
    requires w.arch.priv.Machine?
             || (PageOf(pc) !in stale && (Split(pc, wide) ==> PageOf(NextHalf(pc)) !in stale))
    ensures FetchAny(xlen, w', pc, wide) == (FetchAny(xlen, w, pc, wide).0, w')
  {
    hide Translate, SatpSpace, SatpAsid, PageOf, Wrap, Ialign, NextHalf, Steady;
    EnvFits(xlen, w);
    var env := EnvOf(xlen, w);
    var m := env.Mode(w.arch.priv);
    if !Translating(env.sp, m) {
      StillAligned(xlen, w, pc, wide);
      UntranslatedFetch(xlen, w, pc, wide);
      UntranslatedFetch(xlen, w', pc, wide);
    } else {
      var pa := Translate(w.dram, env.sp, pc, Code, m).0.pa;
      if Split(pc, wide) {
        TwoHalves(w.dram, env.sp, pc, NextHalf(pc), m);
        HalfSteady(w.dram, w'.dram, env, pc, w.arch.priv, pa, stale);
        HalfSteady(w.dram, w'.dram, env, NextHalf(pc), w.arch.priv,
                   Translate(w.dram, env.sp, NextHalf(pc), Code, m).0.pa, stale);
      } else {
        HalfSteady(w.dram, w'.dram, env, pc, w.arch.priv, pa, stale);
      }
    }
  }

  lemma StillAligned(xlen: nat, w: World, pc: nat, wide: bool)
    requires FetchAny(xlen, w, pc, wide).0.Reached?
    ensures pc % Ialign(w.arch) == 0
  {
    hide FetchHalf, PageOf, NextHalf;
  }

  /** A fetch leaves itself settled: done again, it finds the same and writes nothing. */
  lemma FetchSettles(xlen: nat, w: World, pc: nat, wide: bool)
    requires FetchAny(xlen, w, pc, wide).0.Reached?
    ensures var (r, w') := FetchAny(xlen, w, pc, wide);
            FetchAny(xlen, w', pc, wide) == (r, w')
  {
    hide Translate, SatpSpace, SatpAsid, PageOf, Wrap, Ialign, NextHalf;
    EnvFits(xlen, w);
    var env := EnvOf(xlen, w);
    var m := env.Mode(w.arch.priv);
    var a, b := FetchAddress(xlen, w, pc), FetchAddress(xlen, w, NextHalf(pc));
    var d1 := Translate(w.dram, env.sp, a, Code, m).1;
    TranslateTwice(w.dram, env.sp, a, Code, m);
    if Split(pc, wide) {
      TranslateTwice(d1, env.sp, b, Code, m);
      TranslationInvisible(d1, env.sp, b, Code, m, env.sp, a, Code, m);
    }
  }

  /** Every step keeps every entry of a page that is not stale where a fetch at the privilege of its
      insertion would find it, because whatever else could move it empties the cache. */
  lemma TableStaysSound(xlen: nat, w: World, stale: iset<nat>, c: Table, m: Move)
    requires |c| == DECODE_SIZE && MoveWellFormed(m) && TableSound(xlen, w, stale, c) && Legal(w.arch)
    ensures TableSound(xlen, RefStep(xlen, w, m).1, MoveStale(xlen, w, stale, m), NextTable(xlen, w, c, m))
  {
    hide FetchAny, EnvOf, AccessAny, StaleAny, EntryOk, EntryFresh, WorldSteady, Legal, RaiseException, Mret, Sret,
         SatpMode, Index, StatusFlushes, PageOf;
    var w', c' := RefStep(xlen, w, m).1, NextTable(xlen, w, c, m);
    match m
    case FenceI => EmptySound(xlen, w', stale, c');
    case DecodedFetch(pc, inst) =>
      FetchSteady(xlen, w, pc, inst.wide, stale);
      SteadySound(xlen, w, w', stale, stale, c);
      FilledSound(xlen, w, pc, inst);
    case Guest(op) =>
      match op
      case Fetch(pc, wide) =>
        FetchSteady(xlen, w, pc, wide, stale);
        SteadySound(xlen, w, w', stale, stale, c);
      case Access(a, size, access, kind, data) =>
        var w1 := AccessAny(xlen, w, a, size, access, kind, data).1;
        var stale1 := StaleAny(xlen, w, stale, a, size, access, kind, data);
        AccessAnySteady(xlen, w, stale, a, size, access, kind, data);
        SteadySound(xlen, w, w1, stale, stale1, c);
        SameEnv(xlen, w1, w');
        SameEnvSound(xlen, w1, w', stale1, c);
      case CachedAccess(a, size, access, data) =>
        AccessAnySteady(xlen, w, stale, a, size, access, Plain, data);
        SteadySound(xlen, w, w', stale, StaleAny(xlen, w, stale, a, size, access, Plain, data), c);
      case _ => SystemSound(xlen, w, stale, c, op);
  }

  /** The steps that access no memory. */
  lemma SystemSound(xlen: nat, w: World, stale: iset<nat>, c: Table, op: Op)
    requires |c| == DECODE_SIZE && WellFormed(op) && TableSound(xlen, w, stale, c) && Legal(w.arch)
    requires !op.Fetch? && !op.Access? && !op.CachedAccess?
    ensures TableSound(xlen, RefStep(xlen, w, Guest(op)).1, NextStale(xlen, w, stale, op),
                       NextTable(xlen, w, c, Guest(op)))
  {
    hide FetchAny, EnvOf, EntryOk, EntryFresh, Legal, RaiseException, Mret, Sret, SatpMode, Index, SetMstatus, PageOf,
         StatusFlushes, SatpModeSupported, SstatusAsMstatus;
    var w', c' := RefStep(xlen, w, Guest(op)).1, NextTable(xlen, w, c, Guest(op));
    var stale' := NextStale(xlen, w, stale, op);
    TransferKeepsEnv(xlen, w, Exception(0), 0);
    if c' == EmptyTable() {
      EmptySound(xlen, w', stale', c');
    } else {
      match op {
        case WriteMstatus(s, mpp) => StatusKeepsEnv(xlen, w, s, mpp);
        case WriteSstatus(s) =>
          StatusKeepsEnv(xlen, w, SstatusAsMstatus(w.arch.mstatus, s), Level(w.arch.mstatus.mpp));
        case TakeTrap(cause, tval) => TransferKeepsEnv(xlen, w, cause, tval);
        case _ =>
      }
      SameEnv(xlen, w.(arch := w'.arch), w');
      SameEnv(xlen, w, w.(context := w'.context));
      SameEnvSound(xlen, w, w', stale, c);
    }
  }

  lemma SameEnv(xlen: nat, w: World, w': World)
    requires w'.arch == w.arch && w'.satp == w.satp
    ensures EnvOf(xlen, w') == EnvOf(xlen, w)
  {
  }

  lemma EmptySound(xlen: nat, w: World, stale: iset<nat>, c: Table)
    requires c == EmptyTable()
    ensures TableSound(xlen, w, stale, c)
  {
    hide FetchAny;
  }

  lemma SteadySound(xlen: nat, w: World, w': World, stale: iset<nat>, stale': iset<nat>, c: Table)
    requires WorldSteady(xlen, w, w', stale, stale') && TableSound(xlen, w, stale, c)
    ensures TableSound(xlen, w', stale', c)
  {
    hide FetchAny, SatpSpace, SatpAsid, Steady, PageOf, NextHalf;
    forall i | 0 <= i < |c| && c[i].Decoded? && EntryFresh(stale', c[i]) ensures EntryOk(xlen, w', c[i]) {
      assert EntryFresh(stale, c[i]) && EntryOk(xlen, w, c[i]);
      SettledFetchSteady(xlen, AtPriv(w, c[i].priv), AtPriv(w', c[i].priv), c[i].cpc, c[i].inst.wide, stale');
    }
  }

  lemma FilledSound(xlen: nat, w: World, pc: nat, inst: Inst)
    ensures var (f, w') := FetchDecode(xlen, w, pc, inst);
            f.Executes? ==> EntryOk(xlen, w', Decoded(pc, inst, w.arch.priv, f.pas))
  {
    hide FetchAny, EnvOf, Steady;
    FetchSteady(xlen, w, pc, inst.wide, iset{});
    var (r, w') := FetchAny(xlen, w, pc, inst.wide);
    assert AtPriv(w', w.arch.priv) == w';
    if r.Reached? {
      FetchSettles(xlen, w, pc, inst.wide);
    }
  }

  /** Same memory, same satp and status bits, same instruction length rules: same fetches. */
  lemma SameEnvSound(xlen: nat, w: World, w': World, stale: iset<nat>, c: Table)
    requires TableSound(xlen, w, stale, c)
    requires w'.dram == w.dram && w'.satp == w.satp && w'.arch.isa == w.arch.isa && EnvOf(xlen, w') == EnvOf(xlen, w)
    ensures TableSound(xlen, w', stale, c)
  {
    hide FetchAny, EntryFresh;
    forall i | 0 <= i < |c| && c[i].Decoded? && EntryFresh(stale, c[i]) ensures EntryOk(xlen, w', c[i]) {
      assert EntryOk(xlen, w, c[i]);
      SameEnvFetch(xlen, AtPriv(w, c[i].priv), AtPriv(w', c[i].priv), c[i].cpc, c[i].inst.wide);
    }
  }

  lemma SameEnvFetch(xlen: nat, w: World, w': World, pc: nat, wide: bool)
    requires w'.dram == w.dram && w'.satp == w.satp && w'.arch.isa == w.arch.isa && w'.arch.priv == w.arch.priv
    requires EnvOf(xlen, w') == EnvOf(xlen, w)
    ensures FetchAny(xlen, w', pc, wide).0 == FetchAny(xlen, w, pc, wide).0
    ensures FetchAny(xlen, w', pc, wide).1 == FetchAny(xlen, w, pc, wide).1.(arch := w'.arch, context := w'.context)
  {
    hide Translate, SatpSpace, SatpAsid, PageOf, Wrap, NextHalf;
  }

  /** A status write that does not flush leaves SUM and MXR as they were. */
  lemma StatusKeepsEnv(xlen: nat, w: World, s: Mstatus, mpp: nat)
    requires Legal(w.arch)
    ensures !StatusFlushes(w.arch, s, mpp) ==>
              EnvOf(xlen, w.(arch := w.arch.(mstatus := SetMstatus(w.arch.isa, s, mpp)))) == EnvOf(xlen, w)
  {
    hide SatpSpace, SatpAsid;
  }

  /** Traps and returns leave SUM and MXR alone. */
  lemma TransferKeepsEnv(xlen: nat, w: World, cause: Cause, tval: nat)
    ensures EnvOf(xlen, w.(arch := RaiseException(w.arch, cause, tval))) == EnvOf(xlen, w)
    ensures EnvOf(xlen, w.(arch := Mret(w.arch))) == EnvOf(xlen, w)
    ensures EnvOf(xlen, w.(arch := Sret(w.arch))) == EnvOf(xlen, w)
    ensures RaiseException(w.arch, cause, tval).isa == w.arch.isa && Mret(w.arch).isa == w.arch.isa
    ensures Sret(w.arch).isa == w.arch.isa
  {
    hide SatpSpace, SatpAsid, RaiseException, Mret, Sret;
    TransferKeepsView(w.arch, cause, tval);
    assert [RaiseException(w.arch, cause, tval), Mret(w.arch), Sret(w.arch)][0] == RaiseException(w.arch, cause, tval);
  }
}
