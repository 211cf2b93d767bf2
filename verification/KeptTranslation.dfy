/** Steps that leave translation as it was: the A and D bits that walks set, and stores that miss the
    page tables, change no address and no fault. */
module KeptTranslation {

  import opened Memory
  import opened PageTable
  import opened PageWalker
  import opened Privileged
  import opened TlbCoherence
  import opened CachelessHart

  /** d' translates like d under sp, and has every bit set that a walk of d had nothing to add to. */
  ghost predicate Kept(d: Dram, d': Dram, sp: Space) {
    forall va: nat, access: Access, mode: Mode ::
      && Translate(d', sp, va, access, mode).0 == Translate(d, sp, va, access, mode).0
      && (Translate(d, sp, va, access, mode).1 == d ==> Translate(d', sp, va, access, mode).1 == d')
  }

  lemma KeptSelf(d: Dram, sp: Space)
    ensures Kept(d, d, sp)
  {
    hide Translate;
  }

  lemma KeptTrans(d: Dram, d1: Dram, d2: Dram, sp: Space)
    requires Kept(d, d1, sp) && Kept(d1, d2, sp)
    ensures Kept(d, d2, sp)
  {
    hide Translate;
  }

  /** A space a hart of this width can have. */
  predicate Fits(xlen: nat, sp: Space) {
    sp.Paged? ==> sp.root % 4096 == 0 && (sp.format.Sv32? <==> xlen != 64)
  }

  lemma EnvFits(xlen: nat, w: World)
    ensures Fits(xlen, EnvOf(xlen, w).sp)
  {
  }

  /** A walk under one satp keeps translation under every other. */
  lemma WalkKeeps(xlen: nat, d: Dram, sp: Space, va: nat, access: Access, mode: Mode, sp2: Space)
    requires Fits(xlen, sp) && Fits(xlen, sp2)
    ensures Kept(d, Translate(d, sp, va, access, mode).1, sp2)
  {
    hide Translate;
    var d' := Translate(d, sp, va, access, mode).1;
    forall va2: nat, access2: Access, mode2: Mode
      ensures Translate(d', sp2, va2, access2, mode2).0 == Translate(d, sp2, va2, access2, mode2).0
      ensures Translate(d, sp2, va2, access2, mode2).1 == d ==> Translate(d', sp2, va2, access2, mode2).1 == d'
    {
      TranslationInvisible(d, sp, va, access, mode, sp2, va2, access2, mode2);
    }
  }

  /** The step left satp and status alone and translation under sp as it was. */
  ghost predicate WorldKept(w: World, w': World, sp: Space) {
    w'.arch == w.arch && w'.satp == w.satp && w'.context == w.context && Kept(w.dram, w'.dram, sp)
  }

  lemma WorldKeptTrans(w: World, w1: World, w2: World, sp: Space)
    requires WorldKept(w, w1, sp) && WorldKept(w1, w2, sp)
    ensures WorldKept(w, w2, sp)
  {
    hide Kept;
    KeptTrans(w.dram, w1.dram, w2.dram, sp);
  }

  /** Loads keep translation under every space. */
  lemma LoadOneKeeps(xlen: nat, w: World, va: nat, size: nat, access: Access, kind: Kind, data: nat, sp: Space)
    requires size > 0 && Fits(xlen, sp) && !access.Write?
    ensures WorldKept(w, AccessOne(xlen, w, va, size, access, kind, data).1, sp)
  {
    hide Translate, SatpSpace, SatpAsid, Canonical, Kept;
    EnvFits(xlen, w);
    var env := EnvOf(xlen, w);
    KeptSelf(w.dram, sp);
    WalkKeeps(xlen, w.dram, env.sp, va, access, env.Mode(DataPrivilege(w.arch)), sp);
  }

  lemma {:induction false} LoadBytesKeeps(xlen: nat, w: World, va: nat, b: nat, size: nat, access: Access, kind: Kind,
                                          data: nat, sp: Space)
    requires b <= size && Fits(xlen, sp) && !access.Write?
    ensures WorldKept(w, AccessBytes(xlen, w, va, b, size, access, kind, data).1, sp)
    decreases size - b
  {
    hide AccessOne, ByteOf, Kept, SatpSpace, SatpAsid, Fits;
    KeptSelf(w.dram, sp);
    if b != size {
      var (r1, w1) := AccessOne(xlen, w, (va + b) % Wrap(xlen), 1, access, kind, ByteOf(data, b));
      LoadOneKeeps(xlen, w, (va + b) % Wrap(xlen), 1, access, kind, ByteOf(data, b), sp);
      if r1.Reached? {
        LoadBytesKeeps(xlen, w1, va, b + 1, size, access, kind, data, sp);
        WorldKeptTrans(w, w1, AccessBytes(xlen, w1, va, b + 1, size, access, kind, data).1, sp);
      }
    }
  }

  lemma LoadAnyKeeps(xlen: nat, w: World, address: nat, size: nat, access: Access, kind: Kind, data: nat, sp: Space)
    requires size > 0 && Fits(xlen, sp) && !access.Write?
    ensures WorldKept(w, AccessAny(xlen, w, address, size, access, kind, data).1, sp)
  {
    hide AccessOne, AccessBytes, Kept, EnvOf, Fits;
    KeptSelf(w.dram, sp);
    var va := address % Wrap(xlen);
    if CrossesPage(va, size) {
      LoadBytesKeeps(xlen, w, va, 0, size, access, kind, data, sp);
    } else {
      LoadOneKeeps(xlen, w, va, size, access, kind, data, sp);
    }
  }

  lemma FetchHalfKeeps(xlen: nat, w: World, pc: nat, sp: Space)
    requires Fits(xlen, sp)
    ensures WorldKept(w, FetchHalf(xlen, w, pc).1, sp)
  {
    hide Translate, SatpSpace, SatpAsid, Kept;
    EnvFits(xlen, w);
    var env := EnvOf(xlen, w);
    WalkKeeps(xlen, w.dram, env.sp, FetchAddress(xlen, w, pc), Code, env.Mode(w.arch.priv), sp);
  }

  lemma FetchKeeps(xlen: nat, w: World, pc: nat, wide: bool, sp: Space)
    requires Fits(xlen, sp)
    ensures WorldKept(w, FetchAny(xlen, w, pc, wide).1, sp)
  {
    hide FetchHalf, Kept, EnvOf, PageOf, NextHalf, Fits;
    KeptSelf(w.dram, sp);
    FetchHalfKeeps(xlen, w, pc, sp);
    var w1 := FetchHalf(xlen, w, pc).1;
    FetchHalfKeeps(xlen, w1, NextHalf(pc), sp);
    WorldKeptTrans(w, w1, FetchHalf(xlen, w1, NextHalf(pc)).1, sp);
  }

  // ---- all but the stale pages -------------------------------------------------------------------------

  /** Whatever was settled on a page outside `stale` still is. */
  ghost predicate Steady(d: Dram, d': Dram, env: Env, stale: iset<nat>) {
    forall page: nat, access: Access, p: Priv, pa: nat ::
      page !in stale && Settled(d, env, page, access, p, pa) ==> Settled(d', env, page, access, p, pa)
  }

  /** The step left status and satp alone, and steady every page it did not make stale. */
  ghost predicate WorldSteady(xlen: nat, w: World, w': World, before: iset<nat>, after: iset<nat>) {
    && w'.arch == w.arch && w'.satp == w.satp && w'.context == w.context
    && before <= after && Steady(w.dram, w'.dram, EnvOf(xlen, w), after)
  }

  lemma SteadyTrans(xlen: nat, w: World, w1: World, w2: World, s0: iset<nat>, s1: iset<nat>, s2: iset<nat>)
    requires WorldSteady(xlen, w, w1, s0, s1) && WorldSteady(xlen, w1, w2, s1, s2)
    ensures WorldSteady(xlen, w, w2, s0, s2)
  {
    hide Settled, SatpSpace, SatpAsid;
  }

  lemma SteadySelf(xlen: nat, w: World, stale: iset<nat>)
    ensures WorldSteady(xlen, w, w, stale, stale)
  {
    hide Settled, SatpSpace, SatpAsid;
  }

  lemma WalkSteady(d: Dram, env: Env, va: nat, access: Access, mode: Mode, stale: iset<nat>)
    requires env.Valid()
    ensures Steady(d, Translate(d, env.sp, va, access, mode).1, env, stale)
  {
    hide Settled, Translate;
    forall page: nat, access2: Access, p: Priv, pa: nat | Settled(d, env, page, access2, p, pa)
      ensures Settled(Translate(d, env.sp, va, access, mode).1, env, page, access2, p, pa)
    {
      SettledAfterTranslate(d, env, page, access2, p, pa, va, access, mode);
    }
  }

  lemma EditSteady(d: Dram, d': Dram, env: Env, stale: iset<nat>)
    ensures Steady(d, d', env, stale + Changed(d, d', env))
  {
    hide Settled, Changed;
    forall page: nat, access: Access, p: Priv, pa: nat
      | page !in stale + Changed(d, d', env) && Settled(d, env, page, access, p, pa)
      ensures Settled(d', env, page, access, p, pa)
    {
      UnchangedStaysSettled(d, d', env, page, access, p, pa);
    }
  }

  lemma AccessOneSteady(xlen: nat, w: World, stale: iset<nat>, va: nat, size: nat, access: Access, kind: Kind,
                        data: nat)
    requires size > 0
    ensures WorldSteady(xlen, w, AccessOne(xlen, w, va, size, access, kind, data).1, stale,
                        StaleOne(xlen, w, stale, va, size, access, kind, data))
  {
    hide Translate, Settled, Changed, SatpSpace, SatpAsid, Canonical, Written;
    var env := EnvOf(xlen, w);
    var mode := env.Mode(DataPrivilege(w.arch));
    var walked := Translate(w.dram, env.sp, va, access, mode).1;
    var last := AccessOne(xlen, w, va, size, access, kind, data).1.dram;
    var after := StaleOne(xlen, w, stale, va, size, access, kind, data);
    WalkSteady(w.dram, env, va, access, mode, after);
    EditSteady(walked, last, env, stale);
  }

  lemma {:induction false} AccessBytesSteady(xlen: nat, w: World, stale: iset<nat>, va: nat, b: nat, size: nat,
                                             access: Access, kind: Kind, data: nat)
    requires b <= size
    ensures WorldSteady(xlen, w, AccessBytes(xlen, w, va, b, size, access, kind, data).1, stale,
                        StaleBytes(xlen, w, stale, va, b, size, access, kind, data))
    decreases size - b
  {
    hide AccessOne, StaleOne, ByteOf, WorldSteady, AccessBytes, StaleBytes, FreshBytes, FreshOne;
    if b == size {
      BytesOver(xlen, w, stale, va, size, access, kind, data);
      SteadySelf(xlen, w, stale);
    } else {
      BytesUnrolled(xlen, w, stale, va, b, size, access, kind, data);
      var at, byte := (va + b) % Wrap(xlen), ByteOf(data, b);
      var (r1, w1) := AccessOne(xlen, w, at, 1, access, kind, byte);
      var stale1 := StaleOne(xlen, w, stale, at, 1, access, kind, byte);
      AccessOneSteady(xlen, w, stale, at, 1, access, kind, byte);
      if r1.Reached? {
        AccessBytesSteady(xlen, w1, stale1, va, b + 1, size, access, kind, data);
        SteadyTrans(xlen, w, w1, AccessBytes(xlen, w, va, b, size, access, kind, data).1,
                    stale, stale1, StaleBytes(xlen, w, stale, va, b, size, access, kind, data));
      }
    }
  }

  lemma AccessAnySteady(xlen: nat, w: World, stale: iset<nat>, address: nat, size: nat, access: Access, kind: Kind,
                        data: nat)
    requires size > 0
    ensures WorldSteady(xlen, w, AccessAny(xlen, w, address, size, access, kind, data).1, stale,
                        StaleAny(xlen, w, stale, address, size, access, kind, data))
  {
    hide AccessOne, StaleOne, AccessBytes, StaleBytes, WorldSteady;
    SteadySelf(xlen, w, stale);
    var va := address % Wrap(xlen);
    AccessBytesSteady(xlen, w, stale, va, 0, size, access, kind, data);
    AccessOneSteady(xlen, w, stale, va, size, access, kind, data);
  }

  lemma FetchHalfSteady(xlen: nat, w: World, pc: nat, stale: iset<nat>)
    ensures WorldSteady(xlen, w, FetchHalf(xlen, w, pc).1, stale, stale)
  {
    hide Translate, Settled, SatpSpace, SatpAsid;
    var env := EnvOf(xlen, w);
    WalkSteady(w.dram, env, FetchAddress(xlen, w, pc), Code, env.Mode(w.arch.priv), stale);
  }

  lemma FetchSteady(xlen: nat, w: World, pc: nat, wide: bool, stale: iset<nat>)
    ensures WorldSteady(xlen, w, FetchAny(xlen, w, pc, wide).1, stale, stale)
  {
    hide FetchHalf, WorldSteady, PageOf, NextHalf;
    SteadySelf(xlen, w, stale);
    FetchHalfSteady(xlen, w, pc, stale);
    var w1 := FetchHalf(xlen, w, pc).1;
    FetchHalfSteady(xlen, w1, NextHalf(pc), stale);
    SteadyTrans(xlen, w, w1, FetchHalf(xlen, w1, NextHalf(pc)).1, stale, stale, stale);
  }
}
