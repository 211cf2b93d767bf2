/** Concrete guests: small memories with page tables on which the conditions of the general laws
    fail, run on the model's objects. */
module Witness {

  import opened Arith
  import opened Memory
  import opened PageTable
  import opened PageWalker
  import opened Privileged
  import opened TlbCoherence
  import opened CachelessHart
  import opened DecodeCache
  import opened Translation
  import opened DecodedRuns
  import ReservedRuns
  import BackstepWalks

  const BASE: nat := 0x8000_0000

  // ---- one Sv39 gigapage: 0x1000 is mapped to 0x8000_1000 ------------------------------------------

  /** V, R, W, X, and A and D, or neither. */
  const USED: nat := 0x2000_00CF
  const FRESH: nat := 0x2000_000F

  const SV39: Space := Paged(Sv39, BASE)

  lemma BigPowers()
    ensures Pow2(18) == 0x4_0000 && Pow2(30) == 0x4000_0000 && Pow2(22) == 0x40_0000
  {
    SmallPowers();
    Pow2Sum(9, 9);
    Pow2Sum(12, 18);
    Pow2Sum(10, 12);
  }

  /** The root table's first entry is the gigapage leaf. */
  ghost predicate Gigapage(d: Dram, pte: nat) {
    d.base == BASE && |d.bytes| == 0x4000 && d.Get(BASE, 8) == pte
  }

  lemma GigapageBits(pte: nat)
    requires pte == USED || pte == FRESH
    ensures V(pte) && R(pte) && W(pte) && X(pte) && !U(pte) && !ReservedHigh(Sv39, pte)
    ensures (pte == USED <==> A(pte)) && (pte == USED <==> D(pte)) && Ppn(pte) == 0x8_0000
  {
  }

  lemma FirstEntry(va: nat)
    requires va < 0x4000_0000
    ensures PteAddr(Sv39, BASE, va, 2) == BASE
  {
    hide Pow2;
    BigPowers();
    SmallPowers();
    assert VpnField(Sv39, va, 2) == 0;
  }

  lemma GigapageWalk(d: Dram, pte: nat, va: nat)
    requires Gigapage(d, pte) && (pte == USED || pte == FRESH || pte == 0) && va < 0x4000_0000
    ensures Walk(d, Sv39, BASE, va, 2) == if pte == 0 then PageFault else Leaf(BASE, pte, 2)
  {
    hide Load, Span, VpnField, PteAddr, R, W, X, U, A, D, Ppn, ReservedHigh;
    FirstEntry(va);
    if pte != 0 {
      GigapageBits(pte);
    }
  }

  lemma GigapageLeaf(pte: nat, va: nat)
    requires (pte == USED || pte == FRESH) && va < 0x4000_0000
    ensures LeafAddress(Sv39, pte, va, 2) == BASE + va && Ppn(pte) % SuperPages(Sv39, 2) == 0
  {
    hide Pow2, Ppn;
    BigPowers();
    GigapageBits(pte);
    assert SuperPages(Sv39, 2) == 0x4_0000;
  }

  lemma GigapageTranslate(d: Dram, pte: nat, va: nat, access: Access, mode: Mode)
    requires Gigapage(d, pte) && (pte == USED || pte == FRESH) && mode.priv.Supervisor? && va < 0x4000_0000
    ensures Translate(d, SV39, va, access, mode).0 == Mapped(BASE + va)
    ensures pte == USED ==> Translate(d, SV39, va, access, mode).1 == d
    ensures pte == FRESH ==> Translate(d, SV39, va, access, mode).1 != d
  {
    hide Load, Span, Pow2, Store, Walk, LeafAddress, SuperPages, R, W, X, U, A, D, V, Ppn, ReservedHigh;
    GigapageWalk(d, pte, va);
    GigapageBits(pte);
    GigapageLeaf(pte, va);
    if pte == FRESH && Translate(d, SV39, va, access, mode).1 == d {
      SettledLeaf(d, SV39, va, access, mode);
    }
  }

  /** satp with MODE 8, ASID 0 and the root at BASE. */
  const SATP: nat := 0x8000_0000_0008_0000

  /** An S-mode hart about to return to U-mode at 0x1000, with the floating-point unit on. */
  const KERNEL: Arch :=
    Arch(0x1000, Supervisor,
         Mstatus(false, false, false, false, false, User, false, false, false, Other(false, false, false, 1, 0)),
         TrapRegs(0, 0, Exception(0), 0), TrapRegs(0, 0x1000, Exception(0), 0),
         Irqs({}, {}, {}, {}), Isa(true, true, true, true, false), false)

  lemma KernelIsLegal()
    ensures Legal(KERNEL)
  {
  }

  lemma SatpIsSv39()
    ensures SatpSpace(SATP, 64) == SV39 && SatpModeSupported(SatpMode(SATP, 64), 64)
  {
  }

  lemma WordSpan()
    ensures Span(8) == 0x1_0000_0000_0000_0000
  {
    assert Span(4) == 0x1_0000_0000;
  }

  /** DRAM with the gigapage in its first word. */
  method GuestMemory(pte: nat) returns (m: array<Byte>)
    requires pte < 0x1_0000_0000
    ensures fresh(m) && m.Length == 0x4000 && Gigapage(Memory.Dram(BASE, m[..]), pte)
  {
    hide Load, Store, Span;
    m := new Byte[0x4000](_ => 0);
    ghost var zero := m[..];
    StoreInto(m, 0, 8, pte);
    LoadAfterStore(zero, 0, 8, pte);
    WordSpan();
    ModSmall(pte, Span(8));
  }

  /** The hart with that memory, in S-mode with Sv39 on. */
  method NewHart() returns (h: Hart)
    ensures fresh(h) && fresh(h.Repr) && h.Valid() && h.highPerformance && h.xlen == 64 && h.stale == iset{}
    ensures h.arch == KERNEL && h.satp == SATP && h.context == Plain && Gigapage(h.Dram(), USED)
  {
    hide Load, Store, Span, SatpSpace, SatpMode, SatpModeSupported, Hart.Flushed, Hart.Valid, Hart.Sound, Legal,
         Gigapage;
    var m := GuestMemory(USED);
    KernelIsLegal();
    SatpIsSv39();
    h := new Hart(64, true, m, BASE, 1024, KERNEL);
    h.WriteSatp(SATP);
  }

  /** The world that hart is in. */
  ghost predicate Kernel(w: World) {
    w.arch == KERNEL && w.satp == SATP && Gigapage(w.dram, USED)
  }

  // ---- a decoded instruction outlives the privilege it was fetched at -------------------------------

  /** C.NOP, and FADD.S f0, f0, f0. */
  const NOP_INST := Inst(0x0001, false, true, Neither)
  const FADD_INST := Inst(0x53, true, true, Float)

  /** S-mode executes the instruction at 0x1000 on a page without the U bit and returns to U-mode at
      0x1000: the decode cache answers with the same instruction, where a fetch faults. */
  method DecodedAcrossReturn() returns (first: Fetched, second: Fetched, fetched: Result)
    ensures first == Executes(NOP_INST, [0x8000_1000]) && second == first && fetched == Trap(12, 0x1000)
  {
    hide Load, SatpSpace, SatpMode, SatpModeSupported, Hart.Valid, Hart.Flushed, FetchAny, HitFits, Translate,
         TableSound;
    var h := NewHart();
    var dh := new DecodingHart(h);
    ghost var w := dh.Value();
    KernelFetch(w, false);
    StaleAfterSret(64, w, EmptyTable(), 0x1000, NOP_INST);
    first := dh.FetchDecoded(0x1000, NOP_INST);
    var _ := dh.GuestStep(ReturnSupervisor);
    second := dh.FetchDecoded(0x1000, NOP_INST);
    fetched := h.Fetch(0x1000, false);
  }

  /** S-mode executes a floating-point instruction at 0x1000, clears sstatus.FS and executes it again:
      the decode cache answers. Once FENCE.I has emptied it the same fetch reports an illegal
      instruction. */
  method DecodedAcrossSwitchOff() returns (first: Fetched, second: Fetched, third: Fetched)
    ensures first == Executes(FADD_INST, [0x8000_1000, 0x8000_1002]) && second == first
    ensures third == Faults(2, 0x53)
  {
    hide Load, SatpSpace, SatpMode, SatpModeSupported, Hart.Valid, Hart.Flushed, FetchDecode, NextTable, Step, HitFits,
         Translate, TableSound, Legal, EntryOk, Kernel, Gigapage, StatusFlushes, Index, EmptyTable, EntryFresh;
    var h := NewHart();
    var dh := new DecodingHart(h);
    ghost var w := dh.Value();
    IsKernel(w);
    KernelDecode(w);
    KernelIsLegal();
    NothingHits();
    StaleAfterSwitchOff(64, w, EmptyTable(), 0x1000, FADD_INST);
    first := dh.FetchDecoded(0x1000, FADD_INST);
    SwitchOffWrites(KERNEL, Float);
    var _ := dh.GuestStep(WriteSstatus(SwitchedOff(KERNEL.mstatus, Float)));
    second := dh.FetchDecoded(0x1000, FADD_INST);
    SameFetchInContext(64, dh.Value(), 0x1000, FADD_INST);
    FenceEmpties(64, dh.Value(), dh.decoded[..]);
    var _ := dh.Perform(FenceI);
    third := dh.FetchDecoded(0x1000, FADD_INST);
  }

  lemma NothingHits()
    ensures forall pc: nat :: !Hits(EmptyTable(), pc)
  {
  }

  lemma FenceEmpties(xlen: nat, w: World, c: Table)
    requires |c| == DECODE_SIZE
    ensures NextTable(xlen, w, c, FenceI) == EmptyTable()
  {
  }

  lemma KernelDecode(w: World)
    requires Kernel(w)
    ensures FetchDecode(64, w, 0x1000, FADD_INST) == (Executes(FADD_INST, [0x8000_1000, 0x8000_1002]), w)
  {
    hide FetchAny, Gigapage;
    KernelFetch(w, true);
  }

  /** The pipeline context plays no part in a fetch. */
  lemma SameFetchInContext(xlen: nat, w: World, pc: nat, inst: Inst)
    ensures FetchDecode(xlen, System(w), pc, inst).0 == FetchDecode(xlen, w, pc, inst).0
  {
    hide FetchAny, SatpSpace, SatpAsid;
    SameEnv(xlen, w, System(w));
    SameEnvFetch(xlen, w, System(w), pc, inst.wide);
  }

  lemma KernelFetch(w: World, wide: bool)
    requires Kernel(w)
    ensures !EnvOf(64, w).sp.Bare?
    ensures FetchAny(64, w, 0x1000, wide) == (Reached(if wide then [0x8000_1000, 0x8000_1002] else [0x8000_1000]), w)
  {
    hide Load, SatpSpace, Translate, Gigapage;
    SatpIsSv39();
    GigapageTranslate(w.dram, USED, 0x1000, Code, EnvOf(64, w).Mode(Supervisor));
    assert PageOf(0x1000) == PageOf(0x1000 + 2);
  }

  // ---- a non-canonical address hits the fast path ----------------------------------------------------

  /** 0x1000 with bit 52 set as well: not canonical, and the same software-TLB tag. */
  const ALIAS: nat := 0x10_0000_0000_1000

  /** After a load from 0x1000 the fast path takes the non-canonical address to the same byte, where
      the general path raises a page fault. */
  method AliasHit() returns (loaded: Result, hit: bool, pa: nat, general: Result)
    ensures loaded == Reached([0x8000_1000])
    ensures hit && pa == 0x8000_1000 && general == Trap(13, ALIAS)
  {
    hide Load, SatpSpace, SatpMode, SatpModeSupported, Hart.Valid, Hart.Flushed, Translate, Canonical, MakeTag,
         CachelessHart.AccessAny, FreshAny, StaleAny, FastPathAddress, Hart.DirectAccess, Written,
         CachelessHart.AccessOne, Kernel, Gigapage;
    var h := NewHart();
    ghost var w := h.Value();
    IsKernel(w);
    KernelLoad(w, 0x1000, 1, Plain);
    KernelAlias(w);
    assert ALIAS % Wrap(64) == ALIAS && !CrossesPage(ALIAS, 1);
    NothingStale(w, 0x1000, 1);
    NothingStale(w, ALIAS, 1);
    LoadEditsNothing(64, w, iset{}, 0x1000, 1, Read, Plain, 0);
    loaded := h.AccessAny(0x1000, 1, Read, Plain, 0);
    assert h.Value() == w;
    assert h.InDram(0x8000_1000, 1);
    h.IsLegal();
    assert h.SoftHitAt(Read, 0x1000, Supervisor);
    SameSlot(SatpAsid(SATP, 64), Supervisor);
    assert h.SoftHitAt(Read, ALIAS, Supervisor);
    var hit1, pa1 := h.FastTarget(0x1000, 1, Read, 0);
    hit, pa := h.FastTarget(ALIAS, 1, Read, 0);
    general := h.AccessAny(ALIAS, 1, Read, Plain, 0);
  }

  lemma IsKernel(w: World)
    requires w.arch == KERNEL && w.satp == SATP && Gigapage(w.dram, USED)
    ensures Kernel(w) && w.dram.base == BASE && |w.dram.bytes| == 0x4000
  {
  }

  lemma SameSlot(asid: nat, p: Priv)
    ensures MakeTag(ALIAS / 4096, asid, p) == MakeTag(0x1000 / 4096, asid, p)
    ensures (ALIAS / 4096) % SOFT_SIZE == (0x1000 / 4096) % SOFT_SIZE && ALIAS % Wrap(64) == ALIAS
  {
    assert ALIAS / 4096 == 0x100_0000_0001 && 0x1000 / 4096 == 1;
  }

  /** With no page stale every load is of fresh pages. */
  lemma NothingStale(w: World, address: nat, size: nat)
    requires size > 0 && address < Wrap(64) && !CrossesPage(address, size)
    ensures forall kind :: FreshAny(64, w, iset{}, address, size, Read, kind, 0)
    ensures FreshOne(64, w, iset{}, address % Wrap(64))
  {
    assert address % Wrap(64) == address;
  }

  /** A load within a page goes to the same offset of the gigapage, whatever its kind when it is
      aligned. */
  lemma KernelLoad(w: World, va: nat, size: nat, kind: Kind)
    requires Kernel(w) && size in {1, 2, 4} && va < 0x4000_0000 && !CrossesPage(va, size)
    requires kind.Plain? || va % size == 0
    ensures EnvOf(64, w).sp == SV39 && Translating(SV39, EnvOf(64, w).Mode(DataPrivilege(w.arch)))
    ensures CachelessHart.AccessAny(64, w, va, size, Read, kind, 0) == (Reached([BASE + va]), w)
    ensures FastPathAddress(64, w, va) && va % Wrap(64) == va
  {
    hide Load, SatpSpace, Translate, Gigapage;
    SatpIsSv39();
    var mode := EnvOf(64, w).Mode(Supervisor);
    GigapageTranslate(w.dram, USED, va, Read, mode);
    assert va % Wrap(64) == va;
  }

  /** A misaligned access of an AMO is refused before anything else. */
  lemma MisalignedAmo(w: World)
    ensures CachelessHart.AccessAny(64, w, 0x1001, 2, Read, Amo, 0) == (Trap(6, 0x1001), w)
    ensures StaleAny(64, w, iset{}, 0x1001, 2, Read, Amo, 0) == iset{}
  {
    hide CachelessHart.AccessOne, CachelessHart.AccessBytes;
    assert 0x1001 % Wrap(64) == 0x1001;
  }

  lemma KernelAlias(w: World)
    requires Kernel(w)
    ensures CachelessHart.AccessAny(64, w, ALIAS, 1, Read, Plain, 0) == (Trap(13, ALIAS), w)
  {
    hide Load, SatpSpace, Translate, Gigapage;
    SatpIsSv39();
    assert ALIAS % Wrap(64) == ALIAS;
    NonCanonicalAccess(64, w, ALIAS, 1, Read, Plain, 0);
  }

  // ---- a decoded load after an AMO -------------------------------------------------------------------

  /** An AMO through the staged path, then a decoded LH at an odd address of the same page: the pipeline
      context still holds the AMO, and the load reports a misaligned store, where a plain load reads
      the two bytes. */
  method LoadAfterAmo() returns (amo: Result, cached: Result, plain: Result)
    ensures amo == Reached([0x8000_1000])
    ensures cached == Trap(6, 0x1001) && plain == Reached([0x8000_1001])
  {
    hide Load, SatpSpace, SatpMode, SatpModeSupported, Hart.Valid, Hart.Flushed, CachelessHart.AccessAny, FreshAny,
         StaleAny, FastPathAddress, Kernel, Gigapage, Hart.SoftHitAt, Hart.FastHits, Translate, Canonical, FreshOne,
         Hart.InDram;
    var h;
    h, amo := AmoFirst();
    ghost var w := h.Value();
    KernelLoad(w, 0x1001, 2, Plain);
    NothingStale(w, 0x1001, 2);
    MisalignedAmo(w);
    LoadEditsNothing(64, w, iset{}, 0x1001, 2, Read, Plain, 0);
    h.IsLegal();
    cached := h.CachedAccess(0x1001, 2, Read, 0);
    plain := h.AccessAny(0x1001, 2, Read, Plain, 0);
  }

  method AmoFirst() returns (h: Hart, amo: Result)
    ensures fresh(h) && fresh(h.Repr) && h.Valid() && h.xlen == 64 && h.stale == iset{}
    ensures Kernel(h.Value()) && h.context == Amo && amo == Reached([0x8000_1000])
  {
    hide Load, SatpSpace, SatpMode, SatpModeSupported, Hart.Valid, Hart.Flushed, CachelessHart.AccessAny, FreshAny,
         StaleAny, Kernel, Gigapage, Hart.SoftHitAt, Translate, Canonical, FreshOne, Hart.InDram;
    h := NewHart();
    ghost var w := h.Value();
    IsKernel(w);
    KernelLoad(w, 0x1000, 4, Amo);
    NothingStale(w, 0x1000, 4);
    LoadEditsNothing(64, w, iset{}, 0x1000, 4, Read, Amo, 0);
    amo := h.Perform(Access(0x1000, 4, Read, Amo, 0));
    SameKernel(w, h.Value());
  }

  lemma SameKernel(w: World, w1: World)
    requires Kernel(w) && w1 == w.(context := w1.context)
    ensures Kernel(w1)
  {
  }

  // ---- a satp write between LR and SC ----------------------------------------------------------------

  /** A root table that is also its own second and third level: entry 2 and entry 0 point back to it,
      entry 1 maps a page to 0x8000_2000. */
  ghost predicate SelfMap(d: Dram) {
    d.base == BASE && |d.bytes| == 0x4000
    && d.Get(BASE, 8) == 0x2000_0001 && d.Get(BASE + 8, 8) == 0x2000_08CF && d.Get(BASE + 16, 8) == 0x2000_0001
  }

  /** What the two kinds of entry say. */
  lemma EntryBits()
    ensures var p := 0x2000_0001;
            V(p) && !R(p) && !W(p) && !X(p) && !U(p) && !A(p) && !D(p) && Ppn(p) == 0x8_0000 && !ReservedHigh(Sv39, p)
    ensures var p := 0x2000_08CF;
            V(p) && R(p) && W(p) && X(p) && !U(p) && A(p) && D(p) && Ppn(p) == 0x8_0002 && !ReservedHigh(Sv39, p)
  {
  }

  lemma SelfMapFields()
    ensures VpnField(Sv39, 0x8000_1000, 2) == 2
    ensures VpnField(Sv39, 0x8000_1000, 1) == 0
    ensures VpnField(Sv39, 0x8000_1000, 0) == 1
  {
    hide VpnField, Pow2;
    FieldAt(2, 0x4000_0000);
    FieldAt(1, 0x20_0000);
    FieldAt(0, 0x1000);
  }

  lemma FieldAt(i: nat, s: nat)
    requires (i == 2 && s == 0x4000_0000) || (i == 1 && s == 0x20_0000) || (i == 0 && s == 0x1000)
    ensures VpnField(Sv39, 0x8000_1000, i) == (0x8000_1000 / s) % 512
  {
    hide Pow2;
    BigPowers();
    SmallPowers();
    Pow2Sum(9, 12);
    assert Pow2(12 + i * 9) == s;
  }

  lemma SelfMapWalk(d: Dram)
    requires SelfMap(d)
    ensures Walk(d, Sv39, BASE, 0x8000_1000, 2) == Leaf(BASE + 8, 0x2000_08CF, 0)
  {
    hide Load, Span, VpnField, V, R, W, X, U, A, D, Ppn, ReservedHigh;
    EntryBits();
    SelfMapFields();
    assert Walk(d, Sv39, BASE, 0x8000_1000, 0) == Leaf(BASE + 8, 0x2000_08CF, 0);
    assert Walk(d, Sv39, BASE, 0x8000_1000, 1) == Walk(d, Sv39, BASE, 0x8000_1000, 0);
  }

  lemma SelfMapTranslate(d: Dram, access: Access, mode: Mode)
    requires SelfMap(d) && mode.priv.Supervisor?
    ensures Translate(d, SV39, 0x8000_1000, access, mode) == (Mapped(0x8000_2000), d)
  {
    hide Load, Span, Pow2, Store, V, R, W, X, U, A, D, Ppn, ReservedHigh, Walk, LeafAddress, SuperPages;
    SelfMapWalk(d);
    EntryBits();
    SelfMapLeaf();
  }

  lemma SelfMapLeaf()
    ensures SuperPages(Sv39, 0) == 1 && LeafAddress(Sv39, 0x2000_08CF, 0x8000_1000, 0) == 0x8000_2000
  {
    SmallPowers();
  }

  /** Such a memory exists. */
  lemma SelfMapExists() returns (d: Dram)
    ensures SelfMap(d)
  {
    hide Load, Store, Span;
    WordSpan();
    var m0: seq<Byte> := seq(0x4000, _ => 0);
    var m1 := Store(m0, 0, 8, 0x2000_0001);
    var m2 := Store(m1, 8, 8, 0x2000_08CF);
    var m3 := Store(m2, 16, 8, 0x2000_0001);
    LoadAfterStore(m0, 0, 8, 0x2000_0001);
    LoadAfterStore(m1, 8, 8, 0x2000_08CF);
    LoadAfterStore(m2, 16, 8, 0x2000_0001);
    ModSmall(0x2000_0001, Span(8));
    ModSmall(0x2000_08CF, Span(8));
    ApartLoad(m1, 8, 0x2000_08CF, 0);
    ApartLoad(m2, 16, 0x2000_0001, 0);
    ApartLoad(m2, 16, 0x2000_0001, 8);
    d := Memory.Dram(BASE, m3);
  }

  lemma ApartLoad(m: seq<Byte>, at: nat, v: nat, off: nat)
    requires off + 8 <= at && at + 8 <= |m|
    ensures Load(Store(m, at, 8, v), off, 8) == Load(m, off, 8)
  {
    hide Load, Store;
    forall k | off <= k < off + 8 ensures Store(m, at, 8, v)[k] == m[k] {
      StoreFrame(m, at, 8, v, k);
    }
    LoadFrame(Store(m, at, 8, v), m, off, 8);
  }

  /** LR.D at 0x8000_1000 reads 0x8000_2000; satp is set to 0; SC.D at the same address succeeds and
      stores at 0x8000_1000, which the LR never read. */
  lemma ScStoresElsewhere(d: Dram, last: ReservedRuns.Load)
    requires SelfMap(d)
    ensures var code := [ReservedRuns.Lr(0x8000_1000, 8), ReservedRuns.Guest(WriteSatp(0)),
                         ReservedRuns.Sc(0x8000_1000, 8, 7)];
            var s0 := ReservedRuns.State(World(d, KERNEL, SATP, Plain), 0, last);
            var s1 := ReservedRuns.StepInstr(64, s0, code[0]);
            var s2 := ReservedRuns.StepInstr(64, s1.1, code[1]);
            var s3 := ReservedRuns.StepInstr(64, s2.1, code[2]);
            && s1.0 == ReservedRuns.Loaded(0x8000_2000) && s3.0 == ReservedRuns.Stored(0x8000_1000)
            && s3.1.w.dram == d.Put(0x8000_1000, 8, 7)
  {
    hide Load, Store, SatpSpace, Translate, SelfMap;
    SatpIsSv39();
    SatpZero();
    var w := World(d, KERNEL, SATP, Plain);
    SelfMapTranslate(d, Read, EnvOf(64, w).Mode(Supervisor));
    assert 0x8000_1000 % Wrap(64) == 0x8000_1000;
    assert CachelessHart.AccessAny(64, w, 0x8000_1000, 8, Read, LoadReserved, 0) == (Reached([0x8000_2000]), w);
    var w2 := World(d, KERNEL.(reserved := true), 0, Plain);
    InDramAt(d);
    UntranslatedAccess(64, w2, 0x8000_1000, 8, Write, Amo, 7);
  }

  lemma SatpZero()
    ensures SatpSpace(0, 64) == Bare && SatpModeSupported(SatpMode(0, 64), 64)
  {
  }

  lemma InDramAt(d: Dram)
    requires SelfMap(d)
    ensures d.Contains(0x8000_1000, 8)
  {
  }

  /** An LR.W followed by an SC.D at its address: the SC succeeds and writes four bytes the LR did not
      read. */
  lemma ScWiderThanLr(d: Dram, last: ReservedRuns.Load)
    requires d.Contains(0x8000_1000, 8)
    ensures var code := [ReservedRuns.Lr(0x8000_1000, 4), ReservedRuns.Sc(0x8000_1000, 8, 7)];
            var s0 := ReservedRuns.State(World(d, KERNEL, 0, Plain), 0, last);
            var s1 := ReservedRuns.StepInstr(64, s0, code[0]);
            var s2 := ReservedRuns.StepInstr(64, s1.1, code[1]);
            && s1.0 == ReservedRuns.Loaded(0x8000_1000) && s2.0 == ReservedRuns.Stored(0x8000_1000)
            && s2.1.w.dram == d.Put(0x8000_1000, 8, 7) && !ReservedRuns.Within(0x8000_1000, 8, s1.1.last)
  {
    hide Load, Store, SatpSpace;
    SatpZero();
    assert 0x8000_1000 % Wrap(64) == 0x8000_1000;
    var w := World(d, KERNEL, 0, Plain);
    UntranslatedAccess(64, w, 0x8000_1000, 4, Read, LoadReserved, 0);
    UntranslatedAccess(64, w.(arch := KERNEL.(reserved := true)), 0x8000_1000, 8, Write, Amo, 7);
  }

  // ---- a backstep over a walk that sets A and D ------------------------------------------------------

  /** A store through a page whose entry has A and D clear, taken back: the byte stored is restored,
      the entry is not. */
  lemma BackstepKeepsAD(d: Dram, data: nat)
    requires Gigapage(d, FRESH)
    ensures var w := World(d, KERNEL, SATP, Plain);
            var r := BackstepWalks.TranslatedStore(64, w, 0x1000, 0, data);
            r.0 == Reached([0x8000_1000]) && BackstepWalks.TakenBack(64, w, 0x1000, 0, data) != d
  {
    hide Load, Store, SatpSpace, Translate, Gigapage;
    SatpIsSv39();
    var w := World(d, KERNEL, SATP, Plain);
    assert 0x1000 % Wrap(64) == 0x1000;
    GigapageTranslate(d, FRESH, 0x1000, Write, EnvOf(64, w).Mode(Supervisor));
    GigapageBytes(d);
    BackstepWalks.TakenBackIff(64, w, 0x1000, 0, data);
  }

  lemma GigapageBytes(d: Dram)
    requires Gigapage(d, FRESH)
    ensures d.base == BASE && |d.bytes| == 0x4000
  {
  }
}
