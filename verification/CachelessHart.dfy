/** The reference hart: every fetch, load and store does a fresh page walk. It has no TLB of any
    kind, so nothing in it can be stale. */
module CachelessHart {

  import opened Memory
  import opened PageTable
  import opened PageWalker
  import opened Privileged
  import opened TlbCoherence

  /** LR and AMO accesses must be naturally aligned and report their own faults. */
  datatype Kind = Plain | LoadReserved | Amo

  /** What the guest can observe of translation: memory, architectural state and satp; and the kind of
      the instruction that was decoded last, which the pipeline context holds. */
  datatype World = World(dram: Dram, arch: Arch, satp: nat, context: Kind)

  /** The physical addresses an access reached, one per physical access, or its trap. */
  datatype Result = Reached(pas: seq<nat>) | Trap(cause: nat, tval: nat)

  function Wrap(xlen: nat): (r: nat)
    ensures r == 0x1_0000_0000 || r == 0x1_0000_0000_0000_0000
  {
    if xlen == 64 then 0x1_0000_0000_0000_0000 else 0x1_0000_0000
  }

  function MakeEnv(xlen: nat, arch: Arch, satp: nat): (env: Env)
    ensures env.Valid()
  {
    Env(SatpSpace(satp, xlen), SatpAsid(satp, xlen), arch.mstatus.sum, arch.mstatus.mxr, Wrap(xlen))
  }

  function EnvOf(xlen: nat, w: World): (env: Env)
    ensures env.Valid()
  {
    MakeEnv(xlen, w.arch, w.satp)
  }

  /** One access that stays within a page. */
  function AccessOne(xlen: nat, w: World, va: nat, size: nat, access: Access, kind: Kind, data: nat)
    : (r: (Result, World))
    requires size > 0
  {
    var env := EnvOf(xlen, w);
    var mode := env.Mode(DataPrivilege(w.arch));
    if Translating(env.sp, mode) && !Canonical(env.sp, va) then
      (Trap(if access.Read? && !kind.Plain? then 15 else PageFaultCause(access), va), w)
    else
      var (t, d) := Translate(w.dram, env.sp, va, access, mode);
      match t
      case Denied(cause) => (Trap(cause, va), w.(dram := d))
      case Mapped(pa) => (Reached([pa]), w.(dram := Written(d, pa, size, access, data)))
  }

  /** The memory effect of an access at pa: stores that hit DRAM write it. */
  function Written(d: Dram, pa: nat, size: nat, access: Access, data: nat): Dram
    requires size > 0
  {
    if access.Write? && d.Contains(pa, size) then d.Put(pa, size, data) else d
  }

  /** The page is not one whose translation was edited and not fenced since. */
  ghost predicate FreshOne(xlen: nat, w: World, stale: iset<nat>, va: nat) {
    Translating(EnvOf(xlen, w).sp, EnvOf(xlen, w).Mode(DataPrivilege(w.arch))) ==> PageOf(va) !in stale
  }

  /** The pages whose translation the access edits, after its own walk. */
  ghost function EditOne(xlen: nat, w: World, va: nat, size: nat, access: Access, kind: Kind, data: nat): iset<nat>
    requires size > 0
  {
    var env := EnvOf(xlen, w);
    var walked := Translate(w.dram, env.sp, va, access, env.Mode(DataPrivilege(w.arch))).1;
    Changed(walked, AccessOne(xlen, w, va, size, access, kind, data).1.dram, env)
  }

  ghost function StaleOne(xlen: nat, w: World, stale: iset<nat>, va: nat, size: nat, access: Access, kind: Kind,
                          data: nat): iset<nat>
    requires size > 0
  {
    stale + EditOne(xlen, w, va, size, access, kind, data)
  }

  function ByteOf(data: nat, b: nat): nat { Above(data, b) % 256 }

  /** A page-crossing access: one access per byte from byte b on, stopping at the first trap. */
  function AccessBytes(xlen: nat, w: World, va: nat, b: nat, size: nat, access: Access, kind: Kind, data: nat)
    : (r: (Result, World))
    requires b <= size
    decreases size - b
  {
    if b == size then (Reached([]), w)
    else
      var (r1, w1) := AccessOne(xlen, w, (va + b) % Wrap(xlen), 1, access, kind, ByteOf(data, b));
      if r1.Trap? then (Trap(r1.cause, va), w1)
      else
        var (r2, w2) := AccessBytes(xlen, w1, va, b + 1, size, access, kind, data);
        (if r2.Trap? then r2 else Reached(r1.pas + r2.pas), w2)
  }

  ghost function StaleBytes(xlen: nat, w: World, stale: iset<nat>, va: nat, b: nat, size: nat, access: Access,
                            kind: Kind, data: nat): iset<nat>
    requires b <= size
    decreases size - b
  {
    if b == size then stale
    else
      var at, byte := (va + b) % Wrap(xlen), ByteOf(data, b);
      var (r1, w1) := AccessOne(xlen, w, at, 1, access, kind, byte);
      var stale1 := StaleOne(xlen, w, stale, at, 1, access, kind, byte);
      if r1.Trap? then stale1 else StaleBytes(xlen, w1, stale1, va, b + 1, size, access, kind, data)
  }

  ghost predicate FreshBytes(xlen: nat, w: World, stale: iset<nat>, va: nat, b: nat, size: nat, access: Access,
                             kind: Kind, data: nat)
    requires b <= size
    decreases size - b
  {
    b == size ||
    (var at, byte := (va + b) % Wrap(xlen), ByteOf(data, b);
     var (r1, w1) := AccessOne(xlen, w, at, 1, access, kind, byte);
     var stale1 := StaleOne(xlen, w, stale, at, 1, access, kind, byte);
     && FreshOne(xlen, w, stale, at)
     && (r1.Reached? ==> FreshBytes(xlen, w1, stale1, va, b + 1, size, access, kind, data)))
  }

  lemma BytesUnrolled(xlen: nat, w: World, stale: iset<nat>, va: nat, b: nat, size: nat, access: Access, kind: Kind,
                      data: nat)
    requires b < size
    ensures var at, byte := (va + b) % Wrap(xlen), ByteOf(data, b);
            var (r1, w1) := AccessOne(xlen, w, at, 1, access, kind, byte);
            var stale1 := StaleOne(xlen, w, stale, at, 1, access, kind, byte);
            var (r, w') := AccessBytes(xlen, w, va, b, size, access, kind, data);
            var rest := AccessBytes(xlen, w1, va, b + 1, size, access, kind, data);
            var last := StaleBytes(xlen, w, stale, va, b, size, access, kind, data);
            && (FreshBytes(xlen, w, stale, va, b, size, access, kind, data) ==> FreshOne(xlen, w, stale, at))
            && (if r1.Trap? then r == Trap(r1.cause, va) && w' == w1 && last == stale1
                else
                  && r == (if rest.0.Trap? then rest.0 else Reached(r1.pas + rest.0.pas)) && w' == rest.1
                  && last == StaleBytes(xlen, w1, stale1, va, b + 1, size, access, kind, data)
                  && (FreshBytes(xlen, w, stale, va, b, size, access, kind, data) ==>
                        FreshBytes(xlen, w1, stale1, va, b + 1, size, access, kind, data)))
  {
    hide AccessOne, StaleOne, FreshOne, ByteOf;
    var at, byte := (va + b) % Wrap(xlen), ByteOf(data, b);
    var (r1, w1) := AccessOne(xlen, w, at, 1, access, kind, byte);
    var stale1 := StaleOne(xlen, w, stale, at, 1, access, kind, byte);
    assert FreshBytes(xlen, w, stale, va, b, size, access, kind, data)
        == (FreshOne(xlen, w, stale, at)
            && (r1.Reached? ==> FreshBytes(xlen, w1, stale1, va, b + 1, size, access, kind, data)));
  }

  lemma BytesOver(xlen: nat, w: World, stale: iset<nat>, va: nat, size: nat, access: Access, kind: Kind, data: nat)
    ensures AccessBytes(xlen, w, va, size, size, access, kind, data) == (Reached([]), w)
    ensures StaleBytes(xlen, w, stale, va, size, size, access, kind, data) == stale
  {
  }

  predicate CrossesPage(va: nat, size: nat) { va % 4096 + size > 4096 }

  /** A load or store of any alignment. */
  function AccessAny(xlen: nat, w: World, address: nat, size: nat, access: Access, kind: Kind, data: nat)
    : (r: (Result, World))
    requires size > 0
  {
    var va := address % Wrap(xlen);
    if va % size != 0 && !kind.Plain? then
      (Trap(if access.Write? || kind.Amo? then 6 else 4, va), w)
    else if CrossesPage(va, size) then AccessBytes(xlen, w, va, 0, size, access, kind, data)
    else AccessOne(xlen, w, va, size, access, kind, data)
  }

  ghost function StaleAny(xlen: nat, w: World, stale: iset<nat>, address: nat, size: nat, access: Access, kind: Kind,
                          data: nat): iset<nat>
    requires size > 0
  {
    var va := address % Wrap(xlen);
    if va % size != 0 && !kind.Plain? then stale
    else if CrossesPage(va, size) then StaleBytes(xlen, w, stale, va, 0, size, access, kind, data)
    else StaleOne(xlen, w, stale, va, size, access, kind, data)
  }

  ghost predicate FreshAny(xlen: nat, w: World, stale: iset<nat>, address: nat, size: nat, access: Access, kind: Kind,
                           data: nat)
    requires size > 0
  {
    var va := address % Wrap(xlen);
    if va % size != 0 && !kind.Plain? then true
    else if CrossesPage(va, size) then FreshBytes(xlen, w, stale, va, 0, size, access, kind, data)
    else FreshOne(xlen, w, stale, va)
  }

  /** The address a fetch at pc is translated at: truncated only without translation. */
  function FetchAddress(xlen: nat, w: World, pc: nat): nat {
    var env := EnvOf(xlen, w);
    if Translating(env.sp, env.Mode(w.arch.priv)) then pc else pc % Wrap(xlen)
  }

  function NextHalf(pc: nat): nat { (pc + 2) % WORD }

  function FetchHalf(xlen: nat, w: World, pc: nat): (r: (Result, World)) {
    var env := EnvOf(xlen, w);
    var (t, d) := Translate(w.dram, env.sp, FetchAddress(xlen, w, pc), Code, env.Mode(w.arch.priv));
    match t
    case Denied(cause) => (Trap(cause, pc), w.(dram := d))
    case Mapped(pa) => (Reached([pa]), w.(dram := d))
  }

  /** An instruction fetch: the first halfword, and the second when the instruction is 32 bits
      long. Only a second halfword on the next page is translated separately. */
  function FetchAny(xlen: nat, w: World, pc: nat, wide: bool): (r: (Result, World)) {
    if pc % Ialign(w.arch) != 0 then (Trap(0, pc), w)
    else
      var (r1, w1) := FetchHalf(xlen, w, pc);
      if r1.Trap? || !wide then (r1, w1)
      else if PageOf(pc) == PageOf(pc + 2) then (Reached([r1.pas[0], r1.pas[0] + 2]), w1)
      else
        var (r2, w2) := FetchHalf(xlen, w1, NextHalf(pc));
        (if r2.Trap? then r2 else Reached(r1.pas + r2.pas), w2)
  }

  /** A second halfword is translated on its own: it lies on the next page. */
  predicate Split(pc: nat, wide: bool) { wide && PageOf(pc) != PageOf(pc + 2) }

  /** Where a fetch without translation finds its halfwords. */
  function Physical(xlen: nat, pc: nat, wide: bool): seq<nat> {
    if !wide then [pc % Wrap(xlen)]
    else if Split(pc, wide) then [pc % Wrap(xlen), NextHalf(pc) % Wrap(xlen)]
    else [pc % Wrap(xlen), pc % Wrap(xlen) + 2]
  }

  /** One step of a guest run. `Decode` is an instruction of the given kind entering the pipeline
      context, by the decode stage or by the fallback of the decoded path; a staged access and the CSR
      and system instructions decode themselves. `CachedAccess` is a plain load or store of the decoded
      path, which leaves the context alone. */
  datatype Op =
    | Fetch(pc: nat, wide: bool)
    | Decode(kind: Kind)
    | Access(address: nat, size: nat, access: Access, kind: Kind, data: nat)
    | CachedAccess(address: nat, size: nat, access: Access, data: nat)
    | WriteSatp(value: nat)
    | WriteMstatus(w: Mstatus, mpp: nat)
    | WriteSstatus(w: Mstatus)
    | TakeTrap(cause: Cause, tval: nat)
    | ReturnMachine
    | ReturnSupervisor
    | SfenceVma(allVaddr: bool, vaddr: nat, allAsid: bool, asid: nat)

  predicate WellFormed(op: Op) {
    match op
    case Access(_, size, access, _, _) => size in {1, 2, 4, 8} && !access.Code?
    case CachedAccess(_, size, access, _) => size in {1, 2, 4, 8} && !access.Code?
    case _ => true
  }

  function Step(xlen: nat, w: World, op: Op): (r: (Result, World))
    requires WellFormed(op)
  {
    match op
    case Fetch(pc, wide) => FetchAny(xlen, w, pc, wide)
    case Decode(kind) => (Reached([]), w.(context := kind))
    case Access(a, size, access, kind, data) =>
      var (r, w1) := AccessAny(xlen, w, a, size, access, kind, data);
      (r, w1.(context := kind))
    case CachedAccess(a, size, access, data) => AccessAny(xlen, w, a, size, access, Plain, data)
    case WriteSatp(v) =>
      (Reached([]), System(if SatpModeSupported(SatpMode(v, xlen), xlen) then w.(satp := v) else w))
    case WriteMstatus(m, mpp) =>
      (Reached([]), System(w.(arch := w.arch.(mstatus := SetMstatus(w.arch.isa, m, mpp)))))
    case WriteSstatus(m) =>
      (Reached([]), System(w.(arch := w.arch.(mstatus := SetSstatus(w.arch.isa, w.arch.mstatus, m)))))
    case TakeTrap(cause, tval) => (Reached([]), w.(arch := RaiseException(w.arch, cause, tval)))
    case ReturnMachine => (Reached([]), System(w.(arch := Privileged.Mret(w.arch))))
    case ReturnSupervisor =>
      (Reached([]), System(w.(arch := if w.arch.isa.s then Privileged.Sret(w.arch) else w.arch)))
    case SfenceVma(_, _, _, _) => (Reached([]), System(w))
  }

  /** A system instruction is in the pipeline context. */
  function System(w: World): World { w.(context := Plain) }

  /** The decision of a status write to flush, on the legalised value before masking. */
  predicate StatusFlushes(a: Arch, w: Mstatus, mpp: nat) {
    var old0 := a.mstatus;
    || old0.mprv != w.mprv || old0.sum != w.sum || old0.mxr != w.mxr
    || (old0.mprv && old0.mpp != LegalMpp(mpp, a.isa))
  }

  /** The pages whose translation was edited and not fenced since: an access adds those it edits; a
      flush of everything, by a new satp, by status or by an SFENCE.VMA for the current address space,
      leaves none; an SFENCE.VMA with an address takes away that one 4 KiB page only. */
  ghost function NextStale(xlen: nat, w: World, stale: iset<nat>, op: Op): iset<nat>
    requires WellFormed(op)
  {
    match op
    case Access(a, size, access, kind, data) => StaleAny(xlen, w, stale, a, size, access, kind, data)
    case CachedAccess(a, size, access, data) => StaleAny(xlen, w, stale, a, size, access, Plain, data)
    case WriteSatp(v) => if SatpModeSupported(SatpMode(v, xlen), xlen) && v != w.satp then iset{} else stale
    case WriteMstatus(s, mpp) => if StatusFlushes(w.arch, s, mpp) then iset{} else stale
    case WriteSstatus(s) =>
      if StatusFlushes(w.arch, SstatusAsMstatus(w.arch.mstatus, s), Level(w.arch.mstatus.mpp)) then iset{} else stale
    case SfenceVma(allVaddr, vaddr, allAsid, asid) =>
      if !allAsid && asid != EnvOf(xlen, w).asid then stale
      else if allVaddr then iset{}
      else stale - iset{PageOf(vaddr)}
    case _ => stale
  }

  ghost predicate FreshFetch(xlen: nat, w: World, stale: iset<nat>, pc: nat, wide: bool) {
    Translating(EnvOf(xlen, w).sp, EnvOf(xlen, w).Mode(w.arch.priv)) ==>
      PageOf(pc) !in stale && (Split(pc, wide) ==> PageOf(NextHalf(pc)) !in stale)
  }

  /** The step translates no stale page, and an access of the decoded path fits. */
  ghost predicate Fresh(xlen: nat, w: World, stale: iset<nat>, op: Op)
    requires WellFormed(op)
  {
    match op
    case Fetch(pc, wide) => FreshFetch(xlen, w, stale, pc, wide)
    case Access(a, size, access, kind, data) => FreshAny(xlen, w, stale, a, size, access, kind, data)
    case CachedAccess(a, size, access, data) =>
      FreshAny(xlen, w, stale, a, size, access, Plain, data) && CachedFits(xlen, w, a, size)
    case _ => true
  }

  /** A load or store of the decoded path may be trusted: its address is canonical or untranslated,
      and it is aligned or the context does not hold an LR or an AMO. */
  predicate CachedFits(xlen: nat, w: World, address: nat, size: nat)
    requires size > 0
  {
    FastPathAddress(xlen, w, address) && (address % size == 0 || w.context.Plain?)
  }

  predicate FastPathAddress(xlen: nat, w: World, address: nat) {
    var env := EnvOf(xlen, w);
    Translating(env.sp, env.Mode(DataPrivilege(w.arch))) ==> Canonical(env.sp, address % Wrap(xlen))
  }

  function Run(xlen: nat, w: World, ops: seq<Op>): (r: (seq<Result>, World))
    requires forall k :: 0 <= k < |ops| ==> WellFormed(ops[k])
    decreases |ops|
  {
    if ops == [] then ([], w)
    else
      var (r1, w1) := Step(xlen, w, ops[0]);
      var (rs, w2) := Run(xlen, w1, ops[1..]);
      ([r1] + rs, w2)
  }

  ghost predicate FreshRun(xlen: nat, w: World, stale: iset<nat>, ops: seq<Op>)
    requires forall k :: 0 <= k < |ops| ==> WellFormed(ops[k])
    decreases |ops|
  {
    ops == [] ||
    (Fresh(xlen, w, stale, ops[0])
     && FreshRun(xlen, Step(xlen, w, ops[0]).1, NextStale(xlen, w, stale, ops[0]), ops[1..]))
  }

  lemma RunUnrolled(xlen: nat, w: World, stale: iset<nat>, ops: seq<Op>, k: nat)
    requires k < |ops| && forall i :: 0 <= i < |ops| ==> WellFormed(ops[i])
    ensures var (r1, w1) := Step(xlen, w, ops[k]);
            var (rs, w2) := Run(xlen, w1, ops[k + 1..]);
            Run(xlen, w, ops[k..]) == ([r1] + rs, w2)
    ensures FreshRun(xlen, w, stale, ops[k..]) ==>
              && Fresh(xlen, w, stale, ops[k])
              && FreshRun(xlen, Step(xlen, w, ops[k]).1, NextStale(xlen, w, stale, ops[k]), ops[k + 1..])
  {
    hide Step, Fresh, NextStale, WellFormed;
    assert ops[k..][0] == ops[k] && ops[k..][1..] == ops[k + 1..];
  }

  lemma RunOver(xlen: nat, w: World, ops: seq<Op>)
    requires forall i :: 0 <= i < |ops| ==> WellFormed(ops[i])
    ensures Run(xlen, w, ops[|ops|..]) == ([], w)
  {
  }

  /** A store that misses every live page-table word leaves the tables as they were. */
  lemma SafeStoreKeepsTables(d: Dram, sp: Space, pa: nat, size: nat, data: nat)
    requires d.Contains(pa, size) && forall k :: pa <= k < pa + size ==> !Live(d, sp, k)
    ensures SameTables(d, d.Put(pa, size, data), sp)
  {
    hide Live;
    forall k | 0 <= k < |d.bytes| && Live(d, sp, d.base + k)
      ensures d.Put(pa, size, data).bytes[k] == d.bytes[k]
    {
      StoreFrame(d.bytes, pa - d.base, size, data, k);
    }
  }

  /** A store that misses every live page-table word makes no page stale. */
  lemma SafeStoreChangesNothing(xlen: nat, w: World, d: Dram, pa: nat, size: nat, data: nat)
    requires d.Contains(pa, size) && forall k :: pa <= k < pa + size ==> !Live(d, EnvOf(xlen, w).sp, k)
    ensures Changed(d, d.Put(pa, size, data), EnvOf(xlen, w)) == iset{}
  {
    hide Live, SameTables, Changed, SatpSpace, SatpAsid;
    SafeStoreKeepsTables(d, EnvOf(xlen, w).sp, pa, size, data);
    OrdinaryStoreChangesNothing(d, d.Put(pa, size, data), EnvOf(xlen, w));
  }

  /** What AccessOne is when the page is settled: no walk writes, and the address is known. */
  lemma SettledAccess(xlen: nat, w: World, va: nat, size: nat, access: Access, kind: Kind, data: nat, pa: nat)
    requires size > 0 && Settled(w.dram, EnvOf(xlen, w), va, access, DataPrivilege(w.arch), pa)
    ensures AccessOne(xlen, w, va, size, access, kind, data)
         == (Reached([pa]), w.(dram := Written(w.dram, pa, size, access, data)))
    ensures EditOne(xlen, w, va, size, access, kind, data)
         == Changed(w.dram, Written(w.dram, pa, size, access, data), EnvOf(xlen, w))
  {
    hide Translate, Canonical, Changed, SatpSpace, SatpAsid;
  }

  lemma UntranslatedAccess(xlen: nat, w: World, va: nat, size: nat, access: Access, kind: Kind, data: nat)
    requires size > 0 && !Translating(EnvOf(xlen, w).sp, EnvOf(xlen, w).Mode(DataPrivilege(w.arch)))
    ensures AccessOne(xlen, w, va, size, access, kind, data)
         == (Reached([va]), w.(dram := Written(w.dram, va, size, access, data)))
    ensures EditOne(xlen, w, va, size, access, kind, data)
         == Changed(w.dram, Written(w.dram, va, size, access, data), EnvOf(xlen, w))
  {
    hide Canonical, Changed, SatpSpace, SatpAsid;
  }

  lemma WalkedAccess(xlen: nat, w: World, va: nat, size: nat, access: Access, kind: Kind, data: nat,
                     t: Translation, d: Dram)
    requires size > 0
    requires Translating(EnvOf(xlen, w).sp, EnvOf(xlen, w).Mode(DataPrivilege(w.arch)))
    requires Canonical(EnvOf(xlen, w).sp, va)
    requires (t, d) == Translate(w.dram, EnvOf(xlen, w).sp, va, access, EnvOf(xlen, w).Mode(DataPrivilege(w.arch)))
    ensures t.Denied? ==> AccessOne(xlen, w, va, size, access, kind, data) == (Trap(t.cause, va), w.(dram := d))
    ensures t.Mapped? ==>
              (AccessOne(xlen, w, va, size, access, kind, data)
               == (Reached([t.pa]), w.(dram := Written(d, t.pa, size, access, data))))
    ensures EditOne(xlen, w, va, size, access, kind, data)
         == if t.Denied? then iset{} else Changed(d, Written(d, t.pa, size, access, data), EnvOf(xlen, w))
  {
    hide Translate, Canonical, Changed, SatpSpace, SatpAsid;
    ChangedByNothing(d, EnvOf(xlen, w));
  }

  lemma UntranslatedFetch(xlen: nat, w: World, pc: nat, wide: bool)
    requires !Translating(EnvOf(xlen, w).sp, EnvOf(xlen, w).Mode(w.arch.priv)) && pc % Ialign(w.arch) == 0
    ensures FetchAny(xlen, w, pc, wide) == (Reached(Physical(xlen, pc, wide)), w)
  {
    hide SatpSpace, SatpAsid, PageOf, Wrap, Ialign;
    assert FetchHalf(xlen, w, pc) == (Reached([pc % Wrap(xlen)]), w);
    assert FetchHalf(xlen, w, NextHalf(pc)) == (Reached([NextHalf(pc) % Wrap(xlen)]), w);
    assert [pc % Wrap(xlen)] + [NextHalf(pc) % Wrap(xlen)] == [pc % Wrap(xlen), NextHalf(pc) % Wrap(xlen)];
  }

  lemma NonCanonicalAccess(xlen: nat, w: World, va: nat, size: nat, access: Access, kind: Kind, data: nat)
    requires size > 0
    requires Translating(EnvOf(xlen, w).sp, EnvOf(xlen, w).Mode(DataPrivilege(w.arch)))
    requires !Canonical(EnvOf(xlen, w).sp, va)
    ensures AccessOne(xlen, w, va, size, access, kind, data)
         == (Trap(if access.Read? && !kind.Plain? then 15 else PageFaultCause(access), va), w)
    ensures EditOne(xlen, w, va, size, access, kind, data) == iset{}
  {
    hide Canonical, Changed, PageWalk, SatpSpace, SatpAsid;
    ChangedByNothing(w.dram, EnvOf(xlen, w));
  }

  // ---- the kind of an access ---------------------------------------------------------------------

  /** Within a page the kind only names the fault of a non-canonical load. */
  lemma KindNames(xlen: nat, w: World, va: nat, size: nat, access: Access, kind: Kind, data: nat)
    requires size > 0
    requires var env := EnvOf(xlen, w);
             access.Write? || !Translating(env.sp, env.Mode(DataPrivilege(w.arch))) || Canonical(env.sp, va)
    ensures AccessOne(xlen, w, va, size, access, kind, data) == AccessOne(xlen, w, va, size, access, Plain, data)
    ensures EditOne(xlen, w, va, size, access, kind, data) == EditOne(xlen, w, va, size, access, Plain, data)
  {
    hide Translate, Canonical, Changed, SatpSpace, SatpAsid;
  }

  lemma PlainOneCause(xlen: nat, w: World, va: nat, size: nat, access: Access, data: nat)
    requires size > 0
    ensures var r := AccessOne(xlen, w, va, size, access, Plain, data).0;
            r.Trap? ==> r.cause != 4 && r.cause != 6
  {
    hide Canonical, Walk, Permitted, SatpSpace, SatpAsid;
  }

  lemma {:induction false} PlainBytesCause(xlen: nat, w: World, va: nat, b: nat, size: nat, access: Access, data: nat)
    requires b <= size
    ensures var r := AccessBytes(xlen, w, va, b, size, access, Plain, data).0;
            r.Trap? ==> r.cause != 4 && r.cause != 6
    decreases size - b
  {
    hide AccessOne, ByteOf;
    if b != size {
      var (r1, w1) := AccessOne(xlen, w, (va + b) % Wrap(xlen), 1, access, Plain, ByteOf(data, b));
      PlainOneCause(xlen, w, (va + b) % Wrap(xlen), 1, access, ByteOf(data, b));
      PlainBytesCause(xlen, w1, va, b + 1, size, access, data);
    }
  }

  /** A plain access never reports misalignment. */
  lemma PlainNeverMisaligned(xlen: nat, w: World, address: nat, size: nat, access: Access, data: nat)
    requires size > 0
    ensures var r := AccessAny(xlen, w, address, size, access, Plain, data).0;
            r.Trap? ==> r.cause != 4 && r.cause != 6
  {
    hide AccessOne, AccessBytes;
    PlainOneCause(xlen, w, address % Wrap(xlen), size, access, data);
    PlainBytesCause(xlen, w, address % Wrap(xlen), 0, size, access, data);
  }

  // ---- loads edit nothing -----------------------------------------------------------------------------

  lemma LoadOneEditsNothing(xlen: nat, w: World, va: nat, size: nat, access: Access, kind: Kind, data: nat)
    requires size > 0 && !access.Write?
    ensures EditOne(xlen, w, va, size, access, kind, data) == iset{}
  {
    hide Translate, Canonical, Changed, SatpSpace, SatpAsid;
    var env := EnvOf(xlen, w);
    ChangedByNothing(Translate(w.dram, env.sp, va, access, env.Mode(DataPrivilege(w.arch))).1, env);
    LoadOneWalks(xlen, w, va, size, access, kind, data);
  }

  /** The memory after a load is the memory after its walk. */
  lemma LoadOneWalks(xlen: nat, w: World, va: nat, size: nat, access: Access, kind: Kind, data: nat)
    requires size > 0 && !access.Write?
    ensures var env := EnvOf(xlen, w);
            AccessOne(xlen, w, va, size, access, kind, data).1.dram
            == Translate(w.dram, env.sp, va, access, env.Mode(DataPrivilege(w.arch))).1
  {
    hide Canonical, PageWalk, SatpSpace, SatpAsid;
  }

  lemma {:induction false} LoadBytesEditNothing(xlen: nat, w: World, stale: iset<nat>, va: nat, b: nat, size: nat,
                                                access: Access, kind: Kind, data: nat)
    requires b <= size && !access.Write?
    ensures StaleBytes(xlen, w, stale, va, b, size, access, kind, data) == stale
    decreases size - b
  {
    hide AccessOne, EditOne, ByteOf, FreshBytes, FreshOne, AccessBytes, StaleBytes;
    if b == size {
      BytesOver(xlen, w, stale, va, size, access, kind, data);
    } else {
      BytesUnrolled(xlen, w, stale, va, b, size, access, kind, data);
      var at, byte := (va + b) % Wrap(xlen), ByteOf(data, b);
      LoadOneEditsNothing(xlen, w, at, 1, access, kind, byte);
      assert stale + iset{} == stale;
      LoadBytesEditNothing(xlen, AccessOne(xlen, w, at, 1, access, kind, byte).1, stale, va, b + 1, size, access, kind,
                           data);
    }
  }

  /** No load makes a page stale. */
  lemma LoadEditsNothing(xlen: nat, w: World, stale: iset<nat>, address: nat, size: nat, access: Access, kind: Kind,
                         data: nat)
    requires size > 0 && !access.Write?
    ensures StaleAny(xlen, w, stale, address, size, access, kind, data) == stale
  {
    hide EditOne, StaleBytes;
    assert stale + iset{} == stale;
    LoadOneEditsNothing(xlen, w, address % Wrap(xlen), size, access, kind, data);
    LoadBytesEditNothing(xlen, w, stale, address % Wrap(xlen), 0, size, access, kind, data);
  }
}
