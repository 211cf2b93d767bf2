/** What fetches, loads and stores do, in terms of the standard's registers and codes: which privilege
    level an access has, what a fault reports, and what a page-crossing access reaches. */
module AccessLaws {

  import Arith
  import opened Memory
  import opened PageTable
  import opened PageWalker
  import opened Privileged
  import opened CachelessHart
  import opened KeptTranslation

  // ---- MPRV ----------------------------------------------------------------------------------------

  /** The hart with MPRV clear, at this level. */
  function AtLevel(w: World, p: Priv): World {
    w.(arch := w.arch.(priv := p, mstatus := w.arch.mstatus.(mprv := false)))
  }

  function WithMpp(w: World, mprv: bool, mpp: Priv): World {
    w.(arch := w.arch.(mstatus := w.arch.mstatus.(mprv := mprv, mpp := mpp)))
  }

  /** The same outcome, and the same memory afterwards. */
  predicate Alike(r: (Result, World), s: (Result, World)) { r.0 == s.0 && r.1.dram == s.1.dram }

  lemma OneAlike(xlen: nat, w: World, v: World, va: nat, size: nat, access: Access, kind: Kind, data: nat)
    requires size > 0 && v.dram == w.dram && EnvOf(xlen, v) == EnvOf(xlen, w)
    requires DataPrivilege(v.arch) == DataPrivilege(w.arch)
    ensures var (r, w1) := AccessOne(xlen, w, va, size, access, kind, data);
            var (s, v1) := AccessOne(xlen, v, va, size, access, kind, data);
            s == r && v1 == v.(dram := w1.dram) && w1 == w.(dram := w1.dram)
  {
    hide Translate, Canonical, EnvOf, DataPrivilege;
  }

  lemma {:induction false} BytesAlike(xlen: nat, w: World, v: World, va: nat, b: nat, size: nat, access: Access,
                                      kind: Kind, data: nat)
    requires b <= size && v.dram == w.dram && EnvOf(xlen, v) == EnvOf(xlen, w)
    requires DataPrivilege(v.arch) == DataPrivilege(w.arch)
    ensures Alike(AccessBytes(xlen, v, va, b, size, access, kind, data),
                  AccessBytes(xlen, w, va, b, size, access, kind, data))
    decreases size - b
  {
    hide AccessOne, DataPrivilege, ByteOf;
    if b < size {
      var at, byte := (va + b) % Wrap(xlen), ByteOf(data, b);
      OneAlike(xlen, w, v, at, 1, access, kind, byte);
      var (r, w1) := AccessOne(xlen, w, at, 1, access, kind, byte);
      var (s, v1) := AccessOne(xlen, v, at, 1, access, kind, byte);
      if r.Reached? {
        BytesAlike(xlen, w1, v1, va, b + 1, size, access, kind, data);
      }
    }
  }

  lemma AnyAlike(xlen: nat, w: World, v: World, address: nat, size: nat, access: Access, kind: Kind, data: nat)
    requires size > 0 && v.dram == w.dram && EnvOf(xlen, v) == EnvOf(xlen, w)
    requires DataPrivilege(v.arch) == DataPrivilege(w.arch)
    ensures Alike(AccessAny(xlen, v, address, size, access, kind, data),
                  AccessAny(xlen, w, address, size, access, kind, data))
  {
    hide AccessOne, AccessBytes, EnvOf, DataPrivilege;
    OneAlike(xlen, w, v, address % Wrap(xlen), size, access, kind, data);
    BytesAlike(xlen, w, v, address % Wrap(xlen), 0, size, access, kind, data);
  }

  /** With MPRV set a load or store is the one that the hart makes at level MPP with MPRV clear. */
  lemma MprvSet(xlen: nat, w: World, address: nat, size: nat, access: Access, kind: Kind, data: nat)
    requires size > 0 && w.arch.mstatus.mprv
    ensures Alike(AccessAny(xlen, w, address, size, access, kind, data),
                  AccessAny(xlen, AtLevel(w, w.arch.mstatus.mpp), address, size, access, kind, data))
  {
    hide AccessAny;
    AnyAlike(xlen, w, AtLevel(w, w.arch.mstatus.mpp), address, size, access, kind, data);
  }

  /** With MPRV clear it does not depend on MPP. */
  lemma MprvClear(xlen: nat, w: World, mpp: Priv, address: nat, size: nat, access: Access, kind: Kind, data: nat)
    requires size > 0 && !w.arch.mstatus.mprv
    ensures Alike(AccessAny(xlen, WithMpp(w, false, mpp), address, size, access, kind, data),
                  AccessAny(xlen, w, address, size, access, kind, data))
  {
    hide AccessAny;
    AnyAlike(xlen, w, WithMpp(w, false, mpp), address, size, access, kind, data);
  }

  /** A fetch depends on neither. */
  lemma FetchIgnoresMprv(xlen: nat, w: World, mprv: bool, mpp: Priv, pc: nat, wide: bool)
    ensures Alike(FetchAny(xlen, WithMpp(w, mprv, mpp), pc, wide), FetchAny(xlen, w, pc, wide))
  {
    hide Translate, SatpSpace, SatpAsid, PageOf, Wrap;
  }

  // ---- one access ----------------------------------------------------------------------------------

  /** With MPRV clear, a load or store within a page is translated at the current level under satp, SUM and
      MXR; it goes where the translation says, and a store there changes its bytes of DRAM. A fault reports
      the address. */
  lemma WithinPage(xlen: nat, w: World, address: nat, size: nat, access: Access, kind: Kind, data: nat)
    requires (xlen == 32 || xlen == 64) && size > 0 && !access.Code? && !w.arch.mstatus.mprv
    ensures var va := address % if xlen == 64 then 0x1_0000_0000_0000_0000 else 0x1_0000_0000;
            var mode := Mode(w.arch.priv, w.arch.mstatus.sum, w.arch.mstatus.mxr);
            var sp := SatpSpace(w.satp, xlen);
            var (t, d) := Translate(w.dram, sp, va, access, mode);
            var (r, w1) := AccessAny(xlen, w, address, size, access, kind, data);
            (va % size == 0 || kind.Plain?) && va % 4096 + size <= 4096 && (mode.priv.Machine? || Canonical(sp, va)) ==>
              match t
              case Denied(cause) => r == Trap(cause, va) && w1 == w.(dram := d)
              case Mapped(pa) =>
                && r == Reached([pa])
                && w1 == w.(dram := if access.Write? && d.Contains(pa, size) then d.Put(pa, size, data) else d)
  {
    hide Translate, SatpSpace, SatpAsid, Canonical;
  }

  /** A misaligned LR is cause 4, a misaligned AMO or SC cause 6, and neither touches memory; plain accesses are
      never refused for their alignment. */
  lemma Misaligned(xlen: nat, w: World, address: nat, size: nat, access: Access, kind: Kind, data: nat)
    requires (xlen == 32 || xlen == 64) && size > 0 && !access.Code?
    ensures var va := address % if xlen == 64 then 0x1_0000_0000_0000_0000 else 0x1_0000_0000;
            va % size != 0 && !kind.Plain? ==>
              AccessAny(xlen, w, address, size, access, kind, data)
              == (Trap(if access.Read? && kind.LoadReserved? then 4 else 6, va), w)
  {
  }

  /** Every other fault of a load is 13 or 5, of a store 15 or 7, and reports the address of the whole access,
      page-crossing or not; except that an LR or AMO whose read is at a non-canonical address reports 15. */
  lemma FaultReports(xlen: nat, w: World, address: nat, size: nat, access: Access, kind: Kind, data: nat)
    requires (xlen == 32 || xlen == 64) && size > 0 && !access.Code?
    ensures var va := address % if xlen == 64 then 0x1_0000_0000_0000_0000 else 0x1_0000_0000;
            var r := AccessAny(xlen, w, address, size, access, kind, data).0;
            (va % size == 0 || kind.Plain?) && r.Trap? ==>
              && r.tval == va
              && (if access.Write? then r.cause == 15 || r.cause == 7
                  else r.cause == 13 || r.cause == 5 || (!kind.Plain? && r.cause == 15))
  {
    hide AccessOne, AccessBytes;
    var va := address % Wrap(xlen);
    OneReports(xlen, w, va, size, access, kind, data);
    BytesReport(xlen, w, va, 0, size, access, kind, data);
  }

  lemma OneReports(xlen: nat, w: World, va: nat, size: nat, access: Access, kind: Kind, data: nat)
    requires size > 0 && !access.Code?
    ensures var r := AccessOne(xlen, w, va, size, access, kind, data).0;
            r.Trap? ==>
              && r.tval == va
              && (if access.Write? then r.cause == 15 || r.cause == 7
                  else r.cause == 13 || r.cause == 5 || (!kind.Plain? && r.cause == 15))
  {
    hide SatpSpace, SatpAsid, Canonical, Walk, Permitted, LeafAddress, WithAD, Ppn, SuperPages;
  }

  lemma {:induction false} BytesReport(xlen: nat, w: World, va: nat, b: nat, size: nat, access: Access, kind: Kind,
                                       data: nat)
    requires b <= size && !access.Code?
    ensures var r := AccessBytes(xlen, w, va, b, size, access, kind, data).0;
            r.Trap? ==>
              && r.tval == va
              && (if access.Write? then r.cause == 15 || r.cause == 7
                  else r.cause == 13 || r.cause == 5 || (!kind.Plain? && r.cause == 15))
    decreases size - b
  {
    hide AccessOne, ByteOf;
    if b < size {
      var at, byte := (va + b) % Wrap(xlen), ByteOf(data, b);
      OneReports(xlen, w, at, 1, access, kind, byte);
      BytesReport(xlen, AccessOne(xlen, w, at, 1, access, kind, byte).1, va, b + 1, size, access, kind, data);
    }
  }

  // ---- crossing a page -----------------------------------------------------------------------------

  /** Addresses from a on, one for each of n bytes. */
  function Consecutive(a: nat, n: nat): (r: seq<nat>)
    ensures |r| == n
  {
    seq(n, k => a + k)
  }

  /** Without translation an access that crosses a page inside DRAM reaches consecutive bytes, and a store
      leaves the whole word, least significant byte first. */
  lemma CrossingUntranslated(xlen: nat, w: World, va: nat, size: nat, access: Access, kind: Kind, data: nat)
    requires (xlen == 32 || xlen == 64) && size > 0 && !access.Code? && (va % size == 0 || kind.Plain?)
    requires va + size <= (if xlen == 64 then 0x1_0000_0000_0000_0000 else 0x1_0000_0000) && w.dram.Contains(va, size)
    requires SatpSpace(w.satp, xlen).Bare? && va % 4096 + size > 4096
    ensures AccessAny(xlen, w, va, size, access, kind, data)
         == (Reached(Consecutive(va, size)), w.(dram := if access.Write? then w.dram.Put(va, size, data) else w.dram))
  {
    hide AccessBytes, Store, SatpSpace, SatpAsid;
    assert va % Wrap(xlen) == va;
    NothingStored(w, va, access, data);
    BytesUntranslated(xlen, w, va, 0, size, access, kind, data);
    assert Consecutive(va + 0, size - 0) == Consecutive(va, size);
  }

  /** Memory when the first b bytes of the store are done. */
  function StoredTo(w: World, va: nat, b: nat, access: Access, data: nat): World
    requires w.dram.base <= va && va - w.dram.base + b <= |w.dram.bytes|
  {
    if access.Write? then w.(dram := Dram(w.dram.base, Store(w.dram.bytes, va - w.dram.base, b, data))) else w
  }

  lemma NothingStored(w: World, va: nat, access: Access, data: nat)
    requires w.dram.Contains(va, 1)
    ensures StoredTo(w, va, 0, access, data) == w
  {
  }

  lemma {:induction false} BytesUntranslated(xlen: nat, w: World, va: nat, b: nat, size: nat, access: Access,
                                             kind: Kind, data: nat)
    requires b <= size && va + size <= Wrap(xlen) && w.dram.Contains(va, size) && SatpSpace(w.satp, xlen).Bare?
    ensures AccessBytes(xlen, StoredTo(w, va, b, access, data), va, b, size, access, kind, data)
         == (Reached(Consecutive(va + b, size - b)), StoredTo(w, va, size, access, data))
    decreases size - b
  {
    hide Store, SatpSpace, SatpAsid, ByteOf, AccessOne, Wrap;
    if b < size {
      var wb := StoredTo(w, va, b, access, data);
      assert (va + b) % Wrap(xlen) == va + b;
      UntranslatedAccess(xlen, wb, va + b, 1, access, kind, ByteOf(data, b));
      NextByte(w, va, b, size, access, data);
      BytesUntranslated(xlen, w, va, b + 1, size, access, kind, data);
      assert [va + b] + Consecutive(va + (b + 1), size - (b + 1)) == Consecutive(va + b, size - b);
    }
  }

  lemma NextByte(w: World, va: nat, b: nat, size: nat, access: Access, data: nat)
    requires b < size && w.dram.Contains(va, size)
    ensures var wb := StoredTo(w, va, b, access, data);
            wb.(dram := Written(wb.dram, va + b, 1, access, ByteOf(data, b))) == StoredTo(w, va, b + 1, access, data)
  {
    hide Store, Above;
    LastByte(w.dram.bytes, va - w.dram.base, b, data);
  }

  lemma LastByte(m: seq<Byte>, off: nat, b: nat, data: nat)
    requires off + b < |m|
    ensures Store(Store(m, off, b, data), off + b, 1, Above(data, b) % 256) == Store(m, off, b + 1, data)
  {
    hide Store;
    StoreExtend(m, off, b, data);
    StoreTruncates(Store(m, off, b, data), off + b, 1, Above(data, b));
    assert Span(1) == 256;
  }

  // ---- fetches -------------------------------------------------------------------------------------

  /** A pc that is odd, or not a multiple of 4 without compressed instructions, is cause 0. Any other fault is
      12 or 1 and reports the pc, or the address of the second half when it lies on the next page. */
  lemma FetchFaults(xlen: nat, w: World, pc: nat, wide: bool)
    ensures var r := FetchAny(xlen, w, pc, wide).0;
            if pc % (if w.arch.isa.c then 2 else 4) != 0 then FetchAny(xlen, w, pc, wide) == (Trap(0, pc), w)
            else
              r.Trap? ==>
                && (r.cause == 12 || r.cause == 1)
                && (r.tval == pc || (wide && pc % 4096 == 4094 && r.tval == (pc + 2) % 0x1_0000_0000_0000_0000))
  {
    hide FetchHalf, PageOf;
    SplitAt(pc);
    HalfFaults(xlen, w, pc);
    HalfFaults(xlen, FetchHalf(xlen, w, pc).1, NextHalf(pc));
  }

  lemma HalfFaults(xlen: nat, w: World, pc: nat)
    ensures var r := FetchHalf(xlen, w, pc).0;
            r.Trap? ==> (r.cause == 12 || r.cause == 1) && r.tval == pc
  {
    hide SatpSpace, SatpAsid, Canonical, Walk, Permitted, LeafAddress, WithAD, Ppn, SuperPages, Wrap;
  }

  lemma SplitAt(pc: nat)
    ensures PageOf(pc) != PageOf(pc + 2) <==> pc % 4096 >= 4094
  {
    var n, r := pc / 4096, pc % 4096;
    assert pc == 4096 * n + r;
    if r >= 4094 {
      Arith.ModUnique(pc + 2, 4096, n + 1, r - 4094);
    } else {
      Arith.ModUnique(pc + 2, 4096, n, r + 2);
    }
  }

  /** Below M-mode under a satp with translation, each page of the instruction is translated for execution at the
      current level; the second half follows the first within a page. A refused half reports its own
      address. */
  lemma FetchTranslated(xlen: nat, w: World, pc: nat, wide: bool)
    requires !w.arch.priv.Machine? && !SatpSpace(w.satp, xlen).Bare? && pc % (if w.arch.isa.c then 2 else 4) == 0
    ensures var mode := Mode(w.arch.priv, w.arch.mstatus.sum, w.arch.mstatus.mxr);
            var sp := SatpSpace(w.satp, xlen);
            var (t1, d1) := Translate(w.dram, sp, pc, Code, mode);
            var (t2, d2) := Translate(d1, sp, (pc + 2) % 0x1_0000_0000_0000_0000, Code, mode);
            var r := FetchAny(xlen, w, pc, wide);
            if t1.Denied? then r == (Trap(t1.cause, pc), w.(dram := d1))
            else if !wide then r == (Reached([t1.pa]), w.(dram := d1))
            else if pc % 4096 < 4094 then r == (Reached([t1.pa, t1.pa + 2]), w.(dram := d1))
            else if t2.Denied? then r == (Trap(t2.cause, (pc + 2) % 0x1_0000_0000_0000_0000), w.(dram := d2))
            else r == (Reached([t1.pa, t2.pa]), w.(dram := d2))
  {
    hide Translate, SatpSpace, SatpAsid, PageOf;
    SplitAt(pc);
    assert forall a: nat, b: nat :: [a] + [b] == [a, b];
  }

  /** In M-mode or under a bare satp the instruction lies at the pc itself, reduced to XLEN bits. */
  lemma FetchUntranslated(xlen: nat, w: World, pc: nat, wide: bool)
    requires w.arch.priv.Machine? || SatpSpace(w.satp, xlen).Bare?
    requires (xlen == 32 || xlen == 64) && pc % (if w.arch.isa.c then 2 else 4) == 0
    ensures var span := if xlen == 64 then 0x1_0000_0000_0000_0000 else 0x1_0000_0000;
            FetchAny(xlen, w, pc, wide)
            == (Reached(if !wide then [pc % span]
                        else if pc % 4096 < 4094 then [pc % span, pc % span + 2]
                        else [pc % span, (pc + 2) % 0x1_0000_0000_0000_0000 % span]), w)
  {
    hide SatpSpace, SatpAsid, PageOf;
    SplitAt(pc);
    UntranslatedFetch(xlen, w, pc, wide);
  }

  // ---- fences ----------------------------------------------------------------------------------------

  /** SFENCE.VMA makes the 4 KiB page of its address fresh again, or every page without an address, unless it
      names another address space than the current one. */
  lemma FencesClear(xlen: nat, w: World, stale: iset<nat>, allVaddr: bool, vaddr: nat, allAsid: bool, asid: nat)
    ensures NextStale(xlen, w, stale, Op.SfenceVma(allVaddr, vaddr, allAsid, asid))
         == if !allAsid && asid != SatpAsid(w.satp, xlen) then stale
            else if allVaddr then iset{}
            else stale - iset{vaddr - vaddr % 4096}
  {
    hide SatpSpace;
  }

  /** A new satp of a supported mode makes every page fresh. */
  lemma SatpClears(w: World, stale: iset<nat>, satp: nat)
    requires satp < 0x1_0000_0000_0000_0000
    ensures NextStale(64, w, stale, WriteSatp(satp))
         == if satp / 0x1000_0000_0000_0000 in {0, 8, 9} && satp != w.satp then iset{} else stale
  {
  }

  /** So does a status write that changes MPRV, SUM or MXR, or MPP while MPRV is set. */
  lemma StatusClears(xlen: nat, w: World, stale: iset<nat>, s: Mstatus, mpp: nat)
    ensures var old0 := w.arch.mstatus;
            var level := if mpp == 0 && w.arch.isa.u then User else if mpp == 1 && w.arch.isa.s then Supervisor
                         else Machine;
            NextStale(xlen, w, stale, WriteMstatus(s, mpp))
            == if s.mprv != old0.mprv || s.sum != old0.sum || s.mxr != old0.mxr || (old0.mprv && level != old0.mpp)
               then iset{} else stale
  {
  }

  // ---- the pipeline context ------------------------------------------------------------------------

  /** The kind of the last instruction that entered the context: a staged access or a decode its own, a CSR or
      system instruction a plain one. Fetches, decoded accesses and traps leave the context as it was. */
  function LastKind(context: Kind, ops: seq<Op>): Kind
    decreases |ops|
  {
    if ops == [] then context
    else
      var here := match ops[0]
                  case Access(_, _, _, kind, _) => kind
                  case Decode(kind) => kind
                  case WriteSatp(_) => Plain
                  case WriteMstatus(_, _) => Plain
                  case WriteSstatus(_) => Plain
                  case ReturnMachine => Plain
                  case ReturnSupervisor => Plain
                  case SfenceVma(_, _, _, _) => Plain
                  case _ => context;
      LastKind(here, ops[1..])
  }

  lemma {:induction false} ContextIsLastKind(xlen: nat, w: World, ops: seq<Op>)
    requires forall k :: 0 <= k < |ops| ==> WellFormed(ops[k])
    ensures Run(xlen, w, ops).1.context == LastKind(w.context, ops)
    decreases |ops|
  {
    hide AccessAny, FetchAny, RaiseException, Mret, Sret, SetMstatus, SetSstatus, SatpMode, WellFormed;
    if ops != [] {
      StepContext(xlen, w, ops[0]);
      ContextIsLastKind(xlen, Step(xlen, w, ops[0]).1, ops[1..]);
    }
  }

  lemma StepContext(xlen: nat, w: World, op: Op)
    requires WellFormed(op)
    ensures Step(xlen, w, op).1.context == LastKind(w.context, [op])
  {
    hide AccessAny, FetchAny, RaiseException, Mret, Sret, SetMstatus, SetSstatus, SatpMode, StaleAny, EnvOf;
    match op
    case Access(a, size, access, kind, data) => AccessAnySteady(xlen, w, iset{}, a, size, access, kind, data);
    case CachedAccess(a, size, access, data) => AccessAnySteady(xlen, w, iset{}, a, size, access, Plain, data);
    case Fetch(pc, wide) => FetchSteady(xlen, w, pc, wide, iset{});
    case _ =>
  }
}
