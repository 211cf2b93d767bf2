/** Privilege levels, mstatus, trap entry and trap return (RV64, all levels 64-bit wide). */
module Privileged {

  import opened PageTable

  /** The mstatus fields the simulator stores. SD is derived, XS, MBE and SBE read as zero, and
      SXL and UXL are fixed; the fields no trap or translation looks at are grouped. */
  datatype Mstatus = Mstatus(
    sie: bool, mie: bool, spie: bool, mpie: bool, spp: bool, mpp: Priv,
    mprv: bool, sum: bool, mxr: bool, other: Other)

  datatype Other = Other(tvm: bool, tw: bool, tsr: bool, fs: nat, vs: nat)

  datatype Cause = Interrupt(code: nat) | Exception(code: nat)

  /** xtvec, xepc, xcause and xtval of one privilege level. */
  datatype TrapRegs = TrapRegs(tvec: nat, epc: nat, cause: Cause, tval: nat)

  /** The extensions misa reports; misa writes are ignored, so these never change. */
  datatype Isa = Isa(s: bool, u: bool, c: bool, f: bool, v: bool)

  /** Delegation, enable and pending registers, each as the set of its one-bits. */
  datatype Irqs = Irqs(medeleg: set<nat>, mideleg: set<nat>, mip: set<nat>, mie: set<nat>)

  /** The architectural state that traps, returns and status writes involve. */
  datatype Arch = Arch(pc: nat, priv: Priv, mstatus: Mstatus, mx: TrapRegs, sx: TrapRegs,
                       irqs: Irqs, isa: Isa, reserved: bool)

  const WORD: nat := 0x1_0000_0000_0000_0000

  predicate BelowMachine(p: Priv) { !p.Machine? }

  function Level(p: Priv): nat {
    match p case User => 0 case Supervisor => 1 case Machine => 3
  }

  /** Instruction alignment: 2 with compressed instructions, else 4. */
  function Ialign(s: Arch): (r: nat)
    ensures r == 2 || r == 4
  {
    if s.isa.c then 2 else 4
  }

  /** What a read of xepc, explicit or by xRET, yields. */
  function EpcRead(s: Arch, epc: nat): nat { epc - epc % Ialign(s) }

  function TrapVector(tvec: nat, cause: Cause): nat {
    var base := tvec - tvec % 4;
    if tvec % 4 == 1 && cause.Interrupt? then (base + 4 * cause.code) % WORD else base
  }

  /** medeleg or mideleg sends this cause to S-mode. */
  predicate Delegated(s: Arch, cause: Cause) {
    BelowMachine(s.priv) && s.isa.s && cause.code < 64 &&
    match cause case Interrupt(c) => c in s.irqs.mideleg case Exception(c) => c in s.irqs.medeleg
  }

  /** Trap entry. */
  function RaiseException(s: Arch, cause: Cause, tval: nat): Arch {
    if Delegated(s, cause) then
      s.(sx := TrapRegs(s.sx.tvec, s.pc, cause, tval),
         mstatus := s.mstatus.(spie := s.mstatus.sie, spp := s.priv.Supervisor?, sie := false),
         priv := Supervisor, pc := TrapVector(s.sx.tvec, cause), reserved := false)
    else
      s.(mx := TrapRegs(s.mx.tvec, s.pc, cause, tval),
         mstatus := s.mstatus.(mpie := s.mstatus.mie, mpp := s.priv, mie := false),
         priv := Machine, pc := TrapVector(s.mx.tvec, cause), reserved := false)
  }

  function LeastSupported(isa: Isa): Priv {
    if isa.u then User else if isa.s then Supervisor else Machine
  }

  function Mret(s: Arch): Arch {
    s.(mstatus := s.mstatus.(mie := s.mstatus.mpie, mpie := true, mpp := LeastSupported(s.isa),
                             mprv := s.mstatus.mprv && s.mstatus.mpp.Machine?),
       priv := s.mstatus.mpp, pc := EpcRead(s, s.mx.epc), reserved := false)
  }

  function Sret(s: Arch): Arch {
    s.(mstatus := s.mstatus.(sie := s.mstatus.spie, spie := true, spp := false, mprv := false),
       priv := if s.mstatus.spp then Supervisor else User, pc := EpcRead(s, s.sx.epc), reserved := false)
  }

  // ---- mstatus writes ------------------------------------------------------------------

  function LegalMpp(requested: nat, isa: Isa): Priv {
    if requested == 1 && isa.s then Supervisor else if requested == 0 && isa.u then User else Machine
  }

  /** Clears the fields that are read-only zero without S, U, F or V. */
  function Implemented(m: Mstatus, isa: Isa): Mstatus {
    m.(sie := m.sie && isa.s, spie := m.spie && isa.s, spp := m.spp && isa.s,
       sum := m.sum && isa.s, mxr := m.mxr && isa.s, mprv := m.mprv && isa.u,
       other := m.other.(tvm := m.other.tvm && isa.s, tsr := m.other.tsr && isa.s,
                         tw := m.other.tw && (isa.s || isa.u),
                         fs := if isa.f then m.other.fs else 0, vs := if isa.v then m.other.vs else 0))
  }

  /** mstatus after a write of w, with MPP given by its raw two bits. */
  function SetMstatus(isa: Isa, w: Mstatus, mpp: nat): Mstatus {
    Implemented(w.(mpp := LegalMpp(mpp, isa)), isa)
  }

  /** The value an sstatus write of w hands to the mstatus write: only S-visible fields change. */
  function SstatusAsMstatus(m: Mstatus, w: Mstatus): Mstatus {
    m.(sie := w.sie, spie := w.spie, spp := w.spp, sum := w.sum, mxr := w.mxr,
       other := m.other.(fs := w.other.fs, vs := w.other.vs))
  }

  function SetSstatus(isa: Isa, m: Mstatus, w: Mstatus): Mstatus {
    SetMstatus(isa, SstatusAsMstatus(m, w), Level(m.mpp))
  }

  predicate Supports(isa: Isa, p: Priv) {
    match p case Supervisor => isa.s case User => isa.u case Machine => true
  }

  /** Stored state never holds a field or level the hart does not implement. */
  predicate Legal(s: Arch) {
    && Implemented(s.mstatus, s.isa) == s.mstatus
    && Supports(s.isa, s.mstatus.mpp) && Supports(s.isa, s.priv)
    && (!s.isa.s ==> s.irqs.mideleg == {} && s.irqs.medeleg == {})
    && (s.isa.s ==> s.isa.u)
  }

  /** Trap entry keeps the state legal and never lowers privilege. */
  lemma TrapStaysLegal(s: Arch, cause: Cause, tval: nat)
    requires Legal(s)
    ensures Legal(RaiseException(s, cause, tval))
    ensures Level(RaiseException(s, cause, tval).priv) >= Level(s.priv)
  {
    hide TrapVector;
  }

  lemma ReturnStaysLegal(s: Arch)
    requires Legal(s)
    ensures Legal(Mret(s)) && (s.isa.s ==> Legal(Sret(s)))
  {
    hide EpcRead;
  }

  /** Traps and returns leave SUM, MXR and the extensions alone. */
  lemma TransferKeepsView(s: Arch, cause: Cause, tval: nat)
    ensures forall t :: t in [RaiseException(s, cause, tval), Mret(s), Sret(s)] ==>
              t.mstatus.sum == s.mstatus.sum && t.mstatus.mxr == s.mstatus.mxr && t.isa == s.isa
  {
    hide TrapVector, EpcRead;
  }

  lemma StatusWriteStaysLegal(s: Arch, w: Mstatus, mpp: nat)
    requires Legal(s)
    ensures Legal(s.(mstatus := SetMstatus(s.isa, w, mpp)))
    ensures Legal(s.(mstatus := SetSstatus(s.isa, s.mstatus, w)))
    ensures SetSstatus(s.isa, s.mstatus, w).mpp == s.mstatus.mpp
  {
  }

  /** Privilege for explicit loads and stores: MPP's when MPRV is set. */
  function DataPrivilege(s: Arch): Priv {
    if s.mstatus.mprv then s.mstatus.mpp else s.priv
  }

  // ---- trap and matching return ----------------------------------------------------------

  function MatchingReturn(s: Arch, cause: Cause, handled: Arch): Arch {
    if Delegated(s, cause) then Sret(handled) else Mret(handled)
  }

  /** The registers of a level after it took a trap at pc. */
  function Recorded(x: TrapRegs, pc: nat, cause: Cause, tval: nat): TrapRegs {
    x.(epc := pc, cause := cause, tval := tval)
  }

  /** A trap followed at once by the return of the level it went to gives back privilege and
      that level's interrupt enable, the pc exactly when it was IALIGN-aligned, and everything
      else except the trap registers of that level, its xPIE and xPP, MPRV and the reservation. */
  lemma TrapThenReturn(s: Arch, cause: Cause, tval: nat)
    ensures var t := MatchingReturn(s, cause, RaiseException(s, cause, tval));
            && t.priv == s.priv
            && t.mstatus.sie == s.mstatus.sie && t.mstatus.mie == s.mstatus.mie
            && (t.pc == s.pc <==> s.pc % Ialign(s) == 0)
            && (Delegated(s, cause) ==>
                  t == s.(pc := EpcRead(s, s.pc), reserved := false, sx := Recorded(s.sx, s.pc, cause, tval),
                          mstatus := s.mstatus.(spie := true, spp := false, mprv := false)))
            && (!Delegated(s, cause) ==>
                  t == s.(pc := EpcRead(s, s.pc), reserved := false, mx := Recorded(s.mx, s.pc, cause, tval),
                          mstatus := s.mstatus.(mpie := true, mpp := LeastSupported(s.isa),
                                                mprv := s.mstatus.mprv && s.priv.Machine?)))
  {
    hide TrapVector;
  }

  /** What an S-level handler does between its trap and its SRET: run code that moves the pc,
      or take a trap to M-mode and come back with MRET. */
  datatype HandlerStep = Execute(pc: nat) | MachineTrap(cause: Cause, tval: nat)

  function RunHandler(s: Arch, steps: seq<HandlerStep>): Arch
    decreases |steps|
  {
    if steps == [] then s
    else
      var t := match steps[0]
               case Execute(pc) => s.(pc := pc)
               case MachineTrap(c, v) => Mret(RaiseException(s, c, v));
      RunHandler(t, steps[1..])
  }

  /** The state SRET unwinds from, and what decides delegation meanwhile. */
  predicate SameUnwind(s: Arch, t: Arch) {
    && t.priv == s.priv && t.sx == s.sx && t.isa == s.isa && t.irqs == s.irqs
    && t.mstatus.spie == s.mstatus.spie && t.mstatus.spp == s.mstatus.spp
    && t.mstatus.mie == s.mstatus.mie && t.mstatus.sie == s.mstatus.sie
  }

  predicate OnlyMachineTraps(s: Arch, steps: seq<HandlerStep>) {
    forall k :: 0 <= k < |steps| && steps[k].MachineTrap? ==> !Delegated(s, steps[k].cause)
  }

  lemma MachineTrapKeepsUnwind(s: Arch, cause: Cause, tval: nat)
    requires !Delegated(s, cause)
    ensures SameUnwind(s, Mret(RaiseException(s, cause, tval)))
  {
    hide TrapVector, EpcRead;
  }

  lemma {:induction false} HandlerKeepsUnwind(s: Arch, steps: seq<HandlerStep>)
    requires OnlyMachineTraps(s, steps)
    ensures SameUnwind(s, RunHandler(s, steps))
    decreases |steps|
  {
    hide RaiseException, Mret, Sret;
    if steps != [] {
      var t := match steps[0]
               case Execute(pc) => s.(pc := pc)
               case MachineTrap(c, v) => Mret(RaiseException(s, c, v));
      if steps[0].MachineTrap? { MachineTrapKeepsUnwind(s, steps[0].cause, steps[0].tval); }
      forall k | 0 <= k < |steps[1..]| && steps[1..][k].MachineTrap?
        ensures !Delegated(t, steps[1..][k].cause)
      {
        assert steps[k + 1].MachineTrap? && !Delegated(s, steps[k + 1].cause);
      }
      HandlerKeepsUnwind(t, steps[1..]);
    }
  }

  /** Any number of M-level traps and MRETs taken inside an S-level handler leave the pending
      SRET intact: it still returns to the interrupted privilege, enable and (aligned) pc. */
  lemma NestedTrapThenReturn(s: Arch, cause: Cause, tval: nat, steps: seq<HandlerStep>)
    requires Delegated(s, cause)
    requires OnlyMachineTraps(RaiseException(s, cause, tval), steps)
    ensures var t := Sret(RunHandler(RaiseException(s, cause, tval), steps));
            && t.priv == s.priv && t.mstatus.sie == s.mstatus.sie && t.mstatus.mie == s.mstatus.mie
            && (t.pc == s.pc <==> s.pc % Ialign(s) == 0)
            && t.sx.cause == cause && t.sx.tval == tval
  {
    hide TrapVector;
    HandlerKeepsUnwind(RaiseException(s, cause, tval), steps);
  }

  // ---- the controller, on a mutable state block ------------------------------------------

  /** The architectural state block with the in-place trap entry and returns. */
  class ArchState {
    var pc: nat
    var priv: Priv
    var mstatus: Mstatus
    var mx: TrapRegs
    var sx: TrapRegs
    var irqs: Irqs
    const isa: Isa
    var reserved: bool

    ghost function Value(): Arch
      reads this
    {
      Arch(pc, priv, mstatus, mx, sx, irqs, isa, reserved)
    }

    constructor (a: Arch)
      ensures Value() == a
    {
      pc, priv, mstatus, mx, sx, irqs, isa, reserved :=
        a.pc, a.priv, a.mstatus, a.mx, a.sx, a.irqs, a.isa, a.reserved;
    }

    method Raise(cause: Cause, tval: nat)
      modifies this
      ensures Value() == RaiseException(old(Value()), cause, tval)
    {
      hide TrapVector;
      var trapPc := pc;
      var deleg := false;
      if BelowMachine(priv) && isa.s {
        if cause.code < 64 {
          deleg := if cause.Interrupt? then cause.code in irqs.mideleg else cause.code in irqs.medeleg;
        }
      }
      if deleg {
        sx := sx.(cause := cause, epc := trapPc, tval := tval);
        mstatus := mstatus.(spie := mstatus.sie, spp := priv.Supervisor?, sie := false);
        priv := Supervisor;
        pc := TrapVector(sx.tvec, cause);
      } else {
        mx := mx.(cause := cause, epc := trapPc, tval := tval);
        mstatus := mstatus.(mpie := mstatus.mie, mpp := priv, mie := false);
        priv := Machine;
        pc := TrapVector(mx.tvec, cause);
      }
      reserved := false;
    }

    method MachineReturn()
      modifies this
      ensures Value() == Mret(old(Value()))
    {
      var mpp := mstatus.mpp;
      var mprv := mstatus.mprv;
      if BelowMachine(mpp) {
        mprv := false;
      }
      mstatus := mstatus.(mie := mstatus.mpie, mpie := true, mpp := LeastSupported(isa), mprv := mprv);
      priv := mpp;
      pc := mx.epc - mx.epc % (if isa.c then 2 else 4);
      reserved := false;
    }

    method SupervisorReturn()
      modifies this
      ensures Value() == Sret(old(Value()))
    {
      var spp := mstatus.spp;
      mstatus := mstatus.(sie := mstatus.spie, spie := true, spp := false, mprv := false);
      priv := if spp then Supervisor else User;
      pc := sx.epc - sx.epc % (if isa.c then 2 else 4);
      reserved := false;
    }
  }
}
