/** LR and SC with their widths and translations, on the hart that walks afresh at every access: when
    a successful SC writes inside the bytes its LR read. */
module ReservedRuns {

  import Arith
  import opened Memory
  import opened PageTable
  import opened PageWalker
  import opened Privileged
  import opened TlbCoherence
  import opened CachelessHart
  import opened KeptTranslation

  /** What the last LR did: its width, where it read, and the space and privilege that led there. It
      is a record for the laws below; the hart keeps the address and the flag only. */
  datatype Load = Load(width: nat, pa: nat, sp: Space, mode: Mode)

  /** The flag is `w.arch.reserved`. */
  datatype State = State(w: World, loadRes: nat, last: Load)

  datatype Instr = Lr(addr: nat, width: nat) | Sc(addr: nat, width: nat, data: nat) | Guest(op: Op)

  datatype Outcome = Trapped | Loaded(pa: nat) | Stored(pa: nat) | Failed | Retired

  predicate InstrOk(i: Instr) {
    match i
    case Lr(_, width) => width == 4 || width == 8
    case Sc(_, width, _) => width == 4 || width == 8
    case Guest(op) => WellFormed(op)
  }

  function Reserve(w: World, flag: bool): World { w.(arch := w.arch.(reserved := flag)) }

  /** A faulting instruction traps, and a trap drops the reservation. */
  function Fault(w: World, cause: nat, tval: nat): World {
    w.(arch := RaiseException(w.arch, Exception(cause), tval))
  }

  /** A retired store of any kind drops it too. */
  predicate IsStore(op: Op) {
    match op
    case Access(_, _, access, kind, _) => access.Write? || kind.Amo?
    case CachedAccess(_, _, access, _) => access.Write?
    case _ => false
  }

  function StepLr(xlen: nat, s: State, addr: nat, width: nat): (Outcome, State)
    requires width == 4 || width == 8
  {
    var env := EnvOf(xlen, s.w);
    var (r, w1) := AccessAny(xlen, s.w, addr, width, Read, LoadReserved, 0);
    match r
    case Trap(cause, tval) => (Trapped, State(Fault(w1, cause, tval), addr, s.last))
    case Reached(pas) =>
      var pa := if pas == [] then 0 else pas[0];
      (Loaded(pa), State(Reserve(w1, true), addr, Load(width, pa, env.sp, env.Mode(DataPrivilege(s.w.arch)))))
  }

  /** Alignment first; then the address compared and the flag decide whether anything is stored. */
  function StepSc(xlen: nat, s: State, addr: nat, width: nat, data: nat): (Outcome, State)
    requires width == 4 || width == 8
  {
    if addr % width != 0 then (Trapped, s.(w := Fault(s.w, 6, addr)))
    else if addr != s.loadRes || !s.w.arch.reserved then (Failed, s.(w := Reserve(s.w, false)))
    else
      var (r, w1) := AccessAny(xlen, s.w, addr, width, Write, Amo, data);
      match r
      case Trap(cause, tval) => (Trapped, s.(w := Fault(w1, cause, tval)))
      case Reached(pas) => (Stored(if pas == [] then 0 else pas[0]), s.(w := Reserve(w1, false)))
  }

  function StepGuest(xlen: nat, s: State, op: Op): (Outcome, State)
    requires WellFormed(op)
  {
    var (r, w1) := Step(xlen, s.w, op);
    match r
    case Trap(cause, tval) => (Trapped, s.(w := Fault(w1, cause, tval)))
    case Reached(_) => (Retired, s.(w := if IsStore(op) then Reserve(w1, false) else w1))
  }

  function StepInstr(xlen: nat, s: State, i: Instr): (Outcome, State)
    requires InstrOk(i)
  {
    match i
    case Lr(addr, width) => StepLr(xlen, s, addr, width)
    case Sc(addr, width, data) => StepSc(xlen, s, addr, width, data)
    case Guest(op) => StepGuest(xlen, s, op)
  }

  /** The states a run goes through, the first one included. */
  function States(xlen: nat, s: State, code: seq<Instr>): (r: seq<State>)
    requires forall k :: 0 <= k < |code| ==> InstrOk(code[k])
    ensures |r| == |code| + 1 && r[0] == s
    decreases |code|
  {
    if code == [] then [s] else [s] + States(xlen, StepInstr(xlen, s, code[0]).1, code[1..])
  }

  // ---- the reservation still translates as it did ------------------------------------------------

  /** While the reservation holds, a load from its address, in the space and mode of the LR, would
      still reach the word the LR read. */
  ghost predicate StillThere(xlen: nat, s: State) {
    && Fits(xlen, s.last.sp)
    && (s.w.arch.reserved ==>
          Translate(s.w.dram, s.last.sp, s.loadRes % Wrap(xlen), Read, s.last.mode).0 == Mapped(s.last.pa))
  }

  /** An aligned access reaches one address, the one its translation gives, and nothing else. */
  lemma AlignedAccess(xlen: nat, w: World, addr: nat, width: nat, access: Access, kind: Kind, data: nat)
    requires (width == 4 || width == 8) && !kind.Plain? && !access.Code?
    ensures var r := AccessAny(xlen, w, addr, width, access, kind, data).0;
            var env := EnvOf(xlen, w);
            r.Reached? ==>
              && |r.pas| == 1
              && Mapped(r.pas[0])
                 == Translate(w.dram, env.sp, addr % Wrap(xlen), access, env.Mode(DataPrivilege(w.arch))).0
  {
    hide Translate, SatpSpace, SatpAsid, Written, Canonical, AccessBytes;
    var va := addr % Wrap(xlen);
    if va % width == 0 {
      InPage(va, width);
    }
  }

  lemma InPage(va: nat, width: nat)
    requires (width == 4 || width == 8) && va % width == 0
    ensures !CrossesPage(va, width)
  {
    if width == 4 {
      Arith.ModOfMultiple(va, 4, 1024);
    } else {
      Arith.ModOfMultiple(va, 8, 512);
    }
    assert (va % 4096) % width == 0;
  }

  /** What a step without an LR does to the flag and to memory: the flag can only fall, and while it
      stays up translation is kept under every space, because nothing has been stored. */
  lemma GuestKeeps(xlen: nat, s: State, op: Op, sp: Space)
    requires WellFormed(op) && Fits(xlen, sp)
    ensures var s' := StepGuest(xlen, s, op).1;
            && s'.loadRes == s.loadRes && s'.last == s.last
            && (s'.w.arch.reserved ==> s.w.arch.reserved && Kept(s.w.dram, s'.w.dram, sp))
  {
    hide FetchAny, AccessAny, Kept, Mret, Sret, SatpMode, SatpModeSupported, Implemented, TrapVector, Fits, EnvOf;
    KeptSelf(s.w.dram, sp);
    TransfersDrop(s.w.arch);
    var (r, w1) := Step(xlen, s.w, op);
    match op
    case Fetch(pc, wide) => FetchKeeps(xlen, s.w, pc, wide, sp);
    case Access(a, size, access, kind, data) =>
      if access.Read? {
        LoadAnyKeeps(xlen, s.w, a, size, access, kind, data, sp);
      }
    case CachedAccess(a, size, access, data) =>
      if access.Read? {
        LoadAnyKeeps(xlen, s.w, a, size, access, Plain, data, sp);
      }
    case _ =>
  }

  lemma TransfersDrop(a: Arch)
    ensures !Mret(a).reserved && !Sret(a).reserved
  {
  }

  lemma StillThereGuest(xlen: nat, s: State, op: Op)
    requires WellFormed(op) && StillThere(xlen, s)
    ensures StillThere(xlen, StepGuest(xlen, s, op).1)
  {
    hide Translate, StepGuest, Fits;
    GuestKeeps(xlen, s, op, s.last.sp);
  }

  lemma StillThereLr(xlen: nat, s: State, addr: nat, width: nat)
    requires (width == 4 || width == 8) && StillThere(xlen, s)
    ensures StillThere(xlen, StepLr(xlen, s, addr, width).1)
    ensures StepLr(xlen, s, addr, width).0.Loaded? ==>
              var s' := StepLr(xlen, s, addr, width).1;
              s'.last.width == width && s'.last.pa == StepLr(xlen, s, addr, width).0.pa && s'.loadRes == addr
  {
    hide Translate, AccessAny, SatpSpace, SatpAsid, Kept, TrapVector;
    EnvFits(xlen, s.w);
    var env := EnvOf(xlen, s.w);
    AlignedAccess(xlen, s.w, addr, width, Read, LoadReserved, 0);
    LoadAnyKeeps(xlen, s.w, addr, width, Read, LoadReserved, 0, env.sp);
    var w1 := AccessAny(xlen, s.w, addr, width, Read, LoadReserved, 0).1;
    KeptAt(s.w.dram, w1.dram, env.sp, addr % Wrap(xlen), Read, env.Mode(DataPrivilege(s.w.arch)));
  }

  lemma KeptAt(d: Dram, d': Dram, sp: Space, va: nat, access: Access, mode: Mode)
    requires Kept(d, d', sp)
    ensures Translate(d', sp, va, access, mode).0 == Translate(d, sp, va, access, mode).0
  {
    hide Translate;
  }

  lemma StillThereStep(xlen: nat, s: State, i: Instr)
    requires InstrOk(i) && StillThere(xlen, s)
    ensures StillThere(xlen, StepInstr(xlen, s, i).1)
  {
    hide Translate, StepGuest, StepLr, AccessAny, Fits, TrapVector;
    match i
    case Lr(addr, width) => StillThereLr(xlen, s, addr, width);
    case Sc(_, _, _) =>
    case Guest(op) => StillThereGuest(xlen, s, op);
  }

  /** The law holds in every state of every run. */
  lemma {:induction false} StillThereAlways(xlen: nat, s: State, code: seq<Instr>, k: nat)
    requires (forall n :: 0 <= n < |code| ==> InstrOk(code[n])) && StillThere(xlen, s) && k <= |code|
    ensures StillThere(xlen, States(xlen, s, code)[k])
    decreases |code|
  {
    hide StillThere, StepInstr;
    if k > 0 {
      StillThereStep(xlen, s, code[0]);
      StillThereAlways(xlen, StepInstr(xlen, s, code[0]).1, code[1..], k - 1);
    }
  }

  // ---- where a successful SC stores ------------------------------------------------------------------

  /** Two allowed translations of one address in one space at one privilege level agree, whatever
      the accesses and whatever SUM and MXR. */
  lemma OneAddress(d: Dram, sp: Space, va: nat, access: Access, mode: Mode, access2: Access, mode2: Mode)
    requires mode.priv == mode2.priv
    requires Translate(d, sp, va, access, mode).0.Mapped? && Translate(d, sp, va, access2, mode2).0.Mapped?
    ensures Translate(d, sp, va, access, mode).0 == Translate(d, sp, va, access2, mode2).0
  {
    hide Walk, V, R, W, X, U, A, D, Ppn, ReservedHigh, SuperPages, LeafAddress, Canonical, WithAD;
  }

  /** The SC translates in the space and at the privilege of its LR. */
  predicate SameMapping(xlen: nat, s: State) {
    EnvOf(xlen, s.w).sp == s.last.sp && DataPrivilege(s.w.arch) == s.last.mode.priv
  }

  /** The bytes of the SC lie among those its LR read. */
  predicate Within(pa: nat, width: nat, last: Load) { last.pa <= pa && pa + width <= last.pa + last.width }

  /** In every state of every run that starts without a reservation: an SC that stores does so at the
      address its LR read, provided satp and the data privilege are those of the LR; and then it
      stays within the bytes that were read if and only if it is not wider than the LR. */
  lemma ScWithinLrIff(xlen: nat, s0: State, code: seq<Instr>, k: nat)
    requires (forall n :: 0 <= n < |code| ==> InstrOk(code[n])) && k < |code| && code[k].Sc?
    requires !s0.w.arch.reserved && Fits(xlen, s0.last.sp)
    ensures var s := States(xlen, s0, code)[k];
            var out := StepInstr(xlen, s, code[k]).0;
            out.Stored? && SameMapping(xlen, s) ==>
              && out.pa == s.last.pa
              && (Within(out.pa, code[k].width, s.last) <==> code[k].width <= s.last.width)
  {
    hide Translate, AccessAny, SatpSpace, SatpAsid, Fits;
    StillThereAlways(xlen, s0, code, k);
    var s := States(xlen, s0, code)[k];
    var addr, width, data := code[k].addr, code[k].width, code[k].data;
    var out := StepSc(xlen, s, addr, width, data).0;
    if out.Stored? && SameMapping(xlen, s) {
      var env := EnvOf(xlen, s.w);
      AlignedAccess(xlen, s.w, addr, width, Write, Amo, data);
      OneAddress(s.w.dram, env.sp, addr % Wrap(xlen), Read, s.last.mode, Write, env.Mode(DataPrivilege(s.w.arch)));
    }
  }

  /** What the record says is true: after a step, if the reservation is up, the record is that of the
      last LR that read. */
  lemma RecordIsLastLr(xlen: nat, s: State, i: Instr)
    requires InstrOk(i) && StepInstr(xlen, s, i).1.w.arch.reserved
    ensures var (out, s') := StepInstr(xlen, s, i);
            if i.Lr? then
              out.Loaded? && s'.loadRes == i.addr && s'.last.width == i.width && s'.last.pa == out.pa
              && s'.last.sp == EnvOf(xlen, s.w).sp && s'.last.mode.priv == DataPrivilege(s.w.arch)
            else s.w.arch.reserved && s'.loadRes == s.loadRes && s'.last == s.last
  {
    hide AccessAny, SatpSpace, SatpAsid, StepGuest, TrapVector;
    match i
    case Guest(op) => GuestKeeps(xlen, s, op, Bare);
    case _ =>
  }

  /** Right after an LR the mapping is the LR's, and only a satp or status write can change that while
      the reservation is up. */
  lemma OnlyCsrWritesRemap(xlen: nat, s: State, i: Instr)
    requires InstrOk(i) && StepInstr(xlen, s, i).1.w.arch.reserved
    requires i.Guest? ==> SameMapping(xlen, s) && !i.op.WriteSatp? && !i.op.WriteMstatus? && !i.op.WriteSstatus?
    ensures SameMapping(xlen, StepInstr(xlen, s, i).1)
  {
    hide AccessAny, FetchAny, SatpSpace, SatpAsid, TrapVector, Mret, Sret, Kept;
    TransfersDrop(s.w.arch);
    match i
    case Lr(addr, width) =>
      EnvFits(xlen, s.w);
      LoadAnyKeeps(xlen, s.w, addr, width, Read, LoadReserved, 0, EnvOf(xlen, s.w).sp);
    case Guest(op) =>
      match op {
        case Fetch(pc, wide) => FetchKeeps(xlen, s.w, pc, wide, Bare);
        case Access(a, size, access, kind, data) =>
          if access.Read? {
            LoadAnyKeeps(xlen, s.w, a, size, access, kind, data, Bare);
          }
        case CachedAccess(a, size, access, data) =>
          if access.Read? {
            LoadAnyKeeps(xlen, s.w, a, size, access, Plain, data, Bare);
          }
        case _ =>
      }
    case _ =>
  }
}
