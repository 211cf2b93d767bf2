/** Traps, returns, status writes and commits, register by register: where a trap goes, what the level it
    enters records, and which fields a status write can reach. */
module PrivilegedLaws {

  import Arith
  import opened PageTable
  import opened Privileged
  import opened Interrupts

  // ---- traps -----------------------------------------------------------------------------------------

  /** Traps taken below M-mode whose cause is delegated go to S-mode. */
  predicate GoesToSupervisor(s: Arch, cause: Cause) {
    && s.isa.s && (s.priv.User? || s.priv.Supervisor?)
    && match cause
       case Interrupt(code) => code < 64 && code in s.irqs.mideleg
       case Exception(code) => code < 64 && code in s.irqs.medeleg
  }

  /** The level a trap enters, and what it records there: the interrupted pc, the cause, the value, the level
      that was interrupted, and its interrupt enable, which is off in the handler. The other level's
      registers and everything else stay, and the reservation is gone. */
  lemma TrapEntry(s: Arch, cause: Cause, tval: nat)
    ensures var t := RaiseException(s, cause, tval);
            && t.priv == (if GoesToSupervisor(s, cause) then Supervisor else Machine)
            && (GoesToSupervisor(s, cause) ==>
                  && t.sx.epc == s.pc && t.sx.cause == cause && t.sx.tval == tval && t.sx.tvec == s.sx.tvec
                  && t.mx == s.mx && !t.mstatus.sie && t.mstatus.spie == s.mstatus.sie
                  && (t.mstatus.spp <==> s.priv.Supervisor?)
                  && t.mstatus.mie == s.mstatus.mie && t.mstatus.mpie == s.mstatus.mpie
                  && t.mstatus.mpp == s.mstatus.mpp)
            && (!GoesToSupervisor(s, cause) ==>
                  && t.mx.epc == s.pc && t.mx.cause == cause && t.mx.tval == tval && t.mx.tvec == s.mx.tvec
                  && t.sx == s.sx && !t.mstatus.mie && t.mstatus.mpie == s.mstatus.mie && t.mstatus.mpp == s.priv
                  && t.mstatus.sie == s.mstatus.sie && t.mstatus.spie == s.mstatus.spie
                  && t.mstatus.spp == s.mstatus.spp)
            && t.mstatus.mprv == s.mstatus.mprv && t.mstatus.sum == s.mstatus.sum && t.mstatus.mxr == s.mstatus.mxr
            && t.mstatus.other == s.mstatus.other && t.irqs == s.irqs && t.isa == s.isa && !t.reserved
  {
    hide TrapVector;
  }

  /** Where a trap goes. The base is the largest multiple of 4 not above the xtvec of the level entered. Every
      exception goes there, and so does every interrupt unless the low bits of xtvec are 1; then it goes
      4 times its code further, modulo 2^64. */
  lemma TrapTarget(s: Arch, cause: Cause, tval: nat, base: nat)
    requires var tvec := if GoesToSupervisor(s, cause) then s.sx.tvec else s.mx.tvec;
             base % 4 == 0 && base <= tvec < base + 4
    ensures var tvec := if GoesToSupervisor(s, cause) then s.sx.tvec else s.mx.tvec;
            var pc := RaiseException(s, cause, tval).pc;
            && (cause.Exception? || tvec != base + 1 ==> pc == base)
            && (cause.Interrupt? && tvec == base + 1 ==> pc == (base + 4 * cause.code) % 0x1_0000_0000_0000_0000)
  {
    hide TrapVector;
    VectorTarget(if GoesToSupervisor(s, cause) then s.sx.tvec else s.mx.tvec, cause, base);
  }

  lemma VectorTarget(tvec: nat, cause: Cause, base: nat)
    requires base % 4 == 0 && base <= tvec < base + 4
    ensures TrapVector(tvec, cause)
         == if cause.Interrupt? && tvec == base + 1 then (base + 4 * cause.code) % 0x1_0000_0000_0000_0000 else base
  {
    Arith.ModUnique(tvec, 4, base / 4, tvec - base);
  }

  // ---- returns ---------------------------------------------------------------------------------------

  /** The largest multiple of the instruction alignment, 2 with compressed instructions and 4 without, that is
      not above x. */
  predicate AlignedBelow(s: Arch, x: nat, pc: nat) {
    var align := if s.isa.c then 2 else 4;
    pc % align == 0 && pc <= x < pc + align
  }

  /** MRET goes back to the level in MPP at mepc. MIE gets MPIE, MPIE becomes 1, MPP the least level there is,
      and MPRV is cleared unless the hart stays in M-mode. */
  lemma MachineReturns(s: Arch)
    ensures var t := Mret(s);
            && t.priv == s.mstatus.mpp && AlignedBelow(s, s.mx.epc, t.pc) && !t.reserved
            && t.mstatus.mie == s.mstatus.mpie && t.mstatus.mpie
            && t.mstatus.mpp == (if s.isa.u then User else if s.isa.s then Supervisor else Machine)
            && (t.mstatus.mprv <==> s.mstatus.mprv && s.mstatus.mpp.Machine?)
            && t.mstatus.sie == s.mstatus.sie && t.mstatus.spie == s.mstatus.spie && t.mstatus.spp == s.mstatus.spp
            && t.mstatus.sum == s.mstatus.sum && t.mstatus.mxr == s.mstatus.mxr && t.mstatus.other == s.mstatus.other
            && t.mx == s.mx && t.sx == s.sx && t.irqs == s.irqs && t.isa == s.isa
  {
  }

  /** SRET goes back to S-mode if SPP is set and else to U-mode, at sepc. SIE gets SPIE, SPIE becomes 1, and SPP
      and MPRV are cleared. */
  lemma SupervisorReturns(s: Arch)
    ensures var t := Sret(s);
            && t.priv == (if s.mstatus.spp then Supervisor else User) && AlignedBelow(s, s.sx.epc, t.pc) && !t.reserved
            && t.mstatus.sie == s.mstatus.spie && t.mstatus.spie && !t.mstatus.spp && !t.mstatus.mprv
            && t.mstatus.mie == s.mstatus.mie && t.mstatus.mpie == s.mstatus.mpie && t.mstatus.mpp == s.mstatus.mpp
            && t.mstatus.sum == s.mstatus.sum && t.mstatus.mxr == s.mstatus.mxr && t.mstatus.other == s.mstatus.other
            && t.mx == s.mx && t.sx == s.sx && t.irqs == s.irqs && t.isa == s.isa
  {
  }

  // ---- status writes ---------------------------------------------------------------------------------

  /** A write of mstatus stores every field the hart implements and zero in every other; MPP, given by its two
      bits, falls back to M-mode when it names no level of the hart. */
  lemma MstatusWrite(isa: Isa, w: Mstatus, mpp: nat)
    ensures var m := SetMstatus(isa, w, mpp);
            && m.mie == w.mie && m.mpie == w.mpie
            && (if isa.s then
                  m.sie == w.sie && m.spie == w.spie && m.spp == w.spp && m.sum == w.sum && m.mxr == w.mxr
                  && m.other.tvm == w.other.tvm && m.other.tsr == w.other.tsr
                else !m.sie && !m.spie && !m.spp && !m.sum && !m.mxr && !m.other.tvm && !m.other.tsr)
            && (m.mprv <==> isa.u && w.mprv) && (m.other.tw <==> (isa.s || isa.u) && w.other.tw)
            && m.other.fs == (if isa.f then w.other.fs else 0) && m.other.vs == (if isa.v then w.other.vs else 0)
            && m.mpp == (if mpp == 0 && isa.u then User else if mpp == 1 && isa.s then Supervisor else Machine)
  {
  }

  /** A write of sstatus reaches SIE, SPIE, SPP, SUM, MXR, FS and VS, and nothing that belongs to M-mode. */
  lemma SstatusWrite(s: Arch, w: Mstatus)
    requires Legal(s) && s.isa.s
    ensures var m := SetSstatus(s.isa, s.mstatus, w);
            && m.sie == w.sie && m.spie == w.spie && m.spp == w.spp && m.sum == w.sum && m.mxr == w.mxr
            && m.other.fs == (if s.isa.f then w.other.fs else 0) && m.other.vs == (if s.isa.v then w.other.vs else 0)
            && m.mie == s.mstatus.mie && m.mpie == s.mstatus.mpie && m.mpp == s.mstatus.mpp && m.mprv == s.mstatus.mprv
            && m.other.tvm == s.mstatus.other.tvm && m.other.tw == s.mstatus.other.tw
            && m.other.tsr == s.mstatus.other.tsr
  {
  }

  /** Writing back what was read changes nothing, through mstatus and through sstatus. */
  lemma WriteBack(s: Arch)
    requires Legal(s)
    ensures SetSstatus(s.isa, s.mstatus, s.mstatus) == s.mstatus
    ensures SetMstatus(s.isa, s.mstatus, match s.mstatus.mpp case User => 0 case Supervisor => 1 case Machine => 3)
         == s.mstatus
  {
  }

  // ---- interrupts ------------------------------------------------------------------------------------

  /** Of several interrupts the machine external one goes first, then the machine software and timer ones, then
      the supervisor external, software and timer ones, and then the highest number. */
  lemma SelectedInterrupt(mask: set<nat>)
    requires mask != {}
    ensures var i := SelectHighestPriority(mask);
            if 11 in mask then i == 11 else if 3 in mask then i == 3 else if 7 in mask then i == 7
            else if 9 in mask then i == 9 else if 1 in mask then i == 1 else if 5 in mask then i == 5
            else i in mask && forall j :: j in mask ==> j <= i
  {
    var i := SelectHighestPriority(mask);
    forall j | j in mask ensures i in mask && Precedes(i, j) {
      SelectedIsFirst(mask, j);
    }
    var k :| k in mask;
    assert Precedes(i, k);
    assert forall c :: c in {11, 3, 7, 9, 1, 5} && c in mask ==> Precedes(i, c);
  }

  // ---- the end of an instruction ---------------------------------------------------------------------

  /** The trap is in the registers of the level that was entered. */
  predicate Records(t: Arch, epc: nat, cause: Cause, tval: nat) {
    (t.priv.Supervisor? && t.sx.epc == epc && t.sx.cause == cause && t.sx.tval == tval)
    || (t.priv.Machine? && t.mx.epc == epc && t.mx.cause == cause && t.mx.tval == tval)
  }

  /** A pending exception is taken at the instruction with its own code and value. A misaligned target is cause
      0 with the target as value, at the instruction as well. Otherwise the pc moves, and an interrupt, if
      one is taken, is taken there with value 0. */
  lemma CommitTakes(s: Arch, o: Interrupts.Outcome)
    ensures var t := Commit(s, o);
            match o
            case Pending(code, tval) => Records(t, s.pc, Exception(code), tval)
            case Taken(target) =>
              if target % (if s.isa.c then 2 else 4) != 0 then Records(t, s.pc, Exception(0), target)
              else
                t == s.(pc := target)
                || exists i: nat :: i in s.irqs.mip && i in s.irqs.mie && Records(t, target, Interrupt(i), 0)
            case Next(pc) =>
              t == s.(pc := pc)
              || exists i: nat :: i in s.irqs.mip && i in s.irqs.mie && Records(t, pc, Interrupt(i), 0)
  {
    hide TrapVector, SelectHighestPriority;
    var mask := Mask(s);
    if mask != {} {
      var i :| i in mask;
      SelectedIsFirst(mask, i);
      assert SelectHighestPriority(mask) in s.irqs.mip && SelectHighestPriority(mask) in s.irqs.mie;
    }
  }
}
