/** Stepping backwards: an undo stack of register snapshots and overwritten memory words, against
    a reference that keeps a whole copy of the machine for every step. */
module Rollback {

  import opened Arith
  import opened Memory
  import opened Bus
  import opened DataPath

  const CAPACITY: nat := 1024

  datatype Clint = Clint(mtime: nat, mtimecmp: nat, mcycle: nat, rtcDivider: int)

  /** What a backstep restores wholesale; A is the architectural state with the pipeline context. */
  datatype Registers<A> = Registers(arch: A, clint: Clint, icount: nat, ccount: nat, instmix: seq<nat>)

  /** One memory write as recorded: where, how wide, and the sign-extended old value. */
  datatype WriteRecord = WriteRecord(addr: nat, old_data: nat, funct3: nat)

  datatype UndoStep<A> = UndoStep(regs: Registers<A>, writes: seq<WriteRecord>)

  datatype Write = Write(addr: nat, funct3: nat, data: nat)

  /** One instruction: the DRAM stores it makes, in order, and the registers it leaves. */
  datatype Effect<A> = Effect(stores: seq<Write>, regs: Registers<A>)

  predicate Fits(base: nat, size: nat, addr: nat, funct3: nat) {
    funct3 <= 3 && Bytes(funct3) <= size && base <= addr && addr - base <= size - Bytes(funct3)
  }

  predicate AllFit(base: nat, size: nat, stores: seq<Write>) {
    forall i :: 0 <= i < |stores| ==> Fits(base, size, stores[i].addr, stores[i].funct3)
  }

  predicate RecordsFit(base: nat, size: nat, writes: seq<WriteRecord>) {
    forall i :: 0 <= i < |writes| ==> Fits(base, size, writes[i].addr, writes[i].funct3)
  }

  // ---- memory: recorded writes replayed in reverse ------------------------------------------

  function Applied(d: Dram, w: Write): (r: Dram)
    requires Fits(d.base, |d.bytes|, w.addr, w.funct3)
    ensures r.base == d.base && |r.bytes| == |d.bytes|
  {
    d.Put(w.addr, Bytes(w.funct3), w.data)
  }

  function AppliedAll(d: Dram, stores: seq<Write>): (r: Dram)
    requires AllFit(d.base, |d.bytes|, stores)
    ensures r.base == d.base && |r.bytes| == |d.bytes|
    decreases |stores|
  {
    if stores == [] then d else AppliedAll(Applied(d, stores[0]), stores[1..])
  }

  /** The old value as the fast read returns it. */
  function Recorded(d: Dram, w: Write): (r: WriteRecord)
    requires Fits(d.base, |d.bytes|, w.addr, w.funct3)
    ensures Fits(d.base, |d.bytes|, r.addr, r.funct3)
  {
    WriteRecord(w.addr, FlatLoad(d, w.addr, w.funct3), w.funct3)
  }

  function RecordedAll(d: Dram, stores: seq<Write>): (r: seq<WriteRecord>)
    requires AllFit(d.base, |d.bytes|, stores)
    ensures RecordsFit(d.base, |d.bytes|, r)
    decreases |stores|
  {
    if stores == [] then [] else [Recorded(d, stores[0])] + RecordedAll(Applied(d, stores[0]), stores[1..])
  }

  lemma StoresUnrolled(d: Dram, stores: seq<Write>, i: nat)
    requires i < |stores| && AllFit(d.base, |d.bytes|, stores[i..])
    ensures Fits(d.base, |d.bytes|, stores[i].addr, stores[i].funct3)
    ensures AllFit(d.base, |d.bytes|, stores[i + 1..])
    ensures AppliedAll(d, stores[i..]) == AppliedAll(Applied(d, stores[i]), stores[i + 1..])
    ensures RecordedAll(d, stores[i..])
         == [Recorded(d, stores[i])] + RecordedAll(Applied(d, stores[i]), stores[i + 1..])
  {
    hide Fits, Applied, Recorded;
    assert stores[i..][0] == stores[i] && stores[i..][1..] == stores[i + 1..];
  }

  lemma StoresOver(d: Dram, stores: seq<Write>)
    ensures AllFit(d.base, |d.bytes|, stores[|stores|..])
    ensures AppliedAll(d, stores[|stores|..]) == d && RecordedAll(d, stores[|stores|..]) == []
  {
  }

  function Undone(d: Dram, r: WriteRecord): (d': Dram)
    requires Fits(d.base, |d.bytes|, r.addr, r.funct3)
    ensures d'.base == d.base && |d'.bytes| == |d.bytes|
  {
    d.Put(r.addr, Bytes(r.funct3), r.old_data)
  }

  /** Newest record first. */
  function Replayed(d: Dram, writes: seq<WriteRecord>): (r: Dram)
    requires RecordsFit(d.base, |d.bytes|, writes)
    ensures r.base == d.base && |r.bytes| == |d.bytes|
    decreases |writes|
  {
    if writes == [] then d
    else
      var last := |writes| - 1;
      Replayed(Undone(d, writes[last]), writes[..last])
  }

  /** The oldest record is written back last. */
  lemma {:induction false} ReplayFirst(d: Dram, writes: seq<WriteRecord>)
    requires writes != [] && RecordsFit(d.base, |d.bytes|, writes)
    ensures Replayed(d, writes) == Undone(Replayed(d, writes[1..]), writes[0])
    decreases |writes|
  {
    hide Undone, Fits;
    var last := |writes| - 1;
    if last > 0 {
      ReplayFirst(Undone(d, writes[last]), writes[..last]);
      assert writes[..last][1..] == writes[1..][..last - 1];
      assert writes[1..][last - 1] == writes[last];
    }
  }

  lemma SpanDivides(v: nat, s: nat, q: nat)
    requires s >= 1 && v < s && q >= 1
    ensures (v + q * s - s) % s == v
  {
    assert v + q * s - s == (q - 1) * s + v;
    ModUnique(v + q * s - s, s, q - 1, v);
  }

  /** Sign extension is undone by truncating to the stored width. */
  lemma ExtendTruncates(v: nat, funct3: nat)
    requires v < Span(Bytes(funct3))
    ensures Extend(v, Bytes(funct3), Signed(funct3)) % Span(Bytes(funct3)) == v
  {
    var n := Bytes(funct3);
    SpanBelow(1); SpanBelow(2); SpanBelow(4);
    assert Span(1) == 256 && Span(2) == 0x1_0000 && Span(4) == 0x1_0000_0000;
    if n == 1 { SpanDivides(v, 0x100, 0x100_0000_0000_0000); }
    if n == 2 { SpanDivides(v, 0x1_0000, 0x1_0000_0000_0000); }
    if n == 4 { SpanDivides(v, 0x1_0000_0000, 0x1_0000_0000); }
    ModUnique(v, Span(n), 0, v);
  }

  /** Writing the recorded value back undoes one store, whatever it overlapped. */
  lemma UndoOne(d: Dram, w: Write)
    requires Fits(d.base, |d.bytes|, w.addr, w.funct3)
    ensures Undone(Applied(d, w), Recorded(d, w)) == d
  {
    hide Load, Store, Span, Extend;
    var n, off := Bytes(w.funct3), w.addr - d.base;
    var v := Load(d.bytes, off, n);
    var r := Recorded(d, w).old_data;
    ExtendTruncates(v, w.funct3);
    StoreOverStore(d.bytes, off, n, w.data, r);
    StoreTruncates(d.bytes, off, n, r);
    StoreOfLoad(d.bytes, off, n);
  }

  /** Any series of stores, overlapping in any way, is undone by replaying its records. */
  lemma {:induction false} ReplayUndoes(d: Dram, stores: seq<Write>)
    requires AllFit(d.base, |d.bytes|, stores)
    ensures Replayed(AppliedAll(d, stores), RecordedAll(d, stores)) == d
    decreases |stores|
  {
    hide Undone, Applied, Recorded, Fits;
    if stores != [] {
      var d1 := Applied(d, stores[0]);
      ReplayUndoes(d1, stores[1..]);
      var all := RecordedAll(d, stores);
      assert all[1..] == RecordedAll(d1, stores[1..]);
      ReplayFirst(AppliedAll(d, stores), all);
      UndoOne(d, stores[0]);
    }
  }

  // ---- the machine with its undo stack, and the reference with whole copies -------------------

  datatype Machine<A> = Machine(dram: Dram, regs: Registers<A>)

  datatype Stepper<A> = Stepper(now: Machine<A>, stack: seq<UndoStep<A>>) {
    predicate Valid() {
      |stack| <= CAPACITY
      && forall i :: 0 <= i < |stack| ==> RecordsFit(now.dram.base, |now.dram.bytes|, stack[i].writes)
    }
  }

  function Capped<T>(s: seq<T>): (r: seq<T>)
    ensures |r| <= CAPACITY
  {
    if |s| > CAPACITY then s[..CAPACITY] else s
  }

  function Next<A>(m: Machine<A>, e: Effect<A>): Machine<A>
    requires AllFit(m.dram.base, |m.dram.bytes|, e.stores)
  {
    Machine(AppliedAll(m.dram, e.stores), e.regs)
  }

  function Step<A>(s: Stepper<A>, e: Effect<A>): (r: Stepper<A>)
    requires s.Valid() && AllFit(s.now.dram.base, |s.now.dram.bytes|, e.stores)
    ensures r.Valid() && r.now.dram.base == s.now.dram.base && |r.now.dram.bytes| == |s.now.dram.bytes|
  {
    Stepper(Next(s.now, e), Capped([UndoStep(s.now.regs, RecordedAll(s.now.dram, e.stores))] + s.stack))
  }

  function Back<A>(s: Stepper<A>): (r: (bool, Stepper<A>))
    requires s.Valid()
    ensures r.1.Valid() && r.1.now.dram.base == s.now.dram.base && |r.1.now.dram.bytes| == |s.now.dram.bytes|
  {
    if s.stack == [] then (false, s)
    else
      var top := s.stack[0];
      (true, Stepper(Machine(Replayed(s.now.dram, top.writes), top.regs), s.stack[1..]))
  }

  /** The reference keeps a copy of the machine for every step it can go back, newest first. */
  datatype Reference<A> = Reference(now: Machine<A>, past: seq<Machine<A>>) {
    /** All copies are of machines with the same DRAM size. */
    predicate Valid() {
      forall i :: 0 <= i < |past| ==>
        past[i].dram.base == now.dram.base && |past[i].dram.bytes| == |now.dram.bytes|
    }
  }

  function RefStep<A>(r: Reference<A>, e: Effect<A>): (r': Reference<A>)
    requires r.Valid() && AllFit(r.now.dram.base, |r.now.dram.bytes|, e.stores)
    ensures r'.Valid() && r'.now.dram.base == r.now.dram.base && |r'.now.dram.bytes| == |r.now.dram.bytes|
  {
    Reference(Next(r.now, e), Capped([r.now] + r.past))
  }

  function RefBack<A>(r: Reference<A>): (r': (bool, Reference<A>))
    requires r.Valid()
    ensures r'.1.Valid() && r'.1.now.dram.base == r.now.dram.base && |r'.1.now.dram.bytes| == |r.now.dram.bytes|
  {
    if r.past == [] then (false, r) else (true, Reference(r.past[0], r.past[1..]))
  }

  /** Unwinding the stack from memory d yields the copies one by one. */
  ghost predicate Unwinds<A>(d: Dram, stack: seq<UndoStep<A>>, past: seq<Machine<A>>)
    decreases |stack|
  {
    |stack| == |past|
    && (stack != [] ==>
          && RecordsFit(d.base, |d.bytes|, stack[0].writes)
          && past[0] == Machine(Replayed(d, stack[0].writes), stack[0].regs)
          && Unwinds(past[0].dram, stack[1..], past[1..]))
  }

  ghost predicate Tracks<A>(s: Stepper<A>, r: Reference<A>) {
    s.Valid() && r.Valid() && s.now == r.now && Unwinds(s.now.dram, s.stack, r.past)
  }

  /** Forgetting the oldest entries on both sides keeps the rest in step. */
  lemma {:induction false} UnwindsPrefix<A>(d: Dram, stack: seq<UndoStep<A>>, past: seq<Machine<A>>, n: nat)
    requires Unwinds(d, stack, past) && n <= |stack|
    ensures Unwinds(d, stack[..n], past[..n])
    decreases n
  {
    hide RecordsFit;
    if n > 0 {
      UnwindsPrefix(past[0].dram, stack[1..], past[1..], n - 1);
      assert stack[..n][1..] == stack[1..][..n - 1] && past[..n][1..] == past[1..][..n - 1];
    }
  }

  lemma StepTracks<A>(s: Stepper<A>, r: Reference<A>, e: Effect<A>)
    requires Tracks(s, r) && AllFit(s.now.dram.base, |s.now.dram.bytes|, e.stores)
    ensures Tracks(Step(s, e), RefStep(r, e))
  {
    hide AllFit, RecordsFit, RecordedAll, AppliedAll, Replayed;
    var stack := [UndoStep(s.now.regs, RecordedAll(s.now.dram, e.stores))] + s.stack;
    var past := [r.now] + r.past;
    ReplayUndoes(s.now.dram, e.stores);
    assert stack[1..] == s.stack && past[1..] == r.past;
    assert Unwinds(AppliedAll(s.now.dram, e.stores), stack, past);
    if |stack| > CAPACITY {
      UnwindsPrefix(AppliedAll(s.now.dram, e.stores), stack, past, CAPACITY);
    }
  }

  lemma BackTracks<A>(s: Stepper<A>, r: Reference<A>)
    requires Tracks(s, r)
    ensures Back(s).0 == RefBack(r).0 && Tracks(Back(s).1, RefBack(r).1)
  {
    hide RecordsFit, Replayed;
  }

  // ---- whole runs -------------------------------------------------------------------------------

  datatype Command<A> = Forward(effect: Effect<A>) | Backward

  predicate CommandsFit<A>(base: nat, size: nat, cs: seq<Command<A>>) {
    forall i :: 0 <= i < |cs| && cs[i].Forward? ==> AllFit(base, size, cs[i].effect.stores)
  }

  function Command1<A>(s: Stepper<A>, c: Command<A>): (r: (bool, Stepper<A>))
    requires s.Valid()
    requires c.Forward? ==> AllFit(s.now.dram.base, |s.now.dram.bytes|, c.effect.stores)
    ensures r.1.Valid() && r.1.now.dram.base == s.now.dram.base && |r.1.now.dram.bytes| == |s.now.dram.bytes|
  {
    if c.Forward? then (true, Step(s, c.effect)) else Back(s)
  }

  function RefCommand<A>(r: Reference<A>, c: Command<A>): (r': (bool, Reference<A>))
    requires r.Valid()
    requires c.Forward? ==> AllFit(r.now.dram.base, |r.now.dram.bytes|, c.effect.stores)
    ensures r'.1.Valid() && r'.1.now.dram.base == r.now.dram.base && |r'.1.now.dram.bytes| == |r.now.dram.bytes|
  {
    if c.Forward? then (true, RefStep(r, c.effect)) else RefBack(r)
  }

  /** The answers of a run and the machine it leaves. */
  function Run<A>(s: Stepper<A>, cs: seq<Command<A>>): (r: (seq<bool>, Stepper<A>))
    requires s.Valid() && CommandsFit(s.now.dram.base, |s.now.dram.bytes|, cs)
    ensures r.1.Valid()
    decreases |cs|
  {
    if cs == [] then ([], s)
    else
      var (ok, s1) := Command1(s, cs[0]);
      var (oks, s2) := Run(s1, cs[1..]);
      ([ok] + oks, s2)
  }

  function RefRun<A>(r: Reference<A>, cs: seq<Command<A>>): (seq<bool>, Reference<A>)
    requires r.Valid() && CommandsFit(r.now.dram.base, |r.now.dram.bytes|, cs)
    decreases |cs|
  {
    if cs == [] then ([], r)
    else
      var (ok, r1) := RefCommand(r, cs[0]);
      var (oks, r2) := RefRun(r1, cs[1..]);
      ([ok] + oks, r2)
  }

  /** Over any interleaving of steps and backsteps the undo stack is as good as whole copies. */
  lemma {:induction false} RunTracks<A>(s: Stepper<A>, r: Reference<A>, cs: seq<Command<A>>)
    requires Tracks(s, r) && CommandsFit(s.now.dram.base, |s.now.dram.bytes|, cs)
    ensures Run(s, cs).0 == RefRun(r, cs).0 && Tracks(Run(s, cs).1, RefRun(r, cs).1)
    decreases |cs|
  {
    hide AllFit, Step, RefStep, Back, RefBack, Unwinds, Stepper.Valid, Reference.Valid;
    if cs != [] {
      if cs[0].Forward? {
        StepTracks(s, r, cs[0].effect);
      } else {
        BackTracks(s, r);
      }
      RunTracks(Command1(s, cs[0]).1, RefCommand(r, cs[0]).1, cs[1..]);
    }
  }

  // ---- n steps, then k backsteps ------------------------------------------------------------

  ghost predicate EffectsFit<A>(base: nat, size: nat, es: seq<Effect<A>>) {
    forall i :: 0 <= i < |es| ==> AllFit(base, size, es[i].stores)
  }

  /** The machine after the effects, with no undo stack anywhere. */
  ghost function Plain<A>(m: Machine<A>, es: seq<Effect<A>>): (r: Machine<A>)
    requires EffectsFit(m.dram.base, |m.dram.bytes|, es)
    ensures r.dram.base == m.dram.base && |r.dram.bytes| == |m.dram.bytes|
    decreases |es|
  {
    if es == [] then m else Next(Plain(m, es[..|es| - 1]), es[|es| - 1])
  }

  ghost function Steps<A>(s: Stepper<A>, es: seq<Effect<A>>): (r: Stepper<A>)
    requires s.Valid() && EffectsFit(s.now.dram.base, |s.now.dram.bytes|, es)
    ensures r.Valid() && r.now.dram.base == s.now.dram.base && |r.now.dram.bytes| == |s.now.dram.bytes|
    decreases |es|
  {
    if es == [] then s else Step(Steps(s, es[..|es| - 1]), es[|es| - 1])
  }

  ghost function Backs<A>(s: Stepper<A>, k: nat): (r: Stepper<A>)
    requires s.Valid()
    ensures r.Valid()
  {
    if k == 0 then s else Back(Backs(s, k - 1)).1
  }

  function Min(a: nat, b: nat): nat { if a < b then a else b }

  /** The copies the reference holds after n steps: the machine before each of the last steps. */
  ghost predicate Copies<A>(m: Machine<A>, es: seq<Effect<A>>, r: Reference<A>)
    requires EffectsFit(m.dram.base, |m.dram.bytes|, es)
  {
    && r.now == Plain(m, es) && |r.past| == Min(|es|, CAPACITY)
    && forall i :: 0 <= i < |r.past| ==> r.past[i] == Plain(m, es[..|es| - 1 - i])
  }

  lemma CopiesStep<A>(m: Machine<A>, es: seq<Effect<A>>, r: Reference<A>)
    requires es != [] && EffectsFit(m.dram.base, |m.dram.bytes|, es) && r.Valid()
    requires EffectsFit(m.dram.base, |m.dram.bytes|, es[..|es| - 1]) && Copies(m, es[..|es| - 1], r)
    ensures AllFit(r.now.dram.base, |r.now.dram.bytes|, es[|es| - 1].stores)
    ensures Copies(m, es, RefStep(r, es[|es| - 1]))
  {
    hide AllFit, Next;
    var last := |es| - 1;
    var past := RefStep(r, es[last]).past;
    forall i | 0 <= i < |past| ensures past[i] == Plain(m, es[..|es| - 1 - i]) {
      if i > 0 {
        assert es[..last][..last - 1 - (i - 1)] == es[..|es| - 1 - i];
      }
    }
  }

  lemma {:induction false} StepsTrack<A>(s: Stepper<A>, es: seq<Effect<A>>) returns (r: Reference<A>)
    requires s.Valid() && s.stack == [] && EffectsFit(s.now.dram.base, |s.now.dram.bytes|, es)
    ensures Tracks(Steps(s, es), r) && Copies(s.now, es, r)
    decreases |es|
  {
    hide AllFit, Step, RefStep, Plain, Copies;
    if es == [] {
      r := Reference(s.now, []);
      NoCopies(s.now, r);
    } else {
      var last := |es| - 1;
      var q := StepsTrack(s, es[..last]);
      CopiesStep(s.now, es, q);
      StepTracks(Steps(s, es[..last]), q, es[last]);
      r := RefStep(q, es[last]);
    }
  }

  lemma NoCopies<A>(m: Machine<A>, r: Reference<A>)
    requires r == Reference(m, [])
    ensures EffectsFit<A>(m.dram.base, |m.dram.bytes|, []) && Copies(m, [], r)
  {
  }

  /** k backsteps against a tracked reference land on its k-th copy. */
  lemma {:induction false} BacksTrack<A>(s: Stepper<A>, r: Reference<A>, k: nat)
    requires Tracks(s, r) && k <= |r.past|
    ensures Tracks(Backs(s, k), Reference(if k == 0 then r.now else r.past[k - 1], r.past[k..]))
    ensures Back(Backs(s, k)).0 <==> k < |r.past|
  {
    hide Unwinds, Back;
    if k > 0 {
      BacksTrack(s, r, k - 1);
      var before := Reference(if k == 1 then r.now else r.past[k - 2], r.past[k - 1..]);
      BackTracks(Backs(s, k - 1), before);
      assert RefBack(before).1 == Reference(r.past[k - 1], r.past[k..]);
    } else {
      assert r.past[0..] == r.past && r == Reference(r.now, r.past);
    }
    BackTracks(Backs(s, k), Reference(if k == 0 then r.now else r.past[k - 1], r.past[k..]));
  }

  /** After any n steps, k backsteps, k at most min(n, 1024), restore memory, architectural state,
      timers and counters to exactly what they were k steps ago, and the next backstep succeeds
      exactly when k is below that bound. */
  lemma BackstepsRestore<A>(s: Stepper<A>, es: seq<Effect<A>>, k: nat)
    requires s.Valid() && s.stack == [] && EffectsFit(s.now.dram.base, |s.now.dram.bytes|, es)
    requires k <= |es| && k <= 1024
    ensures EffectsFit(s.now.dram.base, |s.now.dram.bytes|, es[..|es| - k])
    ensures Backs(Steps(s, es), k).now == Plain(s.now, es[..|es| - k])
    ensures Back(Backs(Steps(s, es), k)).0 <==> k < |es| && k < 1024
  {
    hide Unwinds, Back, Backs, Steps, Plain, AllFit;
    var r := StepsTrack(s, es);
    BacksTrack(Steps(s, es), r, k);
    assert k == 0 ==> es[..|es| - k] == es;
  }

  // ---- the object ------------------------------------------------------------------------------

  class Cpu<A> {
    const mmem: array<Byte>
    const dramBase: nat
    var regs: Registers<A>
    var undoStack: seq<UndoStep<A>>
    var isShutdown: bool
    var isRunning: bool

    ghost function State(): (s: Stepper<A>)
      reads this, mmem
      ensures s.now.dram.base == dramBase && |s.now.dram.bytes| == mmem.Length
    {
      Stepper(Machine(Dram(dramBase, mmem[..]), regs), undoStack)
    }

    constructor (mmem: array<Byte>, dramBase: nat, regs: Registers<A>)
      ensures State() == Stepper(Machine(Dram(dramBase, mmem[..]), regs), []) && State().Valid()
      ensures this.mmem == mmem
    {
      this.mmem, this.dramBase, this.regs := mmem, dramBase, regs;
      undoStack := [];
      isShutdown, isRunning := false, true;
    }

    method PushUndoState()
      requires State().Valid()
      modifies this`undoStack
      ensures undoStack == Capped([UndoStep(regs, [])] + old(undoStack))
    {
      undoStack := [UndoStep(regs, [])] + undoStack;
      if |undoStack| > CAPACITY {
        undoStack := undoStack[..|undoStack| - 1];
      }
    }

    method RecordMemWrite(addr: nat, old_data: nat, funct3: nat)
      modifies this`undoStack
      ensures undoStack == if old(undoStack) == [] then [] else
                [UndoStep(old(undoStack)[0].regs, old(undoStack)[0].writes + [WriteRecord(addr, old_data, funct3)])]
                + old(undoStack)[1..]
    {
      if undoStack == [] {
        return;
      }
      var step := undoStack[0];
      undoStack := [UndoStep(step.regs, step.writes + [WriteRecord(addr, old_data, funct3)])] + undoStack[1..];
    }

    /** One instruction with rollback on: snapshot, recorded stores, new registers. */
    method Execute(e: Effect<A>)
      requires State().Valid() && AllFit(dramBase, mmem.Length, e.stores)
      modifies this, mmem
      ensures State() == Step(old(State()), e)
    {
      hide Stepper.Valid, FlatLoad, Store, Fits, AppliedAll, RecordedAll, Applied, Recorded;
      ghost var s := State();
      PushUndoState();
      ghost var below := undoStack[1..];
      assert e.stores[0..] == e.stores;
      assert undoStack[0].writes + RecordedAll(s.now.dram, e.stores) == RecordedAll(s.now.dram, e.stores);
      for i := 0 to |e.stores|
        invariant regs == s.now.regs && undoStack != [] && undoStack[0].regs == regs && undoStack[1..] == below
        invariant AllFit(dramBase, mmem.Length, e.stores[i..])
        invariant AppliedAll(Dram(dramBase, mmem[..]), e.stores[i..]) == AppliedAll(s.now.dram, e.stores)
        invariant undoStack[0].writes + RecordedAll(Dram(dramBase, mmem[..]), e.stores[i..])
               == RecordedAll(s.now.dram, e.stores)
      {
        ghost var d, before := Dram(dramBase, mmem[..]), undoStack[0].writes;
        StoresUnrolled(d, e.stores, i);
        StoreRecorded(e.stores[i]);
        ghost var rest := RecordedAll(Dram(dramBase, mmem[..]), e.stores[i + 1..]);
        assert before + ([Recorded(d, e.stores[i])] + rest) == undoStack[0].writes + rest;
      }
      regs := e.regs;
      StoresOver(Dram(dramBase, mmem[..]), e.stores);
      assert undoStack[0].writes + [] == undoStack[0].writes;
      assert undoStack == [undoStack[0]] + below;
      PushedTop(s.stack, UndoStep(s.now.regs, []), undoStack[0]);
    }

    lemma PushedTop(stack: seq<UndoStep<A>>, a: UndoStep<A>, b: UndoStep<A>)
      ensures [b] + Capped([a] + stack)[1..] == Capped([b] + stack)
    {
    }

    /** A store with rollback on: the old value is recorded, then memory is written. */
    method StoreRecorded(w: Write)
      requires undoStack != [] && Fits(dramBase, mmem.Length, w.addr, w.funct3)
      modifies this`undoStack, mmem
      ensures Dram(dramBase, mmem[..]) == Applied(old(Dram(dramBase, mmem[..])), w)
      ensures undoStack != [] && undoStack[0].regs == old(undoStack[0].regs) && undoStack[1..] == old(undoStack)[1..]
      ensures undoStack[0].writes == old(undoStack[0].writes) + [Recorded(old(Dram(dramBase, mmem[..])), w)]
    {
      hide Load, Store, Extend;
      var n := Bytes(w.funct3);
      var was := Extend(Load(mmem[..], w.addr - dramBase, n), n, Signed(w.funct3));
      RecordMemWrite(w.addr, was, w.funct3);
      StoreInto(mmem, w.addr - dramBase, n, w.data);
    }

    method PerformBackstep() returns (ok: bool)
      requires State().Valid()
      modifies this, mmem
      ensures (ok, State()) == Back(old(State()))
      ensures ok ==> !isShutdown && isRunning
    {
      hide Store, Fits;
      if undoStack == [] {
        return false;
      }
      ghost var s := State();
      var step := undoStack[0];
      undoStack := undoStack[1..];
      isShutdown, isRunning := false, true;
      var i := |step.writes|;
      assert step.writes[..i] == step.writes;
      while i > 0
        invariant 0 <= i <= |step.writes| && undoStack == s.stack[1..]
        invariant RecordsFit(dramBase, mmem.Length, step.writes[..i])
        invariant Replayed(Dram(dramBase, mmem[..]), step.writes[..i]) == Replayed(s.now.dram, step.writes)
        invariant isRunning && !isShutdown
      {
        i := i - 1;
        var r := step.writes[i];
        assert step.writes[..i + 1][i] == r && step.writes[..i + 1][..i] == step.writes[..i];
        WriteBack(r);
      }
      regs := step.regs;
      ok := true;
    }

    method WriteBack(r: WriteRecord)
      requires Fits(dramBase, mmem.Length, r.addr, r.funct3)
      modifies mmem
      ensures Dram(dramBase, mmem[..]) == Undone(old(Dram(dramBase, mmem[..])), r)
    {
      StoreInto(mmem, r.addr - dramBase, Bytes(r.funct3), r.old_data);
    }
  }
}
