/** A concrete guest whose fence by address leaves a page of a superpage stale. */
module FenceWitness {

  import opened Memory
  import opened PageTable
  import opened PageWalker
  import opened Privileged
  import opened Tlb
  import opened TlbCoherence
  import opened CachelessHart
  import opened Translation
  import opened Fences
  import opened Witness

  /** The guest's hart, with this entry for the gigapage in memory and 0x2000 in the read TLB. */
  ghost predicate Holds(h: Hart, pte: nat)
    reads h, h.Repr
  {
    && h.Valid() && h.xlen == 64 && h.arch == KERNEL && h.satp == SATP && Gigapage(h.Dram(), pte)
    && 2 * h.dataR.numSets == h.dataR.slots.Length && h.dataR.numSets > 0
    && var found := h.dataR.Find(0x2000, SatpAsid(SATP, 64), Supervisor);
    found.Hit? && found.entry.pAddr == 0x8000_2000
  }

  /** S-mode reads 0x2000, clears the gigapage's entry through address 0, fences 0x1000 and reads
      0x2000 again: the TLB still answers, from the entry that is no longer there. After a fence of
      all addresses the same load faults. */
  method SuperpageAfterFence() returns (first: Result, edit: Result, second: Result, third: Result)
    ensures first == Reached([0x8000_2000]) && edit == Reached([BASE])
    ensures second == first && third == Trap(13, 0x2000)
  {
    hide Holds, Hart.Valid, Gigapage, AllStale, Legal;
    var h;
    h, first := LoadFirst();
    edit := Clear(h);
    FenceAnother(h);
    second := Reload(h);
    third := FenceAndReload(h);
  }

  method LoadFirst() returns (h: Hart, r: Result)
    ensures fresh(h) && fresh(h.Repr) && Holds(h, USED) && h.stale == iset{} && r == Reached([0x8000_2000])
  {
    hide Load, Store, SatpSpace, SatpMode, SatpModeSupported, SatpAsid, Hart.Valid, Hart.Flushed, Kernel, Gigapage,
         Hart.SoftHitAt, Translate, Canonical, AllStale, CachelessHart.AccessOne, Hart.Fenced, FindIn, Hart.InDram,
         EditOne, Changed, Written, TlbTable.Find, TlbTable.Valid, Hart.Sound, Hart.AllRight, Hart.UnselectedRight,
         StatusFlushes, TlbTable.SetOf, Wrap, Legal;
    h := NewHart();
    h.SfenceVma(true, 0, true, 0);
    h.IsLegal();
    ghost var w := h.Value();
    IsKernel(w);
    KernelLoadOne(w);
    KernelPage(w);
    h.StaleNeverHits(Read, 0x2000, Supervisor);
    LoadOneEditsNothing(64, w, 0x2000, 1, Read, Plain, 0);
    r := h.AccessOne(0x2000, 1, Read, Plain, 0);
    DataTable(h, 0x2000);
  }

  method Clear(h: Hart) returns (r: Result)
    requires Holds(h, USED) && h.stale == iset{}
    modifies h.Repr
    ensures Holds(h, 0) && r == Reached([BASE])
  {
    hide Load, Store, SatpSpace, SatpMode, SatpModeSupported, SatpAsid, Hart.Valid, Hart.Flushed, Kernel, Gigapage,
         Hart.SoftHitAt, Translate, Canonical, AllStale, CachelessHart.AccessOne, Hart.Fenced, FindIn, Hart.InDram,
         EditOne, Changed, Written, TlbTable.Find, TlbTable.Valid, Hart.Sound, Hart.AllRight, Hart.UnselectedRight,
         StatusFlushes, TlbTable.SetOf, Wrap, Legal;
    h.IsLegal();
    ghost var w := h.Value();
    IsKernel(w);
    ClearThroughZero(w);
    DataTable(h, 0x2000);
    r := h.AccessOne(0, 8, Write, Plain, 0);
    DataTable(h, 0x2000);
  }

  method FenceAnother(h: Hart)
    requires Holds(h, 0)
    modifies h.Repr
    ensures Holds(h, 0) && h.Layout() && AllStale(h.softRead[..], h.softEpoch) && AllStale(h.softWrite[..], h.softEpoch)
  {
    hide Load, Store, SatpSpace, SatpMode, SatpModeSupported, SatpAsid, Hart.Valid, Hart.Flushed, Kernel, Gigapage,
         Hart.SoftHitAt, Translate, Canonical, AllStale, CachelessHart.AccessOne, Hart.Fenced, FindIn, Hart.InDram,
         EditOne, Changed, Written, TlbTable.Find, TlbTable.Valid, Hart.Sound, Hart.AllRight, Hart.UnselectedRight,
         StatusFlushes, TlbTable.SetOf, Wrap, Legal;
    DataTable(h, 0x2000);
    ghost var before, s := h.dataR.slots[..], h.dataR.SetOf(0x2000);
    h.SfenceVma(false, 0x1000, true, 0);
    h.IsLegal();
    DataTable(h, 0x2000);
    SurvivesFence(before, h.dataR.slots[..], s, 0x1000, 0x2000, SatpAsid(SATP, 64), Supervisor);
  }

  method Reload(h: Hart) returns (r: Result)
    requires Holds(h, 0) && h.Layout()
    requires AllStale(h.softRead[..], h.softEpoch) && AllStale(h.softWrite[..], h.softEpoch)
    modifies h.Repr
    ensures r == Reached([0x8000_2000])
    ensures h.Valid() && h.xlen == 64 && h.arch == KERNEL && h.satp == SATP && Gigapage(h.Dram(), 0)
  {
    hide Load, Store, SatpSpace, SatpMode, SatpModeSupported, SatpAsid, Hart.Valid, Hart.Flushed, Kernel, Gigapage,
         Hart.SoftHitAt, Translate, Canonical, AllStale, CachelessHart.AccessOne, Hart.Fenced, FindIn, Hart.InDram,
         EditOne, Changed, Written, TlbTable.Find, TlbTable.Valid, Hart.Sound, Hart.AllRight, Hart.UnselectedRight,
         StatusFlushes, TlbTable.SetOf, Wrap, Legal;
    h.StaleNeverHits(Read, 0x2000, Supervisor);
    KernelPage(h.Value());
    r := h.AccessOne(0x2000, 1, Read, Plain, 0);
    LoadWritesNothing(old(h.Dram()), 0x8000_2000);
  }

  method FenceAndReload(h: Hart) returns (r: Result)
    requires h.Valid() && h.xlen == 64 && h.arch == KERNEL && h.satp == SATP && Gigapage(h.Dram(), 0)
    modifies h.Repr
    ensures r == Trap(13, 0x2000)
  {
    hide Load, Store, SatpSpace, SatpMode, SatpModeSupported, SatpAsid, Hart.Valid, Hart.Flushed, Kernel, Gigapage,
         Hart.SoftHitAt, Translate, Canonical, AllStale, CachelessHart.AccessOne, Hart.Fenced, FindIn, Hart.InDram,
         EditOne, Changed, Written, TlbTable.Find, TlbTable.Valid, Hart.Sound, Hart.AllRight, Hart.UnselectedRight,
         StatusFlushes, TlbTable.SetOf, Wrap, Legal;
    h.SfenceVma(true, 0, true, 0);
    h.IsLegal();
    ClearedFaults(h.Value());
    r := h.AccessOne(0x2000, 1, Read, Plain, 0);
  }

  lemma LoadWritesNothing(d: Dram, pa: nat)
    ensures Written(d, pa, 1, Read, 0) == d
  {
  }

  lemma KernelLoadOne(w: World)
    requires Kernel(w)
    ensures EnvOf(64, w).sp == SV39
    ensures CachelessHart.AccessOne(64, w, 0x2000, 1, Read, Plain, 0) == (Reached([0x8000_2000]), w)
  {
    hide CachelessHart.AccessOne, SatpSpace;
    KernelLoad(w, 0x2000, 1, Plain);
  }

  /** What a lookup in the read table finds. */
  lemma DataTable(h: Hart, va: nat)
    requires h.Valid()
    ensures h.dataR.numSets > 0 && h.dataR.slots.Length == 2 * h.dataR.numSets
    ensures 2 * h.dataR.SetOf(va) + 1 < h.dataR.slots.Length
    ensures forall asid: nat, p: Priv ::
              h.dataR.Find(va, asid, p) == FindIn(h.dataR.slots[..], h.dataR.SetOf(va), va, asid, p)
  {
    hide Legal, TableOk, SoftTableOk, FindIn;
  }

  lemma KernelPage(w: World)
    requires w.arch == KERNEL && w.satp == SATP
    ensures var env := EnvOf(64, w); Translating(env.sp, env.Mode(DataPrivilege(w.arch))) && Canonical(env.sp, 0x2000)
  {
    hide SatpSpace;
    SatpIsSv39();
  }

  /** The guest's own store through address 0 clears the entry. */
  lemma ClearThroughZero(w: World)
    requires Kernel(w)
    ensures var (r, w1) := CachelessHart.AccessOne(64, w, 0, 8, Write, Plain, 0);
            r == Reached([BASE]) && w1 == w.(dram := w1.dram) && Gigapage(w1.dram, 0)
  {
    hide Load, Store, SatpSpace, Translate, Span;
    SatpIsSv39();
    GigapageTranslate(w.dram, USED, 0, Write, EnvOf(64, w).Mode(Supervisor));
    WordSpan();
    LoadAfterStore(w.dram.bytes, 0, 8, 0);
    ModSmall(0, Span(8));
  }

  lemma ClearedFaults(w: World)
    requires w.arch == KERNEL && w.satp == SATP && Gigapage(w.dram, 0)
    ensures CachelessHart.AccessOne(64, w, 0x2000, 1, Read, Plain, 0).0 == Trap(13, 0x2000)
  {
    hide Load, SatpSpace, Gigapage;
    SatpIsSv39();
    GigapageWalk(w.dram, 0, 0x2000);
  }
}
