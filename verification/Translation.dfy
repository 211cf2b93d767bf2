/** The hart with its translation caches: three TLB tables, two direct-mapped software TLBs
    invalidated by an epoch counter, and the decoded-satp walker. */
module Translation {

  import Arith
  import opened Memory
  import opened PageTable
  import opened PageWalker
  import opened Tlb
  import opened TlbCoherence
  import opened Privileged
  import opened CachelessHart

  const SOFT_SIZE: nat := 2048
  const DEAD := SoftTlbEntry(INVALID_TAG, 0, NoHost, 0)

  predicate SoftMatches(e: SoftTlbEntry, vpn: nat, asid: nat, p: Priv, epoch: nat) {
    e.epoch == epoch && e.tag == MakeTag(vpn, asid, p)
  }

  class Hart {
    const xlen: nat
    const highPerformance: bool
    const mmu: Mmu
    const instR: TlbTable
    const dataR: TlbTable
    const dataW: TlbTable
    const softRead: array<SoftTlbEntry>
    const softWrite: array<SoftTlbEntry>
    var softEpoch: nat
    var arch: Arch
    var satp: nat
    /** The kind of the instruction pipeline_context holds. */
    var context: Kind
    /** The pages whose translation the guest has edited since they were last fenced. */
    ghost var stale: iset<nat>

    ghost const Repr: set<object> := {this, mmu, mmu.mmem, instR.slots, instR.lru, dataR.slots, dataR.lru,
                                      dataW.slots, dataW.lru, softRead, softWrite}

    function TableFor(access: Access): TlbTable {
      match access case Code => instR case Read => dataR case Write => dataW
    }

    function SoftFor(access: Access): array<SoftTlbEntry> {
      if access.Write? then softWrite else softRead
    }

    ghost function Dram(): Dram
      reads mmu.mmem
    {
      mmu.Mem()
    }

    ghost function Value(): World
      reads this, mmu.mmem
    {
      World(mmu.Mem(), arch, satp, context)
    }

    ghost function Env(): Env
      reads this
    {
      MakeEnv(xlen, arch, satp)
    }

    /** Fixed layout: separate buffers, and a page-aligned DRAM whose base is a multiple of its
        size, so that masking an address gives its offset in the buffer. */
    predicate Layout() {
      && (xlen == 32 || xlen == 64)
      && softRead.Length == SOFT_SIZE && softWrite.Length == SOFT_SIZE && softRead != softWrite
      && instR.slots != dataR.slots && instR.slots != dataW.slots && dataR.slots != dataW.slots
      && instR.lru != dataR.lru && instR.lru != dataW.lru && dataR.lru != dataW.lru
      && mmu.mmem.Length > 0 && mmu.mmem.Length % 4096 == 0
      && mmu.dramBase % mmu.mmem.Length == 0 && mmu.dramBase % 4096 == 0
      && mmu.dramBase + mmu.mmem.Length <= 0x1_0000_0000
    }

    /** The invariant of every run: whatever any cache holds of a page that is not stale agrees with a
        fresh walk. */
    ghost predicate Valid()
      reads this, Repr
    {
      && Layout() && mmu.Valid()
      && instR.Valid() && dataR.Valid() && dataW.Valid()
      && Legal(arch) && 1 <= softEpoch < 0x1_0000_0000
      && TableOk(Dram(), Env(), stale, Code, instR.slots[..])
      && TableOk(Dram(), Env(), stale, Read, dataR.slots[..])
      && TableOk(Dram(), Env(), stale, Write, dataW.slots[..])
      && SoftTableOk(Dram(), Env(), stale, Read, softEpoch, softRead[..])
      && SoftTableOk(Dram(), Env(), stale, Write, softEpoch, softWrite[..])
    }

    constructor (xlen: nat, highPerformance: bool, mmem: array<Byte>, dramBase: nat, numSets: nat, initial: Arch)
      requires (xlen == 32 || xlen == 64) && numSets > 0 && Legal(initial)
      requires mmem.Length > 0 && mmem.Length % 4096 == 0
      requires dramBase % mmem.Length == 0 && dramBase % 4096 == 0 && dramBase + mmem.Length <= 0x1_0000_0000
      ensures Valid() && Value() == World(Memory.Dram(dramBase, mmem[..]), initial, 0, Plain) && stale == iset{}
      ensures this.xlen == xlen && this.highPerformance == highPerformance && mmu.mmem == mmem
      ensures fresh(mmu) && fresh(softRead) && fresh(softWrite) && fresh(instR.slots) && fresh(instR.lru)
      ensures fresh(dataR.slots) && fresh(dataR.lru) && fresh(dataW.slots) && fresh(dataW.lru)
    {
      hide Legal, SatpSpace, SatpAsid, TableOk, SoftTableOk, Valid, Wrap, NotNewer, AllStale, MakeEnv;
      this.xlen := xlen;
      this.highPerformance := highPerformance;
      mmu := new Mmu(mmem, dramBase);
      instR := new TlbTable(numSets);
      dataR := new TlbTable(numSets);
      dataW := new TlbTable(numSets);
      softRead := new SoftTlbEntry[SOFT_SIZE](_ => DEAD);
      softWrite := new SoftTlbEntry[SOFT_SIZE](_ => DEAD);
      softEpoch := 1;
      arch := initial;
      satp := 0;
      context := Plain;
      stale := iset{};
      new;
      DeadIsStale(softRead[..], 1);
      DeadIsStale(softWrite[..], 1);
      FlushedIsValid();
    }

    // ---- TLB tables ------------------------------------------------------------------------

    /** A TLB hit of a page that is not stale is exactly what a fresh walk would answer now, and that
        walk would write nothing. */
    method TlbLookup(access: Access, va: nat, p: Priv) returns (h: Hit)
      requires Valid()
      modifies TableFor(access).lru
      ensures Valid()
      ensures h == TableFor(access).Find(va, SatpAsid(satp, xlen), p)
      ensures h.Hit? ==> Env().sp.Paged? && h.entry.pAddr % 4096 == 0
      ensures h.Hit? && PageOf(va) !in stale ==>
                var pa := h.entry.pAddr + va % 4096;
                && Settled(Dram(), Env(), va, access, p, pa)
                && Settled(Dram(), Env(), PageOf(va), access, p, PageOf(pa)) && pa == PageOf(pa) + va % 4096
    {
      hide Settled, SoftMapped, SoftOk, Legal, SatpSpace, PageOf;
      h := TableFor(access).Lookup(va, SatpAsid(satp, xlen), p);
      if h.Hit? {
        assert SlotOk(Dram(), Env(), stale, access, h.entry);
        if PageOf(va) !in stale {
          SettledSamePage(Dram(), Env(), va, access, p, h.entry.pAddr);
        }
      }
    }

    /** A TLB miss walks, and on success caches the page. */
    method WalkAndInsert(access: Access, va: nat, p: Priv) returns (t: Translation)
      requires Valid() && Translating(Env().sp, Env().Mode(p)) && Canonical(Env().sp, va)
      modifies mmu, mmu.mmem, TableFor(access).slots, TableFor(access).lru
      ensures Valid()
      ensures (t, Dram()) == Translate(old(Dram()), Env().sp, va, access, Env().Mode(p))
      ensures t.Mapped? ==> Settled(Dram(), Env(), PageOf(va), access, p, PageOf(t.pa))
      ensures t.Mapped? ==> t.pa == PageOf(t.pa) + va % 4096
      ensures access.Write? ==> dataR.slots[..] == old(dataR.slots[..])
      ensures t.Mapped? && old(TableFor(access).Find(va, SatpAsid(satp, xlen), p).Miss?) ==>
                var h := TableFor(access).Find(va, SatpAsid(satp, xlen), p);
                h.Hit? && h.entry.pAddr == PageOf(t.pa)
    {
      hide Settled, SoftMapped, SoftOk, Legal, SatpSpace, PageOf, Translate, Canonical, SlotOk;
      ghost var d, env, m := Dram(), Env(), Env().Mode(p);
      TableAfterTranslate(d, env, stale, Code, instR.slots[..], va, access, m);
      TableAfterTranslate(d, env, stale, Read, dataR.slots[..], va, access, m);
      TableAfterTranslate(d, env, stale, Write, dataW.slots[..], va, access, m);
      SoftAfterTranslate(d, env, stale, Read, softEpoch, softRead[..], va, access, m);
      SoftAfterTranslate(d, env, stale, Write, softEpoch, softWrite[..], va, access, m);
      t := mmu.Translate(va, access, Mode(p, arch.mstatus.sum, arch.mstatus.mxr), satp, xlen, true);
      if t.Mapped? {
        TranslateSettles(d, env, va, access, p);
        InsertPage(access, va, t.pa, p);
      }
    }

    method InsertPage(access: Access, va: nat, pa: nat, p: Priv)
      requires Valid() && Settled(Dram(), Env(), PageOf(va), access, p, PageOf(pa))
      modifies TableFor(access).slots, TableFor(access).lru
      ensures Valid()
      ensures old(TableFor(access).Find(va, SatpAsid(satp, xlen), p).Miss?) ==>
                TableFor(access).Find(va, SatpAsid(satp, xlen), p)
                == Hit(TlbEntry(PageOf(va), PageOf(pa), SatpAsid(satp, xlen), p, true))
      ensures var t := TableFor(access);
              t.slots[..] == old(t.slots[..])[2 * t.SetOf(va) + old(t.lru[t.SetOf(va)])
                                              := TlbEntry(PageOf(va), PageOf(pa), SatpAsid(satp, xlen), p, true)]
    {
      hide Settled, SoftMapped, SoftOk, Legal, SatpSpace, PageOf, Translate, Canonical;
      var table := TableFor(access);
      ghost var before := table.slots[..];
      CanonicalPage(Env().sp, pa);
      PagedIfSettled(Dram(), Env(), PageOf(va), access, p, PageOf(pa));
      table.Insert(va, pa, SatpAsid(satp, xlen), p);
      forall i | 0 <= i < table.slots.Length ensures SlotOk(Dram(), Env(), stale, access, table.slots[..][i]) {
        assert before[i] == old(table.slots[i]) && SlotOk(Dram(), Env(), stale, access, before[i]);
      }
    }

    // ---- software TLB ------------------------------------------------------------------------

    /** Caches the page of a translation that reached DRAM, and drops the other direction's
        entry of the same index when it maps elsewhere. */
    method FillSoft(access: Access, va: nat, p: Priv, pa: nat, asid: nat)
      requires Valid() && !access.Code? && va < Wrap(xlen) && asid == SatpAsid(satp, xlen)
      requires Env().sp.Paged? && Canonical(Env().sp, va)
      requires PageOf(va) !in stale ==> Settled(Dram(), Env(), PageOf(va), access, p, PageOf(pa))
      requires Dram().Contains(PageOf(pa), 4096)
      modifies softRead, softWrite
      ensures Valid()
      ensures var idx := (va / 4096) % 2048;
              var e := SoftTlbEntry(MakeTag(va / 4096, asid, p), PageOf(pa), At(PageOf(pa) - mmu.dramBase), softEpoch);
              SoftFor(access)[..] == old(SoftFor(access)[..])[idx := e]
      ensures var idx, other := (va / 4096) % 2048, if access.Write? then softRead else softWrite;
              var o := old(other[idx]);
              other[..] == old(other[..])[idx := if o.paddrBase == PageOf(pa) then o
                                                 else SoftTlbEntry(INVALID_TAG, 0, NoHost, o.epoch)]
    {
      hide Settled, SoftMapped, SoftOk, Legal, SatpSpace, PageOf, Translate, SlotOk, TagOf, MakeTag;
      var idx := (va / 4096) % SOFT_SIZE;
      var vpn := va / 4096;
      var page := PageOf(pa);
      var host := HostOffset(page);
      var mine := SoftFor(access);
      var other := if access.Write? then softRead else softWrite;
      ghost var otherAccess := if access.Write? then Read else Write;
      ghost var mine0, other0 := mine[..], other[..];
      var e := SoftTlbEntry(MakeTag(vpn, asid, p), page, At(host), softEpoch);
      SoftFilled(Dram(), Env(), stale, access, softEpoch, va, p, page);
      mine[idx] := e;
      assert mine[..] == mine0[idx := e];
      assert SoftOk(Dram(), Env(), stale, access, softEpoch, e) by { TagDefinition(Env(), va, p); }
      if other[idx].paddrBase != page {
        var dead := other[idx].(tag := INVALID_TAG, paddrBase := 0, host := NoHost);
        DeadIsOk(Dram(), Env(), stale, otherAccess, softEpoch, dead);
        other[idx] := dead;
        assert other[..] == other0[idx := dead];
      } else {
        assert other[..] == other0[idx := other0[idx]];
      }
    }

    /** Masking a DRAM page address gives its offset in the buffer. */
    method HostOffset(page: nat) returns (off: nat)
      requires Layout() && Dram().Contains(page, 4096)
      ensures off == page - mmu.dramBase
    {
      off := page % mmu.mmem.Length;
      var n := mmu.dramBase / mmu.mmem.Length;
      Arith.ModUnique(page, mmu.mmem.Length, n, page - mmu.dramBase);
    }

    // ---- flushing ----------------------------------------------------------------------------

    /** The part of the invariant that does not mention what the caches map. */
    ghost predicate Sound()
      reads this, Repr
    {
      && Layout() && mmu.Valid()
      && instR.Valid() && dataR.Valid() && dataW.Valid()
      && Legal(arch) && 1 <= softEpoch < 0x1_0000_0000
      && NotNewer(softRead[..], softEpoch) && NotNewer(softWrite[..], softEpoch)
    }

    /** No cache can answer anything. */
    ghost predicate Flushed()
      reads this, Repr
    {
      && (forall i :: 0 <= i < instR.slots.Length ==> instR.slots[i] == EMPTY)
      && (forall i :: 0 <= i < dataR.slots.Length ==> dataR.slots[i] == EMPTY)
      && (forall i :: 0 <= i < dataW.slots.Length ==> dataW.slots[i] == EMPTY)
      && AllStale(softRead[..], softEpoch) && AllStale(softWrite[..], softEpoch)
    }

    lemma ValidIsSound()
      requires Valid()
      ensures Sound()
    {
      hide SoftTableOk, TableOk, Legal;
      SoftNotNewer(Dram(), Env(), stale, Read, softEpoch, softRead[..]);
      SoftNotNewer(Dram(), Env(), stale, Write, softEpoch, softWrite[..]);
    }

    /** Flushed caches agree with any memory, satp, SUM and MXR. */
    lemma FlushedIsValid()
      requires Sound() && Flushed()
      ensures Valid()
    {
      hide SoftTableOk, Settled, Legal;
      StaleIsSound(Dram(), Env(), stale, Read, softEpoch, softRead[..]);
      StaleIsSound(Dram(), Env(), stale, Write, softEpoch, softWrite[..]);
    }

    /** Bumps the epoch. When the 32-bit counter wraps it restarts at 1 with every entry killed,
        so an entry of a long-gone epoch can never come back to life. */
    method SoftTlbFlush()
      requires Sound()
      modifies this`softEpoch, softRead, softWrite
      ensures Sound() && AllStale(softRead[..], softEpoch) && AllStale(softWrite[..], softEpoch)
    {
      hide Legal;
      softEpoch := (softEpoch + 1) % 0x1_0000_0000;
      if softEpoch == 0 {
        softEpoch := 1;
        Invalidate(softRead);
        Invalidate(softWrite);
      }
    }

    /** Kills every entry; the entries keep their epochs. */
    static method Invalidate(entries: array<SoftTlbEntry>)
      modifies entries
      ensures forall i :: 0 <= i < entries.Length ==>
                entries[i].tag == INVALID_TAG && entries[i].epoch == old(entries[i].epoch)
    {
      for i := 0 to entries.Length
        invariant forall k :: 0 <= k < i ==> entries[k].tag == INVALID_TAG
        invariant forall k :: 0 <= k < entries.Length ==> entries[k].epoch == old(entries[k].epoch)
      {
        entries[i] := entries[i].(tag := INVALID_TAG, paddrBase := 0, host := NoHost);
      }
    }

    method TlbFlush()
      requires Sound()
      modifies this`softEpoch, Repr - {this, mmu, mmu.mmem}
      ensures Sound() && Flushed()
    {
      hide Legal, NotNewer, AllStale;
      instR.Flush();
      dataR.Flush();
      dataW.Flush();
      SoftTlbFlush();
    }

    /** The selected entries of a table are gone, and every other one is as before. */
    static ghost predicate Fenced(before: seq<TlbEntry>, after: seq<TlbEntry>, allVaddr: bool, vaddr: nat,
                                  allAsid: bool, asid: nat)
    {
      && |after| == |before|
      && forall i :: 0 <= i < |after| ==>
           && (before[i].valid && !Selected(before[i], allVaddr, vaddr, allAsid, asid) ==> after[i] == before[i])
           && (after[i].valid ==> after[i] == before[i] && !Selected(before[i], allVaddr, vaddr, allAsid, asid))
    }

    /** Every entry the fence does not select is right now, stale pages included. */
    ghost predicate UnselectedRight(es: seq<TlbEntry>, access: Access, allVaddr: bool, vaddr: nat, allAsid: bool,
                                    asid: nat)
      reads this, mmu.mmem
    {
      forall i :: 0 <= i < |es| && es[i].valid && !Selected(es[i], allVaddr, vaddr, allAsid, asid) ==>
        SlotOk(Dram(), Env(), iset{}, access, es[i])
    }

    /** No entry of the tables is wrong. */
    ghost predicate AllRight()
      reads this, Repr
    {
      && TableOk(Dram(), Env(), iset{}, Code, instR.slots[..])
      && TableOk(Dram(), Env(), iset{}, Read, dataR.slots[..])
      && TableOk(Dram(), Env(), iset{}, Write, dataW.slots[..])
    }

    /** SFENCE.VMA, whatever the caches hold: selective on the tables, total on the software TLBs. After
        it every cache is right if and only if every entry it did not select was. */
    method TlbFlushSelective(allVaddr: bool, vaddr: nat, allAsid: bool, asid: nat)
      requires Sound()
      modifies this`softEpoch, Repr - {this, mmu, mmu.mmem}
      ensures Sound()
      ensures AllStale(softRead[..], softEpoch) && AllStale(softWrite[..], softEpoch)
      ensures Fenced(old(instR.slots[..]), instR.slots[..], allVaddr, vaddr, allAsid, asid)
      ensures Fenced(old(dataR.slots[..]), dataR.slots[..], allVaddr, vaddr, allAsid, asid)
      ensures Fenced(old(dataW.slots[..]), dataW.slots[..], allVaddr, vaddr, allAsid, asid)
      ensures AllRight() <==>
              && old(UnselectedRight(instR.slots[..], Code, allVaddr, vaddr, allAsid, asid))
              && old(UnselectedRight(dataR.slots[..], Read, allVaddr, vaddr, allAsid, asid))
              && old(UnselectedRight(dataW.slots[..], Write, allVaddr, vaddr, allAsid, asid))
    {
      hide Legal, NotNewer, AllStale, SlotOk, Selected, TableOk, Fenced, SatpSpace, SatpAsid;
      ghost var i0, r0, w0 := instR.slots[..], dataR.slots[..], dataW.slots[..];
      FlushTable(Code, allVaddr, vaddr, allAsid, asid);
      ghost var i1 := instR.slots[..];
      assert dataR.slots[..] == r0 && dataW.slots[..] == w0;
      FlushTable(Read, allVaddr, vaddr, allAsid, asid);
      ghost var r1 := dataR.slots[..];
      assert dataW.slots[..] == w0;
      FlushTable(Write, allVaddr, vaddr, allAsid, asid);
      ghost var w1 := dataW.slots[..];
      SoftTlbFlush();
      assert instR.slots[..] == i1 && dataR.slots[..] == r1 && dataW.slots[..] == w1;
      FencedRight(i0, i1, Code, allVaddr, vaddr, allAsid, asid);
      FencedRight(r0, r1, Read, allVaddr, vaddr, allAsid, asid);
      FencedRight(w0, w1, Write, allVaddr, vaddr, allAsid, asid);
    }

    /** With every entry right and the software TLBs stale the hart is as good as new. */
    lemma RightIsValid()
      requires Sound() && AllRight() && AllStale(softRead[..], softEpoch) && AllStale(softWrite[..], softEpoch)
      requires stale == iset{}
      ensures Valid()
    {
      hide TableOk, SoftTableOk, Legal;
      StaleIsSound(Dram(), Env(), stale, Read, softEpoch, softRead[..]);
      StaleIsSound(Dram(), Env(), stale, Write, softEpoch, softWrite[..]);
    }

    lemma FencedRight(before: seq<TlbEntry>, after: seq<TlbEntry>, access: Access, allVaddr: bool, vaddr: nat,
                      allAsid: bool, asid: nat)
      requires Fenced(before, after, allVaddr, vaddr, allAsid, asid)
      ensures TableOk(Dram(), Env(), iset{}, access, after)
              <==> UnselectedRight(before, access, allVaddr, vaddr, allAsid, asid)
    {
      hide Settled, Selected, SatpSpace, SatpAsid;
    }

    method FlushTable(access: Access, allVaddr: bool, vaddr: nat, allAsid: bool, asid: nat)
      requires Sound()
      modifies TableFor(access).slots, TableFor(access).lru
      ensures Sound()
      ensures Fenced(old(TableFor(access).slots[..]), TableFor(access).slots[..], allVaddr, vaddr, allAsid, asid)
    {
      hide Legal, NotNewer;
      TableFor(access).FlushSelective(allVaddr, vaddr, allAsid, asid);
    }

    /** The fence of the guest: pages it covers are no longer stale. */
    method SfenceVma(allVaddr: bool, vaddr: nat, allAsid: bool, asid: nat)
      requires Valid()
      modifies this`softEpoch, this`stale, this`context, Repr - {this, mmu, mmu.mmem}
      ensures Valid()
      ensures Value() == Step(xlen, old(Value()), Op.SfenceVma(allVaddr, vaddr, allAsid, asid)).1
      ensures stale == NextStale(xlen, old(Value()), old(stale), Op.SfenceVma(allVaddr, vaddr, allAsid, asid))
      ensures AllStale(softRead[..], softEpoch) && AllStale(softWrite[..], softEpoch)
      ensures Fenced(old(dataR.slots[..]), dataR.slots[..], allVaddr, vaddr, allAsid, asid)
    {
      hide Legal, NotNewer, AllStale, SoftTableOk, Settled, AllRight, UnselectedRight, SatpSpace, PageOf;
      ValidIsSound();
      context := Plain;
      TlbFlushSelective(allVaddr, vaddr, allAsid, asid);
      ghost var stale' := NextStale(xlen, old(Value()), stale, Op.SfenceVma(allVaddr, vaddr, allAsid, asid));
      FencedStale(old(instR.slots[..]), instR.slots[..], Code, stale', allVaddr, vaddr, allAsid, asid);
      FencedStale(old(dataR.slots[..]), dataR.slots[..], Read, stale', allVaddr, vaddr, allAsid, asid);
      FencedStale(old(dataW.slots[..]), dataW.slots[..], Write, stale', allVaddr, vaddr, allAsid, asid);
      stale := stale';
      StaleIsSound(Dram(), Env(), stale, Read, softEpoch, softRead[..]);
      StaleIsSound(Dram(), Env(), stale, Write, softEpoch, softWrite[..]);
    }

    lemma FencedStale(before: seq<TlbEntry>, after: seq<TlbEntry>, access: Access, stale': iset<nat>, allVaddr: bool,
                      vaddr: nat, allAsid: bool, asid: nat)
      requires Fenced(before, after, allVaddr, vaddr, allAsid, asid) && TableOk(Dram(), Env(), stale, access, before)
      requires stale' == (if !allAsid && asid != Env().asid then stale
                          else if allVaddr then iset{}
                          else stale - iset{PageOf(vaddr)})
      ensures TableOk(Dram(), Env(), stale', access, after)
    {
      hide Settled, SatpSpace, PageOf;
      forall i | 0 <= i < |after| && after[i].valid ensures SlotOk(Dram(), Env(), stale', access, after[i]) {
        assert SlotOk(Dram(), Env(), stale, access, before[i]);
      }
    }

    // ---- CSR writes, traps and returns -------------------------------------------------------

    method WriteSatp(value: nat)
      requires Valid()
      modifies this`satp, this`softEpoch, this`context, this`stale, Repr - {this, mmu, mmu.mmem}
      ensures Valid()
      ensures Value() == Step(xlen, old(Value()), Op.WriteSatp(value)).1
      ensures stale == NextStale(xlen, old(Value()), old(stale), Op.WriteSatp(value))
      ensures SatpModeSupported(SatpMode(value, xlen), xlen) && value != old(satp) ==> Flushed()
    {
      hide Legal, SatpSpace, SatpMode, Flushed, TableOk, SoftTableOk, NotNewer;
      ValidIsSound();
      context := Plain;
      if SatpModeSupported(SatpMode(value, xlen), xlen) {
        if satp != value {
          satp := value;
          stale := iset{};
          TlbFlush();
          FlushedIsValid();
        }
      }
    }

    /** The flush decision looks at SUM, MXR and MPRV, and at MPP when MPRV was set, before the
        write mask is applied. */
    method SetMstatus(w: Mstatus, mpp: nat)
      requires Valid()
      modifies this`arch, this`softEpoch, this`stale, Repr - {this, mmu, mmu.mmem}
      ensures Valid()
      ensures arch == old(arch).(mstatus := Privileged.SetMstatus(old(arch).isa, w, mpp))
      ensures StatusFlushes(old(arch), w, mpp) ==> Flushed()
      ensures stale == if StatusFlushes(old(arch), w, mpp) then iset{} else old(stale)
    {
      hide SatpSpace, SatpMode, TableOk, SoftTableOk, NotNewer, AllStale, Legal, Implemented;
      ValidIsSound();
      var wdata := w.(mpp := LegalMpp(mpp, arch.isa));
      var old0 := arch.mstatus;
      StatusWriteStaysLegal(arch, w, mpp);
      SumMxrAfterWrite(arch, w, mpp);
      if old0.mprv != wdata.mprv || old0.sum != wdata.sum || old0.mxr != wdata.mxr
         || (old0.mprv && old0.mpp != wdata.mpp) {
        TlbFlush();
        arch := arch.(mstatus := Implemented(wdata, arch.isa));
        stale := iset{};
        FlushedIsValid();
      } else {
        arch := arch.(mstatus := Implemented(wdata, arch.isa));
        assert Env() == old(Env());
      }
    }

    method SetSstatus(w: Mstatus)
      requires Valid()
      modifies this`arch, this`softEpoch, this`stale, Repr - {this, mmu, mmu.mmem}
      ensures Valid()
      ensures arch == old(arch).(mstatus := Privileged.SetSstatus(old(arch).isa, old(arch).mstatus, w))
      ensures var a := old(arch);
              var flush := StatusFlushes(a, SstatusAsMstatus(a.mstatus, w), Level(a.mstatus.mpp));
              (flush ==> Flushed()) && stale == if flush then iset{} else old(stale)
    {
      hide Valid, SstatusAsMstatus, Implemented, StatusFlushes, Flushed;
      SetMstatus(SstatusAsMstatus(arch.mstatus, w), Level(arch.mstatus.mpp));
    }

    /** Traps and returns change neither satp, SUM nor MXR, so no cache needs flushing. */
    method SetArch(next: Arch)
      requires Valid() && Legal(next)
      requires next.mstatus.sum == arch.mstatus.sum && next.mstatus.mxr == arch.mstatus.mxr
      modifies this`arch
      ensures Valid() && arch == next
    {
      hide SatpSpace, TableOk, SoftTableOk, Legal;
      arch := next;
      assert Env() == old(Env());
    }

    // ---- loads and stores --------------------------------------------------------------------

    predicate InDram(pa: nat, size: nat) {
      size != 0 && size <= mmu.mmem.Length && mmu.dramBase <= pa
      && pa - mmu.dramBase <= mmu.mmem.Length - size
    }

    lemma MaskIsOffset(pa: nat)
      requires Layout() && InDram(pa, 1)
      ensures pa % mmu.mmem.Length == pa - mmu.dramBase
    {
      Arith.ModUnique(pa, mmu.mmem.Length, mmu.dramBase / mmu.mmem.Length, pa - mmu.dramBase);
    }

    /** Writes the DRAM buffer. Pages whose translation this edits become stale; for every other page
        every cache stays right. */
    method StoreAt(off: nat, size: nat, data: nat)
      requires Valid() && size > 0 && off + size <= mmu.mmem.Length
      modifies mmu.mmem, this`stale
      ensures Valid() && Dram() == old(Dram()).Put(mmu.dramBase + off, size, data)
      ensures stale == old(stale) + Changed(old(Dram()), Dram(), Env())
    {
      hide Settled, SoftMapped, SoftOk, Legal, SatpSpace, Translate, SlotOk, TagOf, Changed, Store;
      ghost var d := Dram();
      ghost var d' := d.Put(mmu.dramBase + off, size, data);
      TableAfterStore(d, d', Env(), stale, Code, instR.slots[..]);
      TableAfterStore(d, d', Env(), stale, Read, dataR.slots[..]);
      TableAfterStore(d, d', Env(), stale, Write, dataW.slots[..]);
      SoftAfterStore(d, d', Env(), stale, Read, softEpoch, softRead[..]);
      SoftAfterStore(d, d', Env(), stale, Write, softEpoch, softWrite[..]);
      StoreInto(mmu.mmem, off, size, data);
      stale := stale + Changed(d, d', Env());
    }

    /** The physical access: a store that lies in DRAM goes to the masked buffer offset. */
    method Issue(pa: nat, size: nat, access: Access, data: nat)
      requires Valid() && size > 0
      modifies mmu.mmem, this`stale
      ensures Valid() && Dram() == Written(old(Dram()), pa, size, access, data)
      ensures stale == old(stale) + Changed(old(Dram()), Dram(), Env())
    {
      hide TableOk, SoftTableOk, Legal, SatpSpace, Changed, Store;
      ChangedByNothing(Dram(), Env());
      if access.Write? && InDram(pa, size) {
        MaskIsOffset(pa);
        StoreAt(pa % mmu.mmem.Length, size, data);
      }
    }

    /** The software TLB answers this address at this privilege. */
    predicate SoftHitAt(access: Access, va: nat, p: Priv)
      requires softRead.Length == SOFT_SIZE && softWrite.Length == SOFT_SIZE
      reads this, softRead, softWrite
    {
      SoftMatches(SoftFor(access)[(va / 4096) % SOFT_SIZE], va / 4096, SatpAsid(satp, xlen), p, softEpoch)
    }

    /** Entries of older epochs, and killed ones, never hit. */
    lemma StaleNeverHits(access: Access, va: nat, p: Priv)
      requires Layout() && AllStale(softRead[..], softEpoch) && AllStale(softWrite[..], softEpoch)
      ensures !SoftHitAt(access, va, p)
    {
      hide MakeTag, SatpAsid;
      var i := (va / 4096) % SOFT_SIZE;
      TagIsLive(va / 4096, SatpAsid(satp, xlen), p);
      assert SoftFor(access)[i] == SoftFor(access)[..][i];
    }

    /** A software-TLB hit at a canonical address of a page that is not stale is exactly what a fresh
        walk would answer now; and the host pointer is the entry's physical page. */
    method SoftLookup(access: Access, va: nat, p: Priv) returns (hit: bool, base: nat, host: HostPtr)
      requires Valid() && !access.Code? && va < Wrap(xlen)
      ensures hit == SoftHitAt(access, va, p) && base == SoftFor(access)[(va / 4096) % SOFT_SIZE].paddrBase
      ensures hit && Canonical(Env().sp, va) ==> Dram().Contains(base, 4096) && host == At(base - mmu.dramBase)
      ensures hit && Canonical(Env().sp, va) && PageOf(va) !in stale ==>
                Settled(Dram(), Env(), va, access, p, base + va % 4096)
    {
      hide Settled, Legal, SatpSpace, Translate, TableOk, TagOf, MakeTag, Canonical, PageOf;
      var e := SoftFor(access)[(va / 4096) % SOFT_SIZE];
      hit := SoftMatches(e, va / 4096, SatpAsid(satp, xlen), p, softEpoch);
      base, host := e.paddrBase, e.host;
      if hit {
        assert SoftOk(Dram(), Env(), stale, access, softEpoch, e);
        TagDefinition(Env(), va, p);
        TagIsLive(va / 4096, SatpAsid(satp, xlen), p);
        if Canonical(Env().sp, va) {
          assert SoftMapped(Dram(), Env(), stale, access, e, va, p);
          if PageOf(va) !in stale {
            SettledSamePage(Dram(), Env(), va, access, p, base);
          }
        }
      }
    }

    lemma PageInDram(pa: nat, va: nat, size: nat)
      requires Layout() && size > 0 && pa % 4096 == va % 4096 && !CrossesPage(va, size) && InDram(pa, 1)
      ensures InDram(pa, size) && InDram(PageOf(pa), 4096)
    {
      var b, n := mmu.dramBase / 4096, mmu.mmem.Length / 4096;
      var q := pa / 4096;
      assert mmu.dramBase == 4096 * b && mmu.mmem.Length == 4096 * n && pa == 4096 * q + pa % 4096;
      assert b <= q < b + n;
    }

    /** The hit path's access, through the host pointer. */
    method SoftAccess(va: nat, size: nat, access: Access, data: nat, base: nat, host: HostPtr)
      requires Valid() && size > 0 && !CrossesPage(va, size)
      requires Dram().Contains(base, 4096) && host == At(base - mmu.dramBase)
      modifies mmu.mmem, this`stale
      ensures Valid() && Dram() == Written(old(Dram()), base + va % 4096, size, access, data)
      ensures stale == old(stale) + Changed(old(Dram()), Dram(), Env())
    {
      hide TableOk, SoftTableOk, Legal, SatpSpace, Changed, Store;
      ChangedByNothing(Dram(), Env());
      if access.Write? {
        StoreAt(host.offset + va % 4096, size, data);
      }
    }

    method AccessThroughTlb(va: nat, size: nat, access: Access, kind: Kind, data: nat, p: Priv, enabled: bool,
                            asid: nat)
      returns (r: Result)
      requires Valid() && size > 0 && !access.Code? && va < Wrap(xlen) && !CrossesPage(va, size)
      requires p == DataPrivilege(arch) && asid == SatpAsid(satp, xlen)
      requires enabled == Translating(Env().sp, Env().Mode(p))
      requires if enabled then Canonical(Env().sp, va) else !InDram(va, size)
      modifies Repr
      ensures Valid()
      ensures old(FreshOne(xlen, Value(), stale, va)) ==>
                (r, Value()) == CachelessHart.AccessOne(xlen, old(Value()), va, size, access, kind, data)
                && stale == StaleOne(xlen, old(Value()), old(stale), va, size, access, kind, data)
      ensures r.Reached? ==> |r.pas| == 1
      ensures var h := old(TableFor(access).Find(va, SatpAsid(satp, xlen), p));
              enabled && h.Hit? ==>
                var pa := h.entry.pAddr + va % 4096;
                (r, Dram()) == (Reached([pa]), Written(old(Dram()), pa, size, access, data))
      ensures enabled && r.Reached? ==>
                var h := TableFor(access).Find(va, SatpAsid(satp, xlen), p);
                h.Hit? && r.pas[0] == h.entry.pAddr + va % 4096
      ensures highPerformance && enabled && r.Reached? && InDram(r.pas[0], 1) ==> SoftHitAt(access, va, p)
      ensures access.Write? ==> dataR.slots[..] == old(dataR.slots[..])
      ensures arch == old(arch) && satp == old(satp)
    {
      hide Settled, Legal, SatpSpace, SatpMode, SatpAsid, Translate, TableOk, SoftTableOk, Canonical, PageOf,
           Written, CachelessHart.AccessOne, CrossesPage, InDram, SoftMatches, Changed, EditOne, TlbTable.Find,
           TlbTable.Valid, Layout, StatusFlushes, Wrap, Sound, Flushed, AllRight, UnselectedRight, NotNewer, AllStale;
      ghost var w := Value();
      var h := TlbLookup(access, va, p);
      assert Value() == w;
      var pa := va;
      if !enabled {
        UntranslatedAccess(xlen, w, va, size, access, kind, data);
      } else if h.Hit? {
        pa := h.entry.pAddr + va % 4096;
        InPageOf(h.entry.pAddr, va);
        if PageOf(va) !in stale {
          SettledAccess(xlen, w, va, size, access, kind, data, pa);
        }
      } else {
        var t := WalkAndInsert(access, va, p);
        WalkedAccess(xlen, w, va, size, access, kind, data, t, Dram());
        if t.Denied? {
          return Trap(t.cause, va);
        }
        pa := t.pa;
        PagedIfSettled(Dram(), Env(), PageOf(va), access, p, PageOf(pa));
      }
      SoftFillIfDram(va, size, access, p, pa, enabled, asid);
      Issue(pa, size, access, data);
      return Reached([pa]);
    }

    method SoftFillIfDram(va: nat, size: nat, access: Access, p: Priv, pa: nat, enabled: bool, asid: nat)
      requires Valid() && size > 0 && !access.Code? && va < Wrap(xlen) && !CrossesPage(va, size)
      requires asid == SatpAsid(satp, xlen)
      requires enabled ==> Env().sp.Paged? && Canonical(Env().sp, va) && pa == PageOf(pa) + va % 4096
      requires enabled && PageOf(va) !in stale ==> Settled(Dram(), Env(), PageOf(va), access, p, PageOf(pa))
      requires !enabled ==> pa == va && !InDram(va, size)
      modifies softRead, softWrite
      ensures Valid()
      ensures highPerformance && enabled && InDram(pa, 1) ==> SoftHitAt(access, va, p)
    {
      hide Settled, Legal, SatpSpace, SatpAsid, TableOk, SoftTableOk;
      if highPerformance && InDram(pa, 1) {
        assert pa % 4096 == va % 4096;
        PageInDram(pa, va, size);
        FillSoft(access, va, p, pa, if enabled then asid else 0xFFFF_FFFF_FFFF_FFFF);
      }
    }

    /** One load or store within a page, through the software TLB, the TLB or a walk. On a page that is
        not stale: the same physical address, fault and memory as a fresh walk gives. On a stale page a
        TLB entry, while there is one, still decides. */
    method AccessOne(va: nat, size: nat, access: Access, kind: Kind, data: nat) returns (r: Result)
      requires Valid() && size > 0 && !access.Code? && va < Wrap(xlen) && !CrossesPage(va, size)
      modifies Repr
      ensures Valid()
      ensures old(FreshOne(xlen, Value(), stale, va)) ==>
                (r, Value()) == CachelessHart.AccessOne(xlen, old(Value()), va, size, access, kind, data)
                && stale == StaleOne(xlen, old(Value()), old(stale), va, size, access, kind, data)
      ensures r.Reached? ==> |r.pas| == 1
      ensures var p := DataPrivilege(old(arch));
              var h := old(TableFor(access).Find(va, SatpAsid(satp, xlen), p));
              h.Hit? && old(Translating(Env().sp, Env().Mode(p)) && Canonical(Env().sp, va))
              && !(highPerformance && old(SoftHitAt(access, va, p))) ==>
                var pa := h.entry.pAddr + va % 4096;
                (r, Dram()) == (Reached([pa]), Written(old(Dram()), pa, size, access, data))
      ensures var p := DataPrivilege(old(arch));
              var h := TableFor(access).Find(va, SatpAsid(satp, xlen), p);
              old(Translating(Env().sp, Env().Mode(p)) && Canonical(Env().sp, va)) && r.Reached?
              && !(highPerformance && old(SoftHitAt(access, va, p))) ==>
                h.Hit? && r.pas[0] == h.entry.pAddr + va % 4096
      ensures access.Write? ==> dataR.slots[..] == old(dataR.slots[..])
      ensures arch == old(arch) && satp == old(satp)
      ensures highPerformance && Translating(Env().sp, Env().Mode(DataPrivilege(arch)))
              && r.Reached? && InDram(r.pas[0], 1) ==>
                SoftHitAt(access, va, DataPrivilege(arch))
    {
      hide Settled, Legal, SatpSpace, SatpMode, SatpAsid, Translate, TableOk, SoftTableOk, Canonical, PageOf,
           Written, CachelessHart.AccessOne, CrossesPage, InDram, SoftMatches, Changed, EditOne, TlbTable.Find,
           TlbTable.Valid, Layout, StatusFlushes, Wrap, Sound, Flushed, AllRight, UnselectedRight, NotNewer, AllStale;
      ghost var w := Value();
      var p := DataPrivilege(arch);
      var asid := SatpAsid(satp, xlen);
      var sp := SatpSpace(satp, xlen);
      var enabled := !p.Machine? && !sp.Bare?;
      if enabled && !Canonical(sp, va) {
        NonCanonicalAccess(xlen, w, va, size, access, kind, data);
        return Trap(if access.Read? && !kind.Plain? then 15 else PageFaultCause(access), va);
      }
      if highPerformance && enabled {
        var hit, base, host := SoftLookup(access, va, p);
        if hit {
          if PageOf(va) !in stale {
            SettledAccess(xlen, w, va, size, access, kind, data, base + va % 4096);
          }
          SoftAccess(va, size, access, data, base, host);
          return Reached([base + va % 4096]);
        }
      }
      if !enabled && InDram(va, size) {
        UntranslatedAccess(xlen, w, va, size, access, kind, data);
        Issue(va, size, access, data);
        return Reached([va]);
      }
      r := AccessThroughTlb(va, size, access, kind, data, p, enabled, asid);
    }

    /** A page-crossing access: byte by byte, stopping at the first trap, which reports the
        address of the whole access. */
    method AccessBytes(va: nat, size: nat, access: Access, kind: Kind, data: nat) returns (r: Result)
      requires Valid() && !access.Code?
      requires FreshBytes(xlen, Value(), stale, va, 0, size, access, kind, data)
      modifies Repr
      ensures Valid()
      ensures (r, Value()) == CachelessHart.AccessBytes(xlen, old(Value()), va, 0, size, access, kind, data)
      ensures stale == StaleBytes(xlen, old(Value()), old(stale), va, 0, size, access, kind, data)
    {
      hide Valid, CachelessHart.AccessOne, CachelessHart.AccessBytes, StaleOne, StaleBytes, FreshOne, FreshBytes,
           ByteOf;
      ghost var last := StaleBytes(xlen, Value(), stale, va, 0, size, access, kind, data);
      ghost var whole := CachelessHart.AccessBytes(xlen, Value(), va, 0, size, access, kind, data);
      var pas: seq<nat> := [];
      assert whole.0.Reached? ==> pas + whole.0.pas == whole.0.pas;
      for b := 0 to size
        invariant Valid()
        invariant FreshBytes(xlen, Value(), stale, va, b, size, access, kind, data)
        invariant last == StaleBytes(xlen, Value(), stale, va, b, size, access, kind, data)
        invariant var (rest, w) := CachelessHart.AccessBytes(xlen, Value(), va, b, size, access, kind, data);
                  whole == (if rest.Trap? then rest else Reached(pas + rest.pas), w)
      {
        BytesUnrolled(xlen, Value(), stale, va, b, size, access, kind, data);
        var one := AccessOne((va + b) % Wrap(xlen), 1, access, kind, ByteOf(data, b));
        if one.Trap? {
          return Trap(one.cause, va);
        }
        ghost var rest := CachelessHart.AccessBytes(xlen, Value(), va, b + 1, size, access, kind, data).0;
        assert rest.Reached? ==> pas + (one.pas + rest.pas) == (pas + one.pas) + rest.pas;
        pas := pas + one.pas;
      }
      BytesOver(xlen, Value(), stale, va, size, access, kind, data);
      assert pas + [] == pas;
      return Reached(pas);
    }

    /** A load or store of any alignment. */
    method AccessAny(address: nat, size: nat, access: Access, kind: Kind, data: nat) returns (r: Result)
      requires Valid() && size > 0 && !access.Code?
      requires FreshAny(xlen, Value(), stale, address, size, access, kind, data)
      modifies Repr
      ensures Valid()
      ensures (r, Value()) == CachelessHart.AccessAny(xlen, old(Value()), address, size, access, kind, data)
      ensures stale == StaleAny(xlen, old(Value()), old(stale), address, size, access, kind, data)
      ensures var va := address % Wrap(xlen);
              highPerformance && !CrossesPage(va, size) && r.Reached? && InDram(r.pas[0], 1)
              && Translating(Env().sp, Env().Mode(DataPrivilege(arch))) ==>
                SoftHitAt(access, va, DataPrivilege(arch))
    {
      hide Valid, CachelessHart.AccessOne, CachelessHart.AccessBytes, FreshOne, FreshBytes, StaleOne, StaleBytes,
           SoftMatches, InDram;
      var va := address % Wrap(xlen);
      if va % size != 0 && !kind.Plain? {
        return Trap(if access.Write? || kind.Amo? then 6 else 4, va);
      }
      if CrossesPage(va, size) {
        r := AccessBytes(va, size, access, kind, data);
      } else {
        r := AccessOne(va, size, access, kind, data);
      }
    }

    // ---- the pre-decoded fast path -----------------------------------------------------------

    /** Where the cached fast path would go. It looks the software TLB up without checking that
        the address is canonical, so a hit gives the fresh walk's answer exactly when the
        address is canonical or translation is off. */
    method FastTarget(address: nat, size: nat, access: Access, data: nat) returns (hit: bool, pa: nat)
      requires Valid() && size in {1, 2, 4, 8} && !access.Code?
      requires address % size == 0 ==> FreshOne(xlen, Value(), stale, address % Wrap(xlen))
      ensures hit ==> address % size == 0
      ensures hit ==>
                (CachelessHart.AccessAny(xlen, Value(), address, size, access, Plain, data).0 == Reached([pa])
                 <==> FastPathAddress(xlen, Value(), address))
      ensures hit && FastPathAddress(xlen, Value(), address) ==> DirectAccess(Value(), address, size, access, data, pa)
      ensures address % size == 0 && Translating(Env().sp, Env().Mode(DataPrivilege(arch))) ==>
                hit == SoftHitAt(access, address % Wrap(xlen), DataPrivilege(arch))
      ensures hit && Translating(Env().sp, Env().Mode(DataPrivilege(arch))) ==>
                pa == SoftFor(access)[(address % Wrap(xlen) / 4096) % SOFT_SIZE].paddrBase + address % Wrap(xlen) % 4096
    {
      hide Settled, Legal, SatpSpace, SatpAsid, SatpMode, Translate, TableOk, SoftTableOk, Canonical, Written,
           CachelessHart.AccessOne, CachelessHart.AccessBytes, EditOne, Changed, StaleBytes, SoftMatches, PageOf,
           MakeTag, Sound, Flushed, AllRight, UnselectedRight, NotNewer, AllStale, StatusFlushes, TlbTable.Valid;
      pa := 0;
      if address % size != 0 {
        return false, 0;
      }
      var va := address % Wrap(xlen);
      AlignedInPage(address, size, Wrap(xlen));
      var p := DataPrivilege(arch);
      if arch.priv.Machine? && !arch.mstatus.mprv {
        if InDram(address, size) {
          UntranslatedAccess(xlen, Value(), va, size, access, Plain, data);
          return true, address;
        }
        return false, 0;
      }
      var sp := SatpSpace(satp, xlen);
      if p.Machine? || sp.Bare? {
        UntranslatedAccess(xlen, Value(), va, size, access, Plain, data);
        return InDram(va, size), va;
      }
      var base, host;
      hit, base, host := SoftLookup(access, va, p);
      pa := base + va % 4096;
      if Canonical(sp, va) {
        if hit {
          SettledAccess(xlen, Value(), va, size, access, Plain, data, pa);
        }
      } else {
        NonCanonicalAccess(xlen, Value(), va, size, access, Plain, data);
      }
    }

    /** The access is one physical access at pa. */
    ghost predicate DirectAccess(w: World, address: nat, size: nat, access: Access, data: nat, pa: nat)
      requires size > 0
    {
      && CachelessHart.AccessAny(xlen, w, address, size, access, Plain, data)
         == (Reached([pa]), w.(dram := Written(w.dram, pa, size, access, data)))
      && forall before: iset<nat> ::
           StaleAny(xlen, w, before, address, size, access, Plain, data)
           == before + Changed(w.dram, Written(w.dram, pa, size, access, data), EnvOf(xlen, w))
    }

    /** The address is translated and the software TLB answers it. */
    predicate FastHits(address: nat, access: Access)
      requires softRead.Length == SOFT_SIZE && softWrite.Length == SOFT_SIZE
      reads this, softRead, softWrite
    {
      && !DataPrivilege(arch).Machine? && !SatpSpace(satp, xlen).Bare?
      && SoftHitAt(access, address % Wrap(xlen), DataPrivilege(arch))
    }

    /** When an access of the decoded path is the plain access it stands for. Aligned: the address is
        canonical or untranslated, or the lookup misses and the context does not rename the fault of a
        load. Misaligned, the lookup is skipped: the context holds neither LR nor AMO. */
    ghost predicate CachedIsPlain(address: nat, size: nat, access: Access)
      requires size > 0 && softRead.Length == SOFT_SIZE && softWrite.Length == SOFT_SIZE
      reads this, mmu.mmem, softRead, softWrite
    {
      if address % size != 0 then context.Plain?
      else
        FastPathAddress(xlen, Value(), address)
        || (!FastHits(address, access) && (context.Plain? || access.Write?))
    }

    /** A load or store of the decoded path: directly if the fast lookup hits, else the general way,
        which takes the kind of the access from whatever instruction the pipeline context still holds.
        It is the plain access it stands for if and only if `CachedIsPlain`. */
    method CachedAccess(address: nat, size: nat, access: Access, data: nat) returns (r: Result)
      requires Valid() && size in {1, 2, 4, 8} && !access.Code?
      requires FreshAny(xlen, Value(), stale, address, size, access, Plain, data)
      modifies Repr
      ensures Valid()
      ensures (r, Value()) == CachelessHart.AccessAny(xlen, old(Value()), address, size, access, Plain, data)
              <==> old(CachedIsPlain(address, size, access))
      ensures address % size != 0 ==>
                (r, Value()) == CachelessHart.AccessAny(xlen, old(Value()), address, size, access, old(context), data)
                && stale == StaleAny(xlen, old(Value()), old(stale), address, size, access, old(context), data)
      ensures old(CachedIsPlain(address, size, access)) ==>
                stale == StaleAny(xlen, old(Value()), old(stale), address, size, access, Plain, data)
    {
      hide Valid, Written, Changed, CachelessHart.AccessAny, StaleAny, FreshAny, FreshOne, SoftHitAt, Canonical,
           SatpSpace, SatpAsid, Wrap, Translate, DataPrivilege, StatusFlushes, TableOk, SoftTableOk,
           Sound, Flushed, AllRight, UnselectedRight, Legal, NotNewer, AllStale, InDram;
      IsLegal();
      ghost var w := Value();
      if address % size == 0 {
        FreshAligned(xlen, w, stale, address, size, access, data);
      }
      KindMatters(xlen, w, stale, address, size, access, context, data);
      var hit, pa := FastTarget(address, size, access, data);
      if hit {
        assert EnvOf(xlen, Value()) == Env();
        Issue(pa, size, access, data);
        return Reached([pa]);
      }
      r := AccessAny(address, size, access, context, data);
    }

    // ---- instruction fetch -------------------------------------------------------------------

    /** Uses an earlier TLB hit, or walks. */
    method ResolveHalf(va: nat, h: Hit) returns (r: Result)
      requires Valid() && Translating(Env().sp, Env().Mode(arch.priv))
      requires h.Hit? ==> Settled(Dram(), Env(), va, Code, arch.priv, h.entry.pAddr + va % 4096)
      modifies Repr
      ensures Valid() && stale == old(stale)
      ensures (r, Value()) == FetchHalf(xlen, old(Value()), va)
      ensures Dram() == Translate(old(Dram()), Env().sp, va, Code, Env().Mode(arch.priv)).1
      ensures arch == old(arch) && satp == old(satp) && (r.Reached? ==> |r.pas| == 1)
    {
      hide Legal, SatpSpace, SatpAsid, SatpMode, Translate, TableOk, SoftTableOk, Canonical;
      if h.Hit? {
        return Reached([h.entry.pAddr + va % 4096]);
      }
      if !Canonical(SatpSpace(satp, xlen), va) {
        NonCanonicalDenied(Dram(), Env().sp, va, Env().Mode(arch.priv));
        return Trap(PageFaultCause(Code), va);
      }
      var t := WalkAndInsert(Code, va, arch.priv);
      return if t.Denied? then Trap(t.cause, va) else Reached([t.pa]);
    }

    /** An instruction fetch, split over two pages or not. Both lookups come before either
        walk. */
    method Fetch(pc: nat, wide: bool) returns (r: Result)
      requires Valid() && FreshFetch(xlen, Value(), stale, pc, wide)
      modifies Repr
      ensures Valid() && stale == old(stale)
      ensures (r, Value()) == FetchAny(xlen, old(Value()), pc, wide)
    {
      hide Settled, Valid, SatpSpace, SatpAsid, SatpMode, Translate, FetchHalf, PageOf, NextHalf, Ialign, Wrap;
      if pc % Ialign(arch) != 0 {
        return Trap(0, pc);
      }
      var translating := !arch.priv.Machine? && !SatpSpace(satp, xlen).Bare?;
      var next := NextHalf(pc);
      var split := PageOf(pc) != PageOf(pc + 2);
      if !translating {
        UntranslatedFetch(xlen, Value(), pc, wide);
        return Reached(Physical(xlen, pc, wide));
      }
      var h1, h2 := Miss, Miss;
      h1 := TlbLookupFetch(pc);
      if split {
        h2 := TlbLookupFetch(next);
      }
      ghost var d, env := Dram(), Env();
      if h2.Hit? && wide {
        SettledAfterTranslate(d, env, next, Code, arch.priv, h2.entry.pAddr + next % 4096,
                              pc, Code, env.Mode(arch.priv));
      }
      r := ResolveHalf(pc, h1);
      if r.Trap? || !wide {
        return r;
      }
      if !split {
        return Reached([r.pas[0], r.pas[0] + 2]);
      }
      var r2 := ResolveHalf(next, h2);
      return if r2.Trap? then r2 else Reached(r.pas + r2.pas);
    }

    method TlbLookupFetch(va: nat) returns (h: Hit)
      requires Valid()
      modifies instR.lru
      ensures Valid() && Value() == old(Value())
      ensures h.Hit? && PageOf(va) !in stale ==> Settled(Dram(), Env(), va, Code, arch.priv, h.entry.pAddr + va % 4096)
    {
      hide Settled, Legal, SatpSpace, TableOk, SoftTableOk;
      h := TlbLookup(Code, va, arch.priv);
    }

    // ---- whole runs --------------------------------------------------------------------------

    method Perform(op: Op) returns (r: Result)
      requires Valid() && WellFormed(op) && Fresh(xlen, Value(), stale, op)
      modifies Repr
      ensures Valid()
      ensures (r, Value()) == Step(xlen, old(Value()), op)
      ensures stale == NextStale(xlen, old(Value()), old(stale), op)
    {
      hide Valid, CachelessHart.AccessAny, FreshAny, StaleAny, FastPathAddress, FetchAny, RaiseException,
           Privileged.Mret,
           Privileged.Sret, SatpMode, Privileged.SetMstatus, Privileged.SetSstatus, SatpModeSupported, StatusFlushes,
           FreshFetch, Flushed, SatpSpace, SatpAsid;
      r := Reached([]);
      match op {
        case Fetch(pc, wide) => r := Fetch(pc, wide);
        case Decode(kind) => SetContext(kind);
        case Access(a, size, access, kind, data) =>
          r := AccessAny(a, size, access, kind, data);
          SetContext(kind);
        case CachedAccess(a, size, access, data) =>
          IsLegal();
          r := CachedAccess(a, size, access, data);
        case WriteSatp(v) => WriteSatp(v);
        case WriteMstatus(w, mpp) =>
          SetMstatus(w, mpp);
          SetContext(Plain);
        case WriteSstatus(w) =>
          SetSstatus(w);
          SetContext(Plain);
        case SfenceVma(allV, v, allA, asid) => SfenceVma(allV, v, allA, asid);
        case _ => PerformTransfer(op);
      }
    }

    /** An instruction enters the pipeline context. */
    method SetContext(kind: Kind)
      requires Valid()
      modifies this`context
      ensures Valid() && Value() == old(Value()).(context := kind)
    {
      hide Legal, SatpSpace, TableOk, SoftTableOk;
      context := kind;
    }

    lemma IsLegal()
      requires Valid()
      ensures Legal(arch) && Layout()
    {
    }

    method PerformTransfer(op: Op)
      requires Valid() && (op.TakeTrap? || op.ReturnMachine? || op.ReturnSupervisor?)
      modifies this`arch, this`context
      ensures Valid() && Value() == Step(xlen, old(Value()), op).1
    {
      hide SatpSpace, SatpAsid, TableOk, SoftTableOk, Legal, RaiseException, Privileged.Mret, Privileged.Sret, Valid;
      IsLegal();
      match op {
        case TakeTrap(cause, tval) =>
          TrapStaysLegal(arch, cause, tval);
          TransferKeepsView(arch, cause, tval);
          SetArch(RaiseException(arch, cause, tval));
        case ReturnMachine =>
          ReturnStaysLegal(arch);
          TransferKeepsView(arch, Exception(0), 0);
          SetArch(Privileged.Mret(arch));
          SetContext(Plain);
        case ReturnSupervisor =>
          ReturnStaysLegal(arch);
          TransferKeepsView(arch, Exception(0), 0);
          if arch.isa.s {
            SetArch(Privileged.Sret(arch));
          }
          SetContext(Plain);
      }
    }

    /** Any run of fetches, loads, stores, satp and status writes, traps, returns and SFENCE.VMA in which
        no page is translated between an edit of its translation and a fence that covers it, and the
        accesses of the decoded path fit, gives step by step the physical addresses and faults of the
        hart without caches, and leaves the same memory. The guest may edit its page tables at will. */
    method RunAll(ops: seq<Op>) returns (rs: seq<Result>)
      requires Valid() && forall k :: 0 <= k < |ops| ==> WellFormed(ops[k])
      requires FreshRun(xlen, Value(), stale, ops)
      modifies Repr
      ensures Valid()
      ensures (rs, Value()) == Run(xlen, old(Value()), ops)
    {
      hide Valid, Step, Fresh, NextStale, WellFormed, Run, FreshRun;
      rs := [];
      ghost var whole := Run(xlen, Value(), ops);
      assert rs + whole.0 == whole.0 && ops[0..] == ops;
      for k := 0 to |ops|
        invariant Valid() && FreshRun(xlen, Value(), stale, ops[k..])
        invariant var (rest, w) := Run(xlen, Value(), ops[k..]); whole == (rs + rest, w)
      {
        RunUnrolled(xlen, Value(), stale, ops, k);
        var r := Perform(ops[k]);
        ghost var rest := Run(xlen, Value(), ops[k + 1..]).0;
        assert rs + ([r] + rest) == (rs + [r]) + rest;
        rs := rs + [r];
      }
      RunOver(xlen, Value(), ops);
      assert rs + [] == rs;
    }
  }

  lemma NonCanonicalDenied(d: Dram, sp: Space, va: nat, mode: Mode)
    requires Translating(sp, mode) && !Canonical(sp, va)
    ensures Translate(d, sp, va, Code, mode) == (Denied(PageFaultCause(Code)), d)
  {
  }

  /** A naturally aligned access never crosses a page, before or after address truncation. */
  lemma AlignedInPage(address: nat, size: nat, span: nat)
    requires size == 1 || size == 2 || size == 4 || size == 8
    requires address % size == 0
    requires span == 0x1_0000_0000 || span == 0x1_0000_0000_0000_0000
    ensures !CrossesPage(address % span, size) && (address % span) % size == 0
    ensures address < 0x1_0000_0000 ==> address % span == address
  {
    match size {
      case 1 => AlignedBy(address, 1, span, 4096, span);
      case 2 => AlignedBy(address, 2, span / 2, 2048, span);
      case 4 => AlignedBy(address, 4, span / 4, 1024, span);
      case 8 => AlignedBy(address, 8, span / 8, 512, span);
    }
    RoomInPage((address % span) % 4096, size);
  }

  lemma AlignedBy(address: nat, c: nat, s1: nat, s2: nat, span: nat)
    requires c >= 1 && s1 >= 1 && s2 >= 1 && c * s1 == span && c * s2 == 4096 && address % c == 0
    ensures (address % span) % c == 0 && ((address % span) % 4096) % c == 0
  {
    Arith.ModOfMultiple(address, c, s1);
    Arith.ModOfMultiple(address % span, c, s2);
  }

  lemma RoomInPage(r: nat, size: nat)
    requires size in {1, 2, 4, 8} && r < 4096 && r % size == 0
    ensures r + size <= 4096
  {
  }

  lemma AlignedAfterWrap(address: nat, size: nat, span: nat)
    requires size == 1 || size == 2 || size == 4 || size == 8
    requires span == 0x1_0000_0000 || span == 0x1_0000_0000_0000_0000
    ensures (address % span) % size == address % size
  {
    Arith.ModOfMultiple(address, size, span / size);
  }

  lemma FreshAligned(xlen: nat, w: World, stale: iset<nat>, address: nat, size: nat, access: Access, data: nat)
    requires (size == 1 || size == 2 || size == 4 || size == 8) && address % size == 0
    requires FreshAny(xlen, w, stale, address, size, access, Plain, data)
    ensures FreshOne(xlen, w, stale, address % Wrap(xlen))
  {
    hide FreshOne, FreshBytes;
    AlignedInPage(address, size, Wrap(xlen));
  }

  /** What the kind changes about an access that crosses no page by alignment: the fault of a misaligned
      access, and the fault of a non-canonical load. */
  lemma KindMatters(xlen: nat, w: World, stale: iset<nat>, address: nat, size: nat, access: Access, kind: Kind,
                    data: nat)
    requires (size == 1 || size == 2 || size == 4 || size == 8) && !access.Code?
    requires FreshAny(xlen, w, stale, address, size, access, Plain, data)
    ensures FreshAny(xlen, w, stale, address, size, access, kind, data)
    ensures var same := kind.Plain? || (address % size == 0 && (FastPathAddress(xlen, w, address) || access.Write?));
            var r := CachelessHart.AccessAny(xlen, w, address, size, access, kind, data);
            && (r == CachelessHart.AccessAny(xlen, w, address, size, access, Plain, data) <==> same)
            && (same ==> StaleAny(xlen, w, stale, address, size, access, kind, data)
                         == StaleAny(xlen, w, stale, address, size, access, Plain, data))
  {
    hide CachelessHart.AccessOne, CachelessHart.AccessBytes, EditOne, FreshBytes, StaleBytes, FreshOne, Canonical,
         SatpSpace, SatpAsid;
    var va := address % Wrap(xlen);
    AlignedAfterWrap(address, size, Wrap(xlen));
    PlainNeverMisaligned(xlen, w, address, size, access, data);
    if address % size == 0 {
      AlignedInPage(address, size, Wrap(xlen));
      if FastPathAddress(xlen, w, address) || access.Write? {
        KindNames(xlen, w, va, size, access, kind, data);
      } else {
        NonCanonicalAccess(xlen, w, va, size, access, kind, data);
        NonCanonicalAccess(xlen, w, va, size, access, Plain, data);
      }
    }
  }

  lemma TagIsLive(vpn: nat, asid: nat, p: Priv)
    ensures MakeTag(vpn, asid, p) != INVALID_TAG
  {
  }

  lemma SumMxrAfterWrite(a: Arch, w: Mstatus, mpp: nat)
    requires Legal(a)
    ensures a.mstatus.sum == w.sum && a.mstatus.mxr == w.mxr ==>
              var m := Privileged.SetMstatus(a.isa, w, mpp); m.sum == a.mstatus.sum && m.mxr == a.mstatus.mxr
  {
  }

  lemma InPageOf(page: nat, va: nat)
    requires page % 4096 == 0
    ensures PageOf(page + va % 4096) == page
  {
  }

  lemma PagedIfSettled(d: Dram, env: Env, va: nat, access: Access, p: Priv, pa: nat)
    requires Settled(d, env, va, access, p, pa)
    ensures env.sp.Paged? && Canonical(env.sp, va)
  {
  }

  lemma TagDefinition(env: Env, va: nat, p: Priv)
    ensures TagOf(env, va, p) == MakeTag(va / 4096, env.asid, p)
  {
  }

  lemma DeadIsStale(es: seq<SoftTlbEntry>, epoch: nat)
    requires forall i :: 0 <= i < |es| ==> es[i] == DEAD
    ensures NotNewer(es, epoch) && AllStale(es, epoch)
  {
  }

  lemma DeadIsOk(d: Dram, env: Env, stale: iset<nat>, access: Access, epoch: nat, e: SoftTlbEntry)
    requires e.tag == INVALID_TAG
    ensures SoftOk(d, env, stale, access, epoch, e)
  {
  }
}
