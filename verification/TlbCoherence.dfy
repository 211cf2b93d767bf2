/** When a cached translation is as good as a fresh page walk: the invariants of the TLB tables
    and of the software TLB, as facts about their contents and guest memory. */
module TlbCoherence {

  import opened Memory
  import opened PageTable
  import opened Tlb

  /** Everything a walk depends on besides memory, the address, the access and the privilege. */
  datatype Env = Env(sp: Space, asid: nat, sum: bool, mxr: bool, span: nat) {
    predicate Valid() {
      && (sp.Paged? ==> sp.root % 4096 == 0)
      && (span == 0x1_0000_0000 || span == 0x1_0000_0000_0000_0000)
      && (sp.Paged? ==> (sp.format.Sv32? <==> span == 0x1_0000_0000))
      && asid < 0x1_0000
    }

    function Mode(p: Priv): Mode { PageTable.Mode(p, sum, mxr) }
  }

  /** A fresh translation of va maps to pa and would not write memory. */
  ghost predicate Settled(d: Dram, env: Env, va: nat, access: Access, p: Priv, pa: nat) {
    && Translating(env.sp, env.Mode(p)) && Canonical(env.sp, va)
    && Translate(d, env.sp, va, access, env.Mode(p)) == (Mapped(pa), d)
  }

  lemma SettledSamePage(d: Dram, env: Env, va: nat, access: Access, p: Priv, pa: nat)
    requires Settled(d, env, PageOf(va), access, p, pa)
    ensures Settled(d, env, va, access, p, pa + va % 4096)
    ensures PageOf(pa + va % 4096) == pa
  {
    hide Translate, Canonical;
    SamePage(d, env.sp, va, access, env.Mode(p));
  }

  /** A successful translation leaves its own page settled. */
  lemma TranslateSettles(d: Dram, env: Env, va: nat, access: Access, p: Priv)
    requires env.Valid() && Translating(env.sp, env.Mode(p)) && Canonical(env.sp, va)
    requires Translate(d, env.sp, va, access, env.Mode(p)).0.Mapped?
    ensures var r := Translate(d, env.sp, va, access, env.Mode(p));
            && Settled(r.1, env, PageOf(va), access, p, PageOf(r.0.pa))
            && r.0.pa == PageOf(r.0.pa) + va % 4096
  {
    hide Translate, Canonical;
    var r := Translate(d, env.sp, va, access, env.Mode(p));
    TranslateTwice(d, env.sp, va, access, env.Mode(p));
    SamePage(r.1, env.sp, va, access, env.Mode(p));
  }

  /** The A and D writes of any translation keep every settled one settled. */
  lemma SettledAfterTranslate(d: Dram, env: Env, va: nat, access: Access, p: Priv, pa: nat,
                              va2: nat, access2: Access, mode2: Mode)
    requires env.Valid() && Settled(d, env, va, access, p, pa)
    ensures Settled(Translate(d, env.sp, va2, access2, mode2).1, env, va, access, p, pa)
  {
    hide Translate, Canonical;
    TranslationInvisible(d, env.sp, va2, access2, mode2, env.sp, va, access, env.Mode(p));
  }

  lemma SettledAfterStore(d: Dram, d': Dram, env: Env, va: nat, access: Access, p: Priv, pa: nat)
    requires Settled(d, env, va, access, p, pa) && SameTables(d, d', env.sp)
    ensures Settled(d', env, va, access, p, pa)
  {
    hide Translate, Canonical, SameTables;
    OrdinaryStoreInvisible(d, d', env.sp, va, access, env.Mode(p));
  }

  // ---- edited page tables -----------------------------------------------------------------

  /** The memory change takes a settled translation of the page away: something a TLB may still
      hold. */
  ghost predicate Loses(d: Dram, d': Dram, env: Env, page: nat) {
    exists access: Access, p: Priv, pa: nat ::
      Settled(d, env, page, access, p, pa) && !Settled(d', env, page, access, p, pa)
  }

  ghost function Changed(d: Dram, d': Dram, env: Env): iset<nat> {
    iset page: nat | Loses(d, d', env, page)
  }

  lemma ChangedByNothing(d: Dram, env: Env)
    ensures Changed(d, d, env) == iset{}
  {
    hide Settled;
  }

  /** Pages that did not change keep what was settled. */
  lemma UnchangedStaysSettled(d: Dram, d': Dram, env: Env, page: nat, access: Access, p: Priv, pa: nat)
    requires Settled(d, env, page, access, p, pa) && page !in Changed(d, d', env)
    ensures Settled(d', env, page, access, p, pa)
  {
    hide Settled;
  }

  /** A store outside the words that walks read changes no page. */
  lemma OrdinaryStoreChangesNothing(d: Dram, d': Dram, env: Env)
    requires SameTables(d, d', env.sp)
    ensures Changed(d, d', env) == iset{}
  {
    hide Settled, SameTables;
    forall page: nat, access: Access, p: Priv, pa: nat | Settled(d, env, page, access, p, pa)
      ensures Settled(d', env, page, access, p, pa)
    {
      SettledAfterStore(d, d', env, page, access, p, pa);
    }
  }

  // ---- TLB tables --------------------------------------------------------------------------

  /** A valid entry maps a page of the current address space and, unless that page is stale, it is what
      a fresh walk would find now. */
  ghost predicate SlotOk(d: Dram, env: Env, stale: iset<nat>, access: Access, e: TlbEntry) {
    e.valid ==>
      && env.sp.Paged? && e.asid == env.asid && e.pAddr % 4096 == 0
      && (e.vAddr !in stale ==> Settled(d, env, e.vAddr, access, e.priv, e.pAddr))
  }

  ghost predicate TableOk(d: Dram, env: Env, stale: iset<nat>, access: Access, es: seq<TlbEntry>) {
    forall i :: 0 <= i < |es| ==> SlotOk(d, env, stale, access, es[i])
  }

  lemma TableAfterTranslate(d: Dram, env: Env, stale: iset<nat>, access: Access, es: seq<TlbEntry>,
                            va: nat, access2: Access, mode2: Mode)
    requires env.Valid() && TableOk(d, env, stale, access, es)
    ensures TableOk(Translate(d, env.sp, va, access2, mode2).1, env, stale, access, es)
  {
    hide Translate, Settled;
    forall i | 0 <= i < |es| && es[i].valid
      ensures SlotOk(Translate(d, env.sp, va, access2, mode2).1, env, stale, access, es[i])
    {
      assert SlotOk(d, env, stale, access, es[i]);
      if es[i].vAddr !in stale {
        SettledAfterTranslate(d, env, es[i].vAddr, access, es[i].priv, es[i].pAddr, va, access2, mode2);
      }
    }
  }

  lemma TableAfterStore(d: Dram, d': Dram, env: Env, stale: iset<nat>, access: Access, es: seq<TlbEntry>)
    requires TableOk(d, env, stale, access, es)
    ensures TableOk(d', env, stale + Changed(d, d', env), access, es)
  {
    hide Settled, Changed;
    forall i | 0 <= i < |es| && es[i].valid
      ensures SlotOk(d', env, stale + Changed(d, d', env), access, es[i])
    {
      assert SlotOk(d, env, stale, access, es[i]);
      if es[i].vAddr !in stale + Changed(d, d', env) {
        UnchangedStaysSettled(d, d', env, es[i].vAddr, access, es[i].priv, es[i].pAddr);
      }
    }
  }

  // ---- software TLB ------------------------------------------------------------------------

  /** Where in the DRAM buffer a page starts, when known. */
  datatype HostPtr = NoHost | At(offset: nat)

  datatype SoftTlbEntry = SoftTlbEntry(tag: nat, paddrBase: nat, host: HostPtr, epoch: nat)

  const INVALID_TAG: nat := 0xFFFF_FFFF_FFFF_FFFF

  /** Forty bits of page number, sixteen of ASID, two of privilege. */
  function MakeTag(vpn: nat, asid: nat, p: Priv): (tag: nat)
    ensures tag < 0x400_0000_0000_0000
  {
    (vpn % 0x100_0000_0000) * 0x4_0000 + (asid % 0x1_0000) * 4 +
    (match p case User => 0 case Supervisor => 1 case Machine => 3)
  }

  function TagOf(env: Env, va: nat, p: Priv): nat { MakeTag(va / 4096, env.asid, p) }

  /** Two addresses a guest may use under one satp have equal tags only if they lie on one page
      and are used at one privilege level. */
  lemma TagInjective(env: Env, va: nat, p: Priv, va2: nat, p2: Priv)
    requires env.Valid() && env.sp.Paged? && va < env.span && va2 < env.span
    requires Canonical(env.sp, va) && Canonical(env.sp, va2)
    requires TagOf(env, va, p) == TagOf(env, va2, p2)
    ensures PageOf(va) == PageOf(va2) && p == p2
  {
    var n, n2 := va / 4096, va2 / 4096;
    assert n % 0x100_0000_0000 == n2 % 0x100_0000_0000 && p == p2;
    match env.sp.format {
      case Sv32 => assert n < 0x100_0000_0000 && n2 < 0x100_0000_0000;
      case Sv39 => VpnLowBits(n); VpnLowBits(n2);
      case Sv48 => VpnLowBits(n); VpnLowBits(n2);
    }
    assert va - va % 4096 == 4096 * n && va2 - va2 % 4096 == 4096 * n2;
  }

  /** A sign-extended page number keeps its value in its low forty bits. */
  lemma VpnLowBits(n: nat)
    requires n < 0x8_0000_0000 || (0x10_0000_0000_0000 - 0x8_0000_0000 <= n < 0x10_0000_0000_0000)
    ensures n < 0x8_0000_0000 ==> n % 0x100_0000_0000 == n
    ensures n >= 0x8_0000_0000 ==> n % 0x100_0000_0000 == n - 0xF_FF00_0000_0000
  {
    if n >= 0x8_0000_0000 {
      assert n == 0xFFF * 0x100_0000_0000 + (n - 0xF_FF00_0000_0000);
    }
  }

  /** The entry's physical page lies in DRAM at the entry's host offset and, unless the page is stale,
      it is where the page translates to at privilege p. */
  ghost predicate SoftMapped(d: Dram, env: Env, stale: iset<nat>, access: Access, e: SoftTlbEntry, va: nat, p: Priv) {
    && (PageOf(va) !in stale ==> Settled(d, env, PageOf(va), access, p, e.paddrBase))
    && d.Contains(e.paddrBase, 4096) && e.host == At(e.paddrBase - d.base)
  }

  /** An entry is dead, or not newer than the current epoch; and if it is of the current epoch,
      every usable address it matches is mapped as it says. Dead entries may keep any epoch:
      that is what makes the wrap of the epoch counter safe. */
  ghost predicate SoftOk(d: Dram, env: Env, stale: iset<nat>, access: Access, epoch: nat, e: SoftTlbEntry) {
    e.tag == INVALID_TAG ||
    (e.epoch <= epoch &&
     (e.epoch == epoch ==>
        forall va: nat, p: Priv :: va < env.span && Canonical(env.sp, va) && e.tag == TagOf(env, va, p) ==>
          SoftMapped(d, env, stale, access, e, va, p)))
  }

  ghost predicate SoftTableOk(d: Dram, env: Env, stale: iset<nat>, access: Access, epoch: nat, es: seq<SoftTlbEntry>) {
    forall i :: 0 <= i < |es| ==> SoftOk(d, env, stale, access, epoch, es[i])
  }

  lemma SoftAfterTranslate(d: Dram, env: Env, stale: iset<nat>, access: Access, epoch: nat, es: seq<SoftTlbEntry>,
                           va2: nat, access2: Access, mode2: Mode)
    requires env.Valid() && SoftTableOk(d, env, stale, access, epoch, es)
    ensures SoftTableOk(Translate(d, env.sp, va2, access2, mode2).1, env, stale, access, epoch, es)
  {
    hide Translate, Settled, Canonical, TagOf, PageOf;
    var d' := Translate(d, env.sp, va2, access2, mode2).1;
    forall i | 0 <= i < |es| ensures SoftOk(d', env, stale, access, epoch, es[i]) {
      var e := es[i];
      assert SoftOk(d, env, stale, access, epoch, e);
      if e.tag != INVALID_TAG && e.epoch == epoch {
        forall va: nat, p: Priv | va < env.span && Canonical(env.sp, va) && e.tag == TagOf(env, va, p)
          ensures SoftMapped(d', env, stale, access, e, va, p)
        {
          assert SoftMapped(d, env, stale, access, e, va, p);
          if PageOf(va) !in stale {
            SettledAfterTranslate(d, env, PageOf(va), access, p, e.paddrBase, va2, access2, mode2);
          }
        }
      }
    }
  }

  lemma SoftAfterStore(d: Dram, d': Dram, env: Env, stale: iset<nat>, access: Access, epoch: nat,
                       es: seq<SoftTlbEntry>)
    requires d'.base == d.base && |d'.bytes| == |d.bytes| && SoftTableOk(d, env, stale, access, epoch, es)
    ensures SoftTableOk(d', env, stale + Changed(d, d', env), access, epoch, es)
  {
    hide Settled, Canonical, TagOf, PageOf, Changed;
    var stale' := stale + Changed(d, d', env);
    forall i | 0 <= i < |es| ensures SoftOk(d', env, stale', access, epoch, es[i]) {
      var e := es[i];
      assert SoftOk(d, env, stale, access, epoch, e);
      if e.tag != INVALID_TAG && e.epoch == epoch {
        forall va: nat, p: Priv | va < env.span && Canonical(env.sp, va) && e.tag == TagOf(env, va, p)
          ensures SoftMapped(d', env, stale', access, e, va, p)
        {
          assert SoftMapped(d, env, stale, access, e, va, p);
          if PageOf(va) !in stale' {
            UnchangedStaysSettled(d, d', env, PageOf(va), access, p, e.paddrBase);
          }
        }
      }
    }
  }

  /** An entry filled for a page just translated satisfies the invariant. */
  lemma SoftFilled(d: Dram, env: Env, stale: iset<nat>, access: Access, epoch: nat, va: nat, p: Priv, page: nat)
    requires env.Valid() && env.sp.Paged? && va < env.span && Canonical(env.sp, va)
    requires PageOf(va) !in stale ==> Settled(d, env, PageOf(va), access, p, page)
    requires d.Contains(page, 4096)
    ensures SoftOk(d, env, stale, access, epoch, SoftTlbEntry(TagOf(env, va, p), page, At(page - d.base), epoch))
  {
    hide Translate, Settled, Canonical, TagOf, PageOf;
    var e := SoftTlbEntry(TagOf(env, va, p), page, At(page - d.base), epoch);
    forall va2: nat, p2: Priv | va2 < env.span && Canonical(env.sp, va2) && e.tag == TagOf(env, va2, p2)
      ensures SoftMapped(d, env, stale, access, e, va2, p2)
    {
      TagInjective(env, va, p, va2, p2);
    }
  }

  /** No live entry is newer than the epoch. */
  predicate NotNewer(es: seq<SoftTlbEntry>, epoch: nat) {
    forall i :: 0 <= i < |es| ==> es[i].tag == INVALID_TAG || es[i].epoch <= epoch
  }

  /** No live entry is of the epoch: nothing in the table can match. */
  predicate AllStale(es: seq<SoftTlbEntry>, epoch: nat) {
    forall i :: 0 <= i < |es| ==> es[i].tag == INVALID_TAG || es[i].epoch < epoch
  }

  lemma SoftNotNewer(d: Dram, env: Env, stale: iset<nat>, access: Access, epoch: nat, es: seq<SoftTlbEntry>)
    requires SoftTableOk(d, env, stale, access, epoch, es)
    ensures NotNewer(es, epoch)
  {
    hide Canonical, TagOf, SoftMapped;
    forall i | 0 <= i < |es| ensures es[i].tag == INVALID_TAG || es[i].epoch <= epoch {
      assert SoftOk(d, env, stale, access, epoch, es[i]);
    }
  }

  /** A table with nothing of the current epoch is sound whatever memory and satp become. */
  lemma StaleIsSound(d: Dram, env: Env, stale: iset<nat>, access: Access, epoch: nat, es: seq<SoftTlbEntry>)
    requires AllStale(es, epoch)
    ensures SoftTableOk(d, env, stale, access, epoch, es)
  {
    hide Canonical, TagOf, SoftMapped;
  }

  /** A non-canonical address can carry the tag of a canonical one: 0x10_0000_0000_1000 and
      0x1000 under Sv39. */
  lemma TagAliases(env: Env, p: Priv)
    requires env.sp.Paged? && env.sp.format == Sv39
    ensures TagOf(env, 0x10_0000_0000_1000, p) == TagOf(env, 0x1000, p)
    ensures Canonical(env.sp, 0x1000) && !Canonical(env.sp, 0x10_0000_0000_1000)
    ensures PageOf(0x10_0000_0000_1000) != PageOf(0x1000)
  {
    assert 0x10_0000_0000_1000 / 4096 == 0x100_0000_0001;
    assert 0x1000 / 4096 == 1;
  }
}
