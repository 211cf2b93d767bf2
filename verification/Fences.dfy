/** SFENCE.VMA after an edit of the page tables: which entries are wrong when a leaf has been made
    invalid, and what a fence by address leaves of a superpage. */
module Fences {

  import opened Memory
  import opened PageTable
  import opened Tlb
  import opened TlbCoherence
  import opened CachelessHart
  import opened Translation

  /** The walk of this page ends at the leaf entry at that address. */
  ghost predicate EndsAt(d: Dram, env: Env, page: nat, leaf: nat)
    requires env.sp.Paged?
  {
    var w := Walk(d, env.sp.format, env.sp.root, page, env.sp.format.Levels() - 1);
    w.Leaf? && w.addr == leaf
  }

  /** The entry at this address is a leaf, and p is an invalid word to put in its place. */
  ghost predicate Invalidates(d: Dram, env: Env, leaf: nat, p: nat) {
    env.Valid() && env.sp.Paged? && LeafWord(d, env.sp.format, leaf) && !V(p) && p < Span(env.sp.format.PteSize())
  }

  /** The leaf that translates a page can be cleared by writing zero. */
  lemma LeafCanBeCleared(d: Dram, env: Env, page: nat, leaf: nat)
    requires env.Valid() && env.sp.Paged? && EndsAt(d, env, page, leaf)
    ensures Invalidates(d, env, leaf, 0)
  {
    hide Walk, LeafWord;
    LeafIsLeafWord(d, env.sp.format, env.sp.root, page, env.sp.format.Levels() - 1);
  }

  function Edited(d: Dram, env: Env, leaf: nat, p: nat): Dram
    requires env.sp.Paged? && d.Contains(leaf, env.sp.format.PteSize())
  {
    d.Put(leaf, env.sp.format.PteSize(), p)
  }

  /** A settled translation survives the edit if and only if its walk does not end at the entry. */
  lemma SurvivesIff(d: Dram, env: Env, leaf: nat, p: nat, page: nat, access: Access, priv: Priv, pa: nat)
    requires Invalidates(d, env, leaf, p) && Settled(d, env, page, access, priv, pa)
    ensures Settled(Edited(d, env, leaf, p), env, page, access, priv, pa) <==> !EndsAt(d, env, page, leaf)
  {
    hide V, R, W, X, U, A, D, Ppn, ReservedHigh, WithAD, SuperPages, Walk, Canonical, LeafAddress, Permitted, Load,
         Store,
         Span;
    var f := env.sp.format;
    InvalidatedWalk(d, f, leaf, p, env.sp.root, page, f.Levels() - 1);
    SettledLeaf(d, env.sp, page, access, env.Mode(priv));
  }

  /** So the pages the edit makes stale, among those that were settled, are those whose walk ends there. */
  lemma InvalidatedPages(d: Dram, env: Env, leaf: nat, p: nat, page: nat)
    requires Invalidates(d, env, leaf, p)
    ensures page in Changed(d, Edited(d, env, leaf, p), env)
            <==> EndsAt(d, env, page, leaf)
                 && exists access: Access, priv: Priv, pa: nat :: Settled(d, env, page, access, priv, pa)
  {
    hide Settled, EndsAt, V, R, W, X, ReservedHigh, Load, Span;
    forall access: Access, priv: Priv, pa: nat | Settled(d, env, page, access, priv, pa)
      ensures Settled(Edited(d, env, leaf, p), env, page, access, priv, pa) <==> !EndsAt(d, env, page, leaf)
    {
      SurvivesIff(d, env, leaf, p, page, access, priv, pa);
    }
  }

  /** The other pages of a superpage end at the same entry: after the edit they are stale too, and a
      fence by the address of one page takes only that page away. */
  lemma SuperpageStaysStale(d: Dram, env: Env, leaf: nat, p: nat, va: nat, vb: nat, access: Access, priv: Priv, pa: nat)
    requires Invalidates(d, env, leaf, p) && EndsAt(d, env, PageOf(va), leaf)
    requires var w := Walk(d, env.sp.format, env.sp.root, PageOf(va), env.sp.format.Levels() - 1);
             var s := SuperPages(env.sp.format, w.level);
             PageOf(va) / 4096 / s == PageOf(vb) / 4096 / s
    requires Settled(d, env, PageOf(vb), access, priv, pa) && PageOf(va) != PageOf(vb)
    ensures PageOf(vb) in Changed(d, Edited(d, env, leaf, p), env) - iset{PageOf(va)}
  {
    hide Settled, Walk, SuperPages, PageOf, Changed, V, R, W, X, ReservedHigh, Load, Span;
    var f := env.sp.format;
    SuperpageWalk(d, f, env.sp.root, PageOf(va), PageOf(vb), f.Levels() - 1);
    InvalidatedPages(d, env, leaf, p, PageOf(vb));
  }

  /** No entry the fence leaves in this table was found through the edited entry. */
  ghost predicate NoneLeft(d: Dram, env: Env, leaf: nat, es: seq<TlbEntry>, allVaddr: bool, vaddr: nat, allAsid: bool,
                           asid: nat)
    requires env.sp.Paged?
  {
    forall i :: 0 <= i < |es| && es[i].valid && !Selected(es[i], allVaddr, vaddr, allAsid, asid) ==>
      !EndsAt(d, env, es[i].vAddr, leaf)
  }

  /** The entries of a table that the fence leaves are right after the edit if and only if none of them
      was found through the edited entry. */
  lemma LeftRightIff(d: Dram, env: Env, leaf: nat, p: nat, access: Access, es: seq<TlbEntry>, allVaddr: bool,
                     vaddr: nat, allAsid: bool, asid: nat)
    requires Invalidates(d, env, leaf, p) && TableOk(d, env, iset{}, access, es)
    ensures (forall i :: 0 <= i < |es| && es[i].valid && !Selected(es[i], allVaddr, vaddr, allAsid, asid) ==>
               SlotOk(Edited(d, env, leaf, p), env, iset{}, access, es[i]))
            <==> NoneLeft(d, env, leaf, es, allVaddr, vaddr, allAsid, asid)
  {
    hide Settled, EndsAt, Selected, V, R, W, X, ReservedHigh, Load, Span;
    forall i | 0 <= i < |es| && es[i].valid
      ensures SlotOk(Edited(d, env, leaf, p), env, iset{}, access, es[i]) <==> !EndsAt(d, env, es[i].vAddr, leaf)
    {
      assert SlotOk(d, env, iset{}, access, es[i]);
      SurvivesIff(d, env, leaf, p, es[i].vAddr, access, es[i].priv, es[i].pAddr);
    }
  }

  /** A fence by address leaves what a lookup of any other page finds. */
  lemma SurvivesFence(before: seq<TlbEntry>, after: seq<TlbEntry>, s: nat, vaddr: nat, va: nat, asid: nat, p: Priv)
    requires 2 * s + 1 < |before| && Hart.Fenced(before, after, false, vaddr, true, 0) && PageOf(va) != PageOf(vaddr)
    ensures FindIn(after, s, va, asid, p) == FindIn(before, s, va, asid, p)
  {
    hide PageOf;
    assert Matches(after[2 * s], va, asid, p) <==> Matches(before[2 * s], va, asid, p);
    assert Matches(after[2 * s + 1], va, asid, p) <==> Matches(before[2 * s + 1], va, asid, p);
  }

  method EditLeaf(h: Hart, leaf: nat, p: nat)
    requires h.Valid() && Invalidates(h.Dram(), h.Env(), leaf, p)
    modifies h.mmu.mmem, h`stale
    ensures h.Valid() && h.Dram() == Edited(old(h.Dram()), h.Env(), leaf, p)
  {
    hide TableOk, SoftTableOk, TlbTable.Valid, Store, Load, Changed, Span, V, R, W, X, ReservedHigh;
    h.StoreAt(leaf - h.mmu.dramBase, if h.xlen == 64 then 8 else 4, p);
  }

  /** The guest makes a leaf invalid and fences, by address or not. Afterwards every cache is right if
      and only if the fence selected every cached entry that was found through that leaf: for the leaf
      of a superpage, every cached page of it. */
  method InvalidateAndFence(h: Hart, leaf: nat, p: nat, allVaddr: bool, vaddr: nat, allAsid: bool, asid: nat)
    requires h.Valid() && h.stale == iset{} && Invalidates(h.Dram(), h.Env(), leaf, p)
    modifies h.Repr
    ensures h.Dram() == Edited(old(h.Dram()), old(h.Env()), leaf, p) && h.Env() == old(h.Env())
    ensures h.AllRight() <==>
            && old(NoneLeft(h.Dram(), h.Env(), leaf, h.instR.slots[..], allVaddr, vaddr, allAsid, asid))
            && old(NoneLeft(h.Dram(), h.Env(), leaf, h.dataR.slots[..], allVaddr, vaddr, allAsid, asid))
            && old(NoneLeft(h.Dram(), h.Env(), leaf, h.dataW.slots[..], allVaddr, vaddr, allAsid, asid))
  {
    hide Hart.Sound, Hart.AllRight, NoneLeft, Changed, Store, SlotOk, Selected, Hart.Fenced, SoftTableOk, Wrap,
         V, R, W, X, ReservedHigh, Load, Span, Settled, EndsAt, TlbTable.Valid, Loses, Hart.Flushed,
         AllStale, NotNewer, StatusFlushes;
    ghost var d, env := h.Dram(), h.Env();
    LeftRightIff(d, env, leaf, p, Code, h.instR.slots[..], allVaddr, vaddr, allAsid, asid);
    LeftRightIff(d, env, leaf, p, Read, h.dataR.slots[..], allVaddr, vaddr, allAsid, asid);
    LeftRightIff(d, env, leaf, p, Write, h.dataW.slots[..], allVaddr, vaddr, allAsid, asid);
    EditLeaf(h, leaf, p);
    h.ValidIsSound();
    h.TlbFlushSelective(allVaddr, vaddr, allAsid, asid);
  }
}
