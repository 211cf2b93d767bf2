/** One 2-way set-associative translation look-aside table with 1-bit LRU replacement. The hart
    has three of them: instruction fetch, data read and data write. */
module Tlb {

  import opened PageTable

  datatype TlbEntry = TlbEntry(vAddr: nat, pAddr: nat, asid: nat, priv: Priv, valid: bool)

  const EMPTY := TlbEntry(0, 0, 0, User, false)

  datatype Hit = Hit(entry: TlbEntry) | Miss

  predicate Matches(e: TlbEntry, vaddr: nat, asid: nat, priv: Priv) {
    e.valid && e.asid == asid && e.vAddr == PageOf(vaddr) && e.priv == priv
  }

  /** Which entries an SFENCE.VMA with these operands removes: all, one page, or one ASID. */
  predicate Selected(e: TlbEntry, allVaddr: bool, vaddr: nat, allAsid: bool, asid: nat) {
    (allVaddr || e.vAddr == PageOf(vaddr)) && (allAsid || e.asid == asid)
  }

  /** The first way of set s that matches. */
  function FindIn(slots: seq<TlbEntry>, s: nat, vaddr: nat, asid: nat, priv: Priv): Hit
    requires 2 * s + 1 < |slots|
  {
    if Matches(slots[2 * s], vaddr, asid, priv) then Hit(slots[2 * s])
    else if Matches(slots[2 * s + 1], vaddr, asid, priv) then Hit(slots[2 * s + 1])
    else Miss
  }

  class TlbTable {
    const numSets: nat
    const slots: array<TlbEntry>
    const lru: array<nat>

    function SetOf(vaddr: nat): (r: nat)
      requires numSets > 0
      ensures r < numSets
    {
      (vaddr / 4096) % numSets
    }

    /** Way w of set s is slot 2 * s + w; a valid entry sits in the set of its own page. */
    ghost predicate Valid()
      reads slots, lru
    {
      && numSets > 0 && slots.Length == 2 * numSets && lru.Length == numSets
      && (forall s :: 0 <= s < numSets ==> lru[s] < 2)
      && (forall i :: 0 <= i < slots.Length && slots[i].valid ==> i / 2 == SetOf(slots[i].vAddr))
    }

    constructor (numSets: nat)
      requires numSets > 0
      ensures Valid() && fresh(slots) && fresh(lru) && this.numSets == numSets
      ensures forall i :: 0 <= i < slots.Length ==> slots[i] == EMPTY
    {
      this.numSets := numSets;
      slots := new TlbEntry[2 * numSets](_ => EMPTY);
      lru := new nat[numSets](_ => 0);
    }

    method Flush()
      requires Valid()
      modifies slots, lru
      ensures Valid()
      ensures forall i :: 0 <= i < slots.Length ==> slots[i] == EMPTY
    {
      for i := 0 to slots.Length
        invariant forall k :: 0 <= k < i ==> slots[k] == EMPTY
      {
        slots[i] := EMPTY;
      }
      for s := 0 to numSets
        invariant forall k :: 0 <= k < slots.Length ==> slots[k] == EMPTY
        invariant forall k :: 0 <= k < s ==> lru[k] == 0
      {
        lru[s] := 0;
      }
    }

    lemma SamePageSameSet(vaddr: nat)
      requires numSets > 0
      ensures SetOf(PageOf(vaddr)) == SetOf(vaddr)
    {
      assert PageOf(vaddr) / 4096 == vaddr / 4096;
    }

    /** Entries the operands select are gone afterwards, in whatever slot they were; every other
        valid entry is untouched. */
    method FlushSelective(allVaddr: bool, vaddr: nat, allAsid: bool, asid: nat)
      requires Valid()
      modifies slots, lru
      ensures Valid()
      ensures forall i :: 0 <= i < slots.Length ==> slots[i] == old(slots[i]) || slots[i] == EMPTY
      ensures forall i :: 0 <= i < slots.Length && old(slots[i].valid) ==>
                var e := old(slots[i]);
                slots[i] == if (allVaddr || e.vAddr == vaddr - vaddr % 4096) && (allAsid || e.asid == asid) then EMPTY
                            else e
    {
      if allVaddr && allAsid {
        Flush();
      } else if !allVaddr {
        FlushPage(vaddr, allAsid, asid);
      } else {
        FlushAsid(asid);
      }
    }

    method FlushPage(vaddr: nat, allAsid: bool, asid: nat)
      requires Valid()
      modifies slots
      ensures Valid()
      ensures forall i :: 0 <= i < slots.Length ==>
                (old(slots[i].valid) ==>
                   slots[i] == if Selected(old(slots[i]), false, vaddr, allAsid, asid) then EMPTY else old(slots[i]))
      ensures forall i :: 0 <= i < slots.Length ==> slots[i] == old(slots[i]) || slots[i] == EMPTY
    {
      hide PageOf, SetOf;
      var s := SetOf(vaddr);
      SamePageSameSet(vaddr);
      for w := 0 to 2
        invariant forall i :: 0 <= i < slots.Length ==> slots[i] == old(slots[i]) || slots[i] == EMPTY
        invariant forall i :: 2 * s + w <= i < slots.Length || 0 <= i < 2 * s ==> slots[i] == old(slots[i])
        invariant forall i :: 2 * s <= i < 2 * s + w && old(slots[i].valid) ==>
                    slots[i] == if Selected(old(slots[i]), false, vaddr, allAsid, asid) then EMPTY else old(slots[i])
      {
        if allAsid || slots[2 * s + w].asid == asid {
          if slots[2 * s + w].vAddr == PageOf(vaddr) {
            slots[2 * s + w] := EMPTY;
          }
        }
      }
    }

    method FlushAsid(asid: nat)
      requires Valid()
      modifies slots
      ensures Valid()
      ensures forall i :: 0 <= i < slots.Length ==>
                slots[i] == if old(slots[i].asid) == asid then EMPTY else old(slots[i])
    {
      hide PageOf, SetOf;
      for i := 0 to slots.Length
        invariant forall k :: i <= k < slots.Length ==> slots[k] == old(slots[k])
        invariant forall k :: 0 <= k < i ==>
                    slots[k] == if old(slots[k].asid) == asid then EMPTY else old(slots[k])
      {
        if slots[i].asid == asid {
          slots[i] := EMPTY;
        }
      }
    }

    /** What a lookup finds now. */
    function Find(vaddr: nat, asid: nat, priv: Priv): Hit
      requires numSets > 0 && slots.Length == 2 * numSets
      reads slots
    {
      FindIn(slots[..], SetOf(vaddr), vaddr, asid, priv)
    }

    /** A hit is an entry of the table that matches; a miss means the table holds none. */
    method Lookup(vaddr: nat, asid: nat, priv: Priv) returns (r: Hit)
      requires Valid()
      modifies lru
      ensures Valid()
      ensures r == Find(vaddr, asid, priv)
      ensures r.Hit? ==>
                var e := r.entry;
                e in slots[..] && e.valid && e.vAddr == vaddr - vaddr % 4096 && e.asid == asid && e.priv == priv
      ensures r.Miss? ==>
                forall i :: 0 <= i < slots.Length ==>
                  var e := slots[i];
                  !(e.valid && e.vAddr == vaddr - vaddr % 4096 && e.asid == asid && e.priv == priv)
      ensures r.Miss? ==> lru[..] == old(lru[..])
      ensures r.Hit? ==>
                var s := SetOf(vaddr);
                var w := if Matches(slots[2 * s], vaddr, asid, priv) then 0 else 1;
                r.entry == slots[2 * s + w] && lru[..] == old(lru[..])[s := 1 - w]
    {
      hide SetOf;
      var s := SetOf(vaddr);
      SamePageSameSet(vaddr);
      for w := 0 to 2
        invariant Valid() && lru[..] == old(lru[..])
        invariant forall i :: 2 * s <= i < 2 * s + w ==> !Matches(slots[i], vaddr, asid, priv)
      {
        var e := slots[2 * s + w];
        if Matches(e, vaddr, asid, priv) {
          lru[s] := 1 - w;
          return Hit(e);
        }
      }
      return Miss;
    }

    /** Replaces the least recently used way of the page's set. */
    method Insert(vaddr: nat, paddr: nat, asid: nat, priv: Priv)
      requires Valid()
      modifies slots, lru
      ensures Valid()
      ensures var s := SetOf(vaddr);
              var way := old(lru[s]);
              && slots[..] == old(slots[..])[2 * s + way := TlbEntry(PageOf(vaddr), PageOf(paddr), asid, priv, true)]
              && lru[..] == old(lru[..])[s := 1 - way]
    {
      var s := SetOf(vaddr);
      var way := lru[s];
      assert PageOf(vaddr) / 4096 == vaddr / 4096;
      assert (2 * s + way) / 2 == s;
      slots[2 * s + way] := TlbEntry(PageOf(vaddr), PageOf(paddr), asid, priv, true);
      lru[s] := 1 - way;
    }
  }
}
