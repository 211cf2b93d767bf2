/** Sv32, Sv39 and Sv48 address translation as sections 4.3.2, 4.4 and 4.5 of the RISC-V
    Privileged Architecture describe it: a recursive walk over page tables that live in the
    same DRAM the guest uses, with hardware-managed A and D bits. Page-table entries are
    unsigned words; a shift or mask of the source is a division or remainder here. */
module PageTable {

  import opened Arith
  import opened Memory

  datatype Access = Read | Write | Code

  datatype Priv = User | Supervisor | Machine

  /** The three supported translation schemes (satp.MODE 1 on RV32, 8 and 9 on RV64). */
  datatype Format = Sv32 | Sv39 | Sv48 {
    function Levels(): (r: nat)
      ensures 2 <= r <= 4
    {
      match this case Sv32 => 2 case Sv39 => 3 case Sv48 => 4
    }

    function PteSize(): (r: nat)
      ensures r == 4 || r == 8
    {
      if Sv32? then 4 else 8
    }

    function VpnBits(): (r: nat)
      ensures r == 9 || r == 10
    {
      if Sv32? then 10 else 9
    }
  }

  /** What satp selects. A reserved MODE can never be written by the guest, but the walker
      still answers it with a page fault. */
  datatype Space = Bare | Paged(format: Format, root: nat) | Unsupported

  /** The part of the hart state that permission checks look at. */
  datatype Mode = Mode(priv: Priv, sum: bool, mxr: bool)

  datatype Walked = Leaf(addr: nat, pte: nat, level: nat) | PageFault | AccessFault

  datatype Translation = Mapped(pa: nat) | Denied(cause: nat)

  // ---- fields of a page-table entry -------------------------------------------------

  predicate V(p: nat) { p % 2 == 1 }
  function Rwx(p: nat): nat { (p / 2) % 8 }
  predicate R(p: nat) { (p / 2) % 2 == 1 }
  predicate W(p: nat) { (p / 4) % 2 == 1 }
  predicate X(p: nat) { (p / 8) % 2 == 1 }
  predicate U(p: nat) { (p / 16) % 2 == 1 }
  predicate A(p: nat) { (p / 64) % 2 == 1 }
  predicate D(p: nat) { (p / 128) % 2 == 1 }
  function Ppn(p: nat): nat { p / 1024 }

  /** Bits 63:54 of a 64-bit entry are reserved: Svnapot and Svpbmt are not implemented. */
  predicate ReservedHigh(f: Format, p: nat) { f.PteSize() == 8 && p / 0x40_0000_0000_0000 != 0 }

  /** The entry with A set, and D too for a store. */
  function WithAD(p: nat, access: Access): nat {
    p + (if A(p) then 0 else 64) + (if access.Write? && !D(p) then 128 else 0)
  }

  // ---- the walk ----------------------------------------------------------------------

  /** va.vpn[i]. */
  function VpnField(f: Format, va: nat, i: nat): nat {
    (va / Pow2(12 + i * f.VpnBits())) % Pow2(f.VpnBits())
  }

  function PteAddr(f: Format, table: nat, va: nat, i: nat): nat {
    table + VpnField(f, va, i) * f.PteSize()
  }

  /** Steps 2 to 4 of section 4.3.2, from level i down. A non-leaf entry with U, A or D set
      is rejected. */
  function Walk(d: Dram, f: Format, table: nat, va: nat, i: nat): Walked
    decreases i
  {
    var a := PteAddr(f, table, va, i);
    if !d.Contains(a, f.PteSize()) then AccessFault
    else
      var pte := d.Get(a, f.PteSize());
      if !V(pte) || (!R(pte) && W(pte)) || ReservedHigh(f, pte) then PageFault
      else if R(pte) || X(pte) then Leaf(a, pte, i)
      else if U(pte) || A(pte) || D(pte) || i == 0 then PageFault
      else Walk(d, f, Ppn(pte) * 4096, va, i - 1)
  }

  /** Step 5: the access is allowed by the r, w, x and u bits under the current privilege,
      SUM and MXR. */
  predicate Permitted(pte: nat, access: Access, mode: Mode) {
    && (mode.priv.User? ==> U(pte))
    && (mode.priv.Supervisor? && U(pte) ==> !access.Code? && mode.sum)
    && (match access
        case Read => R(pte) || (mode.mxr && X(pte))
        case Write => W(pte)
        case Code => X(pte))
  }

  /** Pages per superpage at level i. */
  function SuperPages(f: Format, i: nat): (r: nat)
    ensures r >= 1
  {
    Pow2(i * f.VpnBits())
  }

  /** Step 8: the low ppn fields come from the virtual page number, the rest from the entry. */
  function LeafAddress(f: Format, pte: nat, va: nat, i: nat): nat {
    var s := SuperPages(f, i);
    (AlignDown(Ppn(pte), s) + (va / 4096) % s) * 4096 + va % 4096
  }

  function AlignDown(n: nat, s: nat): (r: nat)
    requires s >= 1
  {
    (n / s) * s
  }

  function PageFaultCause(access: Access): nat {
    match access case Code => 12 case Read => 13 case Write => 15
  }

  function AccessFaultCause(access: Access): nat {
    match access case Code => 1 case Read => 5 case Write => 7
  }

  /** Sv39 and Sv48 addresses must be sign-extended from bit 38 or 47. */
  predicate Canonical(sp: Space, va: nat) {
    match sp
    case Paged(Sv39, _) => va < 0x40_0000_0000 || 0x1_0000_0000_0000_0000 - 0x40_0000_0000 <= va
    case Paged(Sv48, _) => va < 0x8000_0000_0000 || 0x1_0000_0000_0000_0000 - 0x8000_0000_0000 <= va
    case _ => true
  }

  predicate Translating(sp: Space, mode: Mode) { !mode.priv.Machine? && !sp.Bare? }

  /** Steps 1 to 8: walk from the root, check, and bring the leaf's A and D bits up to date. */
  function PageWalk(d: Dram, sp: Space, va: nat, access: Access, mode: Mode): (r: (Translation, Dram))
    ensures r.1.base == d.base && |r.1.bytes| == |d.bytes|
  {
    if !sp.Paged? then (Denied(PageFaultCause(access)), d)
    else
      match Walk(d, sp.format, sp.root, va, sp.format.Levels() - 1)
      case AccessFault => (Denied(AccessFaultCause(access)), d)
      case PageFault => (Denied(PageFaultCause(access)), d)
      case Leaf(a, pte, i) =>
        if !Permitted(pte, access, mode) || Ppn(pte) % SuperPages(sp.format, i) != 0 then
          (Denied(PageFaultCause(access)), d)
        else
          LeafInDram(d, sp.format, sp.root, va, sp.format.Levels() - 1);
          (Mapped(LeafAddress(sp.format, pte, va, i)),
           if WithAD(pte, access) == pte then d else d.Put(a, sp.format.PteSize(), WithAD(pte, access)))
  }

  /** The whole of section 4.3.2: the physical address or the trap cause, and the memory the
      walk leaves behind. */
  function Translate(d: Dram, sp: Space, va: nat, access: Access, mode: Mode): (r: (Translation, Dram))
    ensures r.1.base == d.base && |r.1.bytes| == |d.bytes|
  {
    if !Translating(sp, mode) then (Mapped(va), d)
    else if !Canonical(sp, va) then (Denied(PageFaultCause(access)), d)
    else PageWalk(d, sp, va, access, mode)
  }

  // ---- what a walk returns -----------------------------------------------------------

  /** A leaf is a valid entry word stored in DRAM at a naturally aligned address. */
  lemma {:induction false} LeafInDram(d: Dram, f: Format, table: nat, va: nat, i: nat)
    ensures var w := Walk(d, f, table, va, i);
            w.Leaf? ==>
              && d.Contains(w.addr, f.PteSize())
              && w.pte == d.Get(w.addr, f.PteSize())
              && (R(w.pte) || X(w.pte)) && V(w.pte) && !ReservedHigh(f, w.pte)
              && w.level <= i
              && (table % 4096 == 0 ==> w.addr % f.PteSize() == 0)
    decreases i
  {
    hide V, R, W, X, U, A, D, Ppn, ReservedHigh, VpnField, Load, Span;
    var a := PteAddr(f, table, va, i);
    var n := VpnField(f, va, i);
    if d.Contains(a, f.PteSize()) {
      var pte := d.Get(a, f.PteSize());
      AlignedEntry(table, n, f.PteSize());
      if V(pte) && !(!R(pte) && W(pte)) && !ReservedHigh(f, pte) && !R(pte) && !X(pte) && i != 0 {
        LeafInDram(d, f, Ppn(pte) * 4096, va, i - 1);
      }
    }
  }

  lemma AlignedEntry(table: nat, n: nat, size: nat)
    requires size == 4 || size == 8
    ensures table % 4096 == 0 ==> (table + n * size) % size == 0
  {
    if table % 4096 == 0 {
      var t := table / 4096;
      if size == 4 {
        ModUnique(table + n * 4, 4, 1024 * t + n, 0);
      } else {
        ModUnique(table + n * 8, 8, 512 * t + n, 0);
      }
    }
  }

  // ---- the A and D bits are invisible to translation -----------------------------------

  /** An entry with its A and D bits cleared: all that a walk and a permission check see. */
  function Core(p: nat): nat { p / 256 * 256 + p % 64 }

  /** p' is p with possibly more of A and D set. */
  predicate Grown(p: nat, p': nat) {
    Core(p) == Core(p') && (A(p) ==> A(p')) && (D(p) ==> D(p'))
  }

  lemma CoreDecides(p: nat, p': nat)
    requires Core(p) == Core(p')
    ensures V(p) == V(p') && R(p) == R(p') && W(p) == W(p') && X(p) == X(p') && U(p) == U(p')
    ensures Ppn(p) == Ppn(p')
    ensures forall f: Format :: ReservedHigh(f, p) == ReservedHigh(f, p')
  {
    hide V, R, W, X, U, Core, Ppn;
    CoreParts(p);
    CoreParts(p');
    LowBits(p);
    LowBits(p');
    HighParts(p);
    HighParts(p');
  }

  lemma CoreParts(p: nat)
    ensures p / 256 == Core(p) / 256 && p % 64 == Core(p) % 64
  {
    var h, l := p / 256, p % 64;
    ModUnique(Core(p), 256, h, l);
    assert Core(p) == 64 * (4 * h) + l;
  }

  lemma HighParts(p: nat)
    ensures Ppn(p) == (p / 256) / 4 && p / 0x40_0000_0000_0000 == (p / 256) / 0x4000_0000_0000
  {
    DivDiv(p, 256, 4);
    DivDiv(p, 256, 0x4000_0000_0000);
  }

  lemma LowBits(p: nat)
    ensures V(p) == V(p % 64) && R(p) == R(p % 64) && W(p) == W(p % 64)
    ensures X(p) == X(p % 64) && U(p) == U(p % 64)
  {
    DivDiv(p, 2, 32);
    LowBit(p, 2, 16);
    LowBit(p, 4, 8);
    LowBit(p, 8, 4);
    LowBit(p, 16, 2);
  }

  /** Bits below bit 6 are bits of p % 64. */
  lemma LowBit(p: nat, c: nat, h: nat)
    requires c >= 1 && h >= 1 && c * (2 * h) == 64
    ensures (p / c) % 2 == ((p % 64) / c) % 2
  {
    var x := p / c;
    DivDiv(p, c, 2 * h);
    assert p % 64 == (x % (2 * h)) * c + p % c;
    ModUnique(p % 64, c, x % (2 * h), p % c);
    Parity(x, h);
  }

  lemma Parity(x: nat, h: nat)
    requires h >= 1
    ensures (x % (2 * h)) % 2 == x % 2
  {
    DivDiv(x, 2, h);
  }

  lemma Quarters(p: nat)
    ensures p / 128 == (p / 64) / 2 && p / 256 == (p / 64) / 4
  {
    DivDiv(p, 64, 2);
    DivDiv(p, 64, 4);
  }

  lemma NextOdd(t: nat)
    requires t % 2 != 1
    ensures (t + 1) % 2 == 1 && (t + 1) / 2 == t / 2 && (t + 1) / 4 == t / 4
  {
    ModUnique(t + 1, 2, t / 2, 1);
    ModUnique(t + 1, 4, t / 4, t % 4 + 1);
  }

  lemma NextPair(t: nat)
    requires (t / 2) % 2 != 1
    ensures (t + 2) % 2 == t % 2 && (t + 2) / 2 == t / 2 + 1 && ((t + 2) / 2) % 2 == 1 && (t + 2) / 4 == t / 4
  {
    ModUnique(t + 2, 2, t / 2 + 1, t % 2);
    var q, r := t / 4, t % 4;
    ModUnique(t, 2, 2 * q + r / 2, r % 2);
    ModUnique(t + 2, 4, q, r + 2);
  }

  /** Adding a clear A bit touches nothing else. */
  lemma AddA(p: nat)
    requires !A(p)
    ensures Core(p + 64) == Core(p) && A(p + 64) && D(p + 64) == D(p) && (p + 64) / 256 == p / 256
  {
    Quarters(p);
    Quarters(p + 64);
    var t := p / 64;
    assert (p + 64) / 64 == t + 1 && (p + 64) % 64 == p % 64;
    NextOdd(t);
  }

  /** Adding a clear D bit touches nothing else. */
  lemma AddD(p: nat)
    requires !D(p)
    ensures Core(p + 128) == Core(p) && A(p + 128) == A(p) && D(p + 128) && (p + 128) / 256 == p / 256
  {
    Quarters(p);
    Quarters(p + 128);
    var t := p / 64;
    assert (p + 128) / 64 == t + 2 && (p + 128) % 64 == p % 64;
    NextPair(t);
  }

  lemma SameWord(p: nat, w: nat, n: nat)
    requires n >= 1 && p < Span(n) && w / 256 == p / 256
    ensures w < Span(n)
  {
    var s, h := Span(n - 1), p / 256;
    assert Span(n) == 256 * s;
    assert p == 256 * h + p % 256 && w == 256 * h + w % 256;
    assert h < s;
  }

  /** Setting A and D keeps the rest of the entry, keeps it within its word and is
      idempotent. */
  lemma WithADGrows(p: nat, access: Access, n: nat)
    requires n >= 1 && p < Span(n)
    ensures Grown(p, WithAD(p, access)) && WithAD(p, access) < Span(n)
    ensures A(WithAD(p, access)) && (access.Write? ==> D(WithAD(p, access)))
    ensures WithAD(WithAD(p, access), access) == WithAD(p, access)
  {
    hide A, D, Core, Span;
    var p1 := if A(p) then p else p + 64;
    if !A(p) { AddA(p); }
    if access.Write? && !D(p1) { AddD(p1); }
    var w := WithAD(p, access);
    assert w == if access.Write? && !D(p1) then p1 + 128 else p1;
    SameWord(p, w, n);
  }

  /** Already-set bits stay set, so an entry that needed no update still needs none. */
  lemma GrownSettled(p: nat, p': nat, access: Access)
    requires Grown(p, p') && WithAD(p, access) == p
    ensures WithAD(p', access) == p'
  {
    hide A, D, Core;
  }

  /** Both walks end alike, at the same place, on entries that differ at most in grown A, D. */
  predicate WalkGrown(w: Walked, w': Walked) {
    match w
    case Leaf(a, p, i) => w'.Leaf? && w'.addr == a && w'.level == i && Grown(p, w'.pte)
    case _ => w' == w
  }

  /** d' is d with A and D bits grown in the leaf entry at address leaf. */
  ghost predicate LeafGrown(d: Dram, d': Dram, f: Format, leaf: nat) {
    && leaf % f.PteSize() == 0 && d.Contains(leaf, f.PteSize())
    && d'.base == d.base && |d'.bytes| == |d.bytes|
    && (forall k :: 0 <= k < |d.bytes| && !(leaf - d.base <= k < leaf - d.base + f.PteSize())
          ==> d'.bytes[k] == d.bytes[k])
    && (var p := d.Get(leaf, f.PteSize());
        (R(p) || X(p)) && Grown(p, d'.Get(leaf, f.PteSize())))
  }

  /** A leaf word is a leaf on every path that reaches it, because its own bits say so; so a
      walk of any address through any page-aligned table is unaffected by grown A, D bits. */
  lemma {:induction false} WalkSeesThroughAD(d: Dram, d': Dram, f: Format, leaf: nat, table: nat, va: nat, i: nat)
    requires LeafGrown(d, d', f, leaf) && table % 4096 == 0
    ensures WalkGrown(Walk(d, f, table, va, i), Walk(d', f, table, va, i))
    decreases i
  {
    hide V, R, W, X, U, A, D, Ppn, ReservedHigh, VpnField, Core, Load, Span;
    var size := f.PteSize();
    var a := PteAddr(f, table, va, i);
    if d.Contains(a, size) {
      AlignedEntry(table, VpnField(f, va, i), size);
      var pte, pte' := d.Get(a, size), d'.Get(a, size);
      if a == leaf {
        CoreDecides(pte, pte');
      } else {
        WordsDisjoint(a, leaf, size);
        LoadFrame(d.bytes, d'.bytes, a - d.base, size);
        if !R(pte) && !X(pte) && i != 0 {
          WalkSeesThroughAD(d, d', f, leaf, Ppn(pte) * 4096, va, i - 1);
        }
      }
    }
  }

  lemma WordsDisjoint(a: nat, b: nat, size: nat)
    requires size == 4 || size == 8
    requires a % size == 0 && b % size == 0 && a != b
    ensures a + size <= b || b + size <= a
  {
  }

  /** The write-back of one translation is exactly a growth of A, D bits in one leaf. */
  lemma TranslateGrowsLeaf(d: Dram, sp: Space, va: nat, access: Access, mode: Mode)
    requires sp.Paged? ==> sp.root % 4096 == 0
    ensures var d' := Translate(d, sp, va, access, mode).1;
            d' == d || (sp.Paged? && exists leaf :: LeafGrown(d, d', sp.format, leaf))
  {
    hide V, R, W, X, U, A, D, Ppn, ReservedHigh, Core, WithAD, LeafAddress, Permitted, SuperPages, Walk, Load,
         Store, Span, Canonical;
    var d' := Translate(d, sp, va, access, mode).1;
    if d' != d {
      var f := sp.format;
      LeafInDram(d, f, sp.root, va, f.Levels() - 1);
      var w := Walk(d, f, sp.root, va, f.Levels() - 1);
      var size := f.PteSize();
      var p' := WithAD(w.pte, access);
      WithADGrows(w.pte, access, size);
      LoadAfterStore(d.bytes, w.addr - d.base, size, p');
      ModSmall(p', Span(size));
      forall k | 0 <= k < |d.bytes| && !(w.addr - d.base <= k < w.addr - d.base + size)
        ensures d'.bytes[k] == d.bytes[k]
      {
        StoreFrame(d.bytes, w.addr - d.base, size, p', k);
      }
      assert LeafGrown(d, d', f, w.addr);
    }
  }

  lemma ModSmall(v: nat, s: nat)
    requires v < s
    ensures v % s == v
  {
  }

  /** Growing A, D bits changes no translation, and never makes a settled one write again. */
  lemma GrowthInvisible(d: Dram, d': Dram, sp: Space, leaf: nat, va: nat, access: Access, mode: Mode)
    requires sp.Paged? && sp.root % 4096 == 0 && LeafGrown(d, d', sp.format, leaf)
    ensures Translate(d', sp, va, access, mode).0 == Translate(d, sp, va, access, mode).0
    ensures Translate(d, sp, va, access, mode).1 == d ==> Translate(d', sp, va, access, mode).1 == d'
  {
    hide V, R, W, X, U, A, D, Ppn, ReservedHigh, Core, WithAD, SuperPages, Walk, Canonical, AlignDown, Load, Store,
         Span;
    var f, top := sp.format, sp.format.Levels() - 1;
    WalkSeesThroughAD(d, d', f, leaf, sp.root, va, top);
    var w, w' := Walk(d, f, sp.root, va, top), Walk(d', f, sp.root, va, top);
    if w.Leaf? {
      CoreDecides(w.pte, w'.pte);
      if Translating(sp, mode) && Translate(d, sp, va, access, mode).0.Mapped?
         && Translate(d, sp, va, access, mode).1 == d {
        SettledLeaf(d, sp, va, access, mode);
        GrownSettled(w.pte, w'.pte, access);
      }
    }
  }

  /** If a walk leaves memory as it was, the leaf already had the bits it needs. */
  lemma SettledLeaf(d: Dram, sp: Space, va: nat, access: Access, mode: Mode)
    requires sp.Paged? && Translating(sp, mode)
    requires Translate(d, sp, va, access, mode).0.Mapped? && Translate(d, sp, va, access, mode).1 == d
    ensures var w := Walk(d, sp.format, sp.root, va, sp.format.Levels() - 1);
            w.Leaf? && WithAD(w.pte, access) == w.pte
  {
    hide V, R, W, X, U, A, D, Ppn, ReservedHigh, Core, WithAD, SuperPages, Walk, LeafAddress, Permitted, Canonical,
         Load, Store, Span;
    var f := sp.format;
    var w := Walk(d, f, sp.root, va, f.Levels() - 1);
    LeafInDram(d, f, sp.root, va, f.Levels() - 1);
    var p' := WithAD(w.pte, access);
    WithADGrows(w.pte, access, f.PteSize());
    LoadAfterStore(d.bytes, w.addr - d.base, f.PteSize(), p');
    ModSmall(p', Span(f.PteSize()));
  }

  /** The A and D writes of one translation are invisible to every other translation under a satp
      of the same entry size, whatever its root: same address, same fault, for every address,
      access and mode. */
  lemma TranslationInvisible(d: Dram, sp: Space, va: nat, access: Access, mode: Mode,
                             sp2: Space, va2: nat, access2: Access, mode2: Mode)
    requires (sp.Paged? ==> sp.root % 4096 == 0) && (sp2.Paged? ==> sp2.root % 4096 == 0)
    requires sp.Paged? && sp2.Paged? ==> sp.format.PteSize() == sp2.format.PteSize()
    ensures var d' := Translate(d, sp, va, access, mode).1;
            && Translate(d', sp2, va2, access2, mode2).0 == Translate(d, sp2, va2, access2, mode2).0
            && (Translate(d, sp2, va2, access2, mode2).1 == d ==> Translate(d', sp2, va2, access2, mode2).1 == d')
  {
    hide Translate, R, X, Grown;
    var d' := Translate(d, sp, va, access, mode).1;
    TranslateGrowsLeaf(d, sp, va, access, mode);
    if d' != d {
      var leaf :| LeafGrown(d, d', sp.format, leaf);
      if sp2.Paged? {
        assert LeafGrown(d, d', sp2.format, leaf);
        GrowthInvisible(d, d', sp2, leaf, va2, access2, mode2);
      } else {
        UnpagedTranslate(d, d', sp2, va2, access2, mode2);
      }
    }
  }

  /** Without page tables memory plays no part. */
  lemma UnpagedTranslate(d: Dram, d': Dram, sp: Space, va: nat, access: Access, mode: Mode)
    requires !sp.Paged?
    ensures Translate(d, sp, va, access, mode).1 == d && Translate(d', sp, va, access, mode).1 == d'
    ensures Translate(d, sp, va, access, mode).0 == Translate(d', sp, va, access, mode).0
  {
  }

  /** Repeating a translation gives the same answer and writes nothing. */
  lemma TranslateTwice(d: Dram, sp: Space, va: nat, access: Access, mode: Mode)
    requires sp.Paged? ==> sp.root % 4096 == 0
    ensures var r := Translate(d, sp, va, access, mode);
            Translate(r.1, sp, va, access, mode) == (r.0, r.1)
  {
    hide V, R, W, X, U, A, D, Ppn, ReservedHigh, Core, WithAD, SuperPages, Walk, Canonical, Load, Store, Span,
         LeafAddress;
    var r := Translate(d, sp, va, access, mode);
    TranslationInvisible(d, sp, va, access, mode, sp, va, access, mode);
    if r.1 != d {
      var f, top := sp.format, sp.format.Levels() - 1;
      LeafInDram(d, f, sp.root, va, top);
      var w := Walk(d, f, sp.root, va, top);
      var p' := WithAD(w.pte, access);
      WithADGrows(w.pte, access, f.PteSize());
      LoadAfterStore(d.bytes, w.addr - d.base, f.PteSize(), p');
      ModSmall(p', Span(f.PteSize()));
      TranslateGrowsLeaf(d, sp, va, access, mode);
      var leaf :| LeafGrown(d, r.1, f, leaf);
      WalkSeesThroughAD(d, r.1, f, leaf, sp.root, va, top);
      LeafInDram(r.1, f, sp.root, va, top);
      assert Walk(r.1, f, sp.root, va, top).pte == p';
    }
  }

  /** A translation writes at most the A and D bits: bytes outside the leaf entry it found are
      untouched, and that entry lies in DRAM. */
  lemma TranslateWritesOnlyLeaf(d: Dram, sp: Space, va: nat, access: Access, mode: Mode, k: nat)
    requires k < |d.bytes|
    ensures var d' := Translate(d, sp, va, access, mode).1;
            d'.bytes[k] != d.bytes[k] ==>
              && sp.Paged?
              && var w := Walk(d, sp.format, sp.root, va, sp.format.Levels() - 1);
                 w.Leaf? && w.addr <= d.base + k < w.addr + sp.format.PteSize()
  {
    hide V, R, W, X, U, A, D, Ppn, ReservedHigh, Core, WithAD, SuperPages, Walk, Canonical, Load, Store, Span,
         LeafAddress, Permitted;
    var d' := Translate(d, sp, va, access, mode).1;
    if d'.bytes[k] != d.bytes[k] {
      var f := sp.format;
      LeafInDram(d, f, sp.root, va, f.Levels() - 1);
      var w := Walk(d, f, sp.root, va, f.Levels() - 1);
      if !(w.addr <= d.base + k < w.addr + f.PteSize()) {
        StoreFrame(d.bytes, w.addr - d.base, f.PteSize(), WithAD(w.pte, access), k);
      }
    }
  }

  // ---- several walks -------------------------------------------------------------------

  /** No aligned word has become smaller: bits were set, none was cleared. */
  ghost predicate Raised(d: Dram, d': Dram, size: nat)
    requires size >= 1
  {
    && d'.base == d.base && |d'.bytes| == |d.bytes|
    && forall a: nat :: a % size == 0 && d.Contains(a, size) ==> d.Get(a, size) <= d'.Get(a, size)
  }

  /** A walk that writes makes one word larger and none smaller. */
  lemma TranslateRaises(d: Dram, sp: Space, va: nat, access: Access, mode: Mode)
    requires sp.Paged? && sp.root % 4096 == 0
    ensures var d', size := Translate(d, sp, va, access, mode).1, sp.format.PteSize();
            && Raised(d, d', size)
            && (d' != d ==> exists a: nat :: a % size == 0 && d.Contains(a, size) && d.Get(a, size) < d'.Get(a, size))
  {
    hide V, R, W, X, U, A, D, Ppn, ReservedHigh, SuperPages, Walk, Canonical, Load, Store, Span, LeafAddress, Permitted;
    var d', f := Translate(d, sp, va, access, mode).1, sp.format;
    var size := f.PteSize();
    if d' != d {
      LeafInDram(d, f, sp.root, va, f.Levels() - 1);
      var w := Walk(d, f, sp.root, va, f.Levels() - 1);
      WithADGrows(w.pte, access, size);
      PutRaises(d, w.addr, size, WithAD(w.pte, access));
    }
  }

  lemma PutRaises(d: Dram, a: nat, size: nat, p: nat)
    requires (size == 4 || size == 8) && a % size == 0 && d.Contains(a, size)
    requires d.Get(a, size) < p < Span(size)
    ensures Raised(d, d.Put(a, size, p), size) && d.Put(a, size, p).Get(a, size) == p
  {
    hide Load, Store, Span;
    var d' := d.Put(a, size, p);
    LoadAfterStore(d.bytes, a - d.base, size, p);
    ModSmall(p, Span(size));
    forall b: nat | b % size == 0 && d.Contains(b, size) ensures d.Get(b, size) <= d'.Get(b, size) {
      if b != a {
        WordsDisjoint(a, b, size);
        forall k | b - d.base <= k < b - d.base + size ensures d.bytes[k] == d'.bytes[k] {
          StoreFrame(d.bytes, a - d.base, size, p, k);
        }
        LoadFrame(d.bytes, d'.bytes, b - d.base, size);
      }
    }
  }

  /** A and D lie in the low byte of an entry: a walk makes that byte larger and changes no other. */
  lemma TranslateRaisesBytes(d: Dram, sp: Space, va: nat, access: Access, mode: Mode, k: nat)
    requires (sp.Paged? ==> sp.root % 4096 == 0) && k < |d.bytes|
    ensures d.bytes[k] <= Translate(d, sp, va, access, mode).1.bytes[k]
  {
    hide V, R, W, X, U, A, D, Ppn, ReservedHigh, SuperPages, Walk, WithAD, Canonical, Load, Store, Span, LeafAddress,
         Permitted;
    var d' := Translate(d, sp, va, access, mode).1;
    if d' != d {
      var f := sp.format;
      LeafInDram(d, f, sp.root, va, f.Levels() - 1);
      var w := Walk(d, f, sp.root, va, f.Levels() - 1);
      WithADLowByte(w.pte, access);
      StoreLowByte(d.bytes, w.addr - d.base, f.PteSize(), WithAD(w.pte, access));
    }
  }

  lemma WithADLowByte(p: nat, access: Access)
    ensures WithAD(p, access) / 256 == p / 256 && p <= WithAD(p, access)
  {
    hide A, D, Core;
    var p1 := if A(p) then p else p + 64;
    if !A(p) { AddA(p); }
    if access.Write? && !D(p1) { AddD(p1); }
  }

  /** A word stored over one that differs in the low byte changes that byte only. */
  lemma StoreLowByte(m: seq<Byte>, off: nat, n: nat, v: nat)
    requires n >= 1 && off + n <= |m| && v / 256 == Load(m, off, n) / 256 && Load(m, off, n) <= v
    ensures Store(m, off, n, v) == m[off := v % 256] && m[off] <= v % 256
  {
    var rest := Load(m, off + 1, n - 1);
    Arith.ModUnique(Load(m, off, n), 256, rest, m[off]);
    LoadFrame(m, m[off := v % 256], off + 1, n - 1);
    StoreOfLoad(m[off := v % 256], off + 1, n - 1);
  }

  /** One translation of a series. */
  datatype Lookup = Lookup(va: nat, access: Access, mode: Mode)

  /** The memory a series of walks leaves. */
  function WalkAll(d: Dram, sp: Space, walks: seq<Lookup>): (r: Dram)
    ensures r.base == d.base && |r.bytes| == |d.bytes|
    decreases |walks|
  {
    if walks == [] then d
    else WalkAll(Translate(d, sp, walks[0].va, walks[0].access, walks[0].mode).1, sp, walks[1..])
  }

  /** No walk of the series has a bit to set in d. */
  ghost predicate AllSettled(d: Dram, sp: Space, walks: seq<Lookup>) {
    forall k :: 0 <= k < |walks| ==> Translate(d, sp, walks[k].va, walks[k].access, walks[k].mode).1 == d
  }

  lemma {:induction false} WalkAllRaises(d: Dram, sp: Space, walks: seq<Lookup>)
    requires sp.Paged? && sp.root % 4096 == 0
    ensures Raised(d, WalkAll(d, sp, walks), sp.format.PteSize())
    decreases |walks|
  {
    hide Translate, Load;
    if walks != [] {
      TranslateRaises(d, sp, walks[0].va, walks[0].access, walks[0].mode);
      WalkAllRaises(Translate(d, sp, walks[0].va, walks[0].access, walks[0].mode).1, sp, walks[1..]);
    }
  }

  /** A series of walks leaves memory as it was if and only if each of them, done first, would:
      no later walk takes back what an earlier one wrote. */
  lemma {:induction false} WalkAllSettled(d: Dram, sp: Space, walks: seq<Lookup>)
    requires sp.Paged? ==> sp.root % 4096 == 0
    ensures WalkAll(d, sp, walks) == d <==> AllSettled(d, sp, walks)
    decreases |walks|
  {
    hide Translate, Load;
    if walks != [] {
      var d1 := Translate(d, sp, walks[0].va, walks[0].access, walks[0].mode).1;
      if d1 == d {
        WalkAllSettled(d, sp, walks[1..]);
        assert forall k :: 0 < k < |walks| ==> walks[k] == walks[1..][k - 1];
      } else {
        if !sp.Paged? {
          UnpagedTranslate(d, d, sp, walks[0].va, walks[0].access, walks[0].mode);
        } else {
          TranslateRaises(d, sp, walks[0].va, walks[0].access, walks[0].mode);
          WalkAllRaises(d1, sp, walks[1..]);
        }
      }
    }
  }

  // ---- live page-table words -----------------------------------------------------------

  /** The walk of va from level i reads the byte at physical address k. */
  ghost predicate Touches(d: Dram, f: Format, table: nat, va: nat, i: nat, k: nat)
    decreases i
  {
    var a := PteAddr(f, table, va, i);
    d.Contains(a, f.PteSize()) &&
    (a <= k < a + f.PteSize() ||
     (var pte := d.Get(a, f.PteSize());
      V(pte) && !W(pte) && !R(pte) && !X(pte) && !ReservedHigh(f, pte) && i != 0 &&
      Touches(d, f, Ppn(pte) * 4096, va, i - 1, k)))
  }

  ghost predicate TouchesFromRoot(d: Dram, sp: Space, va: nat, k: nat)
    requires sp.Paged?
  {
    Touches(d, sp.format, sp.root, va, sp.format.Levels() - 1, k)
  }

  /** k is a byte of a page-table entry that some walk under sp reads. */
  ghost predicate Live(d: Dram, sp: Space, k: nat) {
    sp.Paged? && exists va: nat :: TouchesFromRoot(d, sp, va, k)
  }

  /** d' agrees with d on every live page-table byte. */
  ghost predicate SameTables(d: Dram, d': Dram, sp: Space) {
    && d'.base == d.base && |d'.bytes| == |d.bytes|
    && forall k :: 0 <= k < |d.bytes| && Live(d, sp, d.base + k) ==> d'.bytes[k] == d.bytes[k]
  }

  lemma {:induction false} WalkFrame(d: Dram, d': Dram, f: Format, table: nat, va: nat, i: nat)
    requires d'.base == d.base && |d'.bytes| == |d.bytes|
    requires forall k :: 0 <= k < |d.bytes| && Touches(d, f, table, va, i, d.base + k) ==> d'.bytes[k] == d.bytes[k]
    ensures Walk(d', f, table, va, i) == Walk(d, f, table, va, i)
    decreases i
  {
    hide V, R, W, X, U, A, D, Ppn, ReservedHigh, VpnField, Load, Span;
    var a := PteAddr(f, table, va, i);
    if d.Contains(a, f.PteSize()) {
      var pte := d.Get(a, f.PteSize());
      forall k | a - d.base <= k < a - d.base + f.PteSize() ensures d'.bytes[k] == d.bytes[k] {
        assert Touches(d, f, table, va, i, d.base + k);
      }
      LoadFrame(d.bytes, d'.bytes, a - d.base, f.PteSize());
      if V(pte) && !W(pte) && !R(pte) && !X(pte) && !ReservedHigh(f, pte) && i != 0 {
        forall k | 0 <= k < |d.bytes| && Touches(d, f, Ppn(pte) * 4096, va, i - 1, d.base + k)
          ensures d'.bytes[k] == d.bytes[k]
        {
          assert Touches(d, f, table, va, i, d.base + k);
        }
        WalkFrame(d, d', f, Ppn(pte) * 4096, va, i - 1);
      }
    }
  }

  /** Guest stores that miss every live page-table word change no translation. */
  lemma OrdinaryStoreInvisible(d: Dram, d': Dram, sp: Space, va: nat, access: Access, mode: Mode)
    requires SameTables(d, d', sp)
    ensures Translate(d', sp, va, access, mode).0 == Translate(d, sp, va, access, mode).0
    ensures Translate(d, sp, va, access, mode).1 == d ==> Translate(d', sp, va, access, mode).1 == d'
  {
    hide V, R, W, X, U, A, D, Ppn, ReservedHigh, Core, WithAD, SuperPages, Walk, Canonical, Load, Store, Span,
         LeafAddress, Permitted, Touches;
    if sp.Paged? {
      var f, top := sp.format, sp.format.Levels() - 1;
      forall k | 0 <= k < |d.bytes| && Touches(d, f, sp.root, va, top, d.base + k)
        ensures d'.bytes[k] == d.bytes[k]
      {
        assert TouchesFromRoot(d, sp, va, d.base + k);
      }
      WalkFrame(d, d', f, sp.root, va, top);
      if Translating(sp, mode) && Translate(d, sp, va, access, mode).0.Mapped?
         && Translate(d, sp, va, access, mode).1 == d {
        SettledLeaf(d, sp, va, access, mode);
      }
    }
  }

  // ---- (super)page offsets ---------------------------------------------------------------

  /** The offset within the (super)page a leaf maps is preserved, and the rest of the address
      is the (super)page the entry names. */
  lemma LeafAddressOffset(f: Format, pte: nat, va: nat, i: nat)
    ensures var span := 4096 * SuperPages(f, i);
            && span >= 1
            && LeafAddress(f, pte, va, i) % span == va % span
            && (Ppn(pte) % SuperPages(f, i) == 0 ==>
                  LeafAddress(f, pte, va, i) - LeafAddress(f, pte, va, i) % span == Ppn(pte) * 4096)
  {
    var s := SuperPages(f, i);
    var span := 4096 * s;
    DivDiv(va, 4096, s);
    var q := Ppn(pte) / s;
    var low := (va / 4096) % s * 4096 + va % 4096;
    assert low == va % span;
    assert (q * s + (va / 4096) % s) * 4096 == q * span + (va / 4096) % s * 4096;
    ModUnique(LeafAddress(f, pte, va, i), span, q, low);
    if Ppn(pte) % s == 0 {
      assert q * s == Ppn(pte);
      assert q * span == Ppn(pte) * 4096;
    }
  }

  function PageOf(a: nat): nat { a - a % 4096 }

  lemma CanonicalPage(sp: Space, va: nat)
    ensures Canonical(sp, va) <==> Canonical(sp, PageOf(va))
    ensures PageOf(va) % 4096 == 0 && PageOf(va) / 4096 == va / 4096
  {
    var n, r := va / 4096, va % 4096;
    assert va == 4096 * n + r && PageOf(va) == 4096 * n;
  }

  lemma LeafAddressPage(f: Format, pte: nat, va: nat, i: nat)
    ensures LeafAddress(f, pte, PageOf(va), i) % 4096 == 0
    ensures LeafAddress(f, pte, va, i) == LeafAddress(f, pte, PageOf(va), i) + va % 4096
  {
    hide Ppn, SuperPages, AlignDown, Canonical;
    CanonicalPage(Bare, va);
  }

  /** Addresses on one 4 KiB page walk alike and map to one physical page. */
  lemma SamePage(d: Dram, sp: Space, va: nat, access: Access, mode: Mode)
    ensures var r, p := Translate(d, sp, va, access, mode), Translate(d, sp, PageOf(va), access, mode);
            && r.1 == p.1
            && (r.0.Denied? ==> p.0 == r.0)
            && (r.0.Mapped? ==> p.0.Mapped? && p.0.pa % 4096 == 0 && r.0.pa == p.0.pa + va % 4096)
            && (Canonical(sp, va) <==> Canonical(sp, PageOf(va)))
  {
    CanonicalPage(sp, va);
    if Translating(sp, mode) && Canonical(sp, va) {
      PageWalkSamePage(d, sp, va, access, mode);
    } else {
      hide Canonical, PageWalk;
    }
  }

  lemma PageWalkSamePage(d: Dram, sp: Space, va: nat, access: Access, mode: Mode)
    ensures var r, p := PageWalk(d, sp, va, access, mode), PageWalk(d, sp, PageOf(va), access, mode);
            && r.1 == p.1
            && (r.0.Denied? ==> p.0 == r.0)
            && (r.0.Mapped? ==> p.0.Mapped? && p.0.pa % 4096 == 0 && r.0.pa == p.0.pa + va % 4096)
  {
    hide Permitted, WithAD, SuperPages, Walk, Ppn, LeafAddress, Canonical, PageOf;
    CanonicalPage(sp, va);
    if sp.Paged? {
      var f, top := sp.format, sp.format.Levels() - 1;
      WalkSamePage(d, f, sp.root, va, PageOf(va), top);
      var w := Walk(d, f, sp.root, va, top);
      if w.Leaf? {
        LeafAddressPage(f, w.pte, va, w.level);
      }
    }
  }

  lemma {:induction false} WalkSamePage(d: Dram, f: Format, table: nat, va: nat, vp: nat, i: nat)
    requires va / 4096 == vp / 4096
    ensures Walk(d, f, table, va, i) == Walk(d, f, table, vp, i)
    decreases i
  {
    hide V, R, W, X, U, A, D, Ppn, ReservedHigh, VpnField, SuperPages, Pow2, Load, Span;
    FieldOfPage(f, va, i);
    FieldOfPage(f, vp, i);
    var a := PteAddr(f, table, va, i);
    if d.Contains(a, f.PteSize()) && i != 0 {
      WalkSamePage(d, f, Ppn(d.Get(a, f.PteSize())) * 4096, va, vp, i - 1);
    }
  }

  lemma FieldOfPage(f: Format, va: nat, i: nat)
    ensures VpnField(f, va, i) == ((va / 4096) / SuperPages(f, i)) % Pow2(f.VpnBits())
  {
    SmallPowers();
    Pow2Sum(12, i * f.VpnBits());
    DivDiv(va, 4096, SuperPages(f, i));
  }

  // ---- a leaf made invalid ------------------------------------------------------------------

  /** The word at this address is a leaf entry on any walk that reads it. */
  predicate LeafWord(d: Dram, f: Format, leaf: nat) {
    && leaf % f.PteSize() == 0 && d.Contains(leaf, f.PteSize())
    && var p := d.Get(leaf, f.PteSize());
       V(p) && (R(p) || X(p)) && (W(p) ==> R(p)) && !ReservedHigh(f, p)
  }

  lemma LeafIsLeafWord(d: Dram, f: Format, table: nat, va: nat, i: nat)
    requires table % 4096 == 0
    ensures var w := Walk(d, f, table, va, i); w.Leaf? ==> LeafWord(d, f, w.addr)
  {
    hide V, R, W, X, U, A, D, Ppn, ReservedHigh, VpnField, Load, Span;
    LeafInDram(d, f, table, va, i);
    LeafNotWriteOnly(d, f, table, va, i);
  }

  lemma {:induction false} LeafNotWriteOnly(d: Dram, f: Format, table: nat, va: nat, i: nat)
    ensures var w := Walk(d, f, table, va, i); w.Leaf? ==> (W(w.pte) ==> R(w.pte))
    decreases i
  {
    hide V, R, W, X, U, A, D, Ppn, ReservedHigh, VpnField, Load, Span;
    var a := PteAddr(f, table, va, i);
    if d.Contains(a, f.PteSize()) && i != 0 {
      LeafNotWriteOnly(d, f, Ppn(d.Get(a, f.PteSize())) * 4096, va, i - 1);
    }
  }

  /** An aligned word put in memory, and the aligned words beside it. */
  lemma WordAfterPut(d: Dram, a: nat, b: nat, size: nat, p: nat)
    requires (size == 4 || size == 8) && a % size == 0 && b % size == 0 && p < Span(size)
    requires d.Contains(a, size) && d.Contains(b, size)
    ensures d.Put(a, size, p).Get(b, size) == if a == b then p else d.Get(b, size)
  {
    hide Load, Store, Span;
    if a == b {
      LoadAfterStore(d.bytes, a - d.base, size, p);
      ModSmall(p, Span(size));
    } else {
      WordsDisjoint(b, a, size);
      forall k | b - d.base <= k < b - d.base + size ensures d.bytes[k] == d.Put(a, size, p).bytes[k] {
        StoreFrame(d.bytes, a - d.base, size, p, k);
      }
      LoadFrame(d.bytes, d.Put(a, size, p).bytes, b - d.base, size);
    }
  }

  /** Clearing V in a leaf entry: the walks that ended there fault, every other walk is as before. */
  lemma {:induction false} InvalidatedWalk(d: Dram, f: Format, leaf: nat, p: nat, table: nat, va: nat, i: nat)
    requires LeafWord(d, f, leaf) && !V(p) && p < Span(f.PteSize()) && table % 4096 == 0
    ensures var w, w' := Walk(d, f, table, va, i), Walk(d.Put(leaf, f.PteSize(), p), f, table, va, i);
            w' == if w.Leaf? && w.addr == leaf then PageFault else w
    decreases i
  {
    hide V, R, W, X, U, A, D, Ppn, ReservedHigh, VpnField, Load, Store, Span;
    var size := f.PteSize();
    var a := PteAddr(f, table, va, i);
    if d.Contains(a, size) {
      AlignedEntry(table, VpnField(f, va, i), size);
      WordAfterPut(d, leaf, a, size, p);
      var pte := d.Get(a, size);
      if a != leaf && !R(pte) && !X(pte) && i != 0 {
        InvalidatedWalk(d, f, leaf, p, Ppn(pte) * 4096, va, i - 1);
      }
    }
  }

  // ---- superpages ---------------------------------------------------------------------------

  /** Two addresses in one (super)page of level l have the same page-number fields from l on. */
  lemma SameSuperFields(f: Format, va: nat, vb: nat, l: nat, j: nat)
    requires l <= j && va / 4096 / SuperPages(f, l) == vb / 4096 / SuperPages(f, l)
    ensures VpnField(f, va, j) == VpnField(f, vb, j)
  {
    hide Pow2;
    var s, t := SuperPages(f, l), Pow2((j - l) * f.VpnBits());
    assert j * f.VpnBits() == l * f.VpnBits() + (j - l) * f.VpnBits();
    Pow2Sum(l * f.VpnBits(), (j - l) * f.VpnBits());
    FieldOfPage(f, va, j);
    FieldOfPage(f, vb, j);
    DivDiv(va / 4096, s, t);
    DivDiv(vb / 4096, s, t);
  }

  /** All addresses of a (super)page walk to one leaf entry. */
  lemma {:induction false} SuperpageWalk(d: Dram, f: Format, table: nat, va: nat, vb: nat, i: nat)
    requires var w := Walk(d, f, table, va, i);
             w.Leaf? && va / 4096 / SuperPages(f, w.level) == vb / 4096 / SuperPages(f, w.level)
    ensures Walk(d, f, table, vb, i) == Walk(d, f, table, va, i)
    decreases i
  {
    hide V, R, W, X, U, A, D, Ppn, ReservedHigh, VpnField, Load, Span, SuperPages;
    var w := Walk(d, f, table, va, i);
    LeafInDram(d, f, table, va, i);
    SameSuperFields(f, va, vb, w.level, i);
    var pte := d.Get(PteAddr(f, table, va, i), f.PteSize());
    if !R(pte) && !X(pte) {
      SuperpageWalk(d, f, Ppn(pte) * 4096, va, vb, i - 1);
    }
  }
}
