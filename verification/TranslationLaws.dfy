/** What translation means in the numbers of sections 4.1, 4.3, 4.4 and 4.5 of the RISC-V Privileged
    Architecture: entries as records of their bits, schemes as their literal sizes, and causes as their
    codes. The laws do not mention how the walk is computed. */
module TranslationLaws {

  import opened Arith
  import opened Memory
  import opened PageTable
  import opened PageWalker

  // ---- entries -----------------------------------------------------------------------------------

  /** A page-table entry, field by field from bit 0 up. */
  datatype Pte = Pte(v: bool, r: bool, w: bool, x: bool, u: bool, g: bool, a: bool, d: bool, rsw: nat, ppn: nat)

  function Bit(b: bool): (r: nat)
    ensures r < 2
  {
    if b then 1 else 0
  }

  /** The word that holds these fields. */
  function Word(p: Pte): nat {
    Bit(p.v) + 2 * Bit(p.r) + 4 * Bit(p.w) + 8 * Bit(p.x) + 16 * Bit(p.u) + 32 * Bit(p.g) + 64 * Bit(p.a)
    + 128 * Bit(p.d) + 256 * p.rsw + 1024 * p.ppn
  }

  /** The fields as the walker reads them. */
  function EntryOf(word: nat): Pte {
    Pte(V(word), R(word), W(word), X(word), U(word), (word / 32) % 2 == 1, A(word), D(word), (word / 256) % 4,
        Ppn(word))
  }

  /** One bit further up. */
  lemma NextBit(word: nat, k: nat)
    requires k >= 1
    ensures word / (2 * k) == word / k / 2 && word / k == 2 * (word / (2 * k)) + (word / k) % 2
  {
    DivDiv(word, k, 2);
  }

  /** The walker finds every field where the word holds it: each word is the word of its fields. */
  lemma WordOfEntry(word: nat)
    ensures EntryOf(word).rsw < 4 && Word(EntryOf(word)) == word
  {
    NextBit(word, 1);
    NextBit(word, 2);
    NextBit(word, 4);
    NextBit(word, 8);
    NextBit(word, 16);
    NextBit(word, 32);
    NextBit(word, 64);
    NextBit(word, 128);
    DivDiv(word, 256, 4);
    LowFields(EntryOf(word), word);
  }

  lemma LowFields(p: Pte, word: nat)
    ensures p == EntryOf(word) ==>
              && Bit(p.v) == word % 2 && Bit(p.r) == (word / 2) % 2 && Bit(p.w) == (word / 4) % 2
              && Bit(p.x) == (word / 8) % 2 && Bit(p.u) == (word / 16) % 2 && Bit(p.g) == (word / 32) % 2
              && Bit(p.a) == (word / 64) % 2 && Bit(p.d) == (word / 128) % 2
  {
  }

  /** And each record of fields is read back from its word. */
  lemma EntryOfWord(p: Pte)
    requires p.rsw < 4
    ensures EntryOf(Word(p)) == p
  {
    hide EntryOf, Bit;
    var word := Word(p);
    var top := p.rsw + 4 * p.ppn;
    var high := Bit(p.u) + 2 * Bit(p.g) + 4 * Bit(p.a) + 8 * Bit(p.d) + 16 * top;
    FourBits(word, Bit(p.v), Bit(p.r), Bit(p.w), Bit(p.x), high);
    FourBits(high, Bit(p.u), Bit(p.g), Bit(p.a), Bit(p.d), top);
    HighWord(word);
    ModUnique(top, 4, p.ppn, p.rsw);
    SameFields(p, word);
  }

  lemma FourBits(word: nat, a: nat, b: nat, c: nat, d: nat, rest: nat)
    requires a < 2 && b < 2 && c < 2 && d < 2 && word == a + 2 * b + 4 * c + 8 * d + 16 * rest
    ensures word % 2 == a && (word / 2) % 2 == b && (word / 4) % 2 == c && (word / 8) % 2 == d
    ensures word / 16 == rest
  {
    Halved(word);
    OneBit(word, a, b + 2 * c + 4 * d + 8 * rest);
    OneBit(word / 2, b, c + 2 * d + 4 * rest);
    OneBit(word / 4, c, d + 2 * rest);
    OneBit(word / 8, d, rest);
  }

  lemma OneBit(word: nat, a: nat, rest: nat)
    requires a < 2 && word == a + 2 * rest
    ensures word % 2 == a && word / 2 == rest
  {
  }

  lemma Halved(word: nat)
    ensures word / 4 == word / 2 / 2 && word / 8 == word / 4 / 2 && word / 16 == word / 8 / 2
  {
  }

  lemma HighWord(word: nat)
    ensures word / 32 == word / 16 / 2 && word / 64 == word / 16 / 4 && word / 128 == word / 16 / 8
    ensures word / 256 == word / 16 / 16 && word / 1024 == word / 256 / 4
  {
    DivDiv(word, 16, 2);
    DivDiv(word, 16, 4);
    DivDiv(word, 16, 8);
    DivDiv(word, 16, 16);
    DivDiv(word, 256, 4);
  }

  lemma SameFields(p: Pte, word: nat)
    requires word % 2 == Bit(p.v) && (word / 2) % 2 == Bit(p.r) && (word / 4) % 2 == Bit(p.w)
    requires (word / 8) % 2 == Bit(p.x) && (word / 16) % 2 == Bit(p.u) && (word / 32) % 2 == Bit(p.g)
    requires (word / 64) % 2 == Bit(p.a) && (word / 128) % 2 == Bit(p.d)
    requires (word / 256) % 4 == p.rsw && word / 1024 == p.ppn
    ensures EntryOf(word) == p
  {
  }

  // ---- schemes -----------------------------------------------------------------------------------

  /** Levels, bytes of an entry, and entries of a table. */
  predicate Scheme(f: Format, levels: nat, size: nat, entries: nat) {
    match f
    case Sv32 => levels == 2 && size == 4 && entries == 1024
    case Sv39 => levels == 3 && size == 8 && entries == 512
    case Sv48 => levels == 4 && size == 8 && entries == 512
  }

  /** Pages that an entry of level l maps. */
  function Pages(entries: nat, l: nat): (r: nat)
    requires entries >= 1
    ensures r >= 1
  {
    if l == 0 then 1 else entries * Pages(entries, l - 1)
  }

  /** The index that the address has in a table of level l. */
  function Digit(entries: nat, va: nat, l: nat): nat
    requires entries >= 1
  {
    (va / 4096 / Pages(entries, l)) % entries
  }

  /** The address of the entry for va in a table of level l. */
  function EntryAt(size: nat, entries: nat, table: nat, va: nat, l: nat): nat
    requires entries >= 1
  {
    table + Digit(entries, va, l) * size
  }

  lemma PagesArePowers(f: Format, levels: nat, size: nat, entries: nat, l: nat)
    requires Scheme(f, levels, size, entries)
    ensures Pages(entries, l) == SuperPages(f, l) && entries == Pow2(f.VpnBits())
    ensures size == f.PteSize() && levels == f.Levels()
  {
    Tables(f);
    if l > 0 {
      PagesArePowers(f, levels, size, entries, l - 1);
      assert l * f.VpnBits() == f.VpnBits() + (l - 1) * f.VpnBits();
      Pow2Sum(f.VpnBits(), (l - 1) * f.VpnBits());
    }
  }

  lemma Tables(f: Format)
    ensures Pow2(f.VpnBits()) == if f.Sv32? then 1024 else 512
  {
    SmallPowers();
  }

  lemma DigitIsField(f: Format, levels: nat, size: nat, entries: nat, va: nat, l: nat)
    requires Scheme(f, levels, size, entries)
    ensures VpnField(f, va, l) == Digit(entries, va, l)
    ensures size == f.PteSize() && levels == f.Levels()
  {
    hide Pow2;
    PagesArePowers(f, levels, size, entries, l);
    SmallPowers();
    Pow2Sum(12, l * f.VpnBits());
    DivDiv(va, 4096, SuperPages(f, l));
  }

  // ---- the way down ------------------------------------------------------------------------------

  /** A valid pointer to the next table. */
  predicate Pointer(p: Pte, size: nat) {
    p.v && !p.r && !p.w && !p.x && !p.u && !p.a && !p.d && (size == 8 ==> p.ppn < 0x1000_0000_0000)
  }

  /** From the table of level i, pointers lead to the table t of level l. */
  ghost predicate Leads(d: Dram, size: nat, entries: nat, table: nat, va: nat, i: nat, l: nat, t: nat)
    requires entries >= 1
    decreases i
  {
    if i == l then t == table
    else
      i > l
      && var a := EntryAt(size, entries, table, va, i);
         d.Contains(a, size)
         && var p := EntryOf(d.Get(a, size));
            Pointer(p, size) && Leads(d, size, entries, p.ppn * 4096, va, i - 1, l, t)
  }

  /** Reserved bits 63 to 54 are bits 53 to 44 of the shifted word. */
  lemma HighBits(f: Format, word: nat)
    ensures f.PteSize() == 8 ==> (ReservedHigh(f, word) <==> Ppn(word) >= 0x1000_0000_0000)
    ensures f.PteSize() == 4 ==> !ReservedHigh(f, word)
  {
    DivDiv(word, 1024, 0x1000_0000_0000);
  }

  lemma {:induction false} WalkFollows(d: Dram, f: Format, levels: nat, size: nat, entries: nat, table: nat, va: nat,
                                       i: nat, l: nat, t: nat)
    requires Scheme(f, levels, size, entries) && Leads(d, size, entries, table, va, i, l, t)
    ensures l <= i && Walk(d, f, table, va, i) == Walk(d, f, t, va, l)
    decreases i
  {
    hide V, R, W, X, U, A, D, Ppn, ReservedHigh, VpnField, Digit, Load, Span;
    DigitIsField(f, levels, size, entries, va, i);
    if i != l {
      var a := EntryAt(size, entries, table, va, i);
      var word := d.Get(a, size);
      HighBits(f, word);
      WalkFollows(d, f, levels, size, entries, Ppn(word) * 4096, va, i - 1, l, t);
    }
  }

  // ---- the entry that decides --------------------------------------------------------------------

  /** Section 4.3.1: who may do what through a leaf. */
  predicate Allowed(p: Pte, access: Access, mode: Mode) {
    && (match access
        case Read => p.r || (p.x && mode.mxr)
        case Write => p.w
        case Code => p.x)
    && (match mode.priv
        case User => p.u
        case Supervisor => !p.u || (mode.sum && !access.Code?)
        case Machine => true)
  }

  /** The leaf after an access: A is set, and D by a store. */
  function Touched(p: Pte, access: Access): Pte { p.(a := true, d := p.d || access.Write?) }

  /** An entry that stops the walk with a page fault: invalid, writable but not readable, reserved bits
      set, or a pointer that has U, A or D set or has no table below it. */
  predicate Malformed(p: Pte, size: nat, l: nat) {
    || !p.v || (p.w && !p.r) || (size == 8 && p.ppn >= 0x1000_0000_0000)
    || (!p.r && !p.x && (p.u || p.a || p.d || l == 0))
  }

  /** Once pointers have led to a table, its entry for the address decides. Outside DRAM it is an access
      fault. A malformed entry, a leaf that forbids the access and a misaligned superpage are page
      faults. Any other leaf maps the address to its page frame with the page offset of its level, and
      its word in memory gets A, and D for a store. */
  lemma EntryDecides(d: Dram, f: Format, levels: nat, size: nat, entries: nat, root: nat, va: nat, access: Access,
                     mode: Mode, l: nat, t: nat)
    requires Scheme(f, levels, size, entries) && !mode.priv.Machine? && Canonical(Paged(f, root), va)
    requires Leads(d, size, entries, root, va, levels - 1, l, t)
    ensures var a := EntryAt(size, entries, t, va, l);
            var r := Translate(d, Paged(f, root), va, access, mode);
            var pageFault := Denied(match access case Code => 12 case Read => 13 case Write => 15);
            var accessFault := Denied(match access case Code => 1 case Read => 5 case Write => 7);
            if !d.Contains(a, size) then r == (accessFault, d)
            else
              var p := EntryOf(d.Get(a, size));
              if Malformed(p, size, l) then r == (pageFault, d)
              else if p.r || p.x then
                if Allowed(p, access, mode) && p.ppn % Pages(entries, l) == 0 then
                  r == (Mapped(4096 * p.ppn + va % (4096 * Pages(entries, l))),
                        if Touched(p, access) == p then d else d.Put(a, size, Word(Touched(p, access))))
                else r == (pageFault, d)
              else Pointer(p, size) && l > 0
  {
    hide V, R, W, X, U, A, D, Ppn, ReservedHigh, EntryAt, Load, Store, Span, Word, SuperPages, LeafAddress, Canonical,
         WithAD, Pages, Walk, Leads, Permitted, Allowed, Malformed, Pointer, Scheme, EntryOf;
    PagesArePowers(f, levels, size, entries, l);
    WalkFollows(d, f, levels, size, entries, root, va, levels - 1, l, t);
    LastEntry(d, f, levels, size, entries, va, l, t);
    var a := EntryAt(size, entries, t, va, l);
    if d.Contains(a, size) {
      var word := d.Get(a, size);
      PermittedIsAllowed(word, access, mode);
      TouchedWord(word, access);
      if Ppn(word) % SuperPages(f, l) == 0 {
        FrameAndOffset(f, word, va, l);
      }
    }
  }

  /** How the walk classifies the entry it reads at level l. */
  lemma LastEntry(d: Dram, f: Format, levels: nat, size: nat, entries: nat, va: nat, l: nat, t: nat)
    requires Scheme(f, levels, size, entries)
    ensures var a := EntryAt(size, entries, t, va, l);
            var w := Walk(d, f, t, va, l);
            if !d.Contains(a, size) then w == AccessFault
            else
              var p := EntryOf(d.Get(a, size));
              if Malformed(p, size, l) then w == PageFault
              else if p.r || p.x then w == Leaf(a, d.Get(a, size), l)
              else Pointer(p, size) && l > 0
  {
    hide V, R, W, X, U, A, D, Ppn, ReservedHigh, VpnField, Digit, Load, Span;
    DigitIsField(f, levels, size, entries, va, l);
    var a := EntryAt(size, entries, t, va, l);
    if d.Contains(a, size) {
      HighBits(f, d.Get(a, size));
    }
  }

  lemma PermittedIsAllowed(word: nat, access: Access, mode: Mode)
    requires !mode.priv.Machine?
    ensures Permitted(word, access, mode) == Allowed(EntryOf(word), access, mode)
    ensures EntryOf(word).ppn == Ppn(word)
  {
    hide V, R, W, X, U, A, D, Ppn;
  }

  lemma TouchedWord(word: nat, access: Access)
    ensures WithAD(word, access) == Word(Touched(EntryOf(word), access))
    ensures WithAD(word, access) == word <==> Touched(EntryOf(word), access) == EntryOf(word)
  {
    hide V, R, W, X, U, A, D, Ppn;
    WordOfEntry(word);
  }

  lemma FrameAndOffset(f: Format, word: nat, va: nat, l: nat)
    requires Ppn(word) % SuperPages(f, l) == 0
    ensures LeafAddress(f, word, va, l) == 4096 * Ppn(word) + va % (4096 * SuperPages(f, l))
  {
    hide Ppn, SuperPages;
    var s := SuperPages(f, l);
    LeafAddressOffset(f, word, va, l);
  }

  // ---- causes ------------------------------------------------------------------------------------

  predicate Outside(d: Dram, size: nat, entries: nat, va: nat, l: nat, t: nat)
    requires entries >= 1
  {
    !d.Contains(EntryAt(size, entries, t, va, l), size)
  }

  /** Pointers lead to a table whose entry for the address lies outside DRAM. */
  ghost predicate ReadsOutside(d: Dram, levels: nat, size: nat, entries: nat, root: nat, va: nat)
    requires levels >= 1 && entries >= 1
  {
    exists l: nat, t: nat ::
      Leads(d, size, entries, root, va, levels - 1, l, t) && Outside(d, size, entries, va, l, t)
  }

  /** Every walk comes to an entry that decides. */
  lemma {:induction false} WalkEnds(d: Dram, size: nat, entries: nat, table: nat, va: nat, i: nat)
    returns (l: nat, t: nat)
    requires entries >= 1
    ensures Leads(d, size, entries, table, va, i, l, t)
    ensures var a := EntryAt(size, entries, t, va, l);
            d.Contains(a, size) ==> l == 0 || !Pointer(EntryOf(d.Get(a, size)), size)
    decreases i
  {
    hide EntryOf, EntryAt, Load, Pointer;
    var a := EntryAt(size, entries, table, va, i);
    if i > 0 && d.Contains(a, size) && Pointer(EntryOf(d.Get(a, size)), size) {
      l, t := WalkEnds(d, size, entries, EntryOf(d.Get(a, size)).ppn * 4096, va, i - 1);
      LeadsDown(d, size, entries, EntryOf(d.Get(a, size)).ppn * 4096, va, i - 1, l, t);
    } else {
      l, t := i, table;
    }
  }

  lemma {:induction false} LeadsDown(d: Dram, size: nat, entries: nat, table: nat, va: nat, i: nat, l: nat, t: nat)
    requires entries >= 1 && Leads(d, size, entries, table, va, i, l, t)
    ensures l <= i
    decreases i
  {
    hide EntryOf, EntryAt, Load, Pointer;
    if i != l {
      var next := EntryOf(d.Get(EntryAt(size, entries, table, va, i), size)).ppn * 4096;
      LeadsDown(d, size, entries, next, va, i - 1, l, t);
    }
  }

  /** A refused fetch has cause 12 or 1, a refused load 13 or 5, a refused store 15 or 7. It is the access
      fault, 1, 5 or 7, if and only if the walk reads an entry outside DRAM. */
  lemma DeniedCauses(d: Dram, f: Format, levels: nat, size: nat, entries: nat, root: nat, va: nat, access: Access,
                     mode: Mode)
    requires Scheme(f, levels, size, entries) && !mode.priv.Machine?
    ensures var t := Translate(d, Paged(f, root), va, access, mode).0;
            && (t.Denied? ==>
                  match access
                  case Code => t.cause == 12 || t.cause == 1
                  case Read => t.cause == 13 || t.cause == 5
                  case Write => t.cause == 15 || t.cause == 7)
            && (t.Denied? && t.cause in {1, 5, 7}
                <==> Canonical(Paged(f, root), va) && ReadsOutside(d, levels, size, entries, root, va))
  {
    hide Leads, EntryAt, Canonical, EntryOf, PageWalk, Load, Span, Malformed, Allowed, Pages, Touched, Word;
    if Canonical(Paged(f, root), va) {
      var l, t := WalkEnds(d, size, entries, root, va, levels - 1);
      EntryDecides(d, f, levels, size, entries, root, va, access, mode, l, t);
      assert Outside(d, size, entries, va, l, t) ==> ReadsOutside(d, levels, size, entries, root, va);
      if ReadsOutside(d, levels, size, entries, root, va) {
        var l': nat, t': nat :|
          Leads(d, size, entries, root, va, levels - 1, l', t') && Outside(d, size, entries, va, l', t');
        EntryDecides(d, f, levels, size, entries, root, va, access, mode, l', t');
      }
    }
  }

  // ---- before the walk ---------------------------------------------------------------------------

  /** M-mode and a bare satp translate nothing; an unsupported one and an address that is not canonical are
      page faults. None of them touches memory. */
  lemma NoWalk(d: Dram, sp: Space, va: nat, access: Access, mode: Mode)
    ensures var r := Translate(d, sp, va, access, mode);
            var fault := (Denied(match access case Code => 12 case Read => 13 case Write => 15), d);
            && (mode.priv.Machine? || sp.Bare? ==> r == (Mapped(va), d))
            && (!mode.priv.Machine? && sp.Unsupported? ==> r == fault)
            && (!mode.priv.Machine? && !sp.Bare? && !Canonical(sp, va) ==> r == fault)
  {
  }

  /** An address is canonical when it is the sign extension of its low 39 or 48 bits. */
  lemma CanonicalIff(f: Format, root: nat, va: nat)
    requires va < 0x1_0000_0000_0000_0000
    ensures Canonical(Paged(f, root), va) <==>
            match f
            case Sv32 => true
            case Sv39 =>
              var low := va % 0x80_0000_0000;
              va == if low < 0x40_0000_0000 then low else 0xFFFF_FF80_0000_0000 + low
            case Sv48 =>
              var low := va % 0x1_0000_0000_0000;
              va == if low < 0x8000_0000_0000 then low else 0xFFFF_0000_0000_0000 + low
  {
  }

  // ---- satp --------------------------------------------------------------------------------------

  /** The satp of RV64: MODE in bits 63 to 60, ASID in 59 to 44, PPN below. */
  lemma SatpFields64(mode: nat, asid: nat, ppn: nat)
    requires mode < 16 && asid < 0x1_0000 && ppn < 0x1000_0000_0000
    ensures var satp := 0x1000_0000_0000_0000 * mode + 0x1000_0000_0000 * asid + ppn;
            && SatpSpace(satp, 64) == (match mode
                                       case 0 => Bare
                                       case 8 => Paged(Sv39, 4096 * ppn)
                                       case 9 => Paged(Sv48, 4096 * ppn)
                                       case _ => Unsupported)
            && SatpAsid(satp, 64) == asid
            && (SatpModeSupported(SatpMode(satp, 64), 64) <==> mode == 0 || mode == 8 || mode == 9)
  {
    var satp := 0x1000_0000_0000_0000 * mode + 0x1000_0000_0000 * asid + ppn;
    ModUnique(satp, 0x1000_0000_0000_0000, mode, 0x1000_0000_0000 * asid + ppn);
    ModUnique(satp, 0x1000_0000_0000, 0x1_0000 * mode + asid, ppn);
    ModUnique(0x1_0000 * mode + asid, 0x1_0000, mode, asid);
  }

  /** The satp of RV32: MODE in bit 31, ASID in 30 to 22, PPN below. */
  lemma SatpFields32(mode: nat, asid: nat, ppn: nat)
    requires mode < 2 && asid < 0x200 && ppn < 0x40_0000
    ensures var satp := 0x8000_0000 * mode + 0x40_0000 * asid + ppn;
            && SatpSpace(satp, 32) == (if mode == 0 then Bare else Paged(Sv32, 4096 * ppn))
            && SatpAsid(satp, 32) == asid && SatpModeSupported(SatpMode(satp, 32), 32)
  {
    var satp := 0x8000_0000 * mode + 0x40_0000 * asid + ppn;
    ModUnique(satp, 0x8000_0000, mode, 0x40_0000 * asid + ppn);
    ModUnique(satp, 0x40_0000, 0x200 * mode + asid, ppn);
    ModUnique(0x200 * mode + asid, 0x200, mode, asid);
  }
}
