/** The page-table walker: one loop for all three formats, over a decoded copy of satp that is
    kept between walks. */
module PageWalker {

  import opened Arith
  import opened Memory
  import opened PageTable

  // ---- satp fields ---------------------------------------------------------------------

  function SatpMode(satp: nat, xlen: nat): nat {
    if xlen == 64 then (satp / 0x1000_0000_0000_0000) % 16 else (satp / 0x8000_0000) % 2
  }

  function SatpAsid(satp: nat, xlen: nat): nat {
    if xlen == 64 then (satp / 0x1000_0000_0000) % 0x1_0000 else (satp / 0x40_0000) % 0x200
  }

  function SatpRootPpn(satp: nat, xlen: nat): nat {
    if xlen == 64 then satp % 0x1000_0000_0000 else satp % 0x40_0000
  }

  /** What satp means, from its specification. */
  function SatpSpace(satp: nat, xlen: nat): (sp: Space)
    ensures sp.Paged? ==> sp.root % 4096 == 0
  {
    var root := SatpRootPpn(satp, xlen) * 4096;
    var mode := SatpMode(satp, xlen);
    if mode == 0 then Bare
    else if xlen != 64 then Paged(Sv32, root)
    else if mode == 8 then Paged(Sv39, root)
    else if mode == 9 then Paged(Sv48, root)
    else Unsupported
  }

  /** MODE values a satp write accepts. */
  predicate SatpModeSupported(mode: nat, xlen: nat) {
    if xlen == 64 then mode == 0 || mode == 8 || mode == 9 else mode == 0 || mode == 1
  }

  // ---- permission checks ---------------------------------------------------------------

  function Flag(b: bool): nat { if b then 1 else 0 }

  function AccessBit(access: Access): nat {
    match access case Read => 0 case Write => 1 case Code => 2
  }

  /** The walker's own permission test: the reserved XWR encodings 2 and 6, the U-bit rules,
      then the bit of the requested access in the effective XWR mask. */
  function ValidatePtePermissions(pte: nat, permissionBits: nat, access: Access, mode: Mode): bool {
    if Rwx(pte) == 2 || Rwx(pte) == 6 then false
    else if mode.priv.Supervisor? && U(pte) && access.Code? then false
    else if mode.priv.Supervisor? && U(pte) && !mode.sum then false
    else if mode.priv.User? && !U(pte) then false
    else (permissionBits / Pow2(AccessBit(access))) % 2 != 0
  }

  function PermissionBits(pte: nat, mxr: bool): nat {
    4 * Flag(X(pte)) + 2 * Flag(W(pte)) + Flag(R(pte) || (mxr && X(pte)))
  }

  lemma RwxBits(p: nat)
    ensures Rwx(p) == Flag(R(p)) + 2 * Flag(W(p)) + 4 * Flag(X(p))
  {
    var q := p / 2;
    DivDiv(p, 2, 2);
    DivDiv(p, 2, 4);
    DivDiv(q, 2, 4);
    DivDiv(q / 2, 2, 2);
    DivDiv(q, 2, 2);
  }

  /** The test agrees with step 5 of the translation process on every entry that is not a
      reserved encoding, and refuses the reserved ones. */
  lemma ValidateIsPermitted(pte: nat, access: Access, mode: Mode)
    ensures ValidatePtePermissions(pte, PermissionBits(pte, mode.mxr), access, mode)
            <==> Permitted(pte, access, mode) && !(W(pte) && !R(pte))
  {
    hide R, W, X, U, Rwx;
    RwxBits(pte);
    var x, w, r := Flag(X(pte)), Flag(W(pte)), Flag(R(pte) || (mode.mxr && X(pte)));
    assert Pow2(0) == 1 && Pow2(1) == 2 && Pow2(2) == 4;
    assert (4 * x + 2 * w + r) % 2 == r;
    assert ((4 * x + 2 * w + r) / 2) % 2 == w;
    assert ((4 * x + 2 * w + r) / 4) % 2 == x;
  }

  /** Masking with the (super)page offset mask and its complement composes the same address as
      replacing the low ppn fields one by one. */
  lemma MaskedAddress(f: Format, pte: nat, va: nat, i: nat)
    ensures var span := Pow2(12 + i * f.VpnBits());
            va % span + AlignDown(Ppn(pte) * 4096, span) == LeafAddress(f, pte, va, i)
  {
    hide Ppn, Pow2, AlignDown;
    var s := SuperPages(f, i);
    SmallPowers();
    Pow2Sum(12, i * f.VpnBits());
    ComposeMasked(va, Ppn(pte), s);
  }

  lemma ComposeMasked(va: nat, n: nat, s: nat)
    requires s >= 1
    ensures 4096 * s >= 1
    ensures va % (4096 * s) + AlignDown(n * 4096, 4096 * s) == (AlignDown(n, s) + (va / 4096) % s) * 4096 + va % 4096
  {
    DivDiv(va, 4096, s);
    DivDiv(n * 4096, 4096, s);
    assert (n * 4096) / 4096 == n;
    var q := n / s;
    assert q * (4096 * s) == (q * s) * 4096;
  }

  class Mmu {
    const mmem: array<Byte>
    const dramBase: nat

    var cachedSatp: nat
    var cachedXlen: nat
    var cachedLevels: nat
    var cachedPteSize: nat
    var cachedVpnBits: nat
    var cachedRootPtAddr: nat
    var cachedSatpMode: nat
    var cachedValid: bool

    ghost predicate Valid()
      reads this
    {
      cachedValid ==>
        var sp := SatpSpace(cachedSatp, cachedXlen);
        && sp.Paged?
        && cachedLevels == sp.format.Levels() && cachedPteSize == sp.format.PteSize()
        && cachedVpnBits == sp.format.VpnBits() && cachedRootPtAddr == sp.root
    }

    ghost function Mem(): Dram
      reads mmem
    {
      Dram(dramBase, mmem[..])
    }

    constructor (mmem: array<Byte>, dramBase: nat)
      ensures Valid() && this.mmem == mmem && this.dramBase == dramBase
    {
      this.mmem := mmem;
      this.dramBase := dramBase;
      cachedSatp, cachedXlen := 0xFFFF_FFFF_FFFF_FFFF, 0;
      cachedLevels, cachedPteSize, cachedVpnBits := 2, 4, 10;
      cachedRootPtAddr, cachedSatpMode := 0, 0;
      cachedValid := false;
    }

    predicate PteAccessValid(address: nat, size: nat) {
      size != 0 && size <= mmem.Length && dramBase <= address
      && address - dramBase <= mmem.Length - size
    }

    /** Refreshes the decoded copy of satp unless it is already this satp's. */
    method DecodeSatp(satp: nat, xlen: nat) returns (ok: bool)
      requires Valid() && (xlen == 32 || xlen == 64)
      modifies this
      ensures Valid()
      ensures ok <==> SatpSpace(satp, xlen).Paged?
      ensures ok ==> cachedValid && cachedSatp == satp && cachedXlen == xlen
    {
      if !cachedValid || cachedSatp != satp || cachedXlen != xlen {
        cachedSatp, cachedXlen := satp, xlen;
        cachedSatpMode := SatpMode(satp, xlen);
        if xlen == 64 {
          if cachedSatpMode == 8 {
            cachedLevels, cachedPteSize, cachedVpnBits := 3, 8, 9;
          } else if cachedSatpMode == 9 {
            cachedLevels, cachedPteSize, cachedVpnBits := 4, 8, 9;
          } else {
            cachedValid := false;
            return false;
          }
        } else {
          if cachedSatpMode != 1 {
            cachedValid := false;
            return false;
          }
          cachedLevels, cachedPteSize, cachedVpnBits := 2, 4, 10;
        }
        cachedRootPtAddr := SatpRootPpn(satp, xlen) * 4096;
        cachedValid := true;
      }
      return true;
    }

    /** Writes A, and D for a store, back into the entry unless they are already set. */
    method UpdatePteAccessBits(pteAddr: nat, pte: nat, access: Access, pteSize: nat)
      requires PteAccessValid(pteAddr, pteSize)
      modifies mmem
      ensures Mem() == if WithAD(pte, access) == pte then old(Mem())
                       else old(Mem()).Put(pteAddr, pteSize, WithAD(pte, access))
    {
      var updated := if A(pte) then pte else pte + 64;
      if access.Write? && !D(pte) {
        updated := updated + 128;
      }
      if updated != pte {
        StoreInto(mmem, pteAddr - dramBase, pteSize, updated);
      }
    }

    /** The generic loop over levels finds what the recursive walk finds, except that it leaves
        the reserved write-only encodings to the permission check. */
    method FindLeaf(va: nat, ghost f: Format) returns (w: Walked)
      requires Valid() && cachedValid && SatpSpace(cachedSatp, cachedXlen).format == f
      ensures Walk(Mem(), f, cachedRootPtAddr, va, cachedLevels - 1)
           == if w.Leaf? && W(w.pte) && !R(w.pte) then PageFault else w
    {
      hide V, R, W, X, U, A, D, Rwx, Ppn, Load, Span, SatpSpace, Pow2;
      var rootPtAddr: nat := cachedRootPtAddr;
      for i := cachedLevels downto 0
        invariant Walk(Mem(), f, cachedRootPtAddr, va, cachedLevels - 1)
               == if i == 0 then PageFault else Walk(Mem(), f, rootPtAddr, va, i - 1)
      {
        var vpn := (va / Pow2(12 + i * cachedVpnBits)) % Pow2(cachedVpnBits);
        var pteAddr := rootPtAddr + vpn * cachedPteSize;
        if !PteAccessValid(pteAddr, cachedPteSize) {
          return AccessFault;
        }
        var pte := Load(mmem[..], pteAddr - dramBase, cachedPteSize);
        if !V(pte) {
          return PageFault;
        }
        var rwx := Rwx(pte);
        assert (rwx == 0) == (!R(pte) && !W(pte) && !X(pte)) by { RwxBits(pte); }
        if cachedPteSize == 8 && pte / 0x40_0000_0000_0000 != 0 {
          return PageFault;
        }
        if rwx == 0 {
          if U(pte) || A(pte) || D(pte) {
            return PageFault;
          }
          rootPtAddr := Ppn(pte) * 4096;
        } else {
          return Leaf(pteAddr, pte, i);
        }
      }
      return PageFault;
    }

    /** The walk of any address under any satp returns what the standard's process returns and
        leaves the memory it leaves; asked not to update, it leaves memory alone. */
    method PageWalk(va: nat, access: Access, mode: Mode, satp: nat, xlen: nat, updateAccessBits: bool)
      returns (r: Translation)
      requires Valid() && (xlen == 32 || xlen == 64)
      modifies this, mmem
      ensures Valid()
      ensures r == PageTable.PageWalk(old(Mem()), SatpSpace(satp, xlen), va, access, mode).0
      ensures Mem() == if updateAccessBits then
                         PageTable.PageWalk(old(Mem()), SatpSpace(satp, xlen), va, access, mode).1
                       else old(Mem())
    {
      hide V, R, W, X, U, A, D, Rwx, Ppn, Load, Store, Span, Walk, SatpSpace, Permitted, WithAD,
           ValidatePtePermissions, PermissionBits, LeafAddress, SatpMode, SatpRootPpn;
      var ok := DecodeSatp(satp, xlen);
      if !ok {
        return Denied(PageFaultCause(access));
      }
      ghost var sp := SatpSpace(satp, xlen);
      var w := FindLeaf(va, sp.format);
      match w {
        case AccessFault => return Denied(AccessFaultCause(access));
        case PageFault => return Denied(PageFaultCause(access));
        case Leaf(pteAddr, pte, i) =>
          LeafInDram(Mem(), sp.format, sp.root, va, sp.format.Levels() - 1);
          ValidateIsPermitted(pte, access, mode);
          if !ValidatePtePermissions(pte, PermissionBits(pte, mode.mxr), access, mode) {
            return Denied(PageFaultCause(access));
          }
          var ppn := Ppn(pte);
          var pages := if i == 0 then 1 else Pow2(i * cachedVpnBits);
          assert pages == SuperPages(sp.format, i);
          if ppn % pages != 0 {
            return Denied(PageFaultCause(access));
          }
          var span := Pow2(12 + i * cachedVpnBits);
          MaskedAddress(sp.format, pte, va, i);
          var physAddr := va % span + AlignDown(ppn * 4096, span);
          if updateAccessBits {
            UpdatePteAccessBits(pteAddr, pte, access, cachedPteSize);
          }
          return Mapped(physAddr);
      }
    }

    method Translate(va: nat, access: Access, mode: Mode, satp: nat, xlen: nat, updateAccessBits: bool)
      returns (r: Translation)
      requires Valid() && (xlen == 32 || xlen == 64)
      modifies this, mmem
      ensures Valid()
      ensures r == PageTable.Translate(old(Mem()), SatpSpace(satp, xlen), va, access, mode).0
      ensures Mem() == if updateAccessBits then
                         PageTable.Translate(old(Mem()), SatpSpace(satp, xlen), va, access, mode).1
                       else old(Mem())
    {
      if mode.priv.Machine? || SatpMode(satp, xlen) == 0 {
        return Mapped(va);
      }
      if xlen == 64 {
        var satpMode := SatpMode(satp, 64);
        if satpMode == 8 && !(va < 0x40_0000_0000 || 0x1_0000_0000_0000_0000 - 0x40_0000_0000 <= va) {
          return Denied(PageFaultCause(access));
        }
        if satpMode == 9 && !(va < 0x8000_0000_0000 || 0x1_0000_0000_0000_0000 - 0x8000_0000_0000 <= va) {
          return Denied(PageFaultCause(access));
        }
      }
      r := PageWalk(va, access, mode, satp, xlen, updateAccessBits);
    }
  }
}
