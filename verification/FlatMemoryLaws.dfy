/** The flat memory that caches and bus refine, in the instruction set's terms: loads give integers of
    their width and signedness, stores write the bytes of their width. */
module FlatMemoryLaws {

  import opened Arith
  import opened Memory
  import opened DataPath

  /** Bytes of LB, LH, LW, LD, LBU, LHU and LWU by their funct3; stores use the first four. */
  function Width(funct3: nat): nat
    requires funct3 <= 6
  {
    match funct3
    case 0 => 1 case 1 => 2 case 2 => 4 case 3 => 8
    case 4 => 1 case 5 => 2 case _ => 4
  }

  /** The integer a word stands for in two's complement, with the given sign bit. */
  function Integer(word: nat, signBit: nat): int { if word < signBit then word else word - 2 * signBit }

  /** 256^k, written out. */
  lemma Spans()
    ensures Span(0) == 1 && Span(1) == 0x100 && Span(2) == 0x1_0000 && Span(3) == 0x100_0000
    ensures Span(4) == 0x1_0000_0000 && Span(5) == 0x100_0000_0000 && Span(6) == 0x1_0000_0000_0000
    ensures Span(7) == 0x100_0000_0000_0000 && Span(8) == 0x1_0000_0000_0000_0000
  {
    assert Span(3) == 0x100_0000;
    assert Span(6) == 0x1_0000_0000_0000;
  }

  lemma WidthIsBytes(funct3: nat)
    requires funct3 <= 6
    ensures Bytes(funct3) == Width(funct3)
  {
  }

  /** LB, LH and LW return the register whose 64-bit integer is the 8-, 16- or 32-bit integer in memory; LBU,
      LHU and LWU the unsigned word, and LD the doubleword. */
  lemma LoadIsInteger(d: Dram, addr: nat, funct3: nat)
    requires funct3 <= 6 && d.Contains(addr, Width(funct3))
    ensures Bytes(funct3) == Width(funct3)
    ensures var r := FlatLoad(d, addr, funct3);
            && r < 0x1_0000_0000_0000_0000
            && match funct3
               case 0 => Integer(r, 0x8000_0000_0000_0000) == Integer(d.Get(addr, 1), 0x80)
               case 1 => Integer(r, 0x8000_0000_0000_0000) == Integer(d.Get(addr, 2), 0x8000)
               case 2 => Integer(r, 0x8000_0000_0000_0000) == Integer(d.Get(addr, 4), 0x8000_0000)
               case 3 => r == d.Get(addr, 8)
               case 4 => r == d.Get(addr, 1)
               case 5 => r == d.Get(addr, 2)
               case _ => r == d.Get(addr, 4)
  {
    hide Load, Span;
    Spans();
  }

  /** A word in memory has its least significant byte first. */
  lemma {:induction false} WordBytes(m: seq<Byte>, off: nat, n: nat, k: nat)
    requires off + n <= |m| && k < n
    ensures (Load(m, off, n) / Span(k)) % 256 == m[off + k]
    decreases n
  {
    var v, rest := Load(m, off, n), Load(m, off + 1, n - 1);
    ModUnique(v, 256, rest, m[off]);
    if k > 0 {
      WordBytes(m, off + 1, n - 1, k - 1);
      DivDiv(v, 256, Span(k - 1));
    }
  }

  lemma {:induction false} StoredByte(m: seq<Byte>, off: nat, n: nat, v: nat, k: nat)
    requires off + n <= |m| && k < n
    ensures Store(m, off, n, v)[off + k] == (v / Span(k)) % 256
    decreases n
  {
    var m1 := m[off := v % 256];
    if k == 0 {
      StoreFrame(m1, off + 1, n - 1, v / 256, off);
    } else {
      StoredByte(m1, off + 1, n - 1, v / 256, k - 1);
      DivDiv(v, 256, Span(k - 1));
    }
  }

  /** SB, SH, SW and SD write the 1, 2, 4 or 8 low bytes of the register, least significant first, and no other
      byte. */
  lemma StoreWritesBytes(d: Dram, addr: nat, funct3: nat, data: nat, k: nat)
    requires funct3 <= 3 && d.Contains(addr, Width(funct3)) && k < |d.bytes|
    ensures InDram(d.base, |d.bytes|, StoreOp(addr, funct3, data))
    ensures var d' := FlatStep(d, StoreOp(addr, funct3, data)).1;
            d'.bytes[k] == if addr <= d.base + k < addr + Width(funct3) then
                             (data / Span(d.base + k - addr)) % 256
                           else d.bytes[k]
  {
    hide Store, Span;
    WidthIsBytes(funct3);
    var off := addr - d.base;
    if off <= k < off + Width(funct3) {
      StoredByte(d.bytes, off, Width(funct3), data, k - off);
    } else {
      StoreFrame(d.bytes, off, Width(funct3), data, k);
    }
  }
}
