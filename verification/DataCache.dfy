/** The level-1 data cache: set-associative, write-through, least-recently-used replacement. */
module DataCache {

  import opened Arith
  import opened Memory

  datatype CacheLine = CacheLine(tag: nat, lastUsed: nat, valid: bool, data: seq<Byte>)

  function EmptyLine(size: nat): CacheLine {
    CacheLine(0xFFFF_FFFF_FFFF_FFFF, 0, false, seq(size, _ => 0))
  }

  /** The address of the line of the given size that holds addr. */
  function LineBase(addr: nat, size: nat): (r: nat)
    requires size > 0
    ensures r % size == 0 && r <= addr < r + size
  {
    BaseOfLine(addr, size);
    addr - addr % size
  }

  lemma BaseOfLine(addr: nat, size: nat)
    requires size > 0
    ensures addr % size <= addr && (addr - addr % size) % size == 0
    ensures (addr - addr % size) / size == addr / size
  {
    ModUnique(addr - addr % size, size, addr / size, 0);
  }

  predicate CrossesLine(addr: nat, n: nat, size: nat)
    requires size > 0
  {
    addr % size + n > size
  }

  /** Two line addresses are equal or at least a line apart. */
  lemma LinesApart(a: nat, b: nat, size: nat)
    requires size > 0 && a % size == 0 && b % size == 0 && a != b
    ensures a + size <= b || b + size <= a
  {
    var i := Quotient(a, size);
    var j := Quotient(b, size);
    if i < j {
      NextMultiple(i, j, size);
    } else if j < i {
      NextMultiple(j, i, size);
    }
  }

  /** An access crosses its line when it reaches beyond the line's last byte. */
  lemma CrossingMeans(addr: nat, n: nat, size: nat)
    requires size > 0
    ensures CrossesLine(addr, n, size) <==> addr + n > LineBase(addr, size) + size
    ensures (LineBase(addr, size) + size) % size == 0
  {
    ModUnique(LineBase(addr, size) + size, size, addr / size + 1, 0);
  }

  lemma NextLine(addr: nat, n: nat, size: nat)
    requires size > 0 && CrossesLine(addr, n, size)
    ensures addr + (size - addr % size) == LineBase(addr, size) + size
    ensures LineBase(addr + (size - addr % size), size) == LineBase(addr, size) + size
  {
    var q := addr / size;
    assert addr + (size - addr % size) == (q + 1) * size;
    ModUnique(addr + (size - addr % size), size, q + 1, 0);
  }

  /** The line is a true copy of the memory behind it. */
  ghost predicate Mirrors(line: CacheLine, d: Dram, size: nat)
    requires size > 0
  {
    && line.tag % size == 0 && d.Contains(line.tag, size)
    && line.data == d.bytes[line.tag - d.base..line.tag - d.base + size]
  }

  /** A store that misses the line leaves its copy true. */
  lemma StoreElsewhere(line: CacheLine, d: Dram, size: nat, addr: nat, n: nat, v: nat)
    requires size > 0 && Mirrors(line, d, size) && d.Contains(addr, n)
    requires addr + n <= line.tag || line.tag + size <= addr
    ensures Mirrors(line, d.Put(addr, n, v), size)
  {
    var a := line.tag - d.base;
    StoreOutside(d.bytes, addr - d.base, n, v, a, a + size);
  }

  /** Writing the same bytes into the line and into memory keeps the copy true. */
  lemma StoreInLine(line: CacheLine, d: Dram, size: nat, addr: nat, n: nat, v: nat)
    requires size > 0 && Mirrors(line, d, size) && d.Contains(addr, n)
    requires line.tag == LineBase(addr, size) && !CrossesLine(addr, n, size)
    ensures |line.data| == size
    ensures Mirrors(line.(data := Store(line.data, addr % size, n, v)), d.Put(addr, n, v), size)
  {
    hide Store;
    var a := line.tag - d.base;
    StoreSlice(d.bytes, a, a + size, addr % size, n, v);
  }

  /** Reading inside a true copy is reading memory. */
  lemma LoadInLine(line: CacheLine, d: Dram, size: nat, addr: nat, n: nat)
    requires size > 0 && Mirrors(line, d, size) && d.Contains(addr, n)
    requires line.tag == LineBase(addr, size) && !CrossesLine(addr, n, size)
    ensures |line.data| == size && Load(line.data, addr % size, n) == d.Get(addr, n)
  {
    hide Load, Span;
    var a := line.tag - d.base;
    LoadSlice(d.bytes, a, a + size, addr % size, n);
  }

  class DCache {
    const lineBytes: nat
    const lines: array2<CacheLine>
    var accessTick: nat
    var hits: nat
    var misses: nat
    var replacements: nat

    ghost predicate Shaped()
    {
      lineBytes > 0 && lines.Length0 > 0 && lines.Length1 > 0
    }

    function SetOf(addr: nat): (s: nat)
      requires lineBytes > 0 && lines.Length0 > 0
      ensures s < lines.Length0
    {
      (addr / lineBytes) % lines.Length0
    }

    ghost predicate HasAt(s: nat, w: nat, tag: nat)
      requires s < lines.Length0 && w < lines.Length1
      reads lines
    {
      lines[s, w].valid && lines[s, w].tag == tag
    }

    ghost predicate Holds(tag: nat)
      requires Shaped()
      reads lines
    {
      exists w :: 0 <= w < lines.Length1 && HasAt(SetOf(tag), w, tag)
    }

    /** Every valid line sits in its own set and mirrors memory, and no line is there twice. */
    ghost predicate Coherent(d: Dram)
      reads lines
    {
      && Shaped()
      && (forall s, w :: 0 <= s < lines.Length0 && 0 <= w < lines.Length1 && lines[s, w].valid ==>
            SetOf(lines[s, w].tag) == s && Mirrors(lines[s, w], d, lineBytes))
      && (forall s, w, w' :: 0 <= s < lines.Length0 && 0 <= w < w' < lines.Length1
                             && lines[s, w].valid && lines[s, w'].valid ==>
            lines[s, w].tag != lines[s, w'].tag)
    }

    constructor (numSets: nat, lineBytes: nat, ways: nat)
      requires numSets > 0 && lineBytes > 0 && ways > 0
      ensures fresh(lines) && this.lineBytes == lineBytes && forall d :: Coherent(d)
    {
      this.lineBytes := lineBytes;
      lines := new CacheLine[numSets, ways]((_, _) => EmptyLine(lineBytes));
      accessTick, hits, misses, replacements := 0, 0, 0, 0;
    }

    /** A hit is exactly a held line that the access does not leave, and it returns memory's
        value; a miss changes no line. */
    method Read(addr: nat, n: nat, signed: bool, ghost d: Dram) returns (hit: bool, data: nat)
      requires Coherent(d) && d.Contains(addr, n)
      modifies this, lines
      ensures Coherent(d)
      ensures hit <==> old(Holds(LineBase(addr, lineBytes))) && !CrossesLine(addr, n, lineBytes)
      ensures hit ==> data == Extend(d.Get(addr, n), n, signed)
      ensures hits + misses == old(hits + misses) + 1 && (hit <==> hits == old(hits) + 1)
      ensures forall tag :: Holds(tag) == old(Holds(tag))
    {
      hide Load, Extend, LineBase;
      accessTick := accessTick + 1;
      var s, tag := SetOf(addr), LineBase(addr, lineBytes);
      LineSet(addr);
      hit, data := false, 0;
      for w := 0 to lines.Length1
        invariant hits == old(hits) && misses == old(misses)
        invariant forall k :: 0 <= k < w ==> !HasAt(s, k, tag)
        invariant forall i, j :: 0 <= i < lines.Length0 && 0 <= j < lines.Length1 ==> lines[i, j] == old(lines[i, j])
      {
        if lines[s, w].valid && lines[s, w].tag == tag {
          assert old(HasAt(s, w, tag));
          if addr % lineBytes + n > lineBytes {
            misses := misses + 1;
            SameHolds();
            return;
          }
          var line := lines[s, w];
          LoadInLine(line, d, lineBytes, addr, n);
          data := Extend(Load(line.data, addr % lineBytes, n), n, signed);
          lines[s, w] := line.(lastUsed := accessTick);
          hits := hits + 1;
          hit := true;
          SameHolds();
          return;
        }
      }
      misses := misses + 1;
      SameHolds();
    }

    /** Write-through: the line that holds the bytes is updated in place; a store over a line
        boundary drops both lines instead. Either way the cache mirrors the stored memory. */
    method Write(addr: nat, n: nat, v: nat, ghost d: Dram)
      requires Coherent(d) && d.Contains(addr, n) && n <= lineBytes
      modifies lines
      ensures Coherent(d.Put(addr, n, v))
      ensures forall tag :: Holds(tag) ==> old(Holds(tag))
    {
      if addr % lineBytes + n <= lineBytes {
        UpdateLine(addr, n, v, d);
        SameHolds();
      } else {
        NextLine(addr, n, lineBytes);
        Invalidate(LineBase(addr, lineBytes), d);
        Invalidate(LineBase(addr + (lineBytes - addr % lineBytes), lineBytes), d);
        StoreMissesAll(d, addr, n, v);
      }
    }

    method UpdateLine(addr: nat, n: nat, v: nat, ghost d: Dram)
      requires Coherent(d) && d.Contains(addr, n) && !CrossesLine(addr, n, lineBytes)
      modifies lines
      ensures Coherent(d.Put(addr, n, v))
      ensures forall i, j :: 0 <= i < lines.Length0 && 0 <= j < lines.Length1 ==>
                lines[i, j].valid == old(lines[i, j].valid) && lines[i, j].tag == old(lines[i, j].tag)
    {
      hide Store, Mirrors;
      var s, tag := SetOf(addr), LineBase(addr, lineBytes);
      LineSet(addr);
      for w := 0 to lines.Length1
        invariant forall k :: 0 <= k < w ==> !HasAt(s, k, tag)
        invariant forall i, j :: 0 <= i < lines.Length0 && 0 <= j < lines.Length1 ==> lines[i, j] == old(lines[i, j])
      {
        if lines[s, w].valid && lines[s, w].tag == tag {
          var line := lines[s, w];
          StoreInLine(line, d, lineBytes, addr, n, v);
          OthersMissed(d, addr, n, v, s, w);
          lines[s, w] := line.(data := Store(line.data, addr % lineBytes, n, v));
          return;
        }
      }
      forall i, j | 0 <= i < lines.Length0 && 0 <= j < lines.Length1 && lines[i, j].valid
        ensures lines[i, j].tag != tag
      {
        assert SetOf(lines[i, j].tag) == i;
        assert !HasAt(s, j, tag);
      }
      StoreMissesAll(d, addr, n, v);
    }

    /** Apart from the line at (s, w), every valid line still mirrors memory after the store. */
    lemma OthersMissed(d: Dram, addr: nat, n: nat, v: nat, s: nat, w: nat)
      requires Coherent(d) && d.Contains(addr, n) && !CrossesLine(addr, n, lineBytes)
      requires s < lines.Length0 && w < lines.Length1 && HasAt(s, w, LineBase(addr, lineBytes))
      ensures forall i, j :: 0 <= i < lines.Length0 && 0 <= j < lines.Length1
                             && lines[i, j].valid && !(i == s && j == w) ==>
                Mirrors(lines[i, j], d.Put(addr, n, v), lineBytes)
    {
      forall i, j | 0 <= i < lines.Length0 && 0 <= j < lines.Length1 && lines[i, j].valid && !(i == s && j == w)
        ensures Mirrors(lines[i, j], d.Put(addr, n, v), lineBytes)
      {
        assert lines[i, j].tag != LineBase(addr, lineBytes);
        LinesApart(lines[i, j].tag, LineBase(addr, lineBytes), lineBytes);
        StoreElsewhere(lines[i, j], d, lineBytes, addr, n, v);
      }
    }

    /** With no copy of either line a store touches, the cache mirrors memory after the store. */
    lemma StoreMissesAll(d: Dram, addr: nat, n: nat, v: nat)
      requires Coherent(d) && d.Contains(addr, n) && n <= lineBytes
      requires forall i, j :: 0 <= i < lines.Length0 && 0 <= j < lines.Length1 && lines[i, j].valid ==>
                 && lines[i, j].tag != LineBase(addr, lineBytes)
                 && (CrossesLine(addr, n, lineBytes) ==> lines[i, j].tag != LineBase(addr, lineBytes) + lineBytes)
      ensures Coherent(d.Put(addr, n, v))
    {
      hide CrossesLine, LineBase, Store;
      CrossingMeans(addr, n, lineBytes);
      forall i, j | 0 <= i < lines.Length0 && 0 <= j < lines.Length1 && lines[i, j].valid
        ensures Mirrors(lines[i, j], d.Put(addr, n, v), lineBytes)
      {
        LinesApart(lines[i, j].tag, LineBase(addr, lineBytes), lineBytes);
        if CrossesLine(addr, n, lineBytes) {
          LinesApart(lines[i, j].tag, LineBase(addr, lineBytes) + lineBytes, lineBytes);
        }
        StoreElsewhere(lines[i, j], d, lineBytes, addr, n, v);
      }
    }

    /** Drops the line with this tag, if there is one, and nothing else. */
    method Invalidate(tag: nat, ghost d: Dram)
      requires Coherent(d)
      modifies lines
      ensures Coherent(d)
      ensures forall i, j :: 0 <= i < lines.Length0 && 0 <= j < lines.Length1 ==>
                lines[i, j] == if old(HasAt(i, j, tag)) then old(lines[i, j]).(valid := false) else old(lines[i, j])
      ensures forall t :: Holds(t) <==> old(Holds(t)) && t != tag
    {
      hide Mirrors;
      var s := SetOf(tag);
      for w := 0 to lines.Length1
        invariant forall k :: 0 <= k < w ==> !HasAt(s, k, tag)
        invariant forall i, j :: 0 <= i < lines.Length0 && 0 <= j < lines.Length1 ==> lines[i, j] == old(lines[i, j])
      {
        if lines[s, w].valid && lines[s, w].tag == tag {
          lines[s, w] := lines[s, w].(valid := false);
          HoldsWithout(tag);
          return;
        }
      }
      HoldsWithout(tag);
    }

    twostate lemma HoldsWithout(tag: nat)
      requires Shaped()
      requires forall i, j :: 0 <= i < lines.Length0 && 0 <= j < lines.Length1 ==>
                 lines[i, j] == if old(HasAt(i, j, tag)) then old(lines[i, j]).(valid := false) else old(lines[i, j])
      ensures forall t :: Holds(t) <==> old(Holds(t)) && t != tag
    {
      forall t ensures Holds(t) <==> old(Holds(t)) && t != tag {
        var s := SetOf(t);
        assert forall w :: 0 <= w < lines.Length1 ==> (HasAt(s, w, t) <==> old(HasAt(s, w, t)) && t != tag);
      }
    }

    /** Puts a line into its set after a miss. The victim is an empty way, or else the way used
        longest ago; no other line changes. */
    method Insert(base: nat, data: seq<Byte>, ghost d: Dram) returns (victim: nat)
      requires Coherent(d) && base % lineBytes == 0 && !Holds(base)
      requires d.Contains(base, lineBytes) && data == d.bytes[base - d.base..base - d.base + lineBytes]
      modifies this, lines
      ensures Coherent(d) && Holds(base)
      ensures victim < lines.Length1
      ensures forall i, j :: 0 <= i < lines.Length0 && 0 <= j < lines.Length1 && !(i == SetOf(base) && j == victim) ==>
                lines[i, j] == old(lines[i, j])
      ensures old(lines[SetOf(base), victim].valid) ==>
                forall j :: 0 <= j < lines.Length1 ==>
                  && old(lines[SetOf(base), j].valid)
                  && old(lines[SetOf(base), victim].lastUsed) <= old(lines[SetOf(base), j].lastUsed)
      ensures replacements == old(replacements) + if old(lines[SetOf(base), victim].valid) then 1 else 0
    {
      accessTick := accessTick + 1;
      var s := SetOf(base);
      victim := 0;
      var w := 0;
      while w < lines.Length1 && lines[s, w].valid
        invariant w <= lines.Length1 && victim < lines.Length1 && victim <= w
        invariant forall j :: 0 <= j < w ==> lines[s, j].valid && lines[s, victim].lastUsed <= lines[s, j].lastUsed
      {
        if lines[s, w].lastUsed < lines[s, victim].lastUsed {
          victim := w;
        }
        w := w + 1;
      }
      if w < lines.Length1 {
        victim := w;
      }
      if lines[s, victim].valid {
        replacements := replacements + 1;
      }
      forall j | 0 <= j < lines.Length1 && lines[s, j].valid ensures lines[s, j].tag != base {
        assert !HasAt(s, j, base);
      }
      lines[s, victim] := CacheLine(base, accessTick, true, data);
      assert HasAt(s, victim, base);
    }

    /** Empties the cache. Nothing is lost: memory already has every stored byte. */
    method Flush(ghost d: Dram)
      requires Shaped()
      modifies lines
      ensures Coherent(d) && forall tag :: !Holds(tag)
    {
      for s := 0 to lines.Length0
        invariant forall i, j :: 0 <= i < s && 0 <= j < lines.Length1 ==> lines[i, j] == EmptyLine(lineBytes)
      {
        for w := 0 to lines.Length1
          invariant forall i, j :: 0 <= i < s && 0 <= j < lines.Length1 ==> lines[i, j] == EmptyLine(lineBytes)
          invariant forall j :: 0 <= j < w ==> lines[s, j] == EmptyLine(lineBytes)
        {
          lines[s, w] := EmptyLine(lineBytes);
        }
      }
    }

    lemma LineSet(addr: nat)
      requires Shaped()
      ensures SetOf(LineBase(addr, lineBytes)) == SetOf(addr)
    {
      BaseOfLine(addr, lineBytes);
    }

    twostate lemma SameHolds()
      requires Shaped()
      requires forall i, j :: 0 <= i < lines.Length0 && 0 <= j < lines.Length1 ==>
                 lines[i, j].valid == old(lines[i, j].valid) && lines[i, j].tag == old(lines[i, j].tag)
      ensures forall tag :: Holds(tag) == old(Holds(tag))
    {
      forall tag ensures Holds(tag) == old(Holds(tag)) {
        var s := SetOf(tag);
        assert forall w :: 0 <= w < lines.Length1 ==> HasAt(s, w, tag) == old(HasAt(s, w, tag));
      }
    }
  }
}
