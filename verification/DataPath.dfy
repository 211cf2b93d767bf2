/** Loads and stores with translation and the high-performance shortcuts off: byte split at page
    boundaries, data cache, line fill over the system bus, and write-through to DRAM. */
module DataPath {

  import Arith
  import opened Memory
  import opened Options
  import opened Bus
  import opened DataCache

  const PAGE: nat := 4096

  function Bytes(funct3: nat): (n: nat)
    ensures 0 < n <= 8
  {
    TransferBytes(funct3 % 4)
  }

  /** Bit 2 of funct3 clear: a sign-extending load. */
  predicate Signed(funct3: nat) { (funct3 / 4) % 2 == 0 }

  // ---- the reference: one flat byte memory -------------------------------------------------

  function FlatLoad(d: Dram, addr: nat, funct3: nat): nat
    requires d.Contains(addr, Bytes(funct3))
  {
    Extend(d.Get(addr, Bytes(funct3)), Bytes(funct3), Signed(funct3))
  }

  /** A load, a store, or a flush of the data cache (which a full TLB flush includes). */
  datatype MemOp = LoadOp(addr: nat, funct3: nat) | StoreOp(addr: nat, funct3: nat, data: nat) | FlushOp

  /** The instruction set's load widths, or its store widths, at DRAM addresses of any alignment. */
  predicate InDram(base: nat, size: nat, op: MemOp) {
    op.FlushOp? ||
    (&& (op.LoadOp? ==> op.funct3 <= 6) && (op.StoreOp? ==> op.funct3 <= 3)
     && Bytes(op.funct3) <= size && base <= op.addr && op.addr - base <= size - Bytes(op.funct3))
  }

  function FlatStep(d: Dram, op: MemOp): (r: (seq<nat>, Dram))
    requires InDram(d.base, |d.bytes|, op)
    ensures r.1.base == d.base && |r.1.bytes| == |d.bytes|
  {
    match op
    case LoadOp(addr, funct3) => ([FlatLoad(d, addr, funct3)], d)
    case StoreOp(addr, funct3, data) => ([], d.Put(addr, Bytes(funct3), data))
    case FlushOp => ([], d)
  }

  /** The values all loads of a program return, and the memory it leaves. */
  function FlatRun(d: Dram, ops: seq<MemOp>): (r: (seq<nat>, Dram))
    requires forall k :: 0 <= k < |ops| ==> InDram(d.base, |d.bytes|, ops[k])
    decreases |ops|
  {
    if ops == [] then ([], d)
    else
      var (v, d1) := FlatStep(d, ops[0]);
      var (rest, d2) := FlatRun(d1, ops[1..]);
      (v + rest, d2)
  }

  // ---- arithmetic of the byte split and of line addresses --------------------------------------

  /** Aligned DRAM holds every line it touches as a whole. */
  lemma WholeLine(d: Dram, addr: nat, size: nat)
    requires size > 0 && d.base % size == 0 && |d.bytes| % size == 0 && d.Contains(addr, 1)
    ensures d.Contains(LineBase(addr, size), size)
  {
    hide LineBase;
    var b := Arith.Quotient(d.base, size);
    var n := Arith.Quotient(|d.bytes|, size);
    var q := Arith.Quotient(LineBase(addr, size), size);
    assert (b + n) * size == b * size + n * size;
    if q < b {
      Arith.NextMultiple(q, b, size);
    } else if b < q {
      Arith.NextMultiple(b, q, size);
    }
    if b + n < q {
      Arith.NextMultiple(b + n, q, size);
    } else if q < b + n {
      Arith.NextMultiple(q, b + n, size);
    }
  }

  lemma RoomForWord(i: nat, size: nat)
    requires i % 8 == 0 && size % 8 == 0 && i < size
    ensures i + 8 <= size && (i + 8) % 8 == 0
  {
  }

  lemma PageIsLines(x: nat, size: nat)
    requires size > 0 && PAGE % size == 0 && x % PAGE == 0
    ensures x % size == 0
  {
    var k, m := x / PAGE, PAGE / size;
    assert x == k * PAGE && PAGE == m * size;
    assert k * (m * size) == (k * m) * size;
    Arith.ModUnique(x, size, k * m, 0);
  }

  /** Eight bytes further into the line: the partial copy has grown by the answer. */
  lemma CopyGrows(m: seq<Byte>, a: nat, i: nat, line: seq<Byte>)
    requires a + |line| <= |m| && i + 8 <= |line|
    requires line[..i] == m[a..a + i]
    ensures var next := line[..i] + BytesOf(Load(m, a + i, 8), 8) + line[i + 8..];
            |next| == |line| && next[..i + 8] == m[a..a + i + 8]
  {
    hide Load, BytesOf;
    BytesOfLoad(m, a + i, 8);
    assert m[a..a + i] + m[a + i..a + i + 8] == m[a..a + i + 8];
  }

  /** A byte load is the byte. */
  lemma ByteLoad(d: Dram, addr: nat)
    requires d.Contains(addr, 1)
    ensures FlatLoad(d, addr, 4) == d.bytes[addr - d.base]
  {
    var at := addr - d.base;
    assert Load(d.bytes, at, 1) == d.bytes[at] + 256 * Load(d.bytes, at + 1, 0);
  }

  /** A byte appended above the bytes read so far. */
  lemma LoadGrows(d: Dram, addr: nat, b: nat, n: nat)
    requires b < n && d.Contains(addr, n)
    ensures d.Contains(addr + b, 1)
    ensures Load(d.bytes, addr - d.base, b + 1)
            == Load(d.bytes, addr - d.base, b) + FlatLoad(d, addr + b, 4) * Span(b)
  {
    hide Load, Span, FlatLoad;
    ByteLoad(d, addr + b);
    LoadExtend(d.bytes, addr - d.base, b);
  }

  lemma NothingYet(m: seq<Byte>, off: nat, v: nat)
    requires off <= |m|
    ensures Load(m, off, 0) == 0 && Store(m, off, 0, v) == m
  {
  }

  /** One more byte of the value stored above the bytes stored so far. */
  lemma StoreGrows(m: seq<Byte>, off: nat, b: nat, v: nat)
    requires off + b < |m|
    ensures Store(m, off, b + 1, v) == Store(Store(m, off, b, v), off + b, 1, Above(v, b) % 256)
  {
    StoreExtend(m, off, b, v);
    assert Span(1) == 256;
    StoreTruncates(Store(m, off, b, v), off + b, 1, Above(v, b));
  }

  class MemoryPath<D> {
    const bus: TileLinkBus<D>
    const cache: DCache

    ghost function Memory(): (d: Dram)
      reads bus, bus.mmem
      ensures d.base == bus.dramBase && |d.bytes| == bus.mmem.Length
    {
      Dram(bus.dramBase, bus.mmem[..])
    }

    /** Page-aligned DRAM, an idle bus, and a cache that mirrors DRAM and whose lines are whole bus
        words and divide a page. */
    ghost predicate Valid()
      reads bus, bus.mmem, cache, cache.lines
    {
      && bus.dramBase % PAGE == 0 && bus.mmem.Length % PAGE == 0
      && bus.reqQueue == [] && bus.respQueue == []
      && cache.lineBytes > 0 && cache.lineBytes % 8 == 0 && PAGE % cache.lineBytes == 0
      && cache.Coherent(Memory())
    }

    constructor (bus: TileLinkBus<D>, numSets: nat, lineBytes: nat, ways: nat)
      requires numSets > 0 && ways > 0 && lineBytes > 0 && lineBytes % 8 == 0 && PAGE % lineBytes == 0
      requires bus.dramBase % PAGE == 0 && bus.mmem.Length % PAGE == 0
      requires bus.reqQueue == [] && bus.respQueue == []
      ensures Valid() && this.bus == bus && fresh(cache) && fresh(cache.lines)
    {
      this.bus := bus;
      cache := new DCache(numSets, lineBytes, ways);
    }

    /** One aligned 8-byte read of DRAM over the idle bus. */
    method BusRead(addr: nat) returns (got: Option<Response>)
      requires Valid() && Memory().Contains(addr, 8)
      modifies bus, bus.mmem
      ensures Valid() && Memory() == old(Memory())
      ensures got.Some? && !got.value.error && got.value.data == Memory().Get(addr, 8)
    {
      var req := Request(Get, 3, 0, addr, 0, 0);
      ghost var w := bus.State().world;
      var _ := bus.SendRequest(req);
      RoundTrip(bus.cfg, w, req);
      got := bus.GetResponse(0);
      assert bus.State().world == w;
    }

    lemma LinesAreWords()
      requires Valid()
      ensures cache.lineBytes > 0 && cache.lineBytes % 8 == 0
    {
    }

    /** Bus reads of eight bytes bring in the whole line. */
    method FillLine(base: nat, addr: nat, n: nat) returns (line: Option<seq<Byte>>)
      requires Valid() && base % cache.lineBytes == 0 && Memory().Contains(base, cache.lineBytes)
      modifies bus, bus.mmem
      ensures Valid() && Memory() == old(Memory())
      ensures line == Some(Memory().bytes[base - bus.dramBase..base - bus.dramBase + cache.lineBytes])
    {
      hide Load, BytesOf, Valid;
      LinesAreWords();
      var data: seq<Byte> := seq(cache.lineBytes, _ => 0);
      var i := 0;
      while i < cache.lineBytes
        invariant 0 <= i <= cache.lineBytes && i % 8 == 0 && |data| == cache.lineBytes
        invariant Valid() && Memory() == old(Memory())
        invariant data[..i] == Memory().bytes[base - bus.dramBase..base - bus.dramBase + i]
      {
        RoomForWord(i, cache.lineBytes);
        var got := BusRead(base + i);
        var overlaps := addr < base + i + 8 && base + i < addr + n;
        if (got.None? || got.value.error) && overlaps {
          return None;
        }
        if got.Some? && !got.value.error {
          CopyGrows(Memory().bytes, base - bus.dramBase, i, data);
          data := data[..i] + BytesOf(got.value.data, 8) + data[i + 8..];
        }
        i := i + 8;
      }
      assert data[..cache.lineBytes] == data;
      line := Some(data);
    }

    /** A load within one page. */
    method IssueRead(addr: nat, funct3: nat) returns (value: Option<nat>)
      requires Valid() && Memory().Contains(addr, Bytes(funct3)) && funct3 <= 6
      modifies bus, bus.mmem, cache, cache.lines
      ensures Valid() && Memory() == old(Memory())
      ensures value == Some(FlatLoad(Memory(), addr, funct3))
    {
      hide Load, Store, Span;
      var n := Bytes(funct3);
      if addr % cache.lineBytes + n > cache.lineBytes {
        value := Some(Extend(Load(bus.mmem[..], addr - bus.dramBase, n), n, Signed(funct3)));
        return;
      }
      ghost var d := Memory();
      var hit, data := cache.Read(addr, n, Signed(funct3), d);
      if hit {
        value := Some(data);
        return;
      }
      var base := LineBase(addr, cache.lineBytes);
      PageIsLines(bus.dramBase, cache.lineBytes);
      PageIsLines(bus.mmem.Length, cache.lineBytes);
      WholeLine(d, addr, cache.lineBytes);
      var line := FillLine(base, addr, n);
      if line.None? {
        return None;
      }
      var _ := cache.Insert(base, line.value, d);
      LoadInLine(CacheLine(base, 0, true, line.value), d, cache.lineBytes, addr, n);
      var raw := Load(line.value, addr % cache.lineBytes, n);
      value := Some(Extend(raw, n, Signed(funct3)));
    }

    /** target_read: a load that crosses a page is assembled from single-byte loads. */
    method TargetRead(addr: nat, funct3: nat) returns (value: Option<nat>)
      requires Valid() && Memory().Contains(addr, Bytes(funct3)) && funct3 <= 6
      modifies bus, bus.mmem, cache, cache.lines
      ensures Valid() && Memory() == old(Memory())
      ensures value == Some(FlatLoad(Memory(), addr, funct3))
    {
      hide Load, Store, Span;
      var n := Bytes(funct3);
      if addr % PAGE + n > PAGE {
        var result := 0;
        NothingYet(Memory().bytes, addr - bus.dramBase, 0);
        for b := 0 to n
          invariant Valid() && Memory() == old(Memory())
          invariant result == Load(Memory().bytes, addr - bus.dramBase, b)
        {
          LoadGrows(Memory(), addr, b, n);
          var byte := IssueRead(addr + b, 4);
          if byte.None? {
            return None;
          }
          result := result + byte.value * Span(b);
        }
        return Some(Extend(result, n, Signed(funct3)));
      }
      value := IssueRead(addr, funct3);
    }

    /** A store within one page: the cached copy first, then memory. */
    method IssueWrite(addr: nat, n: nat, data: nat)
      requires Valid() && Memory().Contains(addr, n) && n <= 8
      modifies bus.mmem, cache.lines
      ensures Valid() && Memory() == old(Memory()).Put(addr, n, data)
    {
      hide Store, Load;
      ghost var d := Memory();
      cache.Write(addr, n, data, d);
      StoreInto(bus.mmem, addr - bus.dramBase, n, data);
      assert Memory() == d.Put(addr, n, data);
    }

    /** target_write: a store that crosses a page is split into single-byte stores. */
    method TargetWrite(addr: nat, funct3: nat, data: nat)
      requires Valid() && Memory().Contains(addr, Bytes(funct3)) && funct3 <= 3
      modifies bus.mmem, cache.lines
      ensures Valid() && Memory() == old(Memory()).Put(addr, Bytes(funct3), data)
    {
      hide Store, Above, Load;
      var n := Bytes(funct3);
      if addr % PAGE + n > PAGE {
        ghost var d := Memory();
        NothingYet(d.bytes, addr - bus.dramBase, data);
        for b := 0 to n
          invariant Valid()
          invariant Memory().bytes == Store(d.bytes, addr - bus.dramBase, b, data)
        {
          StoreGrows(d.bytes, addr - bus.dramBase, b, data);
          IssueWrite(addr + b, 1, Above(data, b) % 256);
        }
      } else {
        IssueWrite(addr, n, data);
      }
    }

    /** One load or store: the value loaded, if any, and the memory are the flat memory's. */
    method Perform(op: MemOp) returns (loaded: seq<nat>)
      requires Valid() && InDram(bus.dramBase, bus.mmem.Length, op)
      modifies bus, bus.mmem, cache, cache.lines
      ensures Valid() && (loaded, Memory()) == FlatStep(old(Memory()), op)
    {
      hide Load, Store, Extend, Bytes;
      loaded := [];
      match op
      case LoadOp(addr, funct3) =>
        var v := TargetRead(addr, funct3);
        loaded := [v.value];
      case StoreOp(addr, funct3, data) =>
        TargetWrite(addr, funct3, data);
      case FlushOp =>
        cache.Flush(Memory());
    }

    /** Any program of DRAM loads, stores and flushes, aligned or not, sees one flat byte memory. */
    method RunAll(ops: seq<MemOp>) returns (values: seq<nat>)
      requires Valid()
      requires forall k :: 0 <= k < |ops| ==> InDram(bus.dramBase, bus.mmem.Length, ops[k])
      modifies bus, bus.mmem, cache, cache.lines
      ensures Valid() && (values, Memory()) == FlatRun(old(Memory()), ops)
    {
      hide InDram, FlatStep, Valid;
      values := [];
      ghost var d := Memory();
      assert ops[0..] == ops;
      for k := 0 to |ops|
        invariant Valid()
        invariant FlatRun(d, ops).0 == values + FlatRun(Memory(), ops[k..]).0
        invariant FlatRun(d, ops).1 == FlatRun(Memory(), ops[k..]).1
      {
        assert ops[k..][0] == ops[k] && ops[k..][1..] == ops[k + 1..];
        var loaded := Perform(ops[k]);
        values := values + loaded;
      }
      assert FlatRun(Memory(), ops[|ops|..]) == ([], Memory());
      assert values + [] == values;
    }
  }
}
