/** Byte-addressed little-endian memory: the guest DRAM buffer and the fixed-width
    loads and stores that every other component performs on it. */
module Memory {

  import opened Arith

  type Byte = x: int | 0 <= x < 256

  /** 256^n, the number of values an n-byte word can hold. */
  function Span(n: nat): (r: nat)
    ensures r >= 1
  {
    if n == 0 then 1 else 256 * Span(n - 1)
  }

  /** The n bytes at off, read as an unsigned little-endian number. */
  function Load(m: seq<Byte>, off: nat, n: nat): (v: nat)
    requires off + n <= |m|
    ensures v < Span(n)
    decreases n
  {
    if n == 0 then 0 else m[off] + 256 * Load(m, off + 1, n - 1)
  }

  /** Writes the low n bytes of v at off, least significant byte first. */
  function Store(m: seq<Byte>, off: nat, n: nat, v: nat): (r: seq<Byte>)
    requires off + n <= |m|
    ensures |r| == |m|
    decreases n
  {
    if n == 0 then m else Store(m[off := v % 256], off + 1, n - 1, v / 256)
  }

  /** Guest memory: `bytes` backs the physical addresses from `base` on. */
  datatype Dram = Dram(base: nat, bytes: seq<Byte>) {
    predicate Contains(addr: nat, size: nat) {
      size != 0 && size <= |bytes| && base <= addr && addr - base <= |bytes| - size
    }

    function Get(addr: nat, size: nat): (v: nat)
      requires Contains(addr, size)
      ensures v < Span(size)
    {
      Load(bytes, addr - base, size)
    }

    function Put(addr: nat, size: nat, v: nat): (d: Dram)
      requires Contains(addr, size)
      ensures d.base == base && |d.bytes| == |bytes|
    {
      Dram(base, Store(bytes, addr - base, size, v))
    }
  }

  /** A store changes no byte outside its own range. */
  lemma {:induction false} StoreFrame(m: seq<Byte>, off: nat, n: nat, v: nat, k: nat)
    requires off + n <= |m| && k < |m|
    requires k < off || off + n <= k
    ensures Store(m, off, n, v)[k] == m[k]
    decreases n
  {
    if n != 0 {
      StoreFrame(m[off := v % 256], off + 1, n - 1, v / 256, k);
    }
  }

  /** A load depends only on the bytes in its range. */
  lemma {:induction false} LoadFrame(m: seq<Byte>, m': seq<Byte>, off: nat, n: nat)
    requires |m| == |m'| && off + n <= |m|
    requires forall k :: off <= k < off + n ==> m[k] == m'[k]
    ensures Load(m, off, n) == Load(m', off, n)
    decreases n
  {
    if n != 0 {
      LoadFrame(m, m', off + 1, n - 1);
    }
  }

  /** Reading back a stored word yields the value truncated to the width. */
  lemma {:induction false} LoadAfterStore(m: seq<Byte>, off: nat, n: nat, v: nat)
    requires off + n <= |m|
    ensures Load(Store(m, off, n, v), off, n) == v % Span(n)
    decreases n
  {
    if n != 0 {
      var m1 := m[off := v % 256];
      StoreFrame(m1, off + 1, n - 1, v / 256, off);
      LoadAfterStore(m1, off + 1, n - 1, v / 256);
      DigitSplit(v, Span(n - 1));
    }
  }

  /** Writing back the word that is already there changes nothing. */
  lemma {:induction false} StoreOfLoad(m: seq<Byte>, off: nat, n: nat)
    requires off + n <= |m|
    ensures Store(m, off, n, Load(m, off, n)) == m
    decreases n
  {
    if n != 0 {
      var v := Load(m, off, n);
      ModUnique(v, 256, Load(m, off + 1, n - 1), m[off]);
      assert m[off := v % 256] == m;
      StoreOfLoad(m, off + 1, n - 1);
    }
  }

  /** Only the low n bytes of the stored value matter. */
  lemma {:induction false} StoreTruncates(m: seq<Byte>, off: nat, n: nat, v: nat)
    requires off + n <= |m|
    ensures Store(m, off, n, v % Span(n)) == Store(m, off, n, v)
    decreases n
  {
    if n != 0 {
      DigitSplit(v, Span(n - 1));
      var w := v % Span(n);
      ModUnique(w, 256, (v / 256) % Span(n - 1), v % 256);
      StoreTruncates(m[off := v % 256], off + 1, n - 1, v / 256);
    }
  }

  /** A second store to the same range hides the first. */
  lemma {:induction false} StoreOverStore(m: seq<Byte>, off: nat, n: nat, v: nat, w: nat)
    requires off + n <= |m|
    ensures Store(Store(m, off, n, v), off, n, w) == Store(m, off, n, w)
    decreases n
  {
    StoreHidesRange(m, Store(m, off, n, v), off, n, w) by {
      forall k | 0 <= k < |m| && (k < off || off + n <= k)
        ensures m[k] == Store(m, off, n, v)[k]
      {
        StoreFrame(m, off, n, v, k);
      }
    }
  }

  /** Memories that differ only inside the stored range become equal. */
  lemma {:induction false} StoreHidesRange(m: seq<Byte>, m': seq<Byte>, off: nat, n: nat, v: nat)
    requires |m| == |m'| && off + n <= |m|
    requires forall k :: 0 <= k < |m| && (k < off || off + n <= k) ==> m[k] == m'[k]
    ensures Store(m, off, n, v) == Store(m', off, n, v)
    decreases n
  {
    if n == 0 {
      assert m == m';
    } else {
      StoreHidesRange(m[off := v % 256], m'[off := v % 256], off + 1, n - 1, v / 256);
    }
  }

  /** Reading inside a slice is reading the whole at the shifted offset. */
  lemma {:induction false} LoadSlice(m: seq<Byte>, a: nat, b: nat, k: nat, n: nat)
    requires a <= b <= |m| && a + k + n <= b
    ensures Load(m[a..b], k, n) == Load(m, a + k, n)
    decreases n
  {
    if n != 0 {
      LoadSlice(m, a, b, k + 1, n - 1);
    }
  }

  /** Writing inside a slice is slicing the written whole. */
  lemma {:induction false} StoreSlice(m: seq<Byte>, a: nat, b: nat, k: nat, n: nat, v: nat)
    requires a <= b <= |m| && a + k + n <= b
    ensures Store(m[a..b], k, n, v) == Store(m, a + k, n, v)[a..b]
    decreases n
  {
    if n != 0 {
      assert m[a..b][k := v % 256] == m[a + k := v % 256][a..b];
      StoreSlice(m[a + k := v % 256], a, b, k + 1, n - 1, v / 256);
    }
  }

  /** A store outside a slice leaves the slice alone. */
  lemma StoreOutside(m: seq<Byte>, off: nat, n: nat, v: nat, a: nat, b: nat)
    requires off + n <= |m| && a <= b <= |m| && (b <= off || off + n <= a)
    ensures Store(m, off, n, v)[a..b] == m[a..b]
  {
    forall k | a <= k < b ensures Store(m, off, n, v)[k] == m[k] {
      StoreFrame(m, off, n, v, k);
    }
  }

  /** The last byte of a word is its most significant one. */
  lemma {:induction false} LoadExtend(m: seq<Byte>, off: nat, n: nat)
    requires off + n < |m|
    ensures Load(m, off, n + 1) == Load(m, off, n) + m[off + n] * Span(n)
    decreases n
  {
    if n != 0 {
      LoadExtend(m, off + 1, n - 1);
      ScaleTerm(Load(m, off + 1, n - 1), m[off + n], Span(n - 1));
    }
  }

  lemma ScaleTerm(a: int, x: int, s: int)
    ensures 256 * (a + x * s) == 256 * a + x * (256 * s)
  {
  }

  /** The value without its n low bytes. */
  function Above(v: nat, n: nat): nat
    decreases n
  {
    if n == 0 then v else Above(v / 256, n - 1)
  }

  /** Storing one byte at a time from the least significant on is storing the word. */
  lemma {:induction false} StoreExtend(m: seq<Byte>, off: nat, n: nat, v: nat)
    requires off + n < |m|
    ensures Store(m, off, n + 1, v) == Store(Store(m, off, n, v), off + n, 1, Above(v, n))
    decreases n
  {
    if n != 0 {
      StoreExtend(m[off := v % 256], off + 1, n - 1, v / 256);
    }
  }

  /** The n low bytes of v, least significant first. */
  function BytesOf(v: nat, n: nat): (r: seq<Byte>)
    ensures |r| == n
    decreases n
  {
    if n == 0 then [] else [v % 256] + BytesOf(v / 256, n - 1)
  }

  lemma {:induction false} BytesOfLoad(m: seq<Byte>, off: nat, n: nat)
    requires off + n <= |m|
    ensures BytesOf(Load(m, off, n), n) == m[off..off + n]
    decreases n
  {
    if n != 0 {
      BytesOfLoad(m, off + 1, n - 1);
      var v := Load(m, off, n);
      ModUnique(v, 256, Load(m, off + 1, n - 1), m[off]);
    }
  }

  /** The value with the bits above byte n set. */
  function SignFill(v: nat, n: nat): nat
    requires n < 8
  {
    SpanBelow(n);
    v + 0x1_0000_0000_0000_0000 - Span(n)
  }

  lemma SpanBelow(n: nat)
    requires n < 8
    ensures Span(n) <= 0x1_0000_0000_0000_0000
  {
    assert Span(1) == 256 && Span(2) == 0x1_0000 && Span(3) == 0x100_0000;
    assert Span(4) == 0x1_0000_0000;
    assert Span(5) == 0x100_0000_0000;
    assert Span(6) == 0x1_0000_0000_0000;
    assert Span(7) == 0x100_0000_0000_0000;
  }

  /** A load result as a 64-bit register value: sign-extended or zero-extended. */
  function Extend(v: nat, n: nat, signed: bool): nat
    requires v < Span(n)
  {
    if signed && n < 8 && 2 * v >= Span(n) then SignFill(v, n) else v
  }

  /** The in-place store: copies the low n bytes of v into the buffer. */
  method StoreInto(a: array<Byte>, off: nat, n: nat, v: nat)
    requires off + n <= a.Length
    modifies a
    ensures a[..] == Store(old(a[..]), off, n, v)
  {
    var i, rest := 0, v;
    while i < n
      invariant 0 <= i <= n && rest >= 0
      invariant Store(a[..], off + i, n - i, rest) == Store(old(a[..]), off, n, v)
    {
      ghost var before := a[..];
      a[off + i] := rest % 256;
      assert a[..] == before[off + i := rest % 256];
      i, rest := i + 1, rest / 256;
    }
  }
}
