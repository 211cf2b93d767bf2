/** Integer facts behind shifts and masks: a shift is a division by a power of two and a
    low mask is a remainder. */
module Arith {

  function Pow2(n: nat): (r: nat)
    ensures r >= 1
  {
    if n == 0 then 1 else 2 * Pow2(n - 1)
  }

  lemma {:induction false} Pow2Sum(a: nat, b: nat)
    ensures Pow2(a + b) == Pow2(a) * Pow2(b)
  {
    if a != 0 {
      Pow2Sum(a - 1, b);
      assert 2 * (Pow2(a - 1) * Pow2(b)) == (2 * Pow2(a - 1)) * Pow2(b);
    }
  }

  /** 1 << 9, 1 << 10 and 1 << 12. */
  lemma SmallPowers()
    ensures Pow2(0) == 1 && Pow2(9) == 512 && Pow2(10) == 1024 && Pow2(12) == 4096
  {
    assert Pow2(3) == 8;
    assert Pow2(6) == 64;
    assert Pow2(9) == 512;
  }

  lemma DigitSplit(v: nat, s: nat)
    requires s >= 1
    ensures v % 256 + 256 * ((v / 256) % s) == v % (256 * s)
  {
    var q, r := v / 256, v % 256;
    var a, b := q / s, q % s;
    assert q == a * s + b;
    assert v == 256 * (a * s + b) + r;
    assert 256 * (a * s) == a * (256 * s);
    var low := 256 * b + r;
    assert b <= s - 1;
    assert v == a * (256 * s) + low && 0 <= low < 256 * s;
    ModUnique(v, 256 * s, a, low);
  }

  lemma ModUnique(v: int, d: int, q: int, r: int)
    requires d > 0 && v == q * d + r && 0 <= r < d
    ensures v / d == q && v % d == r
  {
    var q', r' := v / d, v % d;
    assert v == q' * d + r';
    assert (q - q') * d == r' - r;
    assert q - q' >= 1 ==> (q - q') * d >= d;
    assert q - q' <= -1 ==> (q - q') * d <= -d;
  }

  /** Shifting twice is shifting once by the sum. */
  lemma DivDiv(v: nat, c: nat, s: nat)
    requires c >= 1 && s >= 1
    ensures c * s >= 1
    ensures v / (c * s) == (v / c) / s
    ensures v % (c * s) == ((v / c) % s) * c + v % c
  {
    var q, r := v / c, v % c;
    var a, b := q / s, q % s;
    assert v == q * c + r && q == a * s + b;
    assert (a * s + b) * c == a * (c * s) + b * c;
    var low := b * c + r;
    assert b * c <= (s - 1) * c;
    assert (s - 1) * c == c * s - c;
    ModUnique(v, c * s, a, low);
  }

  /** Reducing by a multiple first does not change the remainder. */
  lemma ModOfMultiple(v: nat, c: nat, s: nat)
    requires c >= 1 && s >= 1
    ensures c * s >= 1 && (v % (c * s)) % c == v % c
  {
    DivDiv(v, c, s);
    ModUnique(v % (c * s), c, (v / c) % s, v % c);
  }

  lemma NextMultiple(i: nat, j: nat, s: nat)
    requires i < j && s > 0
    ensures i * s + s <= j * s
  {
    assert (j - i - 1) * s >= 0;
    assert j * s == (j - i - 1) * s + i * s + s;
  }

  /** A multiple is its quotient times the divisor. */
  lemma Quotient(a: nat, s: nat) returns (q: nat)
    requires s > 0 && a % s == 0
    ensures a == q * s
  {
    q := a / s;
  }
}
