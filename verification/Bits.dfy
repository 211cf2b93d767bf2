/** Machine words as bit sequences, least significant bit first. */
module Bits {

  import opened Arith

  type Bits = seq<bool>

  function Zero(n: nat): (r: Bits)
    ensures |r| == n
  {
    seq(n, _ => false)
  }

  function Xor(a: Bits, b: Bits): (r: Bits)
    requires |a| == |b|
    ensures |r| == |a|
  {
    seq(|a|, k requires 0 <= k < |a| => a[k] != b[k])
  }

  /** a << i and a >> i within the word. */
  function Shl(a: Bits, i: nat): (r: Bits)
    ensures |r| == |a|
  {
    seq(|a|, k requires 0 <= k < |a| => k >= i && a[k - i])
  }

  function Shr(a: Bits, i: nat): (r: Bits)
    ensures |r| == |a|
  {
    seq(|a|, k requires 0 <= k < |a| => k + i < |a| && a[k + i])
  }

  function Reverse(a: Bits): (r: Bits)
    ensures |r| == |a|
    ensures forall k :: 0 <= k < |a| ==> r[k] == a[|a| - 1 - k]
  {
    if a == [] then [] else Reverse(a[1..]) + [a[0]]
  }

  /** Whether an odd number of bits is set: the sum of the bits over GF(2). */
  function Parity(a: Bits): bool {
    if a == [] then false else a[0] != Parity(a[1..])
  }

  lemma {:induction false} ParityAppend(a: Bits, b: Bits)
    ensures Parity(a + b) == (Parity(a) != Parity(b))
  {
    if a == [] {
      assert a + b == b;
    } else {
      assert (a + b)[1..] == a[1..] + b;
      ParityAppend(a[1..], b);
    }
  }

  lemma {:induction false} ParityReverse(a: Bits)
    ensures Parity(Reverse(a)) == Parity(a)
  {
    if a != [] {
      ParityReverse(a[1..]);
      ParityAppend(Reverse(a[1..]), [a[0]]);
      assert Parity([a[0]]) == a[0];
    }
  }

  lemma {:induction false} ParityXor(a: Bits, b: Bits)
    requires |a| == |b|
    ensures Parity(Xor(a, b)) == (Parity(a) != Parity(b))
  {
    if a != [] {
      assert Xor(a, b)[1..] == Xor(a[1..], b[1..]);
      ParityXor(a[1..], b[1..]);
    }
  }

  lemma {:induction false} ParityZero(a: Bits)
    requires forall k :: 0 <= k < |a| ==> !a[k]
    ensures !Parity(a)
  {
    if a != [] {
      ParityZero(a[1..]);
    }
  }

  /** The low n bits of a number, and the number a word stands for. */
  function ToBits(v: nat, n: nat): (r: Bits)
    ensures |r| == n
  {
    if n == 0 then [] else [v % 2 == 1] + ToBits(v / 2, n - 1)
  }

  function FromBits(a: Bits): nat {
    if a == [] then 0 else (if a[0] then 1 else 0) + 2 * FromBits(a[1..])
  }

  lemma {:induction false} BitsOfNumber(a: Bits)
    ensures ToBits(FromBits(a), |a|) == a
  {
    if a != [] {
      BitsOfNumber(a[1..]);
    }
  }

  lemma {:induction false} NumberOfBits(v: nat, n: nat)
    requires v < Pow2(n)
    ensures FromBits(ToBits(v, n)) == v
  {
    if n != 0 {
      NumberOfBits(v / 2, n - 1);
    }
  }
}
