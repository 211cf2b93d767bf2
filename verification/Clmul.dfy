/** Carry-less multiplication: the three shift-and-xor loops against the product of two
    polynomials over GF(2). The word length is a parameter, so the results hold for the 32-bit and
    for the 64-bit copy of the loops. */
module Clmul {

  import opened Bits

  // ---- the reference: the coefficients of a polynomial product --------------------------------

  /** Term i of coefficient k: b_i * a_(k-i). */
  predicate Term(a: Bits, b: Bits, k: nat, i: nat)
    requires |a| == |b|
  {
    i < |b| && b[i] && i <= k && k - i < |a| && a[k - i]
  }

  function Terms(a: Bits, b: Bits, k: nat): (r: Bits)
    requires |a| == |b|
    ensures |r| == |a|
  {
    seq(|a|, i requires 0 <= i < |a| => Term(a, b, k, i))
  }

  /** Coefficient k of the product: the sum over i of b_i * a_(k-i). */
  function Coefficient(a: Bits, b: Bits, k: nat): bool
    requires |a| == |b|
  {
    Parity(Terms(a, b, k))
  }

  /** The whole product, twice the word length. */
  function Product(a: Bits, b: Bits): (r: Bits)
    requires |a| == |b|
    ensures |r| == 2 * |a|
  {
    seq(2 * |a|, k requires 0 <= k < 2 * |a| => Coefficient(a, b, k))
  }

  // ---- it is the polynomial product --------------------------------------------------------------

  /** Multiplication is commutative. */
  lemma ProductCommutes(a: Bits, b: Bits)
    requires |a| == |b|
    ensures Product(a, b) == Product(b, a)
  {
    forall k | 0 <= k < 2 * |a| ensures Coefficient(a, b, k) == Coefficient(b, a, k) {
      CoefficientCommutes(a, b, k);
    }
  }

  lemma CoefficientCommutes(a: Bits, b: Bits, k: nat)
    requires |a| == |b| && k < 2 * |a|
    ensures Coefficient(a, b, k) == Coefficient(b, a, k)
  {
    hide Parity, Reverse;
    var n := |a|;
    var s, t := Terms(a, b, k), Terms(b, a, k);
    var lo, hi := if k < n then 0 else k - n + 1, if k < n then k + 1 else n;
    SplitParity(s, lo, hi);
    SplitParity(t, lo, hi);
    forall j | 0 <= j < hi - lo ensures t[lo + j] == Reverse(s[lo..hi])[j] {
      assert s[lo..hi][hi - lo - 1 - j] == s[hi - 1 - j];
    }
    assert t[lo..hi] == Reverse(s[lo..hi]);
    ParityReverse(s[lo..hi]);
  }

  lemma SplitParity(s: Bits, lo: nat, hi: nat)
    requires lo <= hi <= |s|
    requires forall i :: 0 <= i < |s| && (i < lo || hi <= i) ==> !s[i]
    ensures Parity(s) == Parity(s[lo..hi])
  {
    assert s == s[..lo] + (s[lo..hi] + s[hi..]);
    ParityAppend(s[..lo], s[lo..hi] + s[hi..]);
    ParityAppend(s[lo..hi], s[hi..]);
    ParityZero(s[..lo]);
    ParityZero(s[hi..]);
  }

  /** Multiplication distributes over addition. */
  lemma ProductDistributes(a: Bits, b: Bits, c: Bits)
    requires |a| == |b| == |c|
    ensures Product(a, Xor(b, c)) == Xor(Product(a, b), Product(a, c))
  {
    forall k | 0 <= k < 2 * |a|
      ensures Coefficient(a, Xor(b, c), k) == (Coefficient(a, b, k) != Coefficient(a, c, k))
    {
      assert Terms(a, Xor(b, c), k) == Xor(Terms(a, b, k), Terms(a, c, k));
      ParityXor(Terms(a, b, k), Terms(a, c, k));
    }
  }

  /** The polynomial x^i. */
  function Monomial(n: nat, i: nat): (r: Bits)
    ensures |r| == n
  {
    seq(n, k => k == i)
  }

  /** Multiplying by x^i moves every coefficient up by i places. With commutativity and
      distributivity this determines the product of any two polynomials. */
  lemma ProductByMonomial(a: Bits, i: nat)
    requires i < |a|
    ensures Product(a, Monomial(|a|, i)) == Shl(a + Zero(|a|), i)
  {
    hide Coefficient;
    var n := |a|;
    forall k | 0 <= k < 2 * n
      ensures Coefficient(a, Monomial(n, i), k) == (k >= i && k - i < n && a[k - i])
    {
      OneTerm(a, i, k);
    }
  }

  lemma OneTerm(a: Bits, i: nat, k: nat)
    requires i < |a|
    ensures Coefficient(a, Monomial(|a|, i), k) == (k >= i && k - i < |a| && a[k - i])
  {
    var s := Terms(a, Monomial(|a|, i), k);
    assert forall j :: 0 <= j < |a| && j != i ==> !s[j];
    SplitParity(s, i, i + 1);
    assert s[i..i + 1] == [s[i]];
    assert Parity([s[i]]) == s[i];
  }

  // ---- the loops ----------------------------------------------------------------------------------

  /** One loop step adds the term of bit i to every coefficient. */
  lemma AddTerm(a: Bits, b: Bits, k: nat, i: nat)
    requires |a| == |b| && i < |a|
    ensures Parity(Terms(a, b, k)[..i + 1]) == (Parity(Terms(a, b, k)[..i]) != Term(a, b, k, i))
  {
    var s := Terms(a, b, k);
    assert s[..i + 1] == s[..i] + [s[i]];
    ParityAppend(s[..i], [s[i]]);
    assert Parity([s[i]]) == s[i];
  }

  /** Bits low + 0, low + 1, ... of the product, from the terms below i only. */
  ghost predicate Partial(r: Bits, a: Bits, b: Bits, low: nat, i: nat)
    requires |a| == |b| && i <= |a|
  {
    |r| == |a| && forall k :: 0 <= k < |a| ==> r[k] == Parity(Terms(a, b, low + k)[..i])
  }

  lemma PartialStep(r: Bits, r': Bits, a: Bits, b: Bits, low: nat, i: nat)
    requires |a| == |b| && i < |a| && Partial(r, a, b, low, i) && |r'| == |r|
    requires forall k :: 0 <= k < |a| ==> r'[k] == (r[k] != Term(a, b, low + k, i))
    ensures Partial(r', a, b, low, i + 1)
  {
    forall k | 0 <= k < |a| ensures r'[k] == Parity(Terms(a, b, low + k)[..i + 1]) {
      AddTerm(a, b, low + k, i);
    }
  }

  lemma PartialDone(r: Bits, a: Bits, b: Bits, low: nat)
    requires |a| == |b| && low <= |a| && Partial(r, a, b, low, |a|)
    ensures r == Product(a, b)[low..low + |a|]
  {
    forall k | 0 <= k < |a| ensures r[k] == Product(a, b)[low + k] {
      assert Terms(a, b, low + k)[..|a|] == Terms(a, b, low + k);
    }
  }

  /** CLMUL: the low half of the product. */
  method CarrylessMultiply(in1: Bits, in2: Bits) returns (r: Bits)
    requires |in1| == |in2|
    ensures r == Product(in1, in2)[..|in1|]
  {
    hide Parity, Terms;
    var xlen := |in1|;
    r := Zero(xlen);
    NoTerms(in1, in2);
    for i := 0 to xlen
      invariant |r| == xlen && Partial(r, in1, in2, 0, i)
    {
      ghost var before := r;
      if in2[i] {
        r := Xor(r, Shl(in1, i));
      }
      PartialStep(before, r, in1, in2, 0, i);
    }
    PartialDone(r, in1, in2, 0);
  }

  /** CLMULH: the high half. */
  method CarrylessMultiplyHigh(in1: Bits, in2: Bits) returns (r: Bits)
    requires |in1| == |in2| > 0
    ensures r == Product(in1, in2)[|in1|..]
  {
    hide Parity, Terms;
    var xlen := |in1|;
    r := Zero(xlen);
    NoTerms(in1, in2);
    PartialStep(r, r, in1, in2, xlen, 0);
    for i := 1 to xlen
      invariant |r| == xlen && Partial(r, in1, in2, xlen, i)
    {
      ghost var before := r;
      if in2[i] {
        r := Xor(r, Shr(in1, xlen - i));
      }
      PartialStep(before, r, in1, in2, xlen, i);
    }
    PartialDone(r, in1, in2, xlen);
  }

  /** CLMULR: the product shifted right by one less than the word length, truncated. */
  method CarrylessMultiplyReversed(in1: Bits, in2: Bits) returns (r: Bits)
    requires |in1| == |in2| > 0
    ensures r == Product(in1, in2)[|in1| - 1..2 * |in1| - 1]
  {
    hide Parity, Terms;
    var xlen := |in1|;
    r := Zero(xlen);
    NoTerms(in1, in2);
    for i := 0 to xlen
      invariant |r| == xlen && Partial(r, in1, in2, xlen - 1, i)
    {
      ghost var before := r;
      if in2[i] {
        r := Xor(r, Shr(in1, xlen - 1 - i));
      }
      PartialStep(before, r, in1, in2, xlen - 1, i);
    }
    PartialDone(r, in1, in2, xlen - 1);
  }

  lemma NoTerms(a: Bits, b: Bits)
    requires |a| == |b|
    ensures forall low :: Partial(Zero(|a|), a, b, low, 0)
  {
  }

  // ---- bit reversal ---------------------------------------------------------------------------

  lemma TermOfReversed(a: Bits, b: Bits, ra: Bits, rb: Bits, n: nat, k: nat, i: nat)
    requires |a| == |b| == |ra| == |rb| == n && k <= 2 * n - 2 && i < n
    requires forall j :: 0 <= j < n ==> ra[j] == a[n - 1 - j]
    requires forall j :: 0 <= j < n ==> rb[j] == b[n - 1 - j]
    ensures Term(ra, rb, k, i) == Term(a, b, 2 * n - 2 - k, n - 1 - i)
  {
  }

  lemma CoefficientOfReversed(a: Bits, b: Bits, k: nat)
    requires |a| == |b| > 0 && k <= 2 * |a| - 2
    ensures Coefficient(Reverse(a), Reverse(b), k) == Coefficient(a, b, 2 * |a| - 2 - k)
  {
    hide Coefficient, Reverse;
    CoefficientMirrored(a, b, Reverse(a), Reverse(b), |a|, k);
  }

  lemma CoefficientMirrored(a: Bits, b: Bits, ra: Bits, rb: Bits, n: nat, k: nat)
    requires |a| == |b| == |ra| == |rb| == n && k <= 2 * n - 2
    requires forall j :: 0 <= j < n ==> ra[j] == a[n - 1 - j]
    requires forall j :: 0 <= j < n ==> rb[j] == b[n - 1 - j]
    ensures Coefficient(ra, rb, k) == Coefficient(a, b, 2 * n - 2 - k)
  {
    hide Terms, Parity;
    ReversedTerms(a, b, ra, rb, n, k);
    EqualParity(Terms(ra, rb, k), Terms(a, b, 2 * n - 2 - k), n);
  }

  lemma EqualParity(s: Bits, t: Bits, n: nat)
    requires |s| == |t| == n && forall i :: 0 <= i < n ==> s[i] == t[n - 1 - i]
    ensures Parity(s) == Parity(t)
  {
    SameAsReverse(s, t);
    ParityReverse(t);
  }

  lemma ReversedTerms(a: Bits, b: Bits, ra: Bits, rb: Bits, n: nat, k: nat)
    requires |a| == |b| == |ra| == |rb| == n && k <= 2 * n - 2
    requires forall j :: 0 <= j < n ==> ra[j] == a[n - 1 - j]
    requires forall j :: 0 <= j < n ==> rb[j] == b[n - 1 - j]
    ensures forall i :: 0 <= i < n ==> Terms(ra, rb, k)[i] == Terms(a, b, 2 * n - 2 - k)[n - 1 - i]
  {
    hide Term;
    forall i | 0 <= i < n ensures Terms(ra, rb, k)[i] == Terms(a, b, 2 * n - 2 - k)[n - 1 - i] {
      TermOfReversed(a, b, ra, rb, n, k, i);
    }
  }

  lemma SameAsReverse(s: Bits, t: Bits)
    requires |s| == |t| && forall i :: 0 <= i < |s| ==> s[i] == t[|t| - 1 - i]
    ensures s == Reverse(t)
  {
    hide Reverse;
  }

  /** Reversing both factors reverses the product. */
  lemma ProductOfReversed(a: Bits, b: Bits, k: nat)
    requires |a| == |b| > 0 && k <= 2 * |a| - 2
    ensures Product(Reverse(a), Reverse(b))[k] == Product(a, b)[2 * |a| - 2 - k]
  {
    CoefficientOfReversed(a, b, k);
    CoefficientAt(a, b, 2 * |a| - 2 - k);
    CoefficientAt(Reverse(a), Reverse(b), k);
  }

  lemma CoefficientAt(a: Bits, b: Bits, k: nat)
    requires |a| == |b| && k < 2 * |a|
    ensures Product(a, b)[k] == Coefficient(a, b, k)
  {
  }

  /** CLMULR is CLMUL between two bit reversals. */
  lemma ReversedIsReversal(a: Bits, b: Bits)
    requires |a| == |b| > 0
    ensures Product(a, b)[|a| - 1..2 * |a| - 1] == Reverse(Product(Reverse(a), Reverse(b))[..|a|])
  {
    var n := |a|;
    var p, q := Product(a, b), Product(Reverse(a), Reverse(b));
    forall k | 0 <= k < n ensures q[k] == p[2 * n - 2 - k] {
      ProductOfReversed(a, b, k);
    }
    MiddleReversed(p, q, n);
  }

  lemma MiddleReversed(p: Bits, q: Bits, n: nat)
    requires |p| == |q| == 2 * n && n > 0 && forall k :: 0 <= k < n ==> q[k] == p[2 * n - 2 - k]
    ensures p[n - 1..2 * n - 1] == Reverse(q[..n])
  {
    SameAsReverse(p[n - 1..2 * n - 1], q[..n]);
  }
}
