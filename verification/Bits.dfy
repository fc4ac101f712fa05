/** Powers of two and bit lengths, as shifts, masks and leading-zero counts see them. */
module Bits {

  function Pow2(n: nat): (r: nat)
    ensures r > 0
  {
    if n == 0 then 1 else 2 * Pow2(n - 1)
  }

  lemma Pow2Next(n: nat)
    ensures Pow2(n + 1) == 2 * Pow2(n)
  {
  }

  lemma {:induction false} Pow2Add(a: nat, b: nat)
    ensures Pow2(a + b) == Pow2(a) * Pow2(b)
  {
    if b > 0 {
      Pow2Add(a, b - 1);
      assert a + b - 1 == a + (b - 1);
      assert Pow2(a + b) == 2 * (Pow2(a) * Pow2(b - 1)) == Pow2(a) * Pow2(b);
    }
  }

  lemma {:induction false} Pow2Mono(a: nat, b: nat)
    requires a <= b
    ensures Pow2(a) <= Pow2(b)
  {
    if a < b { Pow2Mono(a, b - 1); }
  }

  /** The number of binary digits of `v`; 64 minus it is the number of leading zeros of a 64-bit word. */
  function BitLen(v: nat): nat {
    if v == 0 then 0 else 1 + BitLen(v / 2)
  }

  lemma {:induction false} BitLenBounds(v: nat)
    requires v > 0
    ensures BitLen(v) >= 1 && Pow2(BitLen(v) - 1) <= v < Pow2(BitLen(v))
  {
    if v == 1 {
      assert BitLen(1 / 2) == 0;
      assert Pow2(1) == 2 * Pow2(0);
    } else {
      BitLenBounds(v / 2);
      assert BitLen(v) == 1 + BitLen(v / 2);
    }
  }

  /** A bit length is determined by its power-of-two bracket. */
  lemma BitLenIs(v: nat, n: nat)
    requires Pow2(n) <= v < Pow2(n + 1)
    ensures BitLen(v) == n + 1
  {
    BitLenBounds(v);
    if BitLen(v) > n + 1 {
      Pow2Mono(n + 1, BitLen(v) - 1);
    } else if BitLen(v) < n + 1 {
      Pow2Mono(BitLen(v), n);
    }
  }

  lemma QuotientNat(v: nat, d: nat)
    requires d > 0
    ensures v / d >= 0
  {
  }

  /** `v` shifted right. */
  function Shr(v: nat, n: nat): nat {
    QuotientNat(v, Pow2(n));
    v / Pow2(n)
  }

  /** `v` with its low `m` bits set. */
  function WithLowBits(v: nat, m: nat): nat {
    v / Pow2(m) * Pow2(m) + (Pow2(m) - 1)
  }

  lemma QuotientBounds(v: nat, d: nat)
    requires d > 0
    ensures v / d * d <= v < v / d * d + d
  {
    assert v == v / d * d + v % d;
  }

  lemma MulNat(a: nat, b: nat)
    ensures a * b >= 0
  {
  }

  lemma MulMono(a: nat, b: nat, d: nat)
    requires a <= b
    ensures a * d <= b * d
  {
    MulNat(b - a, d);
    assert (b - a) * d == b * d - a * d;
  }

  lemma MulLess(a: nat, b: nat, d: nat)
    requires a * d < b * d
    ensures a < b
  {
    if b <= a { MulMono(b, a, d); }
  }

  lemma QuotientUnique(v: nat, d: nat, q: nat)
    requires d > 0 && q * d <= v < q * d + d
    ensures v / d == q
  {
    var x := v / d;
    QuotientBounds(v, d);
    assert (x + 1) * d == x * d + d && (q + 1) * d == q * d + d;
    MulLess(x, q + 1, d);
    MulLess(q, x + 1, d);
  }

  lemma QuotientMono(v: nat, w: nat, d: nat)
    requires v <= w && d > 0
    ensures v / d <= w / d
  {
    var x, y := v / d, w / d;
    QuotientBounds(v, d);
    QuotientBounds(w, d);
    assert (y + 1) * d == y * d + d;
    MulLess(x, y + 1, d);
  }

  /** Setting low bits lengthens only numbers shorter than the mask. */
  lemma WithLowBitsLen(v: nat, m: nat)
    requires m >= 1
    ensures BitLen(WithLowBits(v, m)) == if v < Pow2(m) then m else BitLen(v)
  {
    var p, w := Pow2(m), WithLowBits(v, m);
    QuotientBounds(v, p);
    if v < p {
      QuotientUnique(v, p, 0);
      assert w == p - 1;
      assert p == 2 * Pow2(m - 1);
      BitLenIs(w, m - 1);
    } else {
      BitLenBounds(v);
      var n := BitLen(v) - 1;
      if n < m { Pow2Mono(n + 1, m); assert false; }
      Pow2Add(n + 1 - m, m);
      MultipleBelow(v / p, Pow2(n + 1 - m), p, w);
      BitLenIs(w, n);
    }
  }

  lemma MultipleBelow(q: nat, k: nat, p: nat, w: nat)
    requires p > 0 && q * p < k * p && w == q * p + (p - 1)
    ensures w < k * p
  {
    MulLess(q, k, p);
    MulMono(q + 1, k, p);
    assert (q + 1) * p == q * p + p;
  }
}
