/** How kv_hist_init (src/hist.h) chooses the layout of a histogram, and when that loop ends. */
module HistSizing {
  import opened Collections
  import opened Bits
  import opened HistCoding

  const WORD: nat := 64   // bits of a uint64_t

  function FloorLog2(v: nat): nat
    requires v > 0
  {
    BitLenBounds(v);
    BitLen(v) - 1
  }

  function CeilLog2(v: nat): nat {
    if v <= 1 then 0
    else if v == Pow2(FloorLog2(v)) then FloorLog2(v) else FloorLog2(v) + 1
  }

  /** The largest value to be resolved to a single unit. */
  function Resolution(sigfigs: int): nat {
    if sigfigs == 2 then 200
    else if sigfigs == 1 then 20
    else if sigfigs == 4 then 20000
    else if sigfigs == 5 then 200000
    else 2000
  }

  /** There are the fewest sub-buckets, in a power of two, that resolve it. */
  lemma CeilLog2Least(v: nat, n: nat)
    requires v > 1
    ensures v <= Pow2(n) <==> CeilLog2(v) <= n
  {
    hide Pow2;
    BitLenBounds(v);
    var f := FloorLog2(v);
    if n <= f { Pow2Mono(n, f); } else { Pow2Mono(f + 1, n); }
    if n < f {
      Pow2Next(n);
      Pow2Mono(n + 1, f);
    }
  }

  function Magnitude(sigfigs: int): (m: nat)
    ensures 5 <= m <= 18
  {
    var v := Resolution(sigfigs);
    assert Pow2(4) == 16;
    CeilLog2Least(v, 4);
    Pow2Add(9, 9);
    assert Pow2(9) == 512;
    CeilLog2Least(v, 18);
    CeilLog2(v)
  }

  /** The significant digits that are used: three for any number but 1 to 5. */
  function Digits(sigfigs: int): nat {
    if 1 <= sigfigs <= 5 then sigfigs else 3
  }

  function Pow10(n: nat): nat {
    if n == 0 then 1 else 10 * Pow10(n - 1)
  }

  /** Half the sub-buckets are the fewest, in a power of two, that are at least ten to the number of digits. */
  lemma ResolvesDigits(sigfigs: int)
    ensures Pow2(Magnitude(sigfigs) - 2) < Pow10(Digits(sigfigs)) <= Pow2(Magnitude(sigfigs) - 1)
  {
    hide Pow2, Pow10, CeilLog2, Resolution;
    var v, m := Resolution(sigfigs), Magnitude(sigfigs);
    TwicePow10(sigfigs);
    CeilLog2Least(v, m);
    CeilLog2Least(v, m - 1);
    Pow2Next(m - 1);
    Pow2Next(m - 2);
  }

  lemma TwicePow10(sigfigs: int)
    ensures Resolution(sigfigs) == 2 * Pow10(Digits(sigfigs)) && Resolution(sigfigs) > 1
  {
    assert Pow10(1) == 10 && Pow10(2) == 100 && Pow10(3) == 1000;
    assert Pow10(4) == 10 * Pow10(3) && Pow10(5) == 10 * Pow10(4);
  }

  /** What is reported is too much by at most two units of the last digit. */
  lemma DigitsError(c: Config, v: nat, sigfigs: int)
    requires Sane(c) && c.unit == 0 && c.magnitude == Magnitude(sigfigs)
    ensures var r := ValueAt(c, Index(c, v));
      v < r && (r == v + 1 || (r - v) * Pow10(Digits(sigfigs)) <= 2 * v)
  {
    hide Pow2, Pow10, ValueAt, Index, Magnitude;
    CodingError(c, v);
    ResolvesDigits(sigfigs);
    var r := ValueAt(c, Index(c, v));
    MulMono(Pow10(Digits(sigfigs)), Half(c), r - v);
  }

  /** What the sizing loop compares with `highest` in its round `j`, in 64-bit arithmetic. */
  function Trackable(m: nat, unit: nat, j: nat): nat {
    (Pow2(m) - 1) * Pow2(unit + j) % Pow2(WORD)
  }

  /** The largest value the loop can reach. */
  function Reach(m: nat): nat
    requires m <= WORD
  {
    MulNat(Pow2(m) - 1, Pow2(WORD - m));
    (Pow2(m) - 1) * Pow2(WORD - m)
  }

  lemma OneLess(p: nat, q: nat)
    requires p > 0
    ensures (p - 1) * q == p * q - q
  {
  }

  lemma MulAssoc(a: nat, b: nat, c: nat)
    ensures a * (b * c) == a * b * c
  {
  }

  lemma SmallProduct(p: nat, x: nat, y: nat, w: nat)
    requires x <= y && p * y < w
    ensures p * x % w == p * x <= p * y
  {
    MulMono(x, y, p);
  }

  lemma ReachIs(m: nat)
    requires m <= WORD
    ensures Reach(m) == Pow2(WORD) - Pow2(WORD - m) < Pow2(WORD)
  {
    Pow2Add(m, WORD - m);
    OneLess(Pow2(m), Pow2(WORD - m));
  }

  lemma NoWrap(m: nat, unit: nat, j: nat)
    requires m <= WORD && unit + j <= WORD - m
    ensures Trackable(m, unit, j) == (Pow2(m) - 1) * Pow2(unit + j) <= Reach(m)
  {
    Pow2Mono(unit + j, WORD - m);
    ReachIs(m);
    SmallProduct(Pow2(m) - 1, Pow2(unit + j), Pow2(WORD - m), Pow2(WORD));
  }

  lemma ModUnique(x: nat, n: nat, a: nat, y: nat)
    requires x == a * n + y && y < n
    ensures x % n == y
  {
    QuotientUnique(x, n, a);
    assert x == x / n * n + x % n;
  }

  /** A multiple of `d` modulo a multiple of `d` stays `d` below it. */
  lemma MultipleMod(k: nat, d: nat, q: nat)
    requires d > 0 && q > 0
    ensures k * d % (q * d) <= q * d - d
  {
    var a, r := k / q, k % q;
    QuotientNat(k, q);
    assert k == a * q + r;
    MulMono(r + 1, q, d);
    assert (r + 1) * d == r * d + d;
    assert k * d == (a * q) * d + r * d;
    assert (a * q) * d == a * (q * d);
    ModUnique(k * d, q * d, a, r * d);
  }

  lemma ShiftedMod(p: nat, e: nat, d: nat, q: nat, x: nat, w: nat)
    requires d > 0 && q > 0 && x == e * d && w == q * d
    ensures p * x % w <= w - d
  {
    MulAssoc(p, e, d);
    MultipleMod(p * e, d, q);
  }

  /** Once the shift overflows, the loop stays below what it reached before. */
  lemma WrapsBelow(m: nat, unit: nat, j: nat)
    requires 2 <= m <= WORD && unit + j > WORD - m
    ensures Trackable(m, unit, j) < Reach(m)
  {
    hide Pow2;
    var d, n := Pow2(WORD - m + 1), unit + j;
    var extra := n - (WORD - m + 1);
    Pow2Add(extra, WORD - m + 1);
    Pow2Add(m - 1, WORD - m + 1);
    ShiftedMod(Pow2(m) - 1, Pow2(extra), d, Pow2(m - 1), Pow2(n), Pow2(WORD));
    ReachIs(m);
    Pow2Next(WORD - m);
  }

  /** The sizing loop ends if and only if `highest` is within reach. */
  lemma SizingEnds(m: nat, unit: nat, highest: nat)
    requires 2 <= m <= WORD && unit <= WORD - m
    ensures (exists j: nat :: Trackable(m, unit, j) >= highest) <==> highest <= Reach(m)
  {
    NoWrap(m, unit, WORD - m - unit);
    forall j: nat ensures Trackable(m, unit, j) <= Reach(m) {
      if unit + j <= WORD - m { NoWrap(m, unit, j); } else { WrapsBelow(m, unit, j); }
    }
  }

  /** The layout for values from `lowest` to `highest`: the fewest buckets that cover them.  Rejected
      are an empty range and a lowest value of 0. */
  method Configure(lowest: nat, highest: nat, sigfigs: int) returns (r: Option<Config>)
    requires 0 < lowest < highest ==> FloorLog2(lowest) + Magnitude(sigfigs) <= WORD
    requires 0 < lowest < highest ==> highest <= Reach(Magnitude(sigfigs))
    ensures r.None? <==> lowest == 0 || highest <= lowest
    ensures r.Some? ==> Sane(r.value) && Covers(r.value)
    ensures r.Some? ==> r.value == Config(FloorLog2(lowest), Magnitude(sigfigs), r.value.buckets, lowest, highest)
    ensures r.Some? && r.value.buckets > 1 ==> !Covers(r.value.(buckets := r.value.buckets - 1))
  {
    hide Pow2, Trackable, Shl, Reach;
    if lowest == 0 || highest <= lowest {
      return None;
    }
    var unit, m := FloorLog2(lowest), Magnitude(sigfigs);
    var trackable, buckets := Trackable(m, unit, 0), 1;
    NoWrap(m, unit, 0);
    while trackable < highest
      invariant buckets >= 1 && unit + buckets - 1 <= WORD - m
      invariant trackable == Trackable(m, unit, buckets - 1) == (Pow2(m) - 1) * Pow2(unit + buckets - 1)
      invariant buckets > 1 ==> (Pow2(m) - 1) * Pow2(unit + buckets - 2) < highest
      decreases WORD - buckets
    {
      NotYetThere(m, unit, buckets - 1, trackable, highest);
      trackable, buckets := Shl(trackable), buckets + 1;
    }
    return Some(Config(unit, m, buckets, lowest, highest));
  }

  /** A 64-bit shift by one. */
  function Shl(v: nat): nat {
    v * 2 % Pow2(WORD)
  }

  lemma NotYetThere(m: nat, unit: nat, j: nat, trackable: nat, highest: nat)
    requires 2 <= m <= WORD && unit + j <= WORD - m && highest <= Reach(m)
    requires trackable == (Pow2(m) - 1) * Pow2(unit + j) < highest
    ensures unit + (j + 1) <= WORD - m
    ensures Shl(trackable) == Trackable(m, unit, j + 1) == (Pow2(m) - 1) * Pow2(unit + (j + 1))
  {
    if unit + j == WORD - m { assert false; }
    MulAssoc(Pow2(m) - 1, Pow2(unit + j), 2);
    assert Pow2(unit + (j + 1)) == Pow2(unit + j) * 2;
    NoWrap(m, unit, j + 1);
  }
}
