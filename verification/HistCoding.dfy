/**
  The log-linear coding of src/hist.h: which array index counts a value, and which value an index
  stands for.  Shifts are multiplications and divisions by powers of two.
 */
module HistCoding {
  import opened Bits

  /** unit: shift of the lowest trackable value.  magnitude: log2 of the number of sub-buckets. */
  datatype Config = Config(unit: nat, magnitude: nat, buckets: nat, lowest: nat, highest: nat)

  predicate Sane(c: Config) {
    c.magnitude >= 2 && c.buckets >= 1 && 1 <= c.lowest < c.highest
  }

  function Half(c: Config): (r: nat)
    requires Sane(c)
    ensures r > 0
  {
    Pow2(c.magnitude - 1)
  }

  function Length(c: Config): nat
    requires Sane(c)
  {
    (c.buckets + 1) * Half(c)
  }

  function Bucket(c: Config, v: nat): (b: nat)
    requires Sane(c)
    ensures v < Half(c) ==> b == 0
    ensures v >= Half(c) ==> b >= 1 && Pow2(b + c.magnitude - 2) <= v < Pow2(b + c.magnitude - 1)
  {
    if v < Half(c) then 0
    else
      BucketBracket(c, v);
      BitLen(WithLowBits(v, c.magnitude)) - (c.magnitude - 1)
  }

  lemma BucketBracket(c: Config, v: nat)
    requires Sane(c) && v >= Half(c)
    ensures var n := BitLen(WithLowBits(v, c.magnitude));
      n >= c.magnitude && Pow2(n - 1) <= v < Pow2(n)
  {
    WithLowBitsLen(v, c.magnitude);
    if v >= Pow2(c.magnitude) {
      BitLenBounds(v);
      if BitLen(v) < c.magnitude { Pow2Mono(BitLen(v), c.magnitude); }
    }
  }

  function Sub(c: Config, v: nat, b: nat): nat {
    Shr(v, b + c.unit)
  }

  function Index(c: Config, v: nat): nat
    requires Sane(c)
  {
    Bucket(c, v) * Half(c) + Sub(c, v, Bucket(c, v))
  }

  function ValueFrom(c: Config, b: nat, sub: nat): nat {
    (sub + 1) * Pow2(b + c.unit)
  }

  /** The upper end of the range of values counted at index `i`. */
  function ValueAt(c: Config, i: nat): nat
    requires Sane(c)
  {
    ValueFrom(c, i / Half(c), i % Half(c))
  }

  // ---------------------------------------------------------------- coding

  lemma SubBelowHalf(c: Config, v: nat)
    requires Sane(c)
    ensures Sub(c, v, Bucket(c, v)) < Half(c)
  {
    var b := Bucket(c, v);
    var d := Pow2(b + c.unit);
    QuotientBounds(v, d);
    BelowShifted(c, v, d);
    MulLess(Sub(c, v, b), Half(c), d);
  }

  lemma BelowShifted(c: Config, v: nat, d: nat)
    requires Sane(c) && d == Pow2(Bucket(c, v) + c.unit)
    ensures v < Half(c) * d
  {
    var b := Bucket(c, v);
    if v < Half(c) {
      MulMono(1, d, Half(c));
    } else {
      Pow2Add(c.magnitude - 1, b + c.unit);
      Pow2Mono(b + c.magnitude - 1, c.magnitude - 1 + (b + c.unit));
    }
  }

  /** Splitting an index by shift and mask recovers bucket and sub-bucket. */
  lemma SplitRecovers(c: Config, v: nat)
    requires Sane(c)
    ensures Index(c, v) / Half(c) == Bucket(c, v) && Index(c, v) % Half(c) == Sub(c, v, Bucket(c, v))
  {
    SubBelowHalf(c, v);
    QuotientUnique(Index(c, v), Half(c), Bucket(c, v));
    assert Index(c, v) == Index(c, v) / Half(c) * Half(c) + Index(c, v) % Half(c);
  }

  /** The value lies in the range its index stands for. */
  lemma CodingBrackets(c: Config, v: nat)
    requires Sane(c)
    ensures var b := Bucket(c, v);
      Sub(c, v, b) * Pow2(b + c.unit) <= v < ValueAt(c, Index(c, v)) == (Sub(c, v, b) + 1) * Pow2(b + c.unit)
  {
    SplitRecovers(c, v);
    var b := Bucket(c, v);
    QuotientBounds(v, Pow2(b + c.unit));
  }

  /** Larger values have larger indices. */
  lemma IndexMonotone(c: Config, v: nat, w: nat)
    requires Sane(c) && v <= w
    ensures Bucket(c, v) <= Bucket(c, w) && Index(c, v) <= Index(c, w)
  {
    var a, b := Bucket(c, v), Bucket(c, w);
    if b < a { Pow2Mono(b + c.magnitude - 1, a + c.magnitude - 2); }
    SubBelowHalf(c, v);
    if a == b {
      QuotientMono(v, w, Pow2(a + c.unit));
    } else {
      MulMono(a + 1, b, Half(c));
      assert (a + 1) * Half(c) == a * Half(c) + Half(c);
    }
  }

  /** What is reported for a larger value is no less. */
  lemma ReportedMonotone(c: Config, v: nat, w: nat)
    requires Sane(c) && v <= w
    ensures ValueAt(c, Index(c, v)) <= ValueAt(c, Index(c, w))
  {
    hide ValueAt, Index, Bucket, Sub, Pow2;
    IndexMonotone(c, v, w);
    CodingBrackets(c, v);
    CodingBrackets(c, w);
    var a, b := Bucket(c, v), Bucket(c, w);
    Pow2Add(b - a, a + c.unit);
    assert b - a + (a + c.unit) == b + c.unit;
    NextMultiple(v, Pow2(a + c.unit), Sub(c, v, a), Pow2(b - a), Sub(c, w, b) + 1);
  }

  /** A multiple of a multiple of `d` above `v` is no less than the next multiple of `d`. */
  lemma NextMultiple(v: nat, d: nat, q: nat, e: nat, m: nat)
    requires q * d <= v < m * (e * d)
    ensures (q + 1) * d <= m * (e * d)
  {
    assert m * (e * d) == (m * e) * d;
    MulNat(m, e);
    MulLess(q, m * e, d);
    MulMono(q + 1, m * e, d);
  }

  /** What is reported for a value: itself plus one when small, and otherwise at most 2/half too much. */
  ghost predicate WithinError(c: Config, v: nat, r: nat)
    requires Sane(c)
  {
    v < r && (v < Half(c) ==> r == v + 1) && (v >= Half(c) ==> (r - v) * Half(c) <= 2 * v)
  }

  /** That is so with unit magnitude 0. */
  lemma CodingError(c: Config, v: nat)
    requires Sane(c) && c.unit == 0
    ensures WithinError(c, v, ValueAt(c, Index(c, v)))
  {
    CodingBrackets(c, v);
    var b := Bucket(c, v);
    if v < Half(c) {
      assert Pow2(0) == 1;
    } else {
      HalfTimesWidth(c, v);
      Excess(Sub(c, v, b), Pow2(b), Half(c), v);
    }
  }

  lemma Excess(sub: nat, d: nat, half: nat, v: nat)
    requires sub * d <= v < (sub + 1) * d && d * half <= 2 * v
    ensures ((sub + 1) * d - v) * half <= 2 * v
  {
    assert (sub + 1) * d == sub * d + d;
    MulMono((sub + 1) * d - v, d, half);
  }

  /** Half the sub-buckets times the width of a bucket is at most twice any value in it. */
  lemma HalfTimesWidth(c: Config, v: nat)
    requires Sane(c) && v >= Half(c)
    ensures Pow2(Bucket(c, v)) * Half(c) <= 2 * v
  {
    var b := Bucket(c, v);
    Pow2Add(b, c.magnitude - 1);
    assert Pow2(b + (c.magnitude - 1)) == 2 * Pow2(b + c.magnitude - 2);
  }

  // ---------------------------------------------------------------- coverage

  /** The array sized for `c` reaches past `highest`. */
  predicate Covers(c: Config)
    requires Sane(c)
  {
    c.highest <= (Pow2(c.magnitude) - 1) * Pow2(c.unit + c.buckets - 1)
  }

  lemma InArray(c: Config, v: nat)
    requires Sane(c)
    ensures Index(c, v) < Length(c) <==> Bucket(c, v) <= c.buckets
  {
    SubBelowHalf(c, v);
    var b := Bucket(c, v);
    assert (b + 1) * Half(c) == b * Half(c) + Half(c);
    if b <= c.buckets {
      MulMono(b + 1, c.buckets + 1, Half(c));
    } else {
      MulMono(c.buckets + 1, b, Half(c));
    }
  }

  /** The values of the array's buckets are those below half the sub-buckets times two to the number of buckets. */
  lemma InBuckets(c: Config, v: nat)
    requires Sane(c)
    ensures Bucket(c, v) <= c.buckets <==> v < Pow2(c.magnitude - 1 + c.buckets)
  {
    var b := Bucket(c, v);
    if v < Half(c) {
      Pow2Mono(c.magnitude - 1, c.magnitude - 1 + c.buckets);
    } else if b <= c.buckets {
      Pow2Mono(b + c.magnitude - 1, c.magnitude - 1 + c.buckets);
    } else {
      Pow2Mono(c.magnitude - 1 + c.buckets, b + c.magnitude - 2);
    }
  }

  /** Every value in range is counted exactly when the buckets, taken without their unit, reach past the highest. */
  lemma CountedIff(c: Config)
    requires Sane(c)
    ensures (forall v :: c.lowest <= v <= c.highest ==> Index(c, v) < Length(c))
            <==> c.highest < Pow2(c.magnitude - 1 + c.buckets)
  {
    InArray(c, c.highest);
    InBuckets(c, c.highest);
    forall v | c.lowest <= v <= c.highest && Bucket(c, c.highest) <= c.buckets ensures Index(c, v) < Length(c) {
      InArray(c, v);
      IndexMonotone(c, v, c.highest);
    }
  }

  /** With unit magnitude 0 no value in range is dropped. */
  lemma NothingDropped(c: Config, v: nat)
    requires Sane(c) && c.unit == 0 && Covers(c) && v <= c.highest
    ensures Index(c, v) < Length(c)
  {
    var b := Bucket(c, v);
    Pow2Add(c.magnitude, c.buckets - 1);
    assert (Pow2(c.magnitude) - 1) * Pow2(c.buckets - 1) < Pow2(c.magnitude) * Pow2(c.buckets - 1);
    if v >= Half(c) && b > c.buckets {
      Pow2Mono(c.magnitude + (c.buckets - 1), b + c.magnitude - 2);
    }
    InArray(c, v);
  }

  /** With another unit values can be dropped: recording 4094 in a histogram for [2, 4094] at three
      significant digits. */
  lemma UnitOneDrops()
    ensures var c := Config(1, 11, 1, 2, 4094);
      Sane(c) && Covers(c) && Index(c, 4094) >= Length(c)
  {
    var c := Config(1, 11, 1, 2, 4094);
    assert Pow2(5) == 32;
    Pow2Add(5, 5);
    Pow2Add(10, 1);
    Pow2Add(10, 2);
    InArray(c, 4094);
    var b := Bucket(c, 4094);
    if b <= 1 { Pow2Mono(b + 10, 11); }
  }
}
