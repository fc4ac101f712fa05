/**
  What a histogram says about the samples recorded in it: counts as a tally of the samples, ranks as
  positions in their sorted order, the weighted sum as a bound on their sum.
 */
module HistSamples {
  import opened Bits
  import opened HistCoding

  ghost predicate Fits(c: Config, xs: seq<nat>)
    requires Sane(c)
  {
    forall x :: x in xs ==> Index(c, x) < Length(c)
  }

  function Bump(s: seq<nat>, i: nat): (r: seq<nat>)
    requires i < |s|
    ensures |r| == |s|
  {
    s[i := s[i] + 1]
  }

  /** The counts after recording `xs`. */
  ghost function Tally(c: Config, xs: seq<nat>): (r: seq<nat>)
    requires Sane(c) && Fits(c, xs)
    ensures |r| == Length(c)
  {
    if xs == [] then seq(Length(c), _ => 0)
    else Bump(Tally(c, xs[..|xs| - 1]), Index(c, xs[|xs| - 1]))
  }

  lemma TallySnoc(c: Config, xs: seq<nat>, x: nat)
    requires Sane(c) && Fits(c, xs) && Index(c, x) < Length(c)
    ensures Fits(c, xs + [x]) && Tally(c, xs + [x]) == Bump(Tally(c, xs), Index(c, x))
  {
    assert (xs + [x])[..|xs|] == xs;
    assert forall y :: y in xs + [x] ==> y in xs || y == x;
  }

  /** Counting two batches of samples is adding their counts. */
  lemma {:induction false} TallyConcat(c: Config, xs: seq<nat>, ys: seq<nat>)
    requires Sane(c) && Fits(c, xs) && Fits(c, ys)
    ensures Fits(c, xs + ys)
    ensures forall i :: 0 <= i < Length(c) ==> Tally(c, xs + ys)[i] == Tally(c, xs)[i] + Tally(c, ys)[i]
  {
    if ys == [] {
      assert xs + ys == xs;
    } else {
      var n := |ys| - 1;
      var zs, y := ys[..n], ys[n];
      assert y in ys && forall z :: z in zs ==> z in ys;
      TallyConcat(c, xs, zs);
      assert xs + ys == (xs + zs) + [y];
      TallySnoc(c, xs + zs, y);
    }
  }

  lemma TallyOfAll(c: Config, xs: seq<nat>, ys: seq<nat>, s: seq<nat>)
    requires Sane(c) && Fits(c, xs) && Fits(c, ys) && |s| == Length(c)
    requires forall i :: 0 <= i < |s| ==> s[i] == Tally(c, xs)[i] + Tally(c, ys)[i]
    ensures Fits(c, xs + ys) && s == Tally(c, xs + ys)
  {
    TallyConcat(c, xs, ys);
  }

  // ---------------------------------------------------------------- ranks

  /** The sum of the first `n` counts. */
  function PrefixSum(s: seq<nat>, n: nat): nat
    requires n <= |s|
  {
    if n == 0 then 0 else PrefixSum(s, n - 1) + s[n - 1]
  }

  lemma {:induction false} PrefixBump(s: seq<nat>, i: nat, n: nat)
    requires i < |s| && n <= |s|
    ensures PrefixSum(Bump(s, i), n) == PrefixSum(s, n) + if i < n then 1 else 0
  {
    if n > 0 { PrefixBump(s, i, n - 1); }
  }

  lemma {:induction false} PrefixZero(s: seq<nat>, n: nat)
    requires n <= |s| && forall i :: 0 <= i < |s| ==> s[i] == 0
    ensures PrefixSum(s, n) == 0
  {
    if n > 0 { PrefixZero(s, n - 1); }
  }

  /** How many samples have an index below `n`. */
  function Below(c: Config, xs: seq<nat>, n: nat): nat
    requires Sane(c)
  {
    if xs == [] then 0 else Below(c, xs[..|xs| - 1], n) + if Index(c, xs[|xs| - 1]) < n then 1 else 0
  }

  lemma {:induction false} PrefixTally(c: Config, xs: seq<nat>, n: nat)
    requires Sane(c) && Fits(c, xs) && n <= Length(c)
    ensures PrefixSum(Tally(c, xs), n) == Below(c, xs, n)
  {
    if xs == [] {
      PrefixZero(Tally(c, xs), n);
    } else {
      var m := |xs| - 1;
      assert xs[m] in xs;
      PrefixTally(c, xs[..m], n);
      PrefixBump(Tally(c, xs[..m]), Index(c, xs[m]), n);
    }
  }

  lemma {:induction false} BelowConcat(c: Config, xs: seq<nat>, ys: seq<nat>, n: nat)
    requires Sane(c)
    ensures Below(c, xs + ys, n) == Below(c, xs, n) + Below(c, ys, n)
  {
    if ys == [] {
      assert xs + ys == xs;
    } else {
      var m := |ys| - 1;
      assert (xs + ys)[..|xs| + m] == xs + ys[..m];
      BelowConcat(c, xs, ys[..m], n);
    }
  }

  lemma Cancel(a: multiset<nat>, b: multiset<nat>, x: nat)
    requires a + multiset{x} == b + multiset{x}
    ensures a == b
  {
    assert a == (a + multiset{x}) - multiset{x};
    assert b == (b + multiset{x}) - multiset{x};
  }

  lemma WithoutOne(xs: seq<nat>, ys: seq<nat>, j: nat)
    requires multiset(xs) == multiset(ys) && xs != [] && j < |ys| && ys[j] == xs[|xs| - 1]
    ensures multiset(xs[..|xs| - 1]) == multiset(ys[..j] + ys[j + 1..])
  {
    var zs, x := xs[..|xs| - 1], ys[j];
    assert xs == zs + [x];
    assert ys == ys[..j] + ([x] + ys[j + 1..]);
    Cancel(multiset(zs), multiset(ys[..j]) + multiset(ys[j + 1..]), x);
  }

  /** The order of the samples does not matter. */
  lemma {:induction false} BelowPermutes(c: Config, xs: seq<nat>, ys: seq<nat>, n: nat)
    requires Sane(c) && multiset(xs) == multiset(ys)
    ensures Below(c, xs, n) == Below(c, ys, n) && |xs| == |ys|
  {
    if xs == [] {
      assert |multiset(ys)| == 0;
    } else {
      var m := |xs| - 1;
      var x := xs[m];
      assert x in multiset(ys);
      var j :| 0 <= j < |ys| && ys[j] == x;
      var before, after := ys[..j], ys[j + 1..];
      WithoutOne(xs, ys, j);
      assert ys == before + ([x] + after);
      BelowPermutes(c, xs[..m], before + after, n);
      BelowConcat(c, before, [x] + after, n);
      BelowConcat(c, [x], after, n);
      BelowConcat(c, before, after, n);
      assert [x][..0] == [];
    }
  }

  predicate Sorted(ys: seq<nat>) {
    forall i, j :: 0 <= i <= j < |ys| ==> ys[i] <= ys[j]
  }

  lemma {:induction false} BelowAtMost(c: Config, ys: seq<nat>, n: nat)
    requires Sane(c)
    ensures Below(c, ys, n) <= |ys|
  {
    if ys != [] { BelowAtMost(c, ys[..|ys| - 1], n); }
  }

  /** In sorted order, at least `k` samples lie below an index exactly if the k-th does. */
  lemma {:induction false} SortedRank(c: Config, ys: seq<nat>, k: nat, n: nat)
    requires Sane(c) && Sorted(ys) && 1 <= k <= |ys|
    ensures Below(c, ys, n) >= k <==> Index(c, ys[k - 1]) < n
  {
    var m := |ys| - 1;
    var zs := ys[..m];
    IndexMonotone(c, ys[k - 1], ys[m]);
    BelowAtMost(c, zs, n);
    if k <= m {
      SortedRank(c, zs, k, n);
    } else if m > 0 {
      IndexMonotone(c, ys[m - 1], ys[m]);
      SortedRank(c, zs, m, n);
    }
  }

  /** Percentile refines sorting: the index where the running count reaches rank `k` is that of the
      k-th smallest sample, whatever order the samples came in. */
  lemma RankIsSorted(c: Config, xs: seq<nat>, ys: seq<nat>, k: nat, i: nat)
    requires Sane(c) && Fits(c, xs) && multiset(xs) == multiset(ys) && Sorted(ys) && 1 <= k <= |ys|
    requires i < Length(c) && PrefixSum(Tally(c, xs), i) < k <= PrefixSum(Tally(c, xs), i + 1)
    ensures i == Index(c, ys[k - 1])
  {
    PrefixTally(c, xs, i);
    PrefixTally(c, xs, i + 1);
    BelowPermutes(c, xs, ys, i);
    BelowPermutes(c, xs, ys, i + 1);
    SortedRank(c, ys, k, i);
    SortedRank(c, ys, k, i + 1);
  }

  lemma RankedValue(c: Config, xs: seq<nat>, ys: seq<nat>, k: nat, i: nat)
    requires Sane(c) && Fits(c, xs) && multiset(xs) == multiset(ys) && Sorted(ys) && 1 <= k <= |ys|
    requires i < Length(c) && PrefixSum(Tally(c, xs), i) < k <= PrefixSum(Tally(c, xs), i + 1)
    ensures ValueAt(c, i) == ValueAt(c, Index(c, ys[k - 1]))
    ensures c.unit == 0 ==> WithinError(c, ys[k - 1], ValueAt(c, i))
  {
    RankIsSorted(c, xs, ys, k, i);
    if c.unit == 0 { CodingError(c, ys[k - 1]); }
  }

  lemma {:induction false} BelowAll(c: Config, xs: seq<nat>)
    requires Sane(c) && Fits(c, xs)
    ensures Below(c, xs, Length(c)) == |xs|
  {
    if xs != [] {
      assert xs[|xs| - 1] in xs;
      BelowAll(c, xs[..|xs| - 1]);
    }
  }

  // ---------------------------------------------------------------- weighted sum

  function SumOf(xs: seq<nat>): nat {
    if xs == [] then 0 else SumOf(xs[..|xs| - 1]) + xs[|xs| - 1]
  }

  /** What the samples are reported as, added up. */
  function Reported(c: Config, xs: seq<nat>): nat
    requires Sane(c)
  {
    if xs == [] then 0 else Reported(c, xs[..|xs| - 1]) + ValueAt(c, Index(c, xs[|xs| - 1]))
  }

  /** Counts weighted with the values of their indices. */
  function WeightSum(c: Config, s: seq<nat>, n: nat): nat
    requires Sane(c) && n <= |s|
  {
    if n == 0 then 0
    else
      MulNat(ValueAt(c, n - 1), s[n - 1]);
      WeightSum(c, s, n - 1) + ValueAt(c, n - 1) * s[n - 1]
  }

  lemma WeightNext(c: Config, s: seq<nat>, n: nat, weight: nat)
    requires Sane(c) && n < |s| && weight == ValueAt(c, n)
    ensures WeightSum(c, s, n + 1) == WeightSum(c, s, n) + weight * s[n]
    ensures s[n] == 0 ==> WeightSum(c, s, n + 1) == WeightSum(c, s, n)
  {
  }

  lemma {:induction false} WeightBump(c: Config, s: seq<nat>, i: nat, n: nat)
    requires Sane(c) && i < |s| && n <= |s|
    ensures WeightSum(c, Bump(s, i), n) == WeightSum(c, s, n) + if i < n then ValueAt(c, i) else 0
  {
    if n > 0 {
      WeightBump(c, s, i, n - 1);
      assert i == n - 1 ==> ValueAt(c, i) * (s[i] + 1) == ValueAt(c, i) * s[i] + ValueAt(c, i);
    }
  }

  lemma {:induction false} WeightZero(c: Config, s: seq<nat>, n: nat)
    requires Sane(c) && n <= |s| && forall i :: 0 <= i < |s| ==> s[i] == 0
    ensures WeightSum(c, s, n) == 0
  {
    if n > 0 { WeightZero(c, s, n - 1); }
  }

  lemma {:induction false} WeightTally(c: Config, xs: seq<nat>)
    requires Sane(c) && Fits(c, xs)
    ensures WeightSum(c, Tally(c, xs), Length(c)) == Reported(c, xs)
  {
    if xs == [] {
      WeightZero(c, Tally(c, xs), Length(c));
    } else {
      var m := |xs| - 1;
      assert xs[m] in xs;
      WeightTally(c, xs[..m]);
      WeightBump(c, Tally(c, xs[..m]), Index(c, xs[m]), Length(c));
    }
  }

  lemma ReportedOne(c: Config, v: nat)
    requires Sane(c) && c.unit == 0
    ensures v < ValueAt(c, Index(c, v))
    ensures Half(c) * ValueAt(c, Index(c, v)) <= (Half(c) + 2) * v + Half(c)
  {
    CodingError(c, v);
    var r := ValueAt(c, Index(c, v));
    assert Half(c) * r == (r - v) * Half(c) + Half(c) * v;
    assert (Half(c) + 2) * v == Half(c) * v + 2 * v;
  }

  /** The reported sum exceeds the true one by at most one per sample and 2/half of it. */
  lemma {:induction false} ReportedBounds(c: Config, xs: seq<nat>)
    requires Sane(c) && c.unit == 0
    ensures SumOf(xs) + |xs| <= Reported(c, xs)
    ensures Half(c) * Reported(c, xs) <= (Half(c) + 2) * SumOf(xs) + Half(c) * |xs|
  {
    if xs != [] {
      var m := |xs| - 1;
      ReportedBounds(c, xs[..m]);
      ReportedOne(c, xs[m]);
      BoundsAdd(Half(c), Reported(c, xs[..m]), ValueAt(c, Index(c, xs[m])), SumOf(xs[..m]), xs[m], m);
    }
  }

  lemma BoundsAdd(h: nat, r: nat, r1: nat, s: nat, s1: nat, m: nat)
    requires h * r <= (h + 2) * s + h * m && h * r1 <= (h + 2) * s1 + h
    ensures h * (r + r1) <= (h + 2) * (s + s1) + h * (m + 1)
  {
    assert h * (r + r1) == h * r + h * r1;
    assert (h + 2) * (s + s1) == (h + 2) * s + (h + 2) * s1;
    assert h * (m + 1) == h * m + h;
  }

  // ---------------------------------------------------------------- extremes

  const UINT64_MAX: nat := 0xFFFF_FFFF_FFFF_FFFF

  function Lesser(a: nat, b: nat): nat { if b < a then b else a }

  function Greater(a: nat, b: nat): nat { if b > a then b else a }

  function MinOf(xs: seq<nat>): nat {
    if xs == [] then UINT64_MAX else Lesser(MinOf(xs[..|xs| - 1]), xs[|xs| - 1])
  }

  function MaxOf(xs: seq<nat>): nat {
    if xs == [] then 0 else Greater(MaxOf(xs[..|xs| - 1]), xs[|xs| - 1])
  }

  lemma {:induction false} ExtremesConcat(xs: seq<nat>, ys: seq<nat>)
    ensures MinOf(xs + ys) == Lesser(MinOf(xs), MinOf(ys)) && MaxOf(xs + ys) == Greater(MaxOf(xs), MaxOf(ys))
  {
    if ys == [] {
      assert xs + ys == xs;
      MinAtMost(xs);
    } else {
      var m := |ys| - 1;
      assert (xs + ys)[..|xs| + m] == xs + ys[..m];
      ExtremesConcat(xs, ys[..m]);
    }
  }

  lemma {:induction false} MinAtMost(xs: seq<nat>)
    ensures MinOf(xs) <= UINT64_MAX
  {
    if xs != [] { MinAtMost(xs[..|xs| - 1]); }
  }

  /** They are the extremes: attained, and bounds of every sample. */
  lemma {:induction false} ExtremesAre(xs: seq<nat>)
    requires xs != [] && forall x :: x in xs ==> x <= UINT64_MAX
    ensures MinOf(xs) in xs && MaxOf(xs) in xs
    ensures forall x :: x in xs ==> MinOf(xs) <= x <= MaxOf(xs)
  {
    var m := |xs| - 1;
    var zs := xs[..m];
    assert xs == zs + [xs[m]];
    assert xs[m] in xs;
    if zs != [] {
      assert forall x :: x in zs ==> x in xs;
      ExtremesAre(zs);
    }
  }

  /** The least and the greatest value of an index with a count, starting from `m`. */
  function LeastFrom(c: Config, s: seq<nat>, n: nat, m: nat): nat
    requires Sane(c) && n <= |s|
  {
    if n == 0 then m
    else
      var before := LeastFrom(c, s, n - 1, m);
      if s[n - 1] == 0 then before else Lesser(before, ValueAt(c, n - 1))
  }

  function GreatestFrom(c: Config, s: seq<nat>, n: nat, m: nat): nat
    requires Sane(c) && n <= |s|
  {
    if n == 0 then m
    else
      var before := GreatestFrom(c, s, n - 1, m);
      if s[n - 1] == 0 then before else Greater(before, ValueAt(c, n - 1))
  }

  /** Index `i` has a count, and `m` is the value it stands for. */
  ghost predicate CountedAs(c: Config, s: seq<nat>, i: nat, m: nat)
    requires Sane(c)
  {
    i < |s| && s[i] > 0 && m == ValueAt(c, i)
  }

  /** `m` is the least of `start` and the values with a count. */
  ghost predicate IsLeast(c: Config, s: seq<nat>, start: nat, m: nat)
    requires Sane(c)
  {
    && m <= start && (m == start || exists i :: CountedAs(c, s, i, m))
    && forall i :: 0 <= i < |s| && s[i] > 0 ==> m <= ValueAt(c, i)
  }

  /** `m` is the greatest of `start` and the values with a count. */
  ghost predicate IsGreatest(c: Config, s: seq<nat>, start: nat, m: nat)
    requires Sane(c)
  {
    && m >= start && (m == start || exists i :: CountedAs(c, s, i, m))
    && forall i :: 0 <= i < |s| && s[i] > 0 ==> ValueAt(c, i) <= m
  }

  lemma {:induction false} LeastIs(c: Config, s: seq<nat>, start: nat)
    requires Sane(c)
    ensures IsLeast(c, s, start, LeastFrom(c, s, |s|, start))
  {
    if s != [] {
      var n := |s| - 1;
      LeastIs(c, s[..n], start);
      ExtremesFrame(c, s, n, start, start);
      var before := LeastFrom(c, s, n, start);
      if before != start {
        var i :| CountedAs(c, s[..n], i, before);
        assert CountedAs(c, s, i, before);
      }
      assert s[n] > 0 ==> CountedAs(c, s, n, ValueAt(c, n));
      assert forall i :: 0 <= i < n ==> s[..n][i] == s[i];
    }
  }

  lemma {:induction false} GreatestIs(c: Config, s: seq<nat>, start: nat)
    requires Sane(c)
    ensures IsGreatest(c, s, start, GreatestFrom(c, s, |s|, start))
  {
    if s != [] {
      var n := |s| - 1;
      GreatestIs(c, s[..n], start);
      ExtremesFrame(c, s, n, start, start);
      var before := GreatestFrom(c, s, n, start);
      if before != start {
        var i :| CountedAs(c, s[..n], i, before);
        assert CountedAs(c, s, i, before);
      }
      assert s[n] > 0 ==> CountedAs(c, s, n, ValueAt(c, n));
      assert forall i :: 0 <= i < n ==> s[..n][i] == s[i];
    }
  }

  lemma ExtremesFrame(c: Config, s: seq<nat>, n: nat, lo: nat, hi: nat)
    requires Sane(c) && n <= |s|
    ensures LeastFrom(c, s[..n], n, lo) == LeastFrom(c, s, n, lo)
    ensures GreatestFrom(c, s[..n], n, hi) == GreatestFrom(c, s, n, hi)
  {
    PrefixFrame(c, s[..n], s, n, lo, hi);
  }

  /** The first `n` counts decide the sums and extremes over them. */
  lemma {:induction false} PrefixFrame(c: Config, s: seq<nat>, t: seq<nat>, n: nat, lo: nat, hi: nat)
    requires Sane(c) && n <= |s| && n <= |t| && forall j :: 0 <= j < n ==> s[j] == t[j]
    ensures PrefixSum(s, n) == PrefixSum(t, n)
    ensures LeastFrom(c, s, n, lo) == LeastFrom(c, t, n, lo) && GreatestFrom(c, s, n, hi) == GreatestFrom(c, t, n, hi)
  {
    if n > 0 { PrefixFrame(c, s, t, n - 1, lo, hi); }
  }

  lemma {:induction false} ZerosCountNothing(c: Config, s: seq<nat>, n: nat, m: nat, lo: nat, hi: nat)
    requires Sane(c) && n <= m <= |s| && forall j :: n <= j < m ==> s[j] == 0
    ensures PrefixSum(s, m) == PrefixSum(s, n)
    ensures LeastFrom(c, s, m, lo) == LeastFrom(c, s, n, lo) && GreatestFrom(c, s, m, hi) == GreatestFrom(c, s, n, hi)
  {
    if n < m { ZerosCountNothing(c, s, n, m - 1, lo, hi); }
  }
}
