/** The histogram of src/hist.h, updated in place. */
module Histograms {
  import opened HistCoding
  import opened HistSamples

  function Clamp(c: Config, v: nat): (r: nat)
    requires Sane(c)
    ensures c.lowest <= v <= c.highest ==> r == v
    ensures v < c.lowest ==> r == c.lowest
    ensures v > c.highest ==> r == c.highest
  {
    if v < c.lowest then c.lowest else if v > c.highest then c.highest else v
  }

  /** The number of samples a percentile asks for, as a real number. */
  function Share(percentile: real, n: nat): real {
    (if percentile > 100.0 then 100.0 else percentile) / 100.0 * n as real
  }

  /** The rank a percentile asks for among `n` samples: that number, rounded, and at least 1. */
  function Rank(percentile: real, n: nat): (k: nat)
    requires percentile >= 0.0 && n > 0
    ensures 1 <= k <= n
    ensures k as real - 0.5 <= Share(percentile, n) < k as real + 0.5 || (k == 1 && Share(percentile, n) < 0.5)
  {
    var requested := if percentile > 100.0 then 100.0 else percentile;
    assert 0.0 <= requested / 100.0 <= 1.0;
    ShareOf(requested / 100.0, n);
    var k := (requested / 100.0 * n as real + 0.5).Floor;
    assert k as real <= n as real + 0.5;
    if k == 0 then 1 else k
  }

  /** Higher percentiles ask for no lower ranks. */
  lemma RankMonotone(p: real, q: real, n: nat)
    requires 0.0 <= p <= q && n > 0
    ensures Rank(p, n) <= Rank(q, n)
  {
    hide Rank;
    ShareMonotone(p, q, n);
  }

  lemma ShareMonotone(p: real, q: real, n: nat)
    requires 0.0 <= p <= q
    ensures Share(p, n) <= Share(q, n)
  {
    var a, b := if p > 100.0 then 100.0 else p, if q > 100.0 then 100.0 else q;
    ScaleMonotone(a / 100.0, b / 100.0, n as real);
  }

  lemma ScaleMonotone(a: real, b: real, x: real)
    requires a <= b && x >= 0.0
    ensures a * x <= b * x
  {
  }

  /** And what is reported for them is no less. */
  lemma PercentilesRise(c: Config, ys: seq<nat>, p: real, q: real)
    requires Sane(c) && Sorted(ys) && ys != [] && 0.0 <= p <= q
    ensures ValueAt(c, Index(c, ys[Rank(p, |ys|) - 1])) <= ValueAt(c, Index(c, ys[Rank(q, |ys|) - 1]))
  {
    hide Rank, ValueAt, Index;
    RankMonotone(p, q, |ys|);
    ReportedMonotone(c, ys[Rank(p, |ys|) - 1], ys[Rank(q, |ys|) - 1]);
  }

  lemma ShareOf(f: real, n: nat)
    requires 0.0 <= f <= 1.0
    ensures 0.0 <= f * n as real <= n as real
  {
  }

  class Hist {
    const c: Config
    const counts: array<nat>
    var total: nat
    var min: nat
    var max: nat
    ghost var samples: seq<nat>   // what was recorded, after clamping

    ghost predicate Shaped()
      reads this, counts
    {
      Sane(c) && counts.Length == Length(c)
    }

    /** The fields are exactly what the recorded samples make them. */
    ghost predicate Valid()
      reads this, counts
    {
      && Shaped() && Fits(c, samples) && counts[..] == Tally(c, samples)
      && total == |samples| && min == MinOf(samples) && max == MaxOf(samples)
    }

    constructor (c: Config)
      requires Sane(c)
      ensures Valid() && fresh(counts) && this.c == c && samples == []
    {
      this.c := c;
      counts := new nat[Length(c)](_ => 0);
      total, min, max := 0, UINT64_MAX, 0;
      samples := [];
    }

    method Reset()
      requires Shaped()
      modifies this, counts
      ensures Valid() && samples == []
      ensures total == 0 && min == UINT64_MAX && max == 0 && forall j :: 0 <= j < counts.Length ==> counts[j] == 0
    {
      for i := 0 to counts.Length
        invariant forall j :: 0 <= j < i ==> counts[j] == 0
      {
        counts[i] := 0;
      }
      total, min, max := 0, UINT64_MAX, 0;
      samples := [];
      assert counts[..] == Tally(c, []);
    }

    /** Counts a clamped value; one whose index lies outside the array is dropped. */
    method Record(value: nat)
      requires Valid()
      modifies this, counts
      ensures Valid()
      ensures samples == old(samples) + if Index(c, Clamp(c, value)) < Length(c) then [Clamp(c, value)] else []
      ensures c.unit == 0 && Covers(c) ==> samples == old(samples) + [Clamp(c, value)]
    {
      hide Index, Clamp, Covers, Length, Tally;
      var v := Clamp(c, value);
      var index := Index(c, v);
      if c.unit == 0 && Covers(c) {
        NothingDropped(c, v);
      }
      if index >= counts.Length {
        return;
      }
      TallySnoc(c, samples, v);
      assert (samples + [v])[..|samples|] == samples;
      counts[index] := counts[index] + 1;
      total := total + 1;
      if v < min {
        min := v;
      }
      if v > max {
        max := v;
      }
      samples := samples + [v];
    }

    /** Adds counts index by index, up to the shorter length. */
    method AddCounts(src: Hist)
      modifies counts
      ensures forall j :: 0 <= j < counts.Length ==>
        counts[j] == old(counts[j]) + if j < src.counts.Length then old(src.counts[j]) else 0
    {
      var n := Lesser(src.counts.Length, counts.Length);
      for i := 0 to n
        invariant forall j :: 0 <= j < i ==> counts[j] == old(counts[j]) + old(src.counts[j])
        invariant forall j :: i <= j < counts.Length ==> counts[j] == old(counts[j])
      {
        var x := src.counts[i];
        if x != 0 {
          counts[i] := counts[i] + x;
        }
      }
    }

    /** Adds another histogram, whose counts beyond the own length are cut off.  With the same layout the
        result is that of all samples together. */
    method Merge(src: Hist)
      modifies this, counts
      ensures forall j :: 0 <= j < counts.Length ==>
        counts[j] == old(counts[j]) + if j < src.counts.Length then old(src.counts[j]) else 0
      ensures total == old(total) + old(src.total)
      ensures min == Lesser(old(min), old(src.min)) && max == Greater(old(max), old(src.max))
      ensures samples == old(samples) + old(src.samples)
      ensures old(Valid()) && old(src.Valid()) && src.c == c ==> Valid()
    {
      AddCounts(src);
      if old(Valid()) && old(src.Valid()) && src.c == c {
        TallyOfAll(c, samples, src.samples, counts[..]);
        ExtremesConcat(samples, src.samples);
      }
      total := total + src.total;
      if src.min < min {
        min := src.min;
      }
      if src.max > max {
        max := src.max;
      }
      samples := samples + src.samples;
    }

    /** The first index at which the running count reaches `rank`. */
    method Scan(rank: nat) returns (i: nat)
      requires 1 <= rank <= PrefixSum(counts[..], counts.Length)
      ensures i < counts.Length && PrefixSum(counts[..], i) < rank <= PrefixSum(counts[..], i + 1)
    {
      var running := 0;
      i := 0;
      while i < counts.Length
        invariant i <= counts.Length && running == PrefixSum(counts[..], i) < rank
      {
        running := running + counts[i];
        if running >= rank {
          return;
        }
        i := i + 1;
      }
      assert false;   // the rank does not exceed the total
    }

    lemma TotalIsSum()
      requires Valid()
      ensures PrefixSum(counts[..], counts.Length) == total
    {
      PrefixTally(c, samples, counts.Length);
      BelowAll(c, samples);
    }

    /** The value at which the running count reaches `rank`.  With `ys` the samples in sorted order, it is
        what is reported for the sample of that rank. */
    method ValueAtRank(rank: nat, ghost ys: seq<nat>) returns (r: nat)
      requires Valid() && 1 <= rank <= total && multiset(ys) == multiset(samples) && Sorted(ys)
      ensures |ys| == total && r == ValueAt(c, Index(c, ys[rank - 1]))
      ensures c.unit == 0 ==> WithinError(c, ys[rank - 1], r)
    {
      BelowPermutes(c, samples, ys, 0);
      TotalIsSum();
      var i := Scan(rank);
      RankedValue(c, samples, ys, rank, i);
      return ValueAt(c, i);
    }

    method ValueAtPercentile(percentile: real, ghost ys: seq<nat>) returns (r: nat)
      requires Valid() && percentile >= 0.0 && multiset(ys) == multiset(samples) && Sorted(ys)
      ensures total == 0 ==> r == 0
      ensures total > 0 ==> |ys| == total && r == ValueAt(c, Index(c, ys[Rank(percentile, total) - 1]))
      ensures total > 0 && c.unit == 0 ==> WithinError(c, ys[Rank(percentile, total) - 1], r)
    {
      if total == 0 {
        return 0;
      }
      r := ValueAtRank(Rank(percentile, total), ys);
    }

    method WeightedTotal() returns (s: nat)
      requires Shaped()
      ensures s == WeightSum(c, counts[..], counts.Length)
    {
      s := 0;
      for i := 0 to counts.Length
        invariant s == WeightSum(c, counts[..], i)
      {
        var x, value := counts[i], ValueAt(c, i);
        WeightNext(c, counts[..], i, value);
        if x != 0 {
          s := s + value * x;
        }
      }
    }

    /** The weighted sum of the counts over their number. */
    method Mean() returns (m: real, ghost sum: nat)
      requires Valid()
      ensures total == 0 ==> m == 0.0
      ensures total > 0 ==> m == sum as real / total as real
      ensures sum == Reported(c, samples)
      ensures c.unit == 0 ==> SumOf(samples) + total <= sum
      ensures c.unit == 0 ==> Half(c) * sum <= (Half(c) + 2) * SumOf(samples) + Half(c) * total
    {
      if c.unit == 0 { ReportedBounds(c, samples); }
      sum := Reported(c, samples);
      if total == 0 {
        return 0.0, sum;
      }
      WeightTally(c, samples);
      var s := WeightedTotal();
      m := s as real / total as real;
    }

    /** Takes over another histogram: cut off if it is longer, filled up with zeros if it is shorter. */
    method Copy(src: Hist)
      requires src.counts != counts
      modifies this, counts
      ensures forall j :: 0 <= j < counts.Length ==>
        counts[j] == if j < src.counts.Length then src.counts[j] else 0
      ensures src.counts.Length == counts.Length ==> counts[..] == src.counts[..]
      ensures total == src.total && min == src.min && max == src.max && samples == src.samples
      ensures src.Valid() && src.c == c && counts.Length == Length(c) ==> Valid()
    {
      var n := Lesser(src.counts.Length, counts.Length);
      for i := 0 to n
        invariant forall j :: 0 <= j < i ==> counts[j] == src.counts[j]
      {
        counts[i] := src.counts[i];
      }
      for i := n to counts.Length
        invariant forall j :: 0 <= j < n ==> counts[j] == src.counts[j]
        invariant forall j :: n <= j < i ==> counts[j] == 0
      {
        counts[i] := 0;
      }
      total, min, max, samples := src.total, src.min, src.max, src.samples;
    }

    /** Notes `added` samples at index `i`. */
    method Note(i: nat, added: nat)
      requires Shaped() && i < counts.Length
      modifies this`total, this`min, this`max, counts
      ensures counts[..] == old(counts[..])[i := old(counts[i]) + added] && total == old(total) + added
      ensures min == (if added == 0 then old(min) else Lesser(old(min), ValueAt(c, i)))
      ensures max == (if added == 0 then old(max) else Greater(old(max), ValueAt(c, i)))
    {
      if added == 0 {
        return;
      }
      counts[i] := counts[i] + added;
      total := total + added;
      var value := ValueAt(c, i);
      if value < min {
        min := value;
      }
      if value > max {
        max := value;
      }
    }

    /** The samples added between two snapshots, when the counts only grew, as far as all three arrays reach. */
    method Delta(current: Hist, previous: Hist)
      requires Shaped() && current.counts != counts && previous.counts != counts
      modifies this, counts
      ensures forall j :: 0 <= j < counts.Length ==> counts[j] == AddedAt(current.counts[..], previous.counts[..], j)
      ensures total == PrefixSum(counts[..], counts.Length)
      ensures IsLeast(c, counts[..], UINT64_MAX, min) && IsGreatest(c, counts[..], 0, max)
    {
      hide ValueAt, IsLeast, IsGreatest, Tally, Fits, MinOf, MaxOf;
      Reset();
      var n := Lesser(Lesser(current.counts.Length, previous.counts.Length), counts.Length);
      for i := 0 to n
        invariant forall j :: 0 <= j < i ==> counts[j] == Added(current.counts[j], previous.counts[j])
        invariant forall j :: i <= j < counts.Length ==> counts[j] == 0
        invariant total == PrefixSum(counts[..], i)
        invariant min == LeastFrom(c, counts[..], i, UINT64_MAX) && max == GreatestFrom(c, counts[..], i, 0)
      {
        ghost var before := counts[..];
        Note(i, Added(current.counts[i], previous.counts[i]));
        PrefixFrame(c, before, counts[..], i, UINT64_MAX, 0);
      }
      ZerosCountNothing(c, counts[..], n, counts.Length, UINT64_MAX, 0);
      LeastIs(c, counts[..], UINT64_MAX);
      GreatestIs(c, counts[..], 0);
    }
  }

  /** What a count grew by; a count that did not grow is taken to have been reset in between. */
  function Added(current: nat, previous: nat): (r: nat)
    ensures current >= previous ==> previous + r == current
    ensures current < previous ==> r == current
  {
    if current >= previous then current - previous else current
  }

  function AddedAt(current: seq<nat>, previous: seq<nat>, j: nat): nat {
    if j < |current| && j < |previous| then Added(current[j], previous[j]) else 0
  }
}
