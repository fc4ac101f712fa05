/**
  Windowed latency sampling (kv_hist_merge_snapshot in src/hist.h and latency_window_sample in
  src/kv_bench.cpp): counts are read one at a time while the workers go on recording.
 */
module LatencyWindows {
  import opened HistCoding
  import opened HistSamples
  import opened Histograms

  /** Counts only grow while samples are recorded. */
  predicate Grows(a: seq<seq<nat>>, b: seq<seq<nat>>) {
    |a| == |b| && forall w :: 0 <= w < |a| ==> AtMost(a[w], b[w])
  }

  predicate AtMost(s: seq<nat>, t: seq<nat>) {
    |s| == |t| && forall i :: 0 <= i < |s| ==> s[i] <= t[i]
  }

  /** Recording is such growth. */
  lemma {:induction false} RecordingGrows(c: Config, xs: seq<nat>, more: seq<nat>)
    requires Sane(c) && Fits(c, xs) && Fits(c, more)
    ensures Fits(c, xs + more) && AtMost(Tally(c, xs), Tally(c, xs + more))
  {
    TallyConcat(c, xs, more);
  }

  /** The counts of the workers' histograms, as the workers keep changing them. */
  class Recorders {
    var live: seq<seq<nat>>

    constructor (live: seq<seq<nat>>)
      ensures this.live == live
    {
      this.live := live;
    }

    /** The workers record any samples. */
    method Act()
      modifies this
      ensures Grows(old(live), live)
    {
      var next: seq<seq<nat>> := *;
      if Grows(live, next) {
        live := next;
      }
    }
  }

  /** Adds the counts of worker `w`, each as it is when its turn comes, up to the shorter length; `taken` are
      the counts read. */
  method MergeSnapshot(dst: Hist, env: Recorders, w: nat) returns (ghost taken: seq<nat>)
    requires dst.Shaped() && w < |env.live|
    modifies dst, dst.counts, env
    ensures Grows(old(env.live), env.live) && |taken| == Lesser(|old(env.live)[w]|, dst.counts.Length)
    ensures forall j :: 0 <= j < |taken| ==> old(env.live)[w][j] <= taken[j] <= env.live[w][j]
    ensures forall j :: 0 <= j < dst.counts.Length ==>
      dst.counts[j] == old(dst.counts[j]) + if j < |taken| then taken[j] else 0
    ensures dst.total == old(dst.total) + PrefixSum(taken, |taken|)
    ensures IsLeast(dst.c, taken, old(dst.min), dst.min) && IsGreatest(dst.c, taken, old(dst.max), dst.max)
  {
    hide ValueAt, Length, IsLeast, IsGreatest;
    taken := [];
    var n, i := Lesser(|env.live[w]|, dst.counts.Length), 0;
    while i < n
      invariant i <= n && |taken| == i && Grows(old(env.live), env.live)
      invariant forall j :: 0 <= j < i ==> old(env.live)[w][j] <= taken[j] <= env.live[w][j]
      invariant forall j :: 0 <= j < i ==> dst.counts[j] == old(dst.counts[j]) + taken[j]
      invariant forall j :: i <= j < dst.counts.Length ==> dst.counts[j] == old(dst.counts[j])
      invariant dst.total == old(dst.total) + PrefixSum(taken, i)
      invariant dst.min == LeastFrom(dst.c, taken, i, old(dst.min))
      invariant dst.max == GreatestFrom(dst.c, taken, i, old(dst.max))
    {
      env.Act();
      var x := env.live[w][i];
      dst.Note(i, x);
      PrefixFrame(dst.c, taken + [x], taken, i, old(dst.min), old(dst.max));
      taken := taken + [x];
      i := i + 1;
    }
    LeastIs(dst.c, taken, old(dst.min));
    GreatestIs(dst.c, taken, old(dst.max));
  }

  // ---------------------------------------------------------------- all workers together

  /** The count at index `i` over the first `n` workers. */
  function Column(live: seq<seq<nat>>, i: nat, n: nat): nat
    requires n <= |live| && forall w :: 0 <= w < |live| ==> i < |live[w]|
  {
    if n == 0 then 0 else Column(live, i, n - 1) + live[n - 1][i]
  }

  ghost predicate Even(live: seq<seq<nat>>, length: nat) {
    forall w :: 0 <= w < |live| ==> |live[w]| == length
  }

  lemma {:induction false} ColumnGrows(a: seq<seq<nat>>, b: seq<seq<nat>>, i: nat, n: nat, length: nat)
    requires Grows(a, b) && Even(a, length) && i < length && n <= |a|
    ensures Even(b, length) && Column(a, i, n) <= Column(b, i, n)
  {
    EvenGrows(a, b, length);
    if n > 0 {
      ColumnGrows(a, b, i, n - 1, length);
      assert AtMost(a[n - 1], b[n - 1]);
    }
  }

  /** A snapshot lies between the counts before it and the counts after it. */
  ghost predicate Between(before: seq<seq<nat>>, s: seq<nat>, after: seq<seq<nat>>, n: nat, length: nat) {
    && Even(before, length) && Even(after, length) && n <= |before| == |after| && |s| == length
    && forall i :: 0 <= i < length ==> Column(before, i, n) <= s[i] <= Column(after, i, n)
  }

  lemma BetweenNext(before: seq<seq<nat>>, s: seq<nat>, mid: seq<seq<nat>>, taken: seq<nat>, t: seq<nat>,
          after: seq<seq<nat>>, n: nat, length: nat)
    requires Between(before, s, mid, n, length) && n < |before| && Grows(before, mid) && Grows(mid, after)
    requires AtMost(mid[n], taken) && AtMost(taken, after[n])
    requires |t| == length && forall i :: 0 <= i < length ==> t[i] == s[i] + taken[i]
    ensures Between(before, t, after, n + 1, length)
  {
    assert AtMost(before[n], mid[n]);
    EvenGrows(mid, after, length);
    forall i | 0 <= i < length ensures Column(before, i, n + 1) <= t[i] <= Column(after, i, n + 1) {
      ColumnGrows(mid, after, i, n, length);
    }
  }

  /** Two snapshots one after the other: the later has no smaller count. */
  lemma SnapshotsGrow(s: seq<nat>, mid: seq<seq<nat>>, start: seq<seq<nat>>, t: seq<nat>, after: seq<seq<nat>>,
          length: nat)
    requires Even(mid, length) && Grows(mid, start) && Between(start, t, after, |start|, length)
    requires |s| == length && forall i :: 0 <= i < length ==> s[i] <= Column(mid, i, |mid|)
    ensures AtMost(s, t)
  {
    forall i | 0 <= i < length ensures s[i] <= t[i] {
      ColumnGrows(mid, start, i, |mid|, length);
    }
  }

  class LatencyWindow {
    const env: Recorders
    const current: Hist
    const previous: Hist
    const interval: Hist

    ghost predicate Apart()
      reads this, current, previous, interval, current.counts, previous.counts, interval.counts
    {
      && current.Shaped() && previous.Shaped() && interval.Shaped() && current.c == previous.c == interval.c
      && current != previous && current != interval && previous != interval
      && current.counts != previous.counts && current.counts != interval.counts && previous.counts != interval.counts
    }

    /** No count of the last snapshot exceeds what the workers have recorded. */
    ghost predicate Valid()
      reads this, env, current, previous, interval, current.counts, previous.counts, interval.counts
    {
      && Apart() && Even(env.live, previous.counts.Length)
      && forall i :: 0 <= i < previous.counts.Length ==> previous.counts[i] <= Column(env.live, i, |env.live|)
    }

    constructor (c: Config, env: Recorders)
      requires Sane(c) && Even(env.live, Length(c))
      ensures Valid() && this.env == env && previous.c == c
      ensures forall i :: 0 <= i < previous.counts.Length ==> previous.counts[i] == 0
      ensures fresh(current) && fresh(previous) && fresh(interval) && fresh(current.counts) && fresh(previous.counts)
      ensures fresh(interval.counts)
    {
      this.env := env;
      current := new Hist(c);
      previous := new Hist(c);
      interval := new Hist(c);
    }

    /** Reads all counts of all workers into `current`. */
    method Snapshot()
      requires Apart() && Even(env.live, current.counts.Length)
      modifies env, current, current.counts
      ensures Apart() && Grows(old(env.live), env.live)
      ensures Between(old(env.live), current.counts[..], env.live, |env.live|, current.counts.Length)
    {
      current.Reset();
      var w := 0;
      while w < |env.live|
        invariant w <= |env.live| && Apart() && Grows(old(env.live), env.live)
        invariant Between(old(env.live), current.counts[..], env.live, w, current.counts.Length)
      {
        ghost var s, mid := current.counts[..], env.live;
        ghost var taken := MergeSnapshot(current, env, w);
        assert AtMost(mid[w], env.live[w]);
        BetweenNext(old(env.live), s, mid, taken, current.counts[..], env.live, w, current.counts.Length);
        GrowsTrans(old(env.live), mid, env.live);
        w := w + 1;
      }
    }

    /** One sampling interval: what it reports is exactly what was added since the last one. */
    method Sample()
      requires Valid()
      modifies env, current, previous, interval, current.counts, previous.counts, interval.counts
      ensures Valid() && Grows(old(env.live), env.live)
      ensures Between(old(env.live), previous.counts[..], env.live, |env.live|, previous.counts.Length)
      ensures AtMost(old(previous.counts[..]), previous.counts[..])
      ensures forall i :: 0 <= i < previous.counts.Length ==>
        old(previous.counts[i]) + interval.counts[i] == previous.counts[i]
      ensures interval.total == PrefixSum(interval.counts[..], interval.counts.Length)
    {
      Snapshot();
      SnapshotsGrow(previous.counts[..], old(env.live), old(env.live), current.counts[..], env.live,
                    previous.counts.Length);
      interval.Delta(current, previous);
      previous.Copy(current);
    }

    /** Workers record between samples as well. */
    method Pass()
      requires Valid()
      modifies env
      ensures Valid() && Grows(old(env.live), env.live)
    {
      env.Act();
      EvenGrows(old(env.live), env.live, previous.counts.Length);
      forall i | 0 <= i < previous.counts.Length
        ensures Column(old(env.live), i, |env.live|) <= Column(env.live, i, |env.live|)
      {
        ColumnGrows(old(env.live), env.live, i, |env.live|, previous.counts.Length);
      }
    }

    /** Any number of intervals, index by index: together they are the last snapshot less the first,
        so no sample is lost or reported twice. */
    method Watch(rounds: nat) returns (ghost intervals: seq<seq<nat>>)
      requires Valid()
      modifies env, current, previous, interval, current.counts, previous.counts, interval.counts
      ensures Valid() && |intervals| == rounds && Even(intervals, previous.counts.Length)
      ensures forall i :: 0 <= i < previous.counts.Length ==>
        old(previous.counts[i]) + Column(intervals, i, rounds) == previous.counts[i]
    {
      intervals := [];
      for k := 0 to rounds
        invariant Valid() && |intervals| == k && Even(intervals, previous.counts.Length)
        invariant forall i :: 0 <= i < previous.counts.Length ==>
          old(previous.counts[i]) + Column(intervals, i, k) == previous.counts[i]
      {
        Pass();
        Sample();
        ghost var t := interval.counts[..];
        forall i | 0 <= i < previous.counts.Length
          ensures Column(intervals + [t], i, k + 1) == Column(intervals, i, k) + t[i]
        {
          ColumnPush(intervals, t, i, k, previous.counts.Length);
        }
        intervals := intervals + [t];
      }
    }
  }

  lemma EvenGrows(a: seq<seq<nat>>, b: seq<seq<nat>>, length: nat)
    requires Grows(a, b) && Even(a, length)
    ensures Even(b, length)
  {
    forall w | 0 <= w < |b| ensures |b[w]| == length { assert AtMost(a[w], b[w]); }
  }

  lemma {:induction false} ColumnPush(s: seq<seq<nat>>, t: seq<nat>, i: nat, n: nat, length: nat)
    requires Even(s, length) && |t| == length && i < length && n <= |s|
    ensures Even(s + [t], length) && Column(s + [t], i, n) == Column(s, i, n)
    ensures Column(s + [t], i, |s| + 1) == Column(s + [t], i, |s|) + t[i]
  {
    assert forall w :: 0 <= w < |s| ==> (s + [t])[w] == s[w];
    if n > 0 { ColumnPush(s, t, i, n - 1, length); }
  }

  lemma GrowsTrans(a: seq<seq<nat>>, b: seq<seq<nat>>, d: seq<seq<nat>>)
    requires Grows(a, b) && Grows(b, d)
    ensures Grows(a, d)
  {
    forall w | 0 <= w < |a| ensures AtMost(a[w], d[w]) {
      assert AtMost(a[w], b[w]) && AtMost(b[w], d[w]);
    }
  }
}
