/**
  What the pipelines saw of their events: a wait fails only if its event was seen without success, and a request
  stays in flight only if one of its events was seen to wait.
 */
module Sightings {
  import opened Collections
  import opened EventSlots
  import opened SendJettyPools
  import opened LaneSystem
  import opened Verdicts
  import opened UrmaManagers
  import opened RequestBooks
  import opened RequestFlow

  // ---------------------------------------------------------------- failed waits

  /** Each of these events was seen without success from state `from` of the run on. */
  ghost predicate AllMissed(run: seq<Sys>, from: int, w: nat, ks: set<Ticket>) {
    forall k :: k in ks ==> Missed(run, from, w, k)
  }

  lemma MissedNone(run: seq<Sys>, from: int, w: nat, g: set<Ticket>)
    ensures AllMissed(run, from, w, g - g)
  {
  }

  lemma MissedOne(run: seq<Sys>, from: int, w: nat, g: set<Ticket>, k: Ticket)
    requires Missed(run, from, w, k)
    ensures AllMissed(run, from, w, g + {k} - g)
  {
  }

  /** First the events of `g1`, by state `run1`, and then those of `g`. */
  lemma MissedJoin(run1: seq<Sys>, run: seq<Sys>, from: int, from1: int, w: nat, g0: set<Ticket>, g1: set<Ticket>,
          g: set<Ticket>)
    requires AllMissed(run1, from, w, g1 - g0) && AllMissed(run, from1, w, g - g1) && run1 <= run && from <= from1
    ensures AllMissed(run, from, w, g - g0)
  {
    forall k | k in g - g0 ensures Missed(run, from, w, k) {
      if k in g1 {
        MissedLater(run1, run, from, from, w, k);
      } else {
        assert k in g - g1;
        MissedLater(run, run, from1, from, w, k);
      }
    }
  }

  /** Time passes. */
  lemma MissedStill(run1: seq<Sys>, run: seq<Sys>, from: int, from1: int, w: nat, ks: set<Ticket>)
    requires AllMissed(run1, from1, w, ks) && run1 <= run && from <= from1
    ensures AllMissed(run, from, w, ks)
  {
    forall k | k in ks ensures Missed(run, from, w, k) {
      MissedLater(run1, run, from1, from, w, k);
    }
  }

  /** An event that had succeeded by then is not among them. */
  lemma SuccessNotMissed(run: seq<Sys>, from: nat, w: nat, k: Ticket)
    requires IsRun(run) && from < |run| && InitSys(run[0]) && StatusAt(run[from], w, k, Succeeded)
    ensures !Missed(run, from, w, k)
  {
    assert StatusFor(true) == Succeeded;
    if Saw(run, from, w, k, Waiting) { SawOnly(run, from, w, k, true, Waiting); }
    if Saw(run, from, w, k, Failed) { SawOnly(run, from, w, k, true, Failed); }
  }

  // ---------------------------------------------------------------- requests that end as an error in a get drain

  /** Something of the request was collected before, or an event of it was seen without success. */
  ghost predicate Excused(run: seq<Sys>, from: int, w: nat, s: Slot) {
    Sized(s) && exists n :: 0 <= n < WRS && (s.done[n] || Missed(run, from, w, s.token[n]))
  }

  lemma ExcusedNow(run: seq<Sys>, from: int, from1: int, w: nat, s: Slot, n: nat)
    requires Sized(s) && n < WRS && (s.done[n] || Missed(run, from1, w, s.token[n])) && from <= from1
    ensures Excused(run, from, w, s)
  {
    if !s.done[n] { MissedLater(run, run, from1, from, w, s.token[n]); }
  }

  lemma ExcusedStill(run1: seq<Sys>, run: seq<Sys>, from: int, from1: int, w: nat, s: Slot)
    requires Excused(run1, from1, w, s) && run1 <= run && from <= from1
    ensures Excused(run, from, w, s)
  {
    var n :| 0 <= n < WRS && (s.done[n] || Missed(run1, from1, w, s.token[n]));
    if !s.done[n] { MissedLater(run1, run, from1, from, w, s.token[n]); }
  }

  /** A request all of whose events had succeeded, with nothing collected, is not excused. */
  lemma ThroughNotExcused(run: seq<Sys>, from: nat, w: nat, s: Slot)
    requires IsRun(run) && from < |run| && InitSys(run[0]) && Sized(s)
    requires forall n :: 0 <= n < WRS ==> !s.done[n] && StatusAt(run[from], w, s.token[n], Succeeded)
    ensures !Excused(run, from, w, s)
  {
    forall n | 0 <= n < WRS ensures !Missed(run, from, w, s.token[n]) {
      SuccessNotMissed(run, from, w, s.token[n]);
    }
  }

  /** Every request of the list `active0` is still to be drained, or was kept, or is excused. */
  ghost predicate Accounted(run: seq<Sys>, from: int, w: nat, slots0: seq<Slot>, active0: seq<nat>, active: seq<nat>,
          kept: set<nat>)
  {
    forall i :: i in active0 ==> i in active || i in kept || (i < |slots0| && Excused(run, from, w, slots0[i]))
  }

  lemma AccountStarts(run: seq<Sys>, from: int, w: nat, slots0: seq<Slot>, active0: seq<nat>)
    ensures Accounted(run, from, w, slots0, active0, active0, {})
  {
  }

  lemma MovedHas(active: seq<nat>, i: nat)
    requires i in active && i != active[0]
    ensures i in Moved(active, 0)
  {
    var j :| 0 <= j < |active| && active[j] == i;
    assert Moved(active, 0)[if j == |active| - 1 then 0 else j] == i;
  }

  lemma AccountNext(run1: seq<Sys>, run: seq<Sys>, from: int, from1: int, w: nat, slots0: seq<Slot>, active0: seq<nat>,
          active: seq<nat>, kept: set<nat>, ok: bool)
    requires Accounted(run1, from, w, slots0, active0, active, kept) && active != [] && run1 <= run && from <= from1
    requires active[0] < |slots0| && (!ok ==> Excused(run, from1, w, slots0[active[0]]))
    ensures Accounted(run, from, w, slots0, active0, Moved(active, 0), if ok then kept + {active[0]} else kept)
  {
    hide Excused;
    var rest := Moved(active, 0);
    if !ok { ExcusedStill(run, run, from, from1, w, slots0[active[0]]); }
    forall i | i in active0 && i !in rest && i !in kept && i != active[0]
      ensures i < |slots0| && Excused(run, from, w, slots0[i])
    {
      if i in active { MovedHas(active, i); }
      ExcusedStill(run1, run, from, from, w, slots0[i]);
    }
  }

  // ---------------------------------------------------------------- requests in flight

  /** Of slot `s`, each of the first `n` work requests is done or its event was seen to wait. */
  ghost predicate Looked(run: seq<Sys>, from: int, w: nat, s: Slot, n: nat) {
    Sized(s) && n <= WRS && forall i :: 0 <= i < n && !s.done[i] ==> Saw(run, from, w, s.token[i], Waiting)
  }

  /** From `s0` to `s` work requests were collected. */
  ghost predicate Advanced(s0: Slot, s: Slot) {
    && Sized(s0) && Sized(s) && s == s0.(done := s.done, doneCnt := s.doneCnt)
    && forall i :: 0 <= i < WRS && s0.done[i] ==> s.done[i]
  }

  /** The request in `s0` advanced to `s`, and one of its events was seen to wait. */
  ghost predicate Busy(run: seq<Sys>, from: int, w: nat, s0: Slot, s: Slot) {
    && Advanced(s0, s) && s.doneCnt < WRS
    && exists i :: 0 <= i < WRS && !s.done[i] && Saw(run, from, w, s.token[i], Waiting)
  }

  lemma LookedNext(run1: seq<Sys>, run: seq<Sys>, from: int, from1: int, w: nat, s1: Slot, s: Slot, n: nat)
    requires Looked(run1, from, w, s1, n) && Advanced(s1, s) && n < WRS && run1 <= run && from <= from1
    requires !s.done[n] ==> Saw(run, from1, w, s.token[n], Waiting)
    ensures Looked(run, from, w, s, n + 1)
  {
    forall i | 0 <= i < n + 1 && !s.done[i] ensures Saw(run, from, w, s.token[i], Waiting) {
      if i < n {
        SawLater(run1, run, from, from, w, s.token[i], Waiting);
      } else {
        SawLater(run, run, from1, from, w, s.token[i], Waiting);
      }
    }
  }

  lemma AdvancedTwice(s0: Slot, s1: Slot, s: Slot)
    requires Advanced(s0, s1) && Advanced(s1, s)
    ensures Advanced(s0, s)
  {
  }

  lemma LookStarts(run: seq<Sys>, from: int, w: nat, s: Slot)
    requires Sized(s)
    ensures Looked(run, from, w, s, 0) && Advanced(s, s)
  {
  }

  /** A look collects a work request or leaves the slot as it is. */
  lemma LookAdvances(s1: Slot, s: Slot, i: nat, r: int)
    requires Sized(s1) && i < WRS && s == if r == 1 then Ticked(s1, i) else s1
    ensures Advanced(s1, s)
  {
  }

  lemma LookedIsBusy(run: seq<Sys>, from: int, w: nat, s0: Slot, s: Slot)
    requires Looked(run, from, w, s, WRS) && Advanced(s0, s) && s.doneCnt == CountTrue(s.done) < WRS
    ensures Busy(run, from, w, s0, s)
  {
    CountAll(s.done);
    var i :| 0 <= i < WRS && !s.done[i];
    assert Saw(run, from, w, s.token[i], Waiting);
  }

  lemma BusyStill(run1: seq<Sys>, run: seq<Sys>, from: int, from1: int, w: nat, s0: Slot, s: Slot)
    requires Busy(run1, from1, w, s0, s) && run1 <= run && from <= from1
    ensures Busy(run, from, w, s0, s)
  {
    var i :| 0 <= i < WRS && !s.done[i] && Saw(run1, from1, w, s.token[i], Waiting);
    SawLater(run1, run, from1, from, w, s.token[i], Waiting);
  }

  /** At state `s` every work request of a slot is done or its event has succeeded. */
  ghost predicate AllThrough(s: Sys, w: nat, t: Slot) {
    Sized(t) && forall i :: 0 <= i < WRS && !t.done[i] ==> StatusAt(s, w, t.token[i], Succeeded)
  }

  /** Such a request does not stay in flight. */
  lemma ThroughNotBusy(run: seq<Sys>, from: nat, w: nat, s0: Slot, s: Slot)
    requires IsRun(run) && from < |run| && InitSys(run[0]) && AllThrough(run[from], w, s0)
    ensures !Busy(run, from, w, s0, s)
  {
    if Busy(run, from, w, s0, s) {
      var i :| 0 <= i < WRS && !s.done[i] && Saw(run, from, w, s.token[i], Waiting);
      assert !s0.done[i] && StatusFor(true) == Succeeded;
      SawOnly(run, from, w, s.token[i], true, Waiting);
    }
  }

  /** One more event is gone, and it was seen to have failed. */
  ghost predicate ProbedToFail(run: seq<Sys>, from: int, w: nat, g0: set<Ticket>, g: set<Ticket>) {
    exists k :: k !in g0 && g == g0 + {k} && Saw(run, from, w, k, Failed)
  }

  lemma FailStill(run: seq<Sys>, from: int, from1: int, w: nat, g0: set<Ticket>, g: set<Ticket>)
    requires ProbedToFail(run, from1, w, g0, g) && from <= from1
    ensures ProbedToFail(run, from, w, g0, g)
  {
    var k :| k !in g0 && g == g0 + {k} && Saw(run, from1, w, k, Failed);
    SawLater(run, run, from1, from, w, k, Failed);
  }

  lemma FailsNow(run: seq<Sys>, from: int, from1: int, w: nat, g0: set<Ticket>, g: set<Ticket>, k: Ticket)
    requires k !in g0 && g == g0 + {k} && Saw(run, from1, w, k, Failed) && from <= from1
    ensures ProbedToFail(run, from, w, g0, g)
  {
    SawLater(run, run, from1, from, w, k, Failed);
  }

  lemma InFlightCount(b: Books, slots: seq<Slot>, active: seq<nat>, n: nat)
    requires Fleet(b, slots, active) && n < |active|
    ensures slots[active[n]].doneCnt == CountTrue(slots[active[n]].done)
  {
    assert active[n] in active && SlotAgrees(b, slots[active[n]], active[n], active);
  }

  // ---------------------------------------------------------------- one pass

  /** Of the list, the first `n` requests were looked at and are busy, and the others are as they were. */
  ghost predicate Scanned(run: seq<Sys>, from: int, w: nat, slots0: seq<Slot>, slots: seq<Slot>, active: seq<nat>,
          n: nat)
  {
    && n <= |active| && |slots| == |slots0| && Listed(slots, active)
    && (forall j :: 0 <= j < n ==> Busy(run, from, w, slots0[active[j]], slots[active[j]]))
    && (forall j :: n <= j < |active| ==> slots[active[j]] == slots0[active[j]])
  }

  lemma ScanStarts(run: seq<Sys>, from: int, w: nat, slots: seq<Slot>, active: seq<nat>)
    requires Listed(slots, active)
    ensures Scanned(run, from, w, slots, slots, active, 0)
  {
  }

  /** The requests looked at before, when slot `at` changes, which is not among them. */
  lemma BusyElsewhere(run1: seq<Sys>, run: seq<Sys>, from: int, w: nat, slots0: seq<Slot>, slots1: seq<Slot>,
          slots: seq<Slot>, active: seq<nat>, n: nat)
    requires Scanned(run1, from, w, slots0, slots1, active, n) && n < |active| && run1 <= run
    requires |slots| == |slots1| && slots == slots1[active[n] := slots[active[n]]]
    ensures forall j :: 0 <= j < n ==> Busy(run, from, w, slots0[active[j]], slots[active[j]])
    ensures forall j :: n < j < |active| ==> slots[active[j]] == slots0[active[j]]
  {
    hide Busy;
    forall j | 0 <= j < n ensures Busy(run, from, w, slots0[active[j]], slots[active[j]]) {
      assert active[j] != active[n];
      BusyStill(run1, run, from, from, w, slots0[active[j]], slots[active[j]]);
    }
  }

  /** A request that is busy is left in its place. */
  lemma ScanGoesOn(run1: seq<Sys>, run: seq<Sys>, from: int, from1: int, w: nat, slots0: seq<Slot>, slots1: seq<Slot>,
          slots: seq<Slot>, active: seq<nat>, n: nat)
    requires Scanned(run1, from, w, slots0, slots1, active, n) && n < |active| && run1 <= run && from <= from1
    requires |slots| == |slots1| && slots == slots1[active[n] := slots[active[n]]]
    requires Busy(run, from1, w, slots1[active[n]], slots[active[n]])
    ensures Scanned(run, from, w, slots0, slots, active, n + 1)
  {
    hide Busy;
    BusyElsewhere(run1, run, from, w, slots0, slots1, slots, active, n);
    BusyStill(run, run, from, from1, w, slots0[active[n]], slots[active[n]]);
  }

  /** A request that is finished is replaced with the last one. */
  lemma ScanReplaces(run1: seq<Sys>, run: seq<Sys>, from: int, w: nat, slots0: seq<Slot>, slots1: seq<Slot>,
          slots: seq<Slot>, active: seq<nat>, n: nat)
    requires Scanned(run1, from, w, slots0, slots1, active, n) && n < |active| && run1 <= run
    requires |slots| == |slots1| && slots == slots1[active[n] := slots[active[n]]]
    ensures Scanned(run, from, w, slots0, slots, Moved(active, n), n)
    ensures forall i :: i in Moved(active, n) ==> i in active
  {
    hide Busy, Moved;
    BusyElsewhere(run1, run, from, w, slots0, slots1, slots, active, n);
    MovedListed(slots, active, n);
    var rest := Moved(active, n);
    forall j | n <= j < |rest| ensures slots[rest[j]] == slots0[rest[j]] {
      assert rest[j] == active[if j == n then |active| - 1 else j];
    }
    forall j | 0 <= j < n ensures Busy(run, from, w, slots0[rest[j]], slots[rest[j]]) {
      assert rest[j] == active[j];
    }
  }

  /** The listed requests that have come through at state `s`. */
  ghost function Through(s: Sys, w: nat, slots: seq<Slot>, active: seq<nat>): set<nat> {
    set i | i in active && i < |slots| && AllThrough(s, w, slots[i])
  }

  /** If only requests that had not are left, all that had are gone from the list. */
  lemma ScanCollects(s: Sys, w: nat, slots0: seq<Slot>, active0: seq<nat>, active: seq<nat>)
    requires Distinct(active0) && Distinct(active)
    requires forall i :: i in active ==> i in active0 && i < |slots0| && !AllThrough(s, w, slots0[i])
    ensures |active| + |Through(s, w, slots0, active0)| <= |active0|
  {
    hide AllThrough;
    var a, b, t := Elements(active0), Elements(active), Through(s, w, slots0, active0);
    DistinctCard(active0);
    DistinctCard(active);
    assert b !! t && b + t <= a;
    SubsetCard(b + t, a);
    assert |b + t| == |b| + |t|;
  }

  /** After the pass every request that is left is busy, and none that had come through at the start is left. */
  lemma ScanEnds(run: seq<Sys>, from: nat, w: nat, slots0: seq<Slot>, slots: seq<Slot>, active: seq<nat>)
    requires Scanned(run, from, w, slots0, slots, active, |active|) && IsRun(run) && from < |run| && InitSys(run[0])
    ensures forall i :: i in active ==> i < |slots0| && !AllThrough(run[from], w, slots0[i])
  {
    forall i | i in active ensures i < |slots0| && !AllThrough(run[from], w, slots0[i]) {
      var j :| 0 <= j < |active| && active[j] == i;
      assert Busy(run, from, w, slots0[active[j]], slots[active[j]]);
      if AllThrough(run[from], w, slots0[i]) { ThroughNotBusy(run, from, w, slots0[i], slots[i]); }
    }
  }
}
