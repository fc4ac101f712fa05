/**
  How many lanes are enough (src/kv_bench.cpp, the sizing of the lane pool in run_client).  Every worker
  holds at most its share.  A worker below its share is never refused a lane, in any run, if and only if
  there are as many lanes as all the shares together.
 */
module LaneShares {
  import opened Collections
  import opened LaneSystem

  ghost predicate WithinShare(s: Sys, share: nat) {
    forall i :: 0 <= i < |s.workers| ==> |s.workers[i].held| <= share
  }

  /** A run from `s0` in which no worker ever holds more than its share. */
  ghost predicate SharedRun(ss: seq<Sys>, s0: Sys, share: nat) {
    && ss != [] && ss[0] == s0 && IsRun(ss)
    && forall j :: 0 <= j < |ss| ==> WithinShare(ss[j], share)
  }

  /** At the end of the run worker `w` is below its share, and there is no lane for it. */
  ghost predicate Refused(ss: seq<Sys>, w: nat, share: nat)
    requires ss != []
  {
    var s := ss[|ss| - 1];
    w < |s.workers| && |s.workers[w].held| < share && s.idle == []
  }

  ghost predicate NeverRefused(s0: Sys, share: nat) {
    forall ss, w :: SharedRun(ss, s0, share) ==> !Refused(ss, w, share)
  }

  lemma {:induction false} FreshCount(ws: seq<Worker>)
    requires forall i :: 0 <= i < |ws| ==> ws[i].held == {}
    ensures HeldCount(ws) == 0
  {
    if ws != [] { FreshCount(ws[..|ws| - 1]); }
  }

  lemma {:induction false} HeldAtMost(ws: seq<Worker>, share: nat)
    requires forall i :: 0 <= i < |ws| ==> |ws[i].held| <= share
    ensures HeldCount(ws) <= |ws| * share
  {
    if ws != [] {
      HeldAtMost(ws[..|ws| - 1], share);
      assert |ws| * share == (|ws| - 1) * share + share;
    }
  }

  lemma {:induction false} HeldInFull(ws: seq<Worker>, share: nat)
    requires forall i :: 0 <= i < |ws| ==> |ws[i].held| >= share
    ensures HeldCount(ws) >= |ws| * share
  {
    if ws != [] {
      HeldInFull(ws[..|ws| - 1], share);
      assert |ws| * share == (|ws| - 1) * share + share;
    }
  }

  /** With a share for every worker, one that holds less finds a lane. */
  lemma LanesSuffice(s: Sys, w: nat, share: nat)
    requires w < |s.workers| && |s.workers[w].held| < share && |s.workers| * share <= LaneCount(s)
    requires forall i :: 0 <= i < |s.workers| && i != w ==> |s.workers[i].held| <= share
    ensures s.idle != []
  {
    var full := s.workers[w].(held := UpTo(share));
    HeldUpdate(s.workers, w, full);
    HeldAtMost(s.workers[w := full], share);
  }

  lemma StepCounts(s: Sys, t: Sys)
    requires Inv(s) && Step(s, t)
    ensures Inv(t) && LaneCount(t) == LaneCount(s) && |t.workers| == |s.workers|
  {
    var a :| Enabled(s, a) && t == Do(s, a);
    InvStep(s, a);
    LanesConserved(s, a);
    if a.Dispatch? { DispatchPool(s, a.id); }
  }

  /** No run creates or loses a lane. */
  lemma {:induction false} RunCounts(ss: seq<Sys>, i: nat)
    requires IsRun(ss) && i < |ss| && Inv(ss[0])
    ensures Inv(ss[i]) && LaneCount(ss[i]) == LaneCount(ss[0]) && |ss[i].workers| == |ss[0].workers|
  {
    if i > 0 {
      RunCounts(ss, i - 1);
      StepCounts(ss[i - 1], ss[i]);
    }
  }

  /** With fewer lanes than shares some worker is below its share. */
  lemma SomeoneBelow(s: Sys, share: nat) returns (w: nat)
    requires LaneCount(s) < |s.workers| * share
    ensures w < |s.workers| && |s.workers[w].held| < share
  {
    if i :| 0 <= i < |s.workers| && |s.workers[i].held| < share {
      w := i;
    } else {
      HeldInFull(s.workers, share);
    }
  }

  lemma TakeKeepsShare(s: Sys, w: nat, share: nat)
    requires Inv(s) && WithinShare(s, share) && w < |s.workers| && |s.workers[w].held| < share
    ensures WithinShare(Do(s, TakeLane(w)), share)
  {
  }

  /** Workers below their share take lanes until none is left, and then one of them is refused. */
  lemma {:induction false} TakeAll(ss: seq<Sys>, s0: Sys, share: nat) returns (ss': seq<Sys>, w: nat)
    requires Inv(s0) && LaneCount(s0) < |s0.workers| * share && SharedRun(ss, s0, share)
    ensures SharedRun(ss', s0, share) && ss <= ss' && Refused(ss', w, share)
    decreases |ss[|ss| - 1].idle|
  {
    var s := ss[|ss| - 1];
    RunCounts(ss, |ss| - 1);
    w := SomeoneBelow(s, share);
    ss' := ss;
    if s.idle != [] {
      JoinStep(ss, s, TakeLane(w));
      TakeKeepsShare(s, w, share);
      ss', w := TakeAll(ss + [Do(s, TakeLane(w))], s0, share);
    }
  }

  /** As many lanes as shares are enough in every run, and fewer are not. */
  lemma NeverRefusedIff(s0: Sys, share: nat)
    requires InitSys(s0)
    ensures NeverRefused(s0, share) <==> |s0.workers| * share <= LaneCount(s0)
  {
    InitInv(s0);
    if |s0.workers| * share <= LaneCount(s0) {
      forall ss, w | SharedRun(ss, s0, share) ensures !Refused(ss, w, share) {
        RunCounts(ss, |ss| - 1);
        if Refused(ss, w, share) { LanesSuffice(ss[|ss| - 1], w, share); }
      }
    } else {
      assert SharedRun([s0], s0, share);
      var ss, w := TakeAll([s0], s0, share);
      assert SharedRun(ss, s0, share) && Refused(ss, w, share);
    }
  }
}
