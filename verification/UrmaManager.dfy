/**
  The manager interface the workers program against (src/urma/urma_manager.cpp): lanes, events and
  posts.  Its state is a state of `LaneSystem`, and it keeps the whole run that led there.  Before
  each step of one worker all the others, the hardware and the poll thread may take any number of
  steps; acceptance of a post and the expiry of a deadline are arbitrary.
 */
module UrmaManagers {
  import opened Collections
  import opened EventSlots
  import opened Words
  import opened SendJettyPools
  import opened LaneSystem
  import opened LaneShares
  import opened Verdicts

  /** What a worker can rely on while others act: the lanes it holds and how many, the requests it has
      open, the events it has live, the number of its free event slots and how often each slot was
      acquired, the numbers of lanes and workers there are, whether no other worker holds more than its share
      of the lanes, and how often the library refused a post. */
  datatype View = View(held: set<Lane>, holding: nat, open: map<Ticket, Lane>, live: set<Ticket>, spare: nat,
                       serials: seq<nat>, lanes: nat, workers: nat, fair: bool, refused: nat)

  /** What a view says that is not in the state of the system: that no other worker exceeds its share, and how often
      the library refused a post of this worker. */
  datatype Memo = Memo(fair: bool, refused: nat)

  function MemoOf(v: View): Memo {
    Memo(v.fair, v.refused)
  }

  /** The view of a worker that has done nothing yet. */
  function NewView(lanes: nat, workers: nat): View {
    View({}, 0, map[], {}, SLOTS, Init().serials, lanes, workers, true, 0)
  }

  ghost function LiveSet(p: Pool): (r: set<Ticket>)
    requires Shaped(p)
    ensures forall k :: k in r <==> Occupies(p, k)
  {
    set i: nat | i < SLOTS && p.states[i] != 0 :: Current(p, i)
  }

  ghost function ViewOf(s: Sys, w: nat, m: Memo): View
    requires Formed(s) && w < |s.workers|
  {
    var x := s.workers[w];
    View(x.held, |x.held|, x.open, LiveSet(x.pool), |x.pool.free|, x.pool.serials, LaneCount(s), |s.workers|,
         m.fair, m.refused)
  }

  ghost predicate OthersWithin(s: Sys, w: nat, share: nat) {
    forall i :: 0 <= i < |s.workers| && i != w ==> |s.workers[i].held| <= share
  }

  /** `v` is the view of worker `w`, and what it says of the others is so. */
  ghost predicate Sees(v: View, s: Sys, w: nat, share: nat)
    requires Formed(s) && w < |s.workers|
  {
    v == ViewOf(s, w, MemoOf(v)) && (v.fair ==> OthersWithin(s, w, share))
  }

  ghost predicate AllSee(views: seq<View>, s: Sys, share: nat)
    requires Formed(s)
  {
    |views| == |s.workers| && forall w :: 0 <= w < |views| ==> Sees(views[w], s, w, share)
  }

  /** The views after a step of worker `w`, or of others: a worker above its share is unfair to all others. */
  ghost function NextViews(views: seq<View>, t: Sys, w: nat, share: nat): (r: seq<View>)
    requires Formed(t) && |views| == |t.workers|
    ensures |r| == |views|
    ensures forall i {:trigger r[i]} :: 0 <= i < |r| ==> r[i] == ViewOf(t, i, NextMemo(views[i], t, i, w, share))
  {
    seq(|views|, i requires 0 <= i < |views| => ViewOf(t, i, NextMemo(views[i], t, i, w, share)))
  }

  ghost function NextMemo(v: View, t: Sys, i: nat, w: nat, share: nat): Memo {
    Memo(v.fair && Keeps(t, i, w, share), v.refused)
  }

  ghost predicate Keeps(t: Sys, i: nat, w: nat, share: nat) {
    i == w || (w < |t.workers| ==> |t.workers[w].held| <= share)
  }

  predicate By(a: Action, w: nat) {
    !a.Finish? && !a.Dispatch? && a.w == w
  }

  /** Nothing a worker relies on is changed by others. */
  ghost predicate Steady(w: nat, s: Sys, t: Sys) {
    && Formed(s) && Formed(t)
    && w < |s.workers| == |t.workers|
    && forall m :: ViewOf(t, w, m) == ViewOf(s, w, m)
  }

  lemma CompletionKeepsLive(p: Pool, token: nat, ok: bool)
    requires Shaped(p) && token < U62
    ensures LiveSet(Complete(p, token, ok)) == LiveSet(p)
  {
    assert token != 0 ==> Pending(token) != 0;
  }

  lemma OthersAreSteady(w: nat, s: Sys, a: Action)
    requires Inv(s) && w < |s.workers| && Possible(s, a) && !By(a, w)
    ensures Inv(Do(s, a)) && Steady(w, s, Do(s, a))
  {
    hide WorkerOk, LanesApart, SlotOk, EventSlots.Acquire, EventSlots.Probe, EventSlots.Abort, EventSlots.Complete;
    InvStep(s, a);
    LanesConserved(s, a);
    if a.Dispatch? {
      DispatchPool(s, a.id);
      TokenFacts(a.id.ticket);
      CompletionKeepsLive(s.workers[a.id.worker].pool, Token(a.id.ticket), s.flights[a.id].stage.ok);
    }
  }

  /** Taking a lane beyond the share. */
  predicate Overdraws(s: Sys, a: Action, share: nat) {
    a.TakeLane? && a.w < |s.workers| && |s.workers[a.w].held| >= share
  }

  /** No action but an overdraft makes a worker exceed its share, and each changes the lanes of one worker only. */
  lemma ShareKept(s: Sys, a: Action, share: nat, i: nat)
    requires Inv(s) && Possible(s, a) && i < |s.workers|
    ensures |Do(s, a).workers| == |s.workers|
    ensures !By(a, i) ==> Do(s, a).workers[i].held == s.workers[i].held
    ensures !Overdraws(s, a, share) ==>
      var n := |Do(s, a).workers[i].held|; n <= |s.workers[i].held| || n <= share
  {
    hide WorkerOk, SlotOk, EventSlots.Acquire, EventSlots.Probe, EventSlots.Abort, EventSlots.Complete;
    if a.Dispatch? { DispatchPool(s, a.id); }
  }

  lemma WithinKept(s: Sys, a: Action, share: nat, w: nat)
    requires Inv(s) && Possible(s, a) && !Overdraws(s, a, share) && OthersWithin(s, w, share)
    ensures OthersWithin(Do(s, a), w, share)
  {
    var t := Do(s, a);
    forall i | 0 <= i < |t.workers| && i != w ensures |t.workers[i].held| <= share {
      assert i < |s.workers| by { if a.Dispatch? { DispatchPool(s, a.id); } }
      ShareKept(s, a, share, i);
    }
  }

  function Final(s: Sys, ss: seq<Sys>): Sys {
    if ss == [] then s else ss[|ss| - 1]
  }

  /** An action that someone else than worker `w` takes, within the shares. */
  predicate Plays(w: nat, s: Sys, a: Action, share: nat)
    requires Formed(s)
  {
    !By(a, w) && Enabled(s, a) && !Overdraws(s, a, share)
  }

  /** The states that result when the others play these actions; worker `w` is left out, and so are
      actions that are not possible when their turn comes, and lanes taken beyond the share. */
  function OthersPlay(w: nat, s: Sys, acts: seq<Action>, share: nat): (ss: seq<Sys>)
    requires Inv(s)
    ensures Inv(Final(s, ss))
    decreases |acts|
  {
    if acts == [] then []
    else if !Plays(w, s, acts[0], share) then OthersPlay(w, s, acts[1..], share)
    else
      InvStep(s, acts[0]);
      var t := Do(s, acts[0]);
      [t] + OthersPlay(w, t, acts[1..], share)
  }

  /** Whatever the others play is a run, and worker `w` relies on nothing that it changes. */
  lemma {:induction false} OthersPlayed(w: nat, s: Sys, acts: seq<Action>, share: nat)
    requires Inv(s) && w < |s.workers|
    ensures var ss := OthersPlay(w, s, acts, share); Steady(w, s, Final(s, ss)) && IsRun([s] + ss)
    decreases |acts|
  {
    hide WorkerOk, LanesApart, Formed, Possible, Settled, Do, IsRun;
    if acts != [] && Plays(w, s, acts[0], share) {
      OthersAreSteady(w, s, acts[0]);
      var t := Do(s, acts[0]);
      OthersPlayed(w, t, acts[1..], share);
      ConsRun(s, acts[0], [t] + OthersPlay(w, t, acts[1..], share));
    } else if acts != [] {
      OthersPlayed(w, s, acts[1..], share);
    } else {
      assert [s] + [] == [s];
      NoStep(s);
    }
  }

  lemma {:induction false} OthersStayWithin(w: nat, s: Sys, acts: seq<Action>, share: nat, i: nat)
    requires Inv(s) && OthersWithin(s, i, share)
    ensures OthersWithin(Final(s, OthersPlay(w, s, acts, share)), i, share)
    decreases |acts|
  {
    hide WorkerOk, LanesApart, Formed, Possible, Settled, Do, OthersWithin;
    if acts != [] && Plays(w, s, acts[0], share) {
      OtherStep(w, s, acts[0], share, i);
      OthersStayWithin(w, Do(s, acts[0]), acts[1..], share, i);
    } else if acts != [] {
      OthersStayWithin(w, s, acts[1..], share, i);
    }
  }

  lemma OtherStep(w: nat, s: Sys, a: Action, share: nat, i: nat)
    requires Inv(s) && Plays(w, s, a, share) && OthersWithin(s, i, share)
    ensures Possible(s, a) && Inv(Do(s, a)) && OthersWithin(Do(s, a), i, share)
  {
    InvStep(s, a);
    WithinKept(s, a, share, i);
  }

  /** The present state ends a run from an initial state, and the bookkeeping invariant holds. */
  ghost predicate Recorded(run: seq<Sys>, sys: Sys, views: seq<View>, share: nat) {
    && run != [] && run[|run| - 1] == sys
    && InitSys(run[0]) && IsRun(run)
    && Inv(sys) && AllSee(views, sys, share)
  }

  class UrmaManager {
    var sys: Sys
    const share: nat            // how many lanes the workers are meant to hold at most
    ghost var run: seq<Sys>     // every state so far
    ghost var views: seq<View>  // what each worker relies on

    ghost predicate Valid()
      reads this
    {
      Recorded(run, sys, views, share)
    }

    ghost predicate Registered(w: nat)
      reads this
    {
      Valid() && w < |views|
    }

    ghost function Me(w: nat): View
      requires Registered(w)
      reads this
    {
      views[w]
    }

    /** `workers` registered workers and the lanes of a filled pool. */
    constructor (workers: nat, lanes: seq<Lane>, share: nat)
      requires workers <= MAX_WORKERS && Distinct(lanes)
      ensures Valid() && |views| == workers && this.share == share
      ensures forall w :: 0 <= w < workers ==> Me(w) == NewView(|lanes|, workers)
    {
      sys := Sys(seq(workers, i => Worker(Init(), {}, map[])), lanes, map[]);
      run := [sys];
      this.share := share;
      views := seq(workers, i => NewView(|lanes|, workers));
      new;
      InitInv(sys);
      FreshCount(sys.workers);
      forall w | 0 <= w < workers ensures views[w] == ViewOf(sys, w, Memo(true, 0)) {
        assert LiveSet(sys.workers[w].pool) == {};
      }
    }

    /** Lane safety of everything that ever happened through this manager. */
    lemma AlwaysSafe()
      requires Valid()
      ensures forall i :: 0 <= i < |run| ==> LaneSafe(run[i])
    {
      forall i | 0 <= i < |run| ensures LaneSafe(run[i]) {
        LaneSafety(run, i);
      }
    }

    /** The recorded states are a run. */
    lemma IsRecorded()
      requires Valid()
      ensures run != [] && IsRun(run) && InitSys(run[0]) && run[|run| - 1] == sys
    {
    }

    /** Live and open events were handed out, and a live one is the newest of its slot. */
    lemma Dates(w: nat)
      requires Registered(w)
      ensures Dated(Me(w))
    {
      assert Sees(Me(w), sys, w, share) && WorkerOk(sys.workers[w]);
      forall k | k in Me(w).live ensures Known(Me(w), k) && k == Holder(Me(w), k) {
        assert SlotOk(sys.workers[w].pool, k.slot);
      }
    }

    /** Everybody else takes any number of steps. */
    method Others(w: nat)
      requires Registered(w)
      modifies this
      ensures Registered(w) && Me(w) == old(Me(w))
      ensures old(run) <= run
    {
      var acts: seq<Action> := *;
      var ss := OthersPlay(w, sys, acts, share);
      OthersPlayed(w, sys, acts, share);
      JoinRun(run, sys, ss);
      assert Sees(Me(w), sys, w, share);
      ghost var t := Final(sys, ss);
      forall i | 0 <= i < |views| && views[i].fair ensures OthersWithin(t, i, share) {
        assert Sees(views[i], sys, i, share);
        OthersStayWithin(w, sys, acts, share, i);
      }
      run := run + ss;
      views := NextViews(views, t, |views|, share);
      sys := Final(sys, ss);
      assert Sees(Me(w), sys, w, share);
    }

    /** One step of worker `w`. */
    method Act(a: Action, ghost w: nat)
      requires Registered(w) && Enabled(sys, a) && By(a, w)
      modifies this
      ensures Registered(w) && sys == Do(old(sys), a) && LaneCount(sys) == LaneCount(old(sys))
      ensures Me(w) == ViewOf(sys, w, MemoOf(old(Me(w))))
      ensures run == old(run) + [sys]
    {
      hide WorkerOk, LanesApart, SlotOk, Do, IsRun, InitSys;
      InvStep(sys, a);
      LanesConserved(sys, a);
      JoinStep(run, sys, a);
      ghost var t := Do(sys, a);
      NextSees(views, sys, a, w, share);
      views := NextViews(views, t, w, share);
      sys := Do(sys, a);
      run := run + [sys];
    }

    method AcquireSendLane(w: nat) returns (lane: Option<Lane>)
      requires Registered(w)
      modifies this
      ensures Registered(w) && old(run) <= run
      ensures lane.Some? ==> lane.value !in old(Me(w)).held && Me(w) == Took(old(Me(w)), lane.value)
      ensures lane.None? ==> Me(w) == old(Me(w))
      ensures lane.None? ==> sys.idle == []
      ensures lane.Some? ==> |run| >= 2 && run[|run| - 2].idle != [] && lane.value == run[|run| - 2].idle[0]
      ensures lane.None? && Me(w).workers == 1 ==> Me(w).holding == Me(w).lanes
      ensures lane.None? && Me(w).fair && Me(w).holding < share ==> Me(w).lanes < Me(w).workers * share
    {
      hide WorkerOk, LanesApart, Do, IsRun, InitSys;
      Others(w);
      assert Sees(Me(w), sys, w, share);
      if sys.idle == [] {
        lane := None;
        if |sys.workers| == 1 { OneWorkerCount(sys.workers); }
        if Me(w).fair && Me(w).holding < share && |sys.workers| * share <= LaneCount(sys) {
          LanesSuffice(sys, w, share);
        }
      } else {
        lane := Some(sys.idle[0]);
        TakeSeen(sys, w, MemoOf(Me(w)));
        Act(TakeLane(w), w);
      }
    }

    /** Only lanes on which every posted request has been seen to succeed go back. */
    method ReleaseSendLane(w: nat, lane: Lane)
      requires Registered(w) && lane in Me(w).held
      requires forall k :: k in Me(w).open ==> Me(w).open[k] != lane
      modifies this
      ensures Registered(w) && old(run) <= run
      ensures old(Me(w)).holding > 0 && Me(w) == Gave(old(Me(w)), lane)
    {
      hide WorkerOk, LanesApart, Do, IsRun, InitSys, OthersWithin;
      Others(w);
      assert Sees(Me(w), sys, w, share);
      GiveSeen(sys, w, lane, MemoOf(Me(w)));
      Act(GiveLane(w, lane), w);
    }

    /** Only a worker with nothing failed or abandoned acquires events. */
    method PostEvent(w: nat) returns (ticket: Option<Ticket>)
      requires Registered(w) && Me(w).open.Keys <= Me(w).live
      modifies this
      ensures Registered(w) && old(run) <= run
      ensures ticket.None? <==> old(Me(w)).spare == 0
      ensures ticket.None? ==> Me(w) == old(Me(w))
      ensures ticket.Some? ==>
        && ticket.value !in old(Me(w)).live && ticket.value !in old(Me(w)).open
        && Next(old(Me(w)), ticket.value) && Me(w) == Got(old(Me(w)), ticket.value)
    {
      hide WorkerOk, LanesApart, Do, IsRun, InitSys, OthersWithin, EventSlots.Acquire, SlotOk;
      Others(w);
      assert Sees(Me(w), sys, w, share);
      PostEventSeen(sys, w, MemoOf(Me(w)));
      ticket := Acquire(sys.workers[w].pool).1;
      Act(LaneSystem.PostEvent(w), w);
    }

    /** The library accepts or refuses the request; refused means nothing is in flight. */
    method PostWrite(w: nat, lane: Lane, ticket: Ticket) returns (accepted: bool)
      requires Registered(w) && lane in Me(w).held && ticket in Me(w).live && ticket !in Me(w).open
      modifies this
      ensures Registered(w) && old(run) <= run
      ensures Me(w) == if accepted then Sent(old(Me(w)), ticket, lane) else Denied(old(Me(w)))
    {
      hide WorkerOk, LanesApart, Do, IsRun, InitSys, OthersWithin;
      Others(w);
      assert Sees(Me(w), sys, w, share);
      accepted := *;
      if accepted {
        PostWrSeen(sys, w, ticket, lane, MemoOf(Me(w)));
        Act(PostWr(w, ticket, lane), w);
      } else {
        views := views[w := Denied(views[w])];
      }
    }

    /** 1: success, -1: failure, and the event is gone; 0: not yet.  For a token that was handed out before,
        the event that has the slot now is struck exactly when it carries the same token. */
    method ProbeEvent(w: nat, ticket: Ticket) returns (r: int)
      requires Registered(w) && (ticket in Me(w).live || Known(Me(w), ticket))
      modifies this
      ensures Registered(w) && old(run) <= run && Known(old(Me(w)), ticket)
      ensures r == 1 || r == -1 || r == 0
      ensures r != 0 ==> Carries(old(Me(w)), ticket)
      ensures r != 0 ==> Saw(run, |old(run)| - 1, w, Holder(old(Me(w)), ticket), StatusFor(r == 1))
      ensures r == 0 && Carries(old(Me(w)), ticket) ==>
        Saw(run, |old(run)| - 1, w, Holder(old(Me(w)), ticket), Waiting)
      ensures forall ok :: HasVerdict(old(sys), old(Me(w)), w, ticket, ok) ==> r == if ok then 1 else -1
      ensures Me(w) == Struck(old(Me(w)), ticket, Holder(old(Me(w)), ticket), r)
      ensures ticket in old(Me(w)).live ==> Me(w) == Probed(old(Me(w)), ticket, r)
    {
      hide WorkerOk, LanesApart, Do, IsRun, InitSys, OthersWithin, EventSlots.Probe, SlotOk;
      Dates(w);
      Others(w);
      assert Sees(Me(w), sys, w, share);
      KnownIsIssued(sys, w, MemoOf(Me(w)), ticket);
      ProbeSeen(sys, w, ticket, MemoOf(Me(w)));
      Looks(run, |old(run)| - 1, w, ticket, MemoOf(Me(w)));
      r := Probe(sys.workers[w].pool, Token(ticket)).1;
      if r != 0 {
        ghost var before := run;
        Act(LaneSystem.ProbeEvent(w, ticket), w);
        SawLater(before, run, |old(run)| - 1, |old(run)| - 1, w, Holder(old(Me(w)), ticket), StatusFor(r == 1));
      }
    }

    /** Abandons the event that carries the token, if there is one. */
    method AbortEvent(w: nat, ticket: Ticket)
      requires Registered(w) && (ticket in Me(w).live || Known(Me(w), ticket))
      modifies this
      ensures Registered(w) && old(run) <= run && Known(old(Me(w)), ticket)
      ensures Carries(old(Me(w)), ticket) ==> Me(w) == Dropped(old(Me(w)), Holder(old(Me(w)), ticket))
      ensures !Carries(old(Me(w)), ticket) ==> Me(w) == old(Me(w))
      ensures ticket in old(Me(w)).live ==> Me(w) == Dropped(old(Me(w)), ticket)
    {
      hide WorkerOk, LanesApart, Do, IsRun, InitSys, OthersWithin, EventSlots.Abort, SlotOk;
      Dates(w);
      Others(w);
      assert Sees(Me(w), sys, w, share);
      KnownIsIssued(sys, w, MemoOf(Me(w)), ticket);
      AbortSeen(sys, w, ticket, MemoOf(Me(w)));
      if Abort(sys.workers[w].pool, Token(ticket)).1 {
        Act(LaneSystem.AbortEvent(w, ticket), w);
      }
    }

    /** Polls until a verdict or the deadline, looks once more, then abandons the event.  Either way the event
        that carries the token is gone; the request stays open unless the wait succeeded.  The wait succeeds only
        if the event was seen to have succeeded, and fails only if it was seen to have failed, or to wait still
        after the deadline, which passes in state `late`, or if there is no such event.  So a verdict that is
        there at the call decides it. */
    method WaitEvent(w: nat, ticket: Ticket) returns (ok: bool, ghost late: nat)
      requires Registered(w) && (ticket in Me(w).live || Known(Me(w), ticket))
      modifies this
      ensures Registered(w) && old(run) <= run && Known(old(Me(w)), ticket)
      ensures ok ==> Saw(run, |old(run)| - 1, w, Holder(old(Me(w)), ticket), Succeeded)
      ensures |old(run)| - 1 <= late < |run|
      ensures !ok && Carries(old(Me(w)), ticket) ==>
        Saw(run, late, w, Holder(old(Me(w)), ticket), Waiting)
        || Saw(run, |old(run)| - 1, w, Holder(old(Me(w)), ticket), Failed)
      ensures !ok && Carries(old(Me(w)), ticket) ==> Missed(run, |old(run)| - 1, w, Holder(old(Me(w)), ticket))
      ensures forall good :: HasVerdict(old(sys), old(Me(w)), w, ticket, good) ==> ok == good
      ensures Carries(old(Me(w)), ticket) ==>
        Me(w) == Struck(old(Me(w)), ticket, Holder(old(Me(w)), ticket), if ok then 1 else -1)
      ensures !Carries(old(Me(w)), ticket) ==> !ok && Me(w) == old(Me(w))
      ensures ticket in old(Me(w)).live ==> Me(w) == Waited(old(Me(w)), ticket, ok)
    {
      hide Recorded, Saw, HasVerdict;
      Dates(w);
      IsRecorded();
      ghost var from, c := |run| - 1, Holder(Me(w), ticket);
      var polls: nat := *;   // polls before the deadline
      var result := ProbeEvent(w, ticket);
      while result == 0 && polls > 0
        invariant Registered(w) && old(run) <= run && (result == 0 || result == 1 || result == -1)
        invariant result != 0 ==> Carries(old(Me(w)), ticket) && Saw(run, from, w, c, StatusFor(result == 1))
        invariant Me(w) == Struck(old(Me(w)), ticket, c, result)
      {
        ghost var before := run;
        result := ProbeEvent(w, ticket);
        if result != 0 { SawLater(run, run, |before| - 1, from, w, c, StatusFor(result == 1)); }
        polls := polls - 1;
      }
      late := |run| - 1;
      if result == 0 {
        Others(w);
        late := |run| - 1;
        result := ProbeEvent(w, ticket);
        if result != 0 { SawLater(run, run, late, from, w, c, StatusFor(result == 1)); }
      }
      ok := result == 1;
      ghost var looked := run;
      if result == 0 {
        AbortEvent(w, ticket);
        if Carries(old(Me(w)), ticket) {
          SawLater(looked, run, late, late, w, c, Waiting);
          SawLater(looked, run, late, from, w, c, Waiting);
        }
      }
      VerdictDecides(old(run), old(sys), old(views), run, sys, views, share, w, ticket, ok);
    }
  }

  // ---------------------------------------------------------------- tokens and views

  /** The event of `k` was handed out at some time. */
  ghost predicate Known(v: View, k: Ticket) {
    |v.serials| == SLOTS && k.slot < SLOTS && 0 < k.serial <= v.serials[k.slot]
  }

  /** The event that acquired the slot of `k` last. */
  ghost function Holder(v: View, k: Ticket): Ticket
    requires Known(v, k)
  {
    Ticket(k.slot, v.serials[k.slot])
  }

  /** The event in the slot of `k` is live and carries the token of `k`. */
  ghost predicate Carries(v: View, k: Ticket)
    requires Known(v, k)
  {
    Holder(v, k) in v.live && Token(Holder(v, k)) == Token(k)
  }

  /** At state `s` the event in the slot of `k` carries its token and has this verdict. */
  ghost predicate HasVerdict(s: Sys, v: View, w: nat, k: Ticket, ok: bool) {
    Known(v, k) && Carries(v, k) && StatusAt(s, w, Holder(v, k), StatusFor(ok))
  }

  /** From state `from` of the run on, some state has the event `k` of worker `w` in status `st`. */
  ghost predicate Saw(run: seq<Sys>, from: int, w: nat, k: Ticket, st: Status) {
    exists j :: 0 <= j < |run| && from <= j && StatusAt(run[j], w, k, st)
  }

  /** From then on, some state has it without success. */
  ghost predicate Missed(run: seq<Sys>, from: int, w: nat, k: Ticket) {
    Saw(run, from, w, k, Waiting) || Saw(run, from, w, k, Failed)
  }

  lemma SawLater(run: seq<Sys>, run': seq<Sys>, from: int, from': int, w: nat, k: Ticket, st: Status)
    requires Saw(run, from, w, k, st) && run <= run' && from' <= from
    ensures Saw(run', from', w, k, st)
  {
    var j :| 0 <= j < |run| && from <= j && StatusAt(run[j], w, k, st);
    assert run'[j] == run[j];
  }

  lemma MissedLater(run: seq<Sys>, run': seq<Sys>, from: int, from': int, w: nat, k: Ticket)
    requires Missed(run, from, w, k) && run <= run' && from' <= from
    ensures Missed(run', from', w, k)
  {
    if Saw(run, from, w, k, Waiting) {
      SawLater(run, run', from, from', w, k, Waiting);
    } else {
      SawLater(run, run', from, from', w, k, Failed);
    }
  }

  /** An event with a verdict is not seen in another status afterwards. */
  lemma SawOnly(run: seq<Sys>, from: nat, w: nat, k: Ticket, ok: bool, st: Status)
    requires IsRun(run) && from < |run| && InitSys(run[0]) && StatusAt(run[from], w, k, StatusFor(ok))
    requires Saw(run, from, w, k, st)
    ensures st == StatusFor(ok)
  {
    InitInv(run[0]);
    var j :| 0 <= j < |run| && from <= j && StatusAt(run[j], w, k, st);
    VerdictIsFinal(run, from, j, w, k, StatusFor(ok), st);
  }

  /** What a look at the last state of the run tells. */
  lemma Looks(run: seq<Sys>, from: nat, w: nat, k: Ticket, m: Memo)
    requires from < |run| && IsRun(run) && InitSys(run[0]) && Inv(run[|run| - 1])
    requires w < |run[|run| - 1].workers| && Issued(run[|run| - 1].workers[w].pool, k)
    ensures var s := run[|run| - 1];
      var v, r := ViewOf(s, w, m), Probe(s.workers[w].pool, Token(k)).1;
      && Known(v, k) && (r != 0 ==> Saw(run, from, w, Holder(v, k), StatusFor(r == 1)))
      && (r == 0 && Carries(v, k) ==> Saw(run, from, w, Holder(v, k), Waiting))
      && forall ok :: HasVerdict(run[from], v, w, k, ok) ==> r == if ok then 1 else -1
  {
    var s := run[|run| - 1];
    var p := s.workers[w].pool;
    var v, r := ViewOf(s, w, m), Probe(p, Token(k)).1;
    assert WorkerOk(s.workers[w]);
    ProbeTells(p, k);
    assert r != 0 ==> StatusAt(s, w, Holder(v, k), StatusFor(r == 1));
    assert r == 0 && Carries(v, k) ==> StatusAt(s, w, Holder(v, k), Waiting);
    forall ok | HasVerdict(run[from], v, w, k, ok) ensures r == if ok then 1 else -1 {
      SawOnly(run, from, w, Holder(v, k), ok, if r == 0 then Waiting else StatusFor(r == 1));
    }
  }

  /** What was seen since `s0` agrees with a verdict that was there then. */
  lemma VerdictDecides(run0: seq<Sys>, s0: Sys, views0: seq<View>, run: seq<Sys>, s: Sys, views: seq<View>, share: nat,
          w: nat, k: Ticket, ok: bool)
    requires Recorded(run0, s0, views0, share) && Recorded(run, s, views, share) && run0 <= run
    requires w < |views0| && Known(views0[w], k)
    requires Carries(views0[w], k) && ok ==> Saw(run, |run0| - 1, w, Holder(views0[w], k), Succeeded)
    requires Carries(views0[w], k) && !ok ==> Missed(run, |run0| - 1, w, Holder(views0[w], k))
    ensures forall good :: HasVerdict(s0, views0[w], w, k, good) ==> ok == good
  {
    hide Inv, IsRun, InitSys, AllSee, Saw;
    forall good | HasVerdict(s0, views0[w], w, k, good) ensures ok == good {
      var st := if ok then Succeeded
                else if Saw(run, |run0| - 1, w, Holder(views0[w], k), Waiting) then Waiting else Failed;
      assert run[|run0| - 1] == run0[|run0| - 1];
      SawOnly(run, |run0| - 1, w, Holder(views0[w], k), good, st);
    }
  }

  ghost predicate Dated(v: View) {
    && (forall k :: k in v.live ==> Known(v, k) && k == Holder(v, k))
    && (forall k :: k in v.open ==> Known(v, k))
  }

  /** That is so exactly when a multiple of 2^32-1 acquisitions lies in between. */
  lemma CarriesIff(v: View, k: Ticket)
    requires Known(v, k)
    ensures Carries(v, k) <==> Holder(v, k) in v.live && (v.serials[k.slot] - k.serial) % GENERATIONS == 0
  {
    TokensCoincide(k, Holder(v, k));
  }

  /** A retired event shares its token with no live one before its slot was acquired 2^32-1 more times. */
  lemma SpentWhenRecent(v: View, k: Ticket)
    requires Known(v, k) && k !in v.live && v.serials[k.slot] - k.serial < GENERATIONS
    ensures !Carries(v, k)
  {
    CarriesIff(v, k);
  }

  /** `k` is the next event of its slot. */
  ghost predicate Next(v: View, k: Ticket) {
    |v.serials| == SLOTS && k.slot < SLOTS && k.serial == v.serials[k.slot] + 1
  }

  ghost function Took(v: View, l: Lane): View {
    v.(held := v.held + {l}, holding := v.holding + 1)
  }

  ghost function Gave(v: View, l: Lane): View
    requires v.holding > 0
  {
    v.(held := v.held - {l}, holding := v.holding - 1)
  }

  ghost function Got(v: View, k: Ticket): View
    requires v.spare > 0 && Next(v, k)
  {
    v.(live := v.live + {k}, spare := v.spare - 1, serials := v.serials[k.slot := k.serial])
  }

  ghost function Dropped(v: View, k: Ticket): View {
    v.(live := v.live - {k}, spare := v.spare + 1)
  }

  ghost function Sent(v: View, k: Ticket, l: Lane): View {
    v.(open := v.open[k := l])
  }

  ghost function Denied(v: View): View {
    v.(refused := v.refused + 1)
  }

  /** Result `r` for the token of `k`, which the live event `c` carries. */
  ghost function Struck(v: View, k: Ticket, c: Ticket, r: int): View {
    if r == 0 then v
    else v.(live := v.live - {c}, spare := v.spare + 1, open := if r == 1 then v.open - {k} else v.open)
  }

  ghost function Probed(v: View, k: Ticket, r: int): View {
    Struck(v, k, k, r)
  }

  ghost function Waited(v: View, k: Ticket, ok: bool): View {
    Probed(v, k, if ok then 1 else -1)
  }

  // ---------------------------------------------------------------- views of single steps

  lemma AcquireView(x: Worker)
    requires WorkerOk(x)
    ensures var (q, t) := Acquire(x.pool);
      && Shaped(q)
      && (t.None? <==> |x.pool.free| == 0)
      && (t.None? ==> q == x.pool)
      && (t.Some? ==>
        && t.value !in LiveSet(x.pool) && t.value !in x.open
        && LiveSet(q) == LiveSet(x.pool) + {t.value} && |q.free| == |x.pool.free| - 1
        && t.value.slot < SLOTS && t.value.serial == x.pool.serials[t.value.slot] + 1
        && q.serials == x.pool.serials[t.value.slot := t.value.serial])
  {
    AcquireWorks(x.pool);
    var (q, t) := Acquire(x.pool);
    if t.Some? {
      WordFacts(t.value, Waiting);
      assert LiveSet(q) == LiveSet(x.pool) + {t.value};
    }
  }

  lemma VacateView(p: Pool, k: Ticket)
    requires Shaped(p) && Occupies(p, k)
    ensures LiveSet(Vacate(p, k.slot)) == LiveSet(p) - {k}
  {
  }

  /** A slot whose word carries the token of `k` is occupied by a live event with that token. */
  lemma WordHasOwner(p: Pool, k: Ticket)
    requires EventSlots.Valid(p) && k.slot < SLOTS && k.serial > 0 && p.states[k.slot] / 4 == Token(k)
    ensures Current(p, k.slot) in LiveSet(p) && Token(Current(p, k.slot)) == Token(k)
  {
    TokenFacts(k);
    var c := Current(p, k.slot);
    assert SlotOk(p, k.slot);
    var st :| p.states[k.slot] == Word(c, st);
    WordFacts(c, st);
  }

  /** The newest event of the slot is live and has the token of `k`. */
  ghost predicate Hit(p: Pool, k: Ticket)
    requires Shaped(p) && Issued(p, k)
  {
    Current(p, k.slot) in LiveSet(p) && Token(Current(p, k.slot)) == Token(k)
  }

  lemma HitIffWord(p: Pool, k: Ticket)
    requires EventSlots.Valid(p) && Issued(p, k)
    ensures Hit(p, k) <==> p.states[k.slot] / 4 == Token(k)
  {
    if p.states[k.slot] / 4 == Token(k) { WordHasOwner(p, k); }
    if Hit(p, k) {
      var c := Current(p, k.slot);
      LiveIffOccupied(p, c);
      var st :| Holds(p, c, st);
      WordFacts(c, st);
    }
  }

  lemma ProbeView(x: Worker, k: Ticket)
    requires WorkerOk(x) && Issued(x.pool, k)
    ensures var (q, r) := Probe(x.pool, Token(k));
      r != 0 ==>
        && Hit(x.pool, k) && LiveSet(q) == LiveSet(x.pool) - {Current(x.pool, k.slot)}
        && |q.free| == |x.pool.free| + 1 && q.serials == x.pool.serials
  {
    TokenFacts(k);
    HitIffWord(x.pool, k);
    if Hit(x.pool, k) { VacateView(x.pool, Current(x.pool, k.slot)); }
  }

  lemma AbortView(x: Worker, k: Ticket)
    requires WorkerOk(x) && Issued(x.pool, k)
    ensures var (q, hit) := Abort(x.pool, Token(k));
      && (hit <==> Hit(x.pool, k))
      && (hit ==>
        && LiveSet(q) == LiveSet(x.pool) - {Current(x.pool, k.slot)}
        && |q.free| == |x.pool.free| + 1 && q.serials == x.pool.serials)
  {
    TokenFacts(k);
    HitIffWord(x.pool, k);
    if Hit(x.pool, k) { VacateView(x.pool, Current(x.pool, k.slot)); }
  }

  // ---------------------------------------------------------------- what a worker sees of its own steps

  lemma TakeSeen(s: Sys, w: nat, m: Memo)
    requires Inv(s) && w < |s.workers| && s.idle != []
    ensures var t, v := Do(s, TakeLane(w)), ViewOf(s, w, m);
      Inv(t) && s.idle[0] !in v.held && ViewOf(t, w, m) == Took(v, s.idle[0])
  {
    InvStep(s, TakeLane(w));
    LanesConserved(s, TakeLane(w));
    assert s.idle[0] in s.idle;
  }

  lemma GiveSeen(s: Sys, w: nat, l: Lane, m: Memo)
    requires Inv(s) && w < |s.workers| && Possible(s, GiveLane(w, l))
    ensures var t, v := Do(s, GiveLane(w, l)), ViewOf(s, w, m);
      Inv(t) && v.holding > 0 && ViewOf(t, w, m) == Gave(v, l)
  {
    InvStep(s, GiveLane(w, l));
    LanesConserved(s, GiveLane(w, l));
  }

  lemma PostEventSeen(s: Sys, w: nat, m: Memo)
    requires Inv(s) && w < |s.workers|
    ensures var t, v := Do(s, PostEvent(w)), ViewOf(s, w, m);
      var k := Acquire(s.workers[w].pool).1;
      && Inv(t) && (k.None? <==> v.spare == 0) && (k.None? ==> ViewOf(t, w, m) == v)
      && (k.Some? ==>
        k.value !in v.live && k.value !in v.open && Next(v, k.value) && ViewOf(t, w, m) == Got(v, k.value))
  {
    assert WorkerOk(s.workers[w]);
    InvStep(s, PostEvent(w));
    LanesConserved(s, PostEvent(w));
    AcquireView(s.workers[w]);
  }

  lemma PostWrSeen(s: Sys, w: nat, k: Ticket, l: Lane, m: Memo)
    requires Inv(s) && w < |s.workers| && Possible(s, PostWr(w, k, l))
    ensures var t := Do(s, PostWr(w, k, l));
      Inv(t) && ViewOf(t, w, m) == Sent(ViewOf(s, w, m), k, l)
  {
    InvStep(s, PostWr(w, k, l));
    LanesConserved(s, PostWr(w, k, l));
  }

  lemma ProbeSeen(s: Sys, w: nat, k: Ticket, m: Memo)
    requires Inv(s) && w < |s.workers| && Issued(s.workers[w].pool, k)
    ensures var t, v := Do(s, ProbeEvent(w, k)), ViewOf(s, w, m);
      var r := Probe(s.workers[w].pool, Token(k)).1;
      && Inv(t) && Known(v, k) && (r == 0 || r == 1 || r == -1) && (r != 0 ==> Carries(v, k))
      && ViewOf(t, w, m) == Struck(v, k, Holder(v, k), r)
  {
    assert WorkerOk(s.workers[w]);
    InvStep(s, ProbeEvent(w, k));
    LanesConserved(s, ProbeEvent(w, k));
    ProbeView(s.workers[w], k);
  }

  lemma AbortSeen(s: Sys, w: nat, k: Ticket, m: Memo)
    requires Inv(s) && w < |s.workers| && Issued(s.workers[w].pool, k)
    ensures var t, v := Do(s, AbortEvent(w, k)), ViewOf(s, w, m);
      && Inv(t) && Known(v, k) && (Abort(s.workers[w].pool, Token(k)).1 <==> Carries(v, k))
      && ViewOf(t, w, m) == if Carries(v, k) then Dropped(v, Holder(v, k)) else v
  {
    assert WorkerOk(s.workers[w]);
    InvStep(s, AbortEvent(w, k));
    LanesConserved(s, AbortEvent(w, k));
    AbortView(s.workers[w], k);
  }

  /** A ticket that was handed out, seen from the pool. */
  lemma KnownIsIssued(s: Sys, w: nat, m: Memo, k: Ticket)
    requires Inv(s) && w < |s.workers|
    ensures Known(ViewOf(s, w, m), k) <==> Issued(s.workers[w].pool, k)
  {
    assert WorkerOk(s.workers[w]);
  }

  // ---------------------------------------------------------------- runs and counts

  lemma ConsRun(s: Sys, a: Action, ss: seq<Sys>)
    requires Inv(s) && Enabled(s, a) && ss != [] && ss[0] == Do(s, a) && IsRun(ss)
    ensures IsRun([s] + ss)
  {
    assert Step(s, ss[0]);
    var r := [s] + ss;
    forall i | 0 <= i < |r| - 1 ensures Step(r[i], r[i + 1]) {
      if i > 0 { assert r[i] == ss[i - 1] && r[i + 1] == ss[i]; }
    }
  }

  lemma NoStep(s: Sys)
    ensures IsRun([s])
  {
  }

  lemma JoinRun(run: seq<Sys>, s: Sys, ss: seq<Sys>)
    requires run != [] && run[|run| - 1] == s && IsRun(run) && IsRun([s] + ss)
    ensures IsRun(run + ss)
  {
    var r := run + ss;
    forall i | 0 <= i < |r| - 1 ensures Step(r[i], r[i + 1]) {
      var j := i - (|run| - 1);
      if j >= 0 { assert r[i] == ([s] + ss)[j] && r[i + 1] == ([s] + ss)[j + 1]; }
    }
  }

  lemma NextSees(views: seq<View>, s: Sys, a: Action, w: nat, share: nat)
    requires Inv(s) && Enabled(s, a) && By(a, w) && w < |s.workers| && AllSee(views, s, share) && Inv(Do(s, a))
    ensures |Do(s, a).workers| == |s.workers| && AllSee(NextViews(views, Do(s, a), w, share), Do(s, a), share)
  {
    hide WorkerOk, LanesApart, SlotOk, Do, Possible, Settled, LiveSet;
    var t := Do(s, a);
    ShareKept(s, a, share, w);
    forall j | 0 <= j < |s.workers| && j != w ensures t.workers[j].held == s.workers[j].held {
      ShareKept(s, a, share, j);
    }
    forall i | 0 <= i < |views| ensures Sees(NextViews(views, t, w, share)[i], t, i, share) {
      assert Sees(views[i], s, i, share);
    }
  }

  lemma OneWorkerCount(ws: seq<Worker>)
    requires |ws| == 1
    ensures HeldCount(ws) == |ws[0].held|
  {
    assert ws[..0] == [];
  }
}
