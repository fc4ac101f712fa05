/**
  Two runs of a client whose first worker posts a request of twenty work requests, as the pipelines do
  (src/kv_bench.cpp): with two workers and the lanes of one, the second is refused a lane; and with one of
  its work requests collected, the request is in the state in which a get drain counts it as an error.
 */
module Scenarios {
  import opened Collections
  import opened EventSlots
  import opened SendJettyPools
  import opened LaneSystem
  import opened LaneShares
  import opened Verdicts
  import opened UrmaManagers
  import opened RequestBooks
  import opened RequestFlow
  import opened PoolSizing

  const CALM: Memo := Memo(true, 0)   // nobody above the share, and nothing refused

  // ---------------------------------------------------------------- the books

  /** The books are in order, and nothing failed. */
  ghost predicate InOrder(v: View, b: Books, slots: seq<Slot>) {
    |slots| == MAX_CONCURRENCY && AllSized(slots) && Balanced(v, b, slots) && Traced(v, b, slots, {}, {})
  }

  function NoBooks(): Books {
    Books(map[], map[], {}, 0, 0, 0)
  }

  /** All slots are vacant; the first is about to be used. */
  function Vacancies(): seq<Slot> {
    seq(MAX_CONCURRENCY, i => VacantSlot())[0 := VacantSlot().(active := true)]
  }

  lemma BooksStart(lanes: nat, workers: nat)
    ensures InOrder(NewView(lanes, workers), NoBooks(), Vacancies())
    ensures Posting(NoBooks(), NoBooks(), Vacancies()[0], 0, 0, 0)
  {
  }

  lemma BooksTake(v: View, b: Books, slots: seq<Slot>, send: nat, l: Lane) returns (c: Books, slots': seq<Slot>)
    requires InOrder(v, b, slots) && send < SENDS && l !in v.held && Posting(NoBooks(), b, slots[0], 0, 2 * send, send)
    ensures InOrder(Took(v, l), c, slots') && Posting(NoBooks(), c, slots'[0], 0, 2 * send, send + 1)
    ensures slots'[1..] == slots[1..] && slots'[0].jetty[send] == Some(l)
  {
    hide Balanced, Traced, WrsBooked, LanesBooked, SameElsewhere;
    c, slots' := WithLane(b, l, Pos(0, send, 0)), slots[0 := slots[0].(jetty := slots[0].jetty[send := Some(l)])];
    LaneEntered(v, NoBooks(), b, slots, 0, send, l);
    TraceLane(v, Took(v, l), b, c, slots, {}, {});
    TraceSlot(Took(v, l), c, slots, slots'[0]);
  }

  lemma TraceSlot(v: View, b: Books, slots: seq<Slot>, t: Slot)
    requires Traced(v, b, slots, {}, {}) && slots != [] && AllSized(slots) && Sized(t)
    requires t.token == slots[0].token && t.done == slots[0].done
    ensures Traced(v, b, slots[0 := t], {}, {})
  {
    SlotStaysPast(v, slots, 0, t);
  }

  lemma BooksPost(v: View, b: Books, slots: seq<Slot>, send: nat, half: nat, k: Ticket, l: Lane)
      returns (c: Books, slots': seq<Slot>)
    requires InOrder(v, b, slots) && send < SENDS && half < 2 && k !in v.live && k !in v.open
    requires v.spare > 0 && Next(v, k) && slots[0].jetty[send] == Some(l)
    requires Posting(NoBooks(), b, slots[0], 0, 2 * send + half, send + 1)
    ensures InOrder(Sent(Got(v, k), k, l), c, slots') && slots'[1..] == slots[1..]
    ensures Posting(NoBooks(), c, slots'[0], 0, 2 * send + half + 1, send + 1)
    ensures slots'[0].token[2 * send + half] == k && slots'[0].jetty == slots[0].jetty
  {
    hide Balanced, Blamed, AllPast, WrsBooked, LanesBooked, SameElsewhere;
    c, slots' := WithWr(b, k, Pos(0, send, half)), slots[0 := Written(slots[0], 2 * send + half, k)];
    WrEntered(v, NoBooks(), b, slots, 0, send, half, k, l);
    TraceSent(v, b, slots, {}, {}, k, l);
    WrittenPast(Sent(Got(v, k), k, l), slots, 0, 2 * send + half, k);
    SameQuarantine(Sent(Got(v, k), k, l), b, c);
  }

  lemma SameQuarantine(v: View, b: Books, c: Books)
    requires Blamed(v, b, {}, {}) && c.quarantine == b.quarantine
    ensures Blamed(v, c, {}, {})
  {
  }

  /** With nothing set aside, every open request is live. */
  lemma OpenAreLive(v: View, b: Books, slots: seq<Slot>)
    requires InOrder(v, b, slots)
    ensures v.open.Keys <= v.live && v.spare + b.live == SLOTS && v.held == b.lanes.Keys && b.quarantine == {}
  {
  }

  // ---------------------------------------------------------------- single steps of worker 0

  /** Worker 0 alone took part. */
  ghost predicate OnlyFirst(s: Sys, t: Sys) {
    |t.workers| == |s.workers| > 0 && t.workers[1..] == s.workers[1..]
  }

  lemma TakeView(s: Sys)
    requires Inv(s) && |s.workers| > 0 && s.idle != []
    ensures var t := Do(s, TakeLane(0));
      && Inv(t) && OnlyFirst(s, t) && t.idle == s.idle[1..] && s.idle[0] !in s.workers[0].held
      && ViewOf(t, 0, CALM) == Took(ViewOf(s, 0, CALM), s.idle[0])
  {
    TakeSeen(s, 0, CALM);
  }

  lemma PostEventView(s: Sys) returns (k: Ticket)
    requires Inv(s) && |s.workers| > 0 && |s.workers[0].pool.free| > 0
    requires s.workers[0].open.Keys <= LiveSet(s.workers[0].pool)
    ensures Enabled(s, PostEvent(0))
    ensures var t, v := Do(s, PostEvent(0)), ViewOf(s, 0, CALM);
      && Inv(t) && OnlyFirst(s, t) && t.idle == s.idle && t.workers[0].held == s.workers[0].held
      && k !in v.live && k !in v.open && Next(v, k) && ViewOf(t, 0, CALM) == Got(v, k)
      && (forall l :: l in s.workers[0].held ==> Possible(t, PostWr(0, k, l)))
      && Holds(t.workers[0].pool, k, Waiting)
  {
    PostEventSeen(s, 0, CALM);
    AcquireWorks(s.workers[0].pool);
    k := Acquire(s.workers[0].pool).1.value;
    WordFacts(k, Waiting);
  }

  lemma PostWrView(s: Sys, k: Ticket, l: Lane)
    requires Inv(s) && |s.workers| > 0 && Possible(s, PostWr(0, k, l))
    ensures var t := Do(s, PostWr(0, k, l));
      && Inv(t) && OnlyFirst(s, t) && t.idle == s.idle && t.workers[0].pool == s.workers[0].pool
      && ViewOf(t, 0, CALM) == Sent(ViewOf(s, 0, CALM), k, l)
      && Id(0, k) in t.flights && t.flights[Id(0, k)] == Flight(l, InHardware)
  {
    PostWrSeen(s, 0, k, l, CALM);
  }

  // ---------------------------------------------------------------- runs

  ghost function Last(ss: seq<Sys>): Sys
    requires ss != []
  {
    ss[|ss| - 1]
  }

  /** A run from `s0` in which only worker 0 acts, with its books at the end. */
  ghost predicate Working(ss: seq<Sys>, s0: Sys, b: Books, slots: seq<Slot>) {
    && ss != [] && ss[0] == s0 && IsRun(ss) && Inv(Last(ss)) && OnlyFirst(s0, Last(ss))
    && InOrder(ViewOf(Last(ss), 0, CALM), b, slots)
  }

  /** The event of `k` waits for the completion of its request, which is in the hardware. */
  ghost predicate Out(s: Sys, k: Ticket) {
    && |s.workers| > 0 && Holds(s.workers[0].pool, k, Waiting)
    && Id(0, k) in s.flights && s.flights[Id(0, k)].stage == InHardware
  }

  /** The worker takes the lane of its next send. */
  lemma Takes(ss: seq<Sys>, s0: Sys, b: Books, slots: seq<Slot>, send: nat)
      returns (ss': seq<Sys>, c: Books, slots': seq<Slot>)
    requires Working(ss, s0, b, slots) && Last(ss).idle != [] && send < SENDS
    requires Posting(NoBooks(), b, slots[0], 0, 2 * send, send)
    ensures Working(ss', s0, c, slots') && Last(ss').idle == Last(ss).idle[1..]
    ensures Posting(NoBooks(), c, slots'[0], 0, 2 * send, send + 1) && slots'[1..] == slots[1..]
  {
    hide Balanced, Traced, WorkerOk, LanesApart, Do, Posting;
    var s := Last(ss);
    TakeView(s);
    c, slots' := BooksTake(ViewOf(s, 0, CALM), b, slots, send, s.idle[0]);
    JoinStep(ss, s, TakeLane(0));
    ss' := ss + [Do(s, TakeLane(0))];
  }

  /** It acquires an event and posts its next work request. */
  lemma Posts(ss: seq<Sys>, s0: Sys, b: Books, slots: seq<Slot>, send: nat, half: nat)
      returns (ss': seq<Sys>, c: Books, slots': seq<Slot>)
    requires Working(ss, s0, b, slots) && send < SENDS && half < 2
    requires Posting(NoBooks(), b, slots[0], 0, 2 * send + half, send + 1)
    ensures Working(ss', s0, c, slots') && Last(ss').idle == Last(ss).idle
    ensures Posting(NoBooks(), c, slots'[0], 0, 2 * send + half + 1, send + 1) && slots'[1..] == slots[1..]
    ensures Out(Last(ss'), slots'[0].token[2 * send + half])
  {
    hide Balanced, Traced, Formed, WorkerOk, LanesApart, Possible, Do, SlotOk, WrsBooked, SameElsewhere, IsRun, Holds;
    var s, v := Last(ss), ViewOf(Last(ss), 0, CALM);
    OpenAreLive(v, b, slots);
    var k := PostEventView(s);
    var t := Do(s, PostEvent(0));
    assert LaneBooked(b, slots[0], 0, send);
    var l := slots[0].jetty[send].value;
    PostWrView(t, k, l);
    c, slots' := BooksPost(v, b, slots, send, half, k, l);
    JoinStep(ss, s, PostEvent(0));
    JoinStep(ss + [t], t, PostWr(0, k, l));
    ss' := ss + [t] + [Do(t, PostWr(0, k, l))];
  }

  lemma FirstView(s0: Sys)
    requires InitSys(s0) && |s0.workers| > 0
    ensures Inv(s0) && ViewOf(s0, 0, CALM) == NewView(|s0.idle|, |s0.workers|)
  {
    InitInv(s0);
    FreshCount(s0.workers);
    assert LiveSet(s0.workers[0].pool) == {};
  }

  lemma FleetOfOne(b: Books, slots: seq<Slot>)
    requires |slots| == MAX_CONCURRENCY && AllSized(slots) && slots[1..] == Vacancies()[1..]
    requires Posting(NoBooks(), b, slots[0], 0, WRS, SENDS)
    ensures Fleet(b, slots, [0])
  {
    hide Fleet, Posting;
    var empty := Vacancies()[0 := VacantSlot()];
    NoFleet(empty);
    FleetJoins(NoBooks(), b, empty, slots[0], 0, []);
    assert [] + [0] == [0];
    assert slots == [slots[0]] + slots[1..] && empty[0 := slots[0]] == [slots[0]] + Vacancies()[1..];
  }

  lemma NoFleet(slots: seq<Slot>)
    requires forall i :: 0 <= i < |slots| ==> !slots[i].active
    ensures Fleet(NoBooks(), slots, [])
  {
  }

  /** Worker 0 posts a whole request; its last work request is still in the hardware. */
  lemma PostsRequest(s0: Sys) returns (ss: seq<Sys>, b: Books, slots: seq<Slot>)
    requires InitSys(s0) && |s0.workers| > 0 && |s0.idle| >= SENDS
    ensures Working(ss, s0, b, slots) && Last(ss).idle == s0.idle[SENDS..]
    ensures Fleet(b, slots, [0]) && slots[0].doneCnt == 0 && !slots[0].done[WRS - 1]
    ensures Out(Last(ss), slots[0].token[WRS - 1])
  {
    hide Balanced, Traced, Inv, Posting, IsRun, Fleet, Out;
    FirstView(s0);
    BooksStart(|s0.idle|, |s0.workers|);
    NoStep(s0);
    ss, b, slots := [s0], NoBooks(), Vacancies();
    for send := 0 to SENDS
      invariant Working(ss, s0, b, slots) && Last(ss).idle == s0.idle[send..]
      invariant Posting(NoBooks(), b, slots[0], 0, 2 * send, send) && slots[1..] == Vacancies()[1..]
      invariant send > 0 ==> Out(Last(ss), slots[0].token[2 * send - 1])
    {
      ss, b, slots := Takes(ss, s0, b, slots, send);
      ss, b, slots := Posts(ss, s0, b, slots, send, 0);
      ss, b, slots := Posts(ss, s0, b, slots, send, 1);
    }
    FleetOfOne(b, slots);
    PostedUndone(b, slots[0]);
  }

  lemma PostedUndone(b: Books, s: Slot)
    requires Sized(s) && Posting(NoBooks(), b, s, 0, WRS, SENDS)
    ensures s.doneCnt == 0 && !s.done[WRS - 1]
  {
  }

  /** Default options, but two threads: the first worker posts a request, and the second is refused its first lane. */
  lemma SecondRefused(s0: Sys) returns (ss: seq<Sys>, b: Books, slots: seq<Slot>)
    requires InitSys(s0) && |s0.workers| == 2 && |s0.idle| == LanePool(2, 1, 1)
    ensures LanePool(2, 1, 1) < LanesWanted(2, 1)
    ensures Working(ss, s0, b, slots) && Fleet(b, slots, [0])
    ensures Refused(ss, 1, SENDS * SlotCount(1)) && Last(ss).workers[1].held == {}
  {
    ss, b, slots := PostsRequest(s0);
    assert Last(ss).workers[1] == Last(ss).workers[1..][0] == s0.workers[1..][0];
  }

  // ---------------------------------------------------------------- one work request is collected

  /** The hardware completes a request, the poll thread dispatches it, and the worker sees it succeed. */
  lemma CollectView(s: Sys, k: Ticket) returns (t: Sys, u: Sys)
    requires Inv(s) && Out(s, k)
    ensures Possible(s, Finish(Id(0, k), true)) && t == Do(s, Finish(Id(0, k), true)) && Inv(t) && OnlyFirst(s, t)
    ensures Possible(t, Dispatch(Id(0, k))) && u == Do(t, Dispatch(Id(0, k))) && Inv(u) && OnlyFirst(s, u)
    ensures ViewOf(u, 0, CALM) == ViewOf(s, 0, CALM) && Known(ViewOf(s, 0, CALM), k)
    ensures Holds(u.workers[0].pool, k, Succeeded)
  {
    var id := Id(0, k);
    t := Do(s, Finish(id, true));
    OthersAreSteady(0, s, Finish(id, true));
    FinishDecides(s, id, true);
    u := Do(t, Dispatch(id));
    OthersAreSteady(0, t, Dispatch(id));
    DispatchPool(t, id);
  }

  lemma ProbeSucceeds(s: Sys, k: Ticket)
    requires Inv(s) && |s.workers| > 0 && Holds(s.workers[0].pool, k, Succeeded)
    ensures Possible(s, ProbeEvent(0, k))
    ensures var t := Do(s, ProbeEvent(0, k));
      Inv(t) && OnlyFirst(s, t) && ViewOf(t, 0, CALM) == Probed(ViewOf(s, 0, CALM), k, 1)
  {
    EventHistory.LiveOperations(s.workers[0].pool, k, Succeeded, true);
    ProbeSeen(s, 0, k, CALM);
  }

  lemma BooksTick(v: View, b: Books, slots: seq<Slot>) returns (c: Books, slots': seq<Slot>)
    requires InOrder(v, b, slots) && Fleet(b, slots, [0]) && !slots[0].done[WRS - 1]
    requires Known(v, slots[0].token[WRS - 1])
    ensures InOrder(Probed(v, slots[0].token[WRS - 1], 1), c, slots') && Fleet(c, slots', [0])
    ensures slots'[0].doneCnt == slots[0].doneCnt + 1
  {
    hide Balanced, Blamed, AllPast, Fleet;
    var k := slots[0].token[WRS - 1];
    FlightBooked(v, b, slots, [0], 0, SENDS - 1, 1);
    c, slots' := SansWr(b, k), slots[0 := Ticked(slots[0], WRS - 1)];
    TraceWait(v, b, slots, {}, {}, k, true);
    TickedPast(Probed(v, k, 1), slots, 0, WRS - 1);
    TickBalances(v, b, slots, 0, SENDS - 1, 1);
    FleetTicks(b, slots, [0], 0, SENDS - 1, 1);
  }

  /** A run that leads to a request of which one work request is collected and nineteen are not. */
  lemma PartlyCollected(s0: Sys) returns (ss: seq<Sys>, b: Books, slots: seq<Slot>)
    requires InitSys(s0) && |s0.workers| > 0 && |s0.idle| >= SENDS
    ensures Working(ss, s0, b, slots) && Fleet(b, slots, [0]) && Roster([0], [], SlotCount(1))
    ensures slots[0].doneCnt == 1
  {
    hide Balanced, Traced, Formed, WorkerOk, LanesApart, Possible, Do, Fleet, SlotOk, IsRun, Out, Holds;
    ss, b, slots := PostsRequest(s0);
    var s, k := Last(ss), slots[0].token[WRS - 1];
    var t, u := CollectView(s, k);
    ProbeSucceeds(u, k);
    b, slots := BooksTick(ViewOf(s, 0, CALM), b, slots);
    JoinStep(ss, s, Finish(Id(0, k), true));
    JoinStep(ss + [t], t, Dispatch(Id(0, k)));
    JoinStep(ss + [t] + [u], u, ProbeEvent(0, k));
    ss := ss + [t] + [u] + [Do(u, ProbeEvent(0, k))];
  }
}
