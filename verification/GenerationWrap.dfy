/**
  Why the workers' rule for events is needed.  If a worker acquired events after a wait had failed,
  and a completion stayed away while its slot was acquired 2^32-1 times, it would be taken for the
  completion of the newest event, and a lane would go back to the idle queue with a request in the
  hardware.  No worker of the source does so; this is a run of the system without that rule.
 */
module GenerationWrap {
  import opened Collections
  import opened EventSlots
  import opened SendJettyPools
  import opened LaneSystem

  function Last(ss: seq<Sys>): Sys
    requires ss != []
  {
    ss[|ss| - 1]
  }

  ghost predicate RunFromTo(ss: seq<Sys>, s: Sys, t: Sys) {
    ss != [] && IsLooseRun(ss) && ss[0] == s && Last(ss) == t && Inv(t)
  }

  lemma Extend(ss: seq<Sys>, s: Sys, t: Sys, a: Action) returns (ss': seq<Sys>)
    requires RunFromTo(ss, s, t) && Possible(t, a)
    ensures RunFromTo(ss', s, Do(t, a))
  {
    InvStep(t, a);
    ss' := ss + [Do(t, a)];
    assert LooseStep(t, Do(t, a));
  }

  // ---------------------------------------------------------------- one worker, slot 0

  /** A pool whose only history is `n` acquisitions of slot 0, all retired. */
  function Rested(n: nat): Pool {
    Init().(serials := Init().serials[0 := n])
  }

  /** The same pool right after the next acquisition. */
  function Acquired(n: nat): Pool {
    Pool(Init().states[0 := Pending(Token(Ticket(0, n + 1)))], Init().serials[0 := n + 1], Init().free[..SLOTS - 1])
  }

  lemma RestedCycle(n: nat)
    ensures Operable(Rested(n)) && Acquire(Rested(n)) == (Acquired(n), Some(Ticket(0, n + 1)))
    ensures Abort(Acquired(n), Token(Ticket(0, n + 1))) == (Rested(n + 1), true)
  {
    TokenFacts(Ticket(0, n + 1));
    assert Init().free[SLOTS - 1] == 0 && Rested(n).free == Init().free;
    assert Init().serials[0 := n][0 := n + 1] == Init().serials[0 := n + 1];
    assert Acquire(Rested(n)).0.states == Acquired(n).states;
    assert Vacate(Acquired(n), 0).states == Init().states;
    assert Vacate(Acquired(n), 0).free == Init().free;
  }

  const FIRST: Ticket := Ticket(0, 1)
  const SECOND: Ticket := Ticket(0, GENERATIONS + 1)

  /** Lane 0 is quarantined with request `FIRST` in the hardware; slot 0 was acquired `n` times. */
  function Quarantined(n: nat): Sys {
    Sys([Worker(Rested(n), {0}, map[FIRST := 0])], [1], map[Id(0, FIRST) := Flight(0, InHardware)])
  }

  /** Posting and aborting events brings the counter of slot 0 from 1 to any `n`. */
  lemma {:induction false} Cycles(ss: seq<Sys>, s0: Sys, n: nat) returns (ss': seq<Sys>)
    requires n >= 1 && RunFromTo(ss, s0, Quarantined(1))
    ensures RunFromTo(ss', s0, Quarantined(n))
  {
    if n == 1 {
      ss' := ss;
    } else {
      ss' := Cycles(ss, s0, n - 1);
      ss' := OneCycle(ss', s0, n - 1);
    }
  }

  lemma OneCycle(ss: seq<Sys>, s0: Sys, n: nat) returns (ss': seq<Sys>)
    requires RunFromTo(ss, s0, Quarantined(n))
    ensures RunFromTo(ss', s0, Quarantined(n + 1))
  {
    var s := Quarantined(n);
    RestedCycle(n);
    ss' := Extend(ss, s0, s, PostEvent(0));
    var s1 := Do(s, PostEvent(0));
    ss' := Extend(ss', s0, s1, AbortEvent(0, Ticket(0, n + 1)));
    assert Do(s1, AbortEvent(0, Ticket(0, n + 1))) == Quarantined(n + 1);
  }

  function Start(): Sys {
    Sys([Worker(Init(), {}, map[])], [0, 1], map[])
  }

  function Tracked(p: Pool, held: set<Lane>, open: map<Ticket, Lane>, idle: seq<Lane>, flights: map<Id, Flight>): Sys {
    Sys([Worker(p, held, open)], idle, flights)
  }

  /** Request `FIRST` is posted on lane 0 and times out. */
  lemma TimesOut() returns (ss: seq<Sys>)
    ensures InitSys(Start()) && RunFromTo(ss, Start(), Quarantined(1))
  {
    var s0 := Start();
    InitInv(s0);
    assert Rested(0) == Init() by { assert Init().serials[0 := 0] == Init().serials; }
    RestedCycle(0);
    ss := Extend([s0], s0, s0, TakeLane(0));
    var s1 := Tracked(Init(), {0}, map[], [1], map[]);
    assert {} + {0} == {0} && [0, 1][1..] == [1];
    assert Do(s0, TakeLane(0)) == s1;
    ss := Extend(ss, s0, s1, PostEvent(0));
    var s2 := Tracked(Acquired(0), {0}, map[], [1], map[]);
    assert Do(s1, PostEvent(0)) == s2;
    ss := TimesOutPosted(ss, s2);
  }

  lemma TimesOutPosted(ss: seq<Sys>, s: Sys) returns (ss': seq<Sys>)
    requires s == Tracked(Acquired(0), {0}, map[], [1], map[]) && RunFromTo(ss, Start(), s)
    ensures RunFromTo(ss', Start(), Quarantined(1))
  {
    RestedCycle(0);
    TokenFacts(FIRST);
    ss' := Extend(ss, Start(), s, PostWr(0, FIRST, 0));
    var t := Tracked(Acquired(0), {0}, map[FIRST := 0], [1], map[Id(0, FIRST) := Flight(0, InHardware)]);
    assert Do(s, PostWr(0, FIRST, 0)) == t;
    ss' := Extend(ss', Start(), t, AbortEvent(0, FIRST));
  }

  /** Slot 0 with the verdict of its newest event. */
  function Decided(n: nat): Pool {
    Acquired(n).(states := Init().states[0 := Done(Token(Ticket(0, n + 1)), true)])
  }

  /** The new request's event is decided by the old request's completion. */
  lemma SameToken()
    ensures Token(FIRST) == Token(SECOND)
    ensures Complete(Acquired(GENERATIONS), Token(FIRST), true) == Decided(GENERATIONS)
    ensures Probe(Decided(GENERATIONS), Token(SECOND)) == (Rested(GENERATIONS + 1), 1)
  {
    TokensCoincide(FIRST, SECOND);
    TokenFacts(FIRST);
    assert Acquired(GENERATIONS).states[0 := Done(Token(FIRST), true)] == Decided(GENERATIONS).states;
    assert Vacate(Decided(GENERATIONS), 0).states == Init().states;
    assert Vacate(Decided(GENERATIONS), 0).free == Init().free;
  }

  /** Both requests are open, on lanes 0 and 1. */
  function BothOpen(p: Pool, flights: map<Id, Flight>): Sys {
    Tracked(p, {0, 1}, map[FIRST := 0, SECOND := 1], [], flights)
  }

  const FIRST_FLYING: map<Id, Flight> := map[Id(0, FIRST) := Flight(0, InHardware)]
  const SECOND_FLYING: map<Id, Flight> := map[Id(0, SECOND) := Flight(1, InHardware)]

  /** A second request goes out on lane 1 under the same token. */
  lemma PostsAgain(ss: seq<Sys>, s0: Sys) returns (ss': seq<Sys>)
    requires RunFromTo(ss, s0, Quarantined(GENERATIONS))
    ensures RunFromTo(ss', s0, BothOpen(Acquired(GENERATIONS), FIRST_FLYING + SECOND_FLYING))
  {
    RestedCycle(GENERATIONS);
    ss' := Extend(ss, s0, Quarantined(GENERATIONS), PostEvent(0));
    var s1 := Tracked(Acquired(GENERATIONS), {0}, map[FIRST := 0], [1], FIRST_FLYING);
    assert Do(Quarantined(GENERATIONS), PostEvent(0)) == s1;
    ss' := TakesLane1(ss', s0, s1);
  }

  lemma TakesLane1(ss: seq<Sys>, s0: Sys, s1: Sys) returns (ss': seq<Sys>)
    requires s1 == Tracked(Acquired(GENERATIONS), {0}, map[FIRST := 0], [1], FIRST_FLYING) && RunFromTo(ss, s0, s1)
    ensures RunFromTo(ss', s0, BothOpen(Acquired(GENERATIONS), FIRST_FLYING + SECOND_FLYING))
  {
    ss' := Extend(ss, s0, s1, TakeLane(0));
    var s2 := Tracked(Acquired(GENERATIONS), {0, 1}, map[FIRST := 0], [], FIRST_FLYING);
    assert {0} + {1} == {0, 1} && [1][1..] == [];
    assert Do(s1, TakeLane(0)) == s2;
    ss' := PostsOnLane1(ss', s0, s2);
  }

  lemma PostsOnLane1(ss: seq<Sys>, s0: Sys, s2: Sys) returns (ss': seq<Sys>)
    requires s2 == Tracked(Acquired(GENERATIONS), {0, 1}, map[FIRST := 0], [], FIRST_FLYING) && RunFromTo(ss, s0, s2)
    ensures RunFromTo(ss', s0, BothOpen(Acquired(GENERATIONS), FIRST_FLYING + SECOND_FLYING))
  {
    PostResult(s2);
    ss' := Extend(ss, s0, s2, PostWr(0, SECOND, 1));
  }

  lemma PostResult(s: Sys)
    requires s == Tracked(Acquired(GENERATIONS), {0, 1}, map[FIRST := 0], [], FIRST_FLYING) && Formed(s)
    ensures Possible(s, PostWr(0, SECOND, 1))
    ensures Do(s, PostWr(0, SECOND, 1)) == BothOpen(Acquired(GENERATIONS), FIRST_FLYING + SECOND_FLYING)
  {
    TokenFacts(SECOND);
    assert map[FIRST := 0][SECOND := 1] == map[FIRST := 0, SECOND := 1];
    assert FIRST_FLYING[Id(0, SECOND) := Flight(1, InHardware)] == FIRST_FLYING + SECOND_FLYING;
  }

  /** The first request completes at last and the poll thread dispatches it. */
  lemma CompletesLate(ss: seq<Sys>, s0: Sys, s: Sys) returns (ss': seq<Sys>)
    requires s == BothOpen(Acquired(GENERATIONS), FIRST_FLYING + SECOND_FLYING)
    requires RunFromTo(ss, s0, s)
    ensures RunFromTo(ss', s0, BothOpen(Decided(GENERATIONS), SECOND_FLYING))
  {
    var id := Id(0, FIRST);
    ss' := Extend(ss, s0, s, Finish(id, true));
    var queued := (FIRST_FLYING + SECOND_FLYING)[id := Flight(0, Queued(true))];
    var t := s.(flights := queued);
    assert Do(s, Finish(id, true)) == t;
    ss' := Dispatched(ss', s0, t, queued);
  }

  lemma Dispatched(ss: seq<Sys>, s0: Sys, t: Sys, queued: map<Id, Flight>) returns (ss': seq<Sys>)
    requires queued == (FIRST_FLYING + SECOND_FLYING)[Id(0, FIRST) := Flight(0, Queued(true))]
    requires t == BothOpen(Acquired(GENERATIONS), queued)
    requires RunFromTo(ss, s0, t)
    ensures RunFromTo(ss', s0, BothOpen(Decided(GENERATIONS), SECOND_FLYING))
  {
    ss' := Extend(ss, s0, t, Dispatch(Id(0, FIRST)));
    DispatchResult(t, queued);
  }

  lemma FirstLands()
    ensures (FIRST_FLYING + SECOND_FLYING)[Id(0, FIRST) := Flight(0, Queued(true))] - {Id(0, FIRST)} == SECOND_FLYING
  {
  }

  lemma DispatchResult(t: Sys, queued: map<Id, Flight>)
    requires queued == (FIRST_FLYING + SECOND_FLYING)[Id(0, FIRST) := Flight(0, Queued(true))]
    requires t == BothOpen(Acquired(GENERATIONS), queued) && Formed(t)
    ensures Do(t, Dispatch(Id(0, FIRST))) == BothOpen(Decided(GENERATIONS), SECOND_FLYING)
  {
    DispatchPool(t, Id(0, FIRST));
    SameToken();
    FirstLands();
  }

  /** The worker takes that for the success of its second request and gives lane 1 back. */
  lemma GivesBack(ss: seq<Sys>, s0: Sys, s: Sys) returns (ss': seq<Sys>, t: Sys)
    requires s == BothOpen(Decided(GENERATIONS), SECOND_FLYING)
    requires RunFromTo(ss, s0, s)
    ensures RunFromTo(ss', s0, t) && !LaneSafe(t)
  {
    SameToken();
    ss' := Extend(ss, s0, s, ProbeEvent(0, SECOND));
    var s1 := Tracked(Rested(GENERATIONS + 1), {0, 1}, map[FIRST := 0], [], SECOND_FLYING);
    assert map[FIRST := 0, SECOND := 1] - {SECOND} == map[FIRST := 0];
    assert Do(s, ProbeEvent(0, SECOND)) == s1;
    ss' := Extend(ss', s0, s1, GiveLane(0, 1));
    t := Do(s1, GiveLane(0, 1));
    assert Id(0, SECOND) in t.flights && t.flights[Id(0, SECOND)].lane == 1;
  }

  lemma WrapRun() returns (ss: seq<Sys>)
    ensures ss != [] && IsLooseRun(ss) && InitSys(ss[0]) && !LaneSafe(Last(ss))
  {
    ss := TimesOut();
    ss := Cycles(ss, Start(), GENERATIONS);
    ss := PostsAgain(ss, Start());
    ss := CompletesLate(ss, Start(), Last(ss));
    var t;
    ss, t := GivesBack(ss, Start(), Last(ss));
  }

  /** Without the rule lane safety fails: here is a run that ends with a lane in the idle queue and its
      request still in the hardware.  So it is no run of workers that follow the rule. */
  lemma WrapBreaksLaneSafety() returns (ss: seq<Sys>)
    ensures ss != [] && IsLooseRun(ss) && InitSys(ss[0]) && !LaneSafe(Last(ss))
    ensures !IsRun(ss)
  {
    ss := WrapRun();
    if IsRun(ss) { LaneSafety(ss, |ss| - 1); }
  }
}
