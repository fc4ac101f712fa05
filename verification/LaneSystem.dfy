/**
  The whole client as a state machine: any number of workers with their event pools, the shared
  queue of send lanes, the hardware and the poll thread.

  Every action is one atomic step of the code: a lane operation under the pool's mutex, an event
  operation (atomic by the contracts of `EventSlotPools`), the acceptance of a work request by the
  library, its completion by the hardware, and the dispatch of a completion by the poll thread.
  A worker may give a lane back only when it has seen every request it posted on that lane succeed,
  and it acquires no more events once a probe or a wait has failed on one of its requests.  Module
  Pipelines shows that the workers keep to both rules.
 */
module LaneSystem {
  import opened Collections
  import opened EventSlots
  import opened Words
  import opened SendJettyPools

  const RID: nat := 0x100_0000_0000   // 2^40: the user context keeps the worker id above bit 40
  const MAX_WORKERS: nat := 1024

  /** held: lanes this worker has taken and not given back.
      open: the requests it posted without having seen them succeed, each with its lane. */
  datatype Worker = Worker(pool: Pool, held: set<Lane>, open: map<Ticket, Lane>)

  datatype Id = Id(worker: nat, ticket: Ticket)

  datatype Stage = InHardware | Queued(ok: bool)

  datatype Flight = Flight(lane: Lane, stage: Stage)

  /** flights: accepted requests whose completion has not been dispatched yet. */
  datatype Sys = Sys(workers: seq<Worker>, idle: seq<Lane>, flights: map<Id, Flight>)

  datatype Action =
    | TakeLane(w: nat)
    | GiveLane(w: nat, lane: Lane)
    | PostEvent(w: nat)
    | PostWr(w: nat, k: Ticket, lane: Lane)
    | ProbeEvent(w: nat, k: Ticket)
    | AbortEvent(w: nat, k: Ticket)
    | Finish(id: Id, ok: bool)
    | Dispatch(id: Id)

  // ---------------------------------------------------------------- user contexts

  function UserCtx(w: nat, token: nat): nat {
    w * RID + token
  }

  /** The poll thread routes a completion by the worker id in its user context. */
  function CompleteEvent(ws: seq<Worker>, ctx: nat, ok: bool): seq<Worker>
    requires forall i :: 0 <= i < |ws| ==> Shaped(ws[i].pool)
  {
    var wid := ctx / RID;
    if wid < |ws| then ws[wid := ws[wid].(pool := Complete(ws[wid].pool, ctx % RID, ok))] else ws
  }

  /** A completion reaches exactly the worker and the event that posted it. */
  lemma RoutedHome(ws: seq<Worker>, w: nat, k: Ticket, ok: bool)
    requires forall i :: 0 <= i < |ws| ==> Shaped(ws[i].pool)
    requires w < |ws| <= MAX_WORKERS && k.slot < SLOTS && k.serial > 0
    ensures UserCtx(w, Token(k)) < U64
    ensures CompleteEvent(ws, UserCtx(w, Token(k)), ok) == ws[w := ws[w].(pool := Complete(ws[w].pool, Token(k), ok))]
  {
    TokenFacts(k);
  }

  // ---------------------------------------------------------------- steps

  /** The event of `k` occupies its slot. */
  predicate Occupies(p: Pool, k: Ticket)
    requires Shaped(p)
  {
    k.slot < SLOTS && p.states[k.slot] != 0 && k.serial == p.serials[k.slot]
  }

  ghost predicate Formed(s: Sys) {
    && |s.workers| <= MAX_WORKERS
    && (forall i :: 0 <= i < |s.workers| ==> Valid(s.workers[i].pool))
    && (forall id :: id in s.flights ==> id.worker < |s.workers| && Issued(s.workers[id.worker].pool, id.ticket))
  }

  /** What the code can do when its workers follow the rule for lanes. */
  predicate Possible(s: Sys, a: Action)
    requires Formed(s)
  {
    match a
    case TakeLane(w) => w < |s.workers|
    case GiveLane(w, l) =>
      w < |s.workers| && l in s.workers[w].held && forall k :: k in s.workers[w].open ==> s.workers[w].open[k] != l
    case PostEvent(w) => w < |s.workers|
    case PostWr(w, k, l) =>
      w < |s.workers| && l in s.workers[w].held && Occupies(s.workers[w].pool, k) && k !in s.workers[w].open
    case ProbeEvent(w, k) => w < |s.workers| && Issued(s.workers[w].pool, k)
    case AbortEvent(w, k) => w < |s.workers| && Issued(s.workers[w].pool, k)
    case Finish(id, ok) => id in s.flights && s.flights[id].stage == InHardware
    case Dispatch(id) => id in s.flights && s.flights[id].stage.Queued?
  }

  /** Every request this worker has open still has its event: nothing has failed and nothing was
      abandoned. */
  predicate Settled(x: Worker)
    requires Shaped(x.pool)
  {
    forall k :: k in x.open ==> Occupies(x.pool, k)
  }

  /** What the workers do: they also follow the rule for events. */
  predicate Enabled(s: Sys, a: Action)
    requires Formed(s)
  {
    Possible(s, a) && (a.PostEvent? ==> Settled(s.workers[a.w]))
  }

  function SetWorker(s: Sys, w: nat, x: Worker): Sys
    requires w < |s.workers|
  {
    s.(workers := s.workers[w := x])
  }

  /** A verdict of success ends the worker's concern for the request; after a failure or an abort it
      keeps the request open for good, and with it the lane. */
  function Observed(x: Worker, k: Ticket, p: Pool, r: int): Worker {
    x.(pool := p, open := if r == 1 then x.open - {k} else x.open)
  }

  function Do(s: Sys, a: Action): Sys
    requires Formed(s) && Possible(s, a)
  {
    match a
    case TakeLane(w) =>
      if s.idle == [] then s
      else SetWorker(s, w, s.workers[w].(held := s.workers[w].held + {s.idle[0]})).(idle := s.idle[1..])
    case GiveLane(w, l) =>
      SetWorker(s, w, s.workers[w].(held := s.workers[w].held - {l})).(idle := s.idle + [l])
    case PostEvent(w) =>
      SetWorker(s, w, s.workers[w].(pool := Acquire(s.workers[w].pool).0))
    case PostWr(w, k, l) =>
      SetWorker(s, w, s.workers[w].(open := s.workers[w].open[k := l]))
        .(flights := s.flights[Id(w, k) := Flight(l, InHardware)])
    case ProbeEvent(w, k) =>
      var (p, r) := Probe(s.workers[w].pool, Token(k));
      SetWorker(s, w, Observed(s.workers[w], k, p, r))
    case AbortEvent(w, k) =>
      SetWorker(s, w, s.workers[w].(pool := Abort(s.workers[w].pool, Token(k)).0))
    case Finish(id, ok) =>
      s.(flights := s.flights[id := Flight(s.flights[id].lane, Queued(ok))])
    case Dispatch(id) =>
      s.(flights := s.flights - {id},
         workers := CompleteEvent(s.workers, UserCtx(id.worker, Token(id.ticket)), s.flights[id].stage.ok))
  }

  ghost predicate Step(s: Sys, t: Sys) {
    Formed(s) && exists a :: Enabled(s, a) && t == Do(s, a)
  }

  ghost predicate IsRun(ss: seq<Sys>) {
    forall i, j {:trigger Step(ss[i], ss[j])} :: 0 <= i < j < |ss| && j == i + 1 ==> Step(ss[i], ss[j])
  }

  /** A run in which workers may go on after a failure. */
  ghost predicate IsLooseRun(ss: seq<Sys>) {
    forall i, j {:trigger LooseStep(ss[i], ss[j])} :: 0 <= i < j < |ss| && j == i + 1 ==> LooseStep(ss[i], ss[j])
  }

  ghost predicate LooseStep(s: Sys, t: Sys) {
    Formed(s) && exists a :: Possible(s, a) && t == Do(s, a)
  }

  ghost predicate InitSys(s: Sys) {
    && |s.workers| <= MAX_WORKERS
    && (forall i :: 0 <= i < |s.workers| ==> s.workers[i] == Worker(Init(), {}, map[]))
    && Distinct(s.idle)
    && s.flights == map[]
  }

  lemma JoinStep(run: seq<Sys>, s: Sys, a: Action)
    requires run != [] && run[|run| - 1] == s && IsRun(run) && Inv(s) && Enabled(s, a)
    ensures IsRun(run + [Do(s, a)])
  {
    assert Step(s, Do(s, a));
  }

  // ---------------------------------------------------------------- bookkeeping invariant

  ghost predicate WorkerOk(x: Worker) {
    && Valid(x.pool)
    && forall k :: k in x.open ==> x.open[k] in x.held && Issued(x.pool, k)
  }

  /** Every lane has at most one place: once in the queue, or held by one worker. */
  ghost predicate LanesApart(s: Sys) {
    && Distinct(s.idle)
    && (forall i, l :: 0 <= i < |s.workers| && l in s.workers[i].held ==> l !in s.idle)
    && (forall i, j, l :: 0 <= i < |s.workers| && 0 <= j < |s.workers| ==>
          l in s.workers[i].held && l in s.workers[j].held ==> i == j)
  }

  ghost predicate Inv(s: Sys) {
    && Formed(s)
    && (forall i :: 0 <= i < |s.workers| ==> WorkerOk(s.workers[i]))
    && LanesApart(s)
  }

  /** The event operations move a pool to a consistent pool in which no slot is younger. */
  ghost predicate Ages(p: Pool, q: Pool) {
    && Valid(p) && Valid(q)
    && forall i :: 0 <= i < SLOTS ==> p.serials[i] <= q.serials[i]
  }

  /** Replacing a worker's pool by an older-or-equal one and shrinking its open requests is harmless. */
  lemma PoolChange(s: Sys, w: nat, x: Worker)
    requires Inv(s) && w < |s.workers| && Ages(s.workers[w].pool, x.pool)
    requires x.held == s.workers[w].held
    requires forall k :: k in x.open ==> k in s.workers[w].open && x.open[k] == s.workers[w].open[k]
    ensures Inv(SetWorker(s, w, x))
  {
    var t := SetWorker(s, w, x);
    forall i | 0 <= i < |t.workers| ensures WorkerOk(t.workers[i]) {
      assert WorkerOk(s.workers[i]);
    }
  }

  lemma AcquireAges(p: Pool)
    requires Valid(p)
    ensures Ages(p, Acquire(p).0)
  {
    AcquireValid(p);
    AcquireWorks(p);
  }

  lemma DispatchPool(s: Sys, id: Id)
    requires Formed(s) && Possible(s, Dispatch(id))
    ensures var x := s.workers[id.worker];
      var q := Complete(x.pool, Token(id.ticket), s.flights[id].stage.ok);
      Ages(x.pool, q) && Do(s, Dispatch(id)) == SetWorker(s, id.worker, x.(pool := q)).(flights := s.flights - {id})
  {
    RoutedHome(s.workers, id.worker, id.ticket, s.flights[id].stage.ok);
    TokenFacts(id.ticket);
    CompleteValid(s.workers[id.worker].pool, Token(id.ticket), s.flights[id].stage.ok);
  }

  lemma TakeStep(s: Sys, w: nat)
    requires Inv(s) && Possible(s, TakeLane(w))
    ensures Inv(Do(s, TakeLane(w)))
  {
    if s.idle != [] {
      var t := Do(s, TakeLane(w));
      forall i | 0 <= i < |t.workers| ensures WorkerOk(t.workers[i]) { assert WorkerOk(s.workers[i]); }
      assert s.idle == [s.idle[0]] + t.idle;
      assert s.idle[0] in s.idle;
      forall l | l in t.idle ensures l in s.idle && l != s.idle[0] { }
    }
  }

  lemma GiveStep(s: Sys, w: nat, lane: Lane)
    requires Inv(s) && Possible(s, GiveLane(w, lane))
    ensures Inv(Do(s, GiveLane(w, lane)))
  {
    var t := Do(s, GiveLane(w, lane));
    forall i | 0 <= i < |t.workers| ensures WorkerOk(t.workers[i]) { assert WorkerOk(s.workers[i]); }
    forall l | l in t.idle ensures l in s.idle || l == lane { }
    assert lane !in s.idle;
    assert Distinct(t.idle);
  }

  lemma PostStep(s: Sys, w: nat, k: Ticket, lane: Lane)
    requires Inv(s) && Possible(s, PostWr(w, k, lane))
    ensures Inv(Do(s, PostWr(w, k, lane)))
  {
    LiveIffOccupied(s.workers[w].pool, k);
    var t := Do(s, PostWr(w, k, lane));
    forall i | 0 <= i < |s.workers| ensures WorkerOk(t.workers[i]) { assert WorkerOk(s.workers[i]); }
  }

  lemma ProbeStep(s: Sys, w: nat, k: Ticket)
    requires Inv(s) && Possible(s, ProbeEvent(w, k))
    ensures Inv(Do(s, ProbeEvent(w, k)))
  {
    ProbeValid(s.workers[w].pool, Token(k));
    var (p, r) := Probe(s.workers[w].pool, Token(k));
    PoolChange(s, w, Observed(s.workers[w], k, p, r));
  }

  lemma AbortStep(s: Sys, w: nat, k: Ticket)
    requires Inv(s) && Possible(s, AbortEvent(w, k))
    ensures Inv(Do(s, AbortEvent(w, k)))
  {
    AbortValid(s.workers[w].pool, Token(k));
    PoolChange(s, w, s.workers[w].(pool := Abort(s.workers[w].pool, Token(k)).0));
  }

  lemma DispatchStep(s: Sys, id: Id)
    requires Inv(s) && Possible(s, Dispatch(id))
    ensures Inv(Do(s, Dispatch(id)))
  {
    DispatchPool(s, id);
    var x := s.workers[id.worker];
    PoolChange(s, id.worker, x.(pool := Complete(x.pool, Token(id.ticket), s.flights[id].stage.ok)));
  }

  /** Every action of anybody keeps the bookkeeping invariant. */
  lemma InvStep(s: Sys, a: Action)
    requires Inv(s) && Possible(s, a)
    ensures Inv(Do(s, a))
  {
    match a
    case TakeLane(w) => TakeStep(s, w);
    case GiveLane(w, l) => GiveStep(s, w, l);
    case PostEvent(w) =>
      AcquireAges(s.workers[w].pool);
      PoolChange(s, w, s.workers[w].(pool := Acquire(s.workers[w].pool).0));
    case PostWr(w, k, l) => PostStep(s, w, k, l);
    case ProbeEvent(w, k) => ProbeStep(s, w, k);
    case AbortEvent(w, k) => AbortStep(s, w, k);
    case Finish(id, ok) =>
    case Dispatch(id) => DispatchStep(s, id);
  }

  lemma InitInv(s: Sys)
    requires InitSys(s)
    ensures Inv(s)
  {
    InitValid();
  }

  // ---------------------------------------------------------------- flights

  /** Every request in flight is open at its worker, on its lane; and once the event of a request has
      its verdict, the request is no longer in flight. */
  ghost predicate FlightInv(s: Sys)
    requires Formed(s)
  {
    && (forall id :: id in s.flights ==> OpenAt(s.workers[id.worker], id.ticket, s.flights[id].lane))
    && (forall i :: 0 <= i < |s.workers| ==> VerdictsLanded(i, s.workers[i], s.flights))
  }

  /** The word of slot `i` carries a verdict. */
  ghost predicate Decided(p: Pool, i: nat)
    requires Shaped(p) && i < SLOTS
  {
    p.states[i] % 4 != 0
  }

  ghost predicate OpenAt(x: Worker, k: Ticket, lane: Lane) {
    k in x.open && x.open[k] == lane
  }

  ghost predicate VerdictsLanded(w: nat, x: Worker, flights: map<Id, Flight>) {
    && Shaped(x.pool)
    && forall i :: 0 <= i < SLOTS && Decided(x.pool, i) ==>
      Current(x.pool, i) in x.open && Id(w, Current(x.pool, i)) !in flights
  }

  /** No completion is late by 2^32-1 or more acquisitions of its slot. */
  ghost predicate NoWrap(s: Sys)
    requires Formed(s)
  {
    forall id :: id in s.flights ==> Recent(s.workers[id.worker].pool, id.ticket)
  }

  ghost predicate NoNewVerdicts(p: Pool, q: Pool) {
    && Shaped(p) && Shaped(q)
    && forall i :: 0 <= i < SLOTS && Decided(q, i) ==> Decided(p, i) && q.serials[i] == p.serials[i]
  }

  /** A worker whose pool got no new verdict, with the same open requests, changes nothing. */
  lemma QuietPool(s: Sys, w: nat, x: Worker)
    requires Formed(s) && FlightInv(s) && w < |s.workers| && Formed(SetWorker(s, w, x))
    requires NoNewVerdicts(s.workers[w].pool, x.pool) && x.open == s.workers[w].open
    ensures FlightInv(SetWorker(s, w, x))
  {
    assert VerdictsLanded(w, s.workers[w], s.flights);
    assert VerdictsLanded(w, x, s.flights);
  }

  lemma AcquireIsQuiet(p: Pool)
    requires Valid(p)
    ensures NoNewVerdicts(p, Acquire(p).0)
  {
    AcquireWorks(p);
    var (q, t) := Acquire(p);
    if t.Some? { WordFacts(t.value, Waiting); }
  }

  lemma VacateIsQuiet(p: Pool, i: nat)
    requires Shaped(p) && i < SLOTS
    ensures NoNewVerdicts(p, Vacate(p, i)) && !Decided(Vacate(p, i), i)
  {
  }

  /** When a probe reports success, the request it names is no longer in flight. */
  lemma SuccessMeansLanded(s: Sys, w: nat, k: Ticket)
    requires Inv(s) && FlightInv(s) && NoWrap(s) && Possible(s, ProbeEvent(w, k))
    requires Probe(s.workers[w].pool, Token(k)).1 == 1
    ensures Id(w, k) !in s.flights
  {
    TokenFacts(k);
    WordFacts(k, Succeeded);
    if Recent(s.workers[w].pool, k) {
      RecentMatches(s.workers[w].pool, k);
      LiveIffOccupied(s.workers[w].pool, k);
      assert VerdictsLanded(w, s.workers[w], s.flights);
      assert Decided(s.workers[w].pool, k.slot);
    }
  }

  lemma ProbeFlights(s: Sys, w: nat, k: Ticket)
    requires Inv(s) && FlightInv(s) && NoWrap(s) && Possible(s, ProbeEvent(w, k))
    requires Formed(Do(s, ProbeEvent(w, k)))
    ensures FlightInv(Do(s, ProbeEvent(w, k)))
  {
    var p := s.workers[w].pool;
    var (q, r) := Probe(p, Token(k));
    TokenFacts(k);
    VacateIsQuiet(p, k.slot);
    if r == 1 {
      SuccessMeansLanded(s, w, k);
      ForgetLanded(s, w, s.workers[w].(pool := q), k);
    } else {
      QuietPool(s, w, Observed(s.workers[w], k, q, r));
    }
  }

  /** A request that has landed and whose slot is empty may be struck off the open ones. */
  lemma ForgetLanded(s: Sys, w: nat, x: Worker, k: Ticket)
    requires Formed(s) && FlightInv(s) && w < |s.workers| && Formed(SetWorker(s, w, x.(open := x.open - {k})))
    requires NoNewVerdicts(s.workers[w].pool, x.pool) && x.open == s.workers[w].open
    requires Id(w, k) !in s.flights && k.slot < SLOTS && !Decided(x.pool, k.slot)
    ensures FlightInv(SetWorker(s, w, x.(open := x.open - {k})))
  {
    assert VerdictsLanded(w, s.workers[w], s.flights);
    assert VerdictsLanded(w, x.(open := x.open - {k}), s.flights);
  }

  /** Only the event of the dispatched request can get a verdict from its dispatch. */
  lemma DispatchIsAimed(p: Pool, k: Ticket, ok: bool)
    requires Valid(p) && Recent(p, k)
    ensures var q := Complete(p, Token(k), ok);
      forall i :: 0 <= i < SLOTS && Decided(q, i) && !Decided(p, i) ==> Current(q, i) == k
  {
    TokenFacts(k);
    RecentMatches(p, k);
    LiveIffOccupied(p, k);
  }

  lemma DispatchFlights(s: Sys, id: Id)
    requires Inv(s) && FlightInv(s) && NoWrap(s) && Possible(s, Dispatch(id))
    requires Formed(Do(s, Dispatch(id)))
    ensures FlightInv(Do(s, Dispatch(id)))
  {
    DispatchPool(s, id);
    var x, ok := s.workers[id.worker], s.flights[id].stage.ok;
    var y := x.(pool := Complete(x.pool, Token(id.ticket), ok));
    DispatchIsAimed(x.pool, id.ticket, ok);
    VerdictArrives(s, id, y);
  }

  lemma VerdictArrives(s: Sys, id: Id, y: Worker)
    requires Formed(s) && FlightInv(s) && id in s.flights && y.open == s.workers[id.worker].open
    requires Shaped(y.pool) && y.pool.serials == s.workers[id.worker].pool.serials
    requires forall i :: 0 <= i < SLOTS && Decided(y.pool, i) && !Decided(s.workers[id.worker].pool, i) ==>
      Current(y.pool, i) == id.ticket
    requires Formed(SetWorker(s, id.worker, y).(flights := s.flights - {id}))
    ensures FlightInv(SetWorker(s, id.worker, y).(flights := s.flights - {id}))
  {
    var rest := s.flights - {id};
    forall i | 0 <= i < |s.workers| ensures VerdictsLanded(i, if i == id.worker then y else s.workers[i], rest) {
      assert VerdictsLanded(i, s.workers[i], s.flights);
    }
  }

  /** Steps that touch no pool and no open request, and no flight but its stage. */
  lemma SameFlights(s: Sys, t: Sys)
    requires Formed(s) && FlightInv(s) && Formed(t) && |t.workers| == |s.workers|
    requires forall i :: 0 <= i < |s.workers| ==>
      t.workers[i].pool == s.workers[i].pool && t.workers[i].open == s.workers[i].open
    requires t.flights.Keys == s.flights.Keys
    requires forall id :: id in s.flights ==> t.flights[id].lane == s.flights[id].lane
    ensures FlightInv(t)
  {
    forall i | 0 <= i < |t.workers| ensures VerdictsLanded(i, t.workers[i], t.flights) {
      assert VerdictsLanded(i, s.workers[i], s.flights);
    }
  }

  lemma PostFlights(s: Sys, w: nat, k: Ticket, lane: Lane)
    requires Formed(s) && FlightInv(s) && Possible(s, PostWr(w, k, lane))
    requires Formed(Do(s, PostWr(w, k, lane)))
    ensures FlightInv(Do(s, PostWr(w, k, lane)))
  {
    var x := s.workers[w];
    RequestLeaves(s, w, k, lane, x.(open := x.open[k := lane]));
  }

  lemma RequestLeaves(s: Sys, w: nat, k: Ticket, lane: Lane, y: Worker)
    requires Formed(s) && FlightInv(s) && w < |s.workers| && k !in s.workers[w].open
    requires y.pool == s.workers[w].pool && y.open == s.workers[w].open[k := lane]
    requires Formed(SetWorker(s, w, y).(flights := s.flights[Id(w, k) := Flight(lane, InHardware)]))
    ensures FlightInv(SetWorker(s, w, y).(flights := s.flights[Id(w, k) := Flight(lane, InHardware)]))
  {
    var flights := s.flights[Id(w, k) := Flight(lane, InHardware)];
    forall i | 0 <= i < |s.workers| ensures VerdictsLanded(i, if i == w then y else s.workers[i], flights) {
      assert VerdictsLanded(i, s.workers[i], s.flights);
    }
  }

  lemma LaneFlights(s: Sys, a: Action)
    requires Formed(s) && FlightInv(s) && Possible(s, a) && (a.TakeLane? || a.GiveLane? || a.Finish?)
    requires Formed(Do(s, a))
    ensures FlightInv(Do(s, a))
  {
    SameFlights(s, Do(s, a));
  }

  lemma AcquireFlights(s: Sys, w: nat)
    requires Formed(s) && FlightInv(s) && Possible(s, PostEvent(w))
    requires Formed(Do(s, PostEvent(w)))
    ensures FlightInv(Do(s, PostEvent(w)))
  {
    AcquireIsQuiet(s.workers[w].pool);
    QuietPool(s, w, s.workers[w].(pool := Acquire(s.workers[w].pool).0));
  }

  lemma AbortFlights(s: Sys, w: nat, k: Ticket)
    requires Formed(s) && FlightInv(s) && Possible(s, AbortEvent(w, k))
    requires Formed(Do(s, AbortEvent(w, k)))
    ensures FlightInv(Do(s, AbortEvent(w, k)))
  {
    TokenFacts(k);
    VacateIsQuiet(s.workers[w].pool, k.slot);
    QuietPool(s, w, s.workers[w].(pool := Abort(s.workers[w].pool, Token(k)).0));
  }

  /** While no completion is late by 2^32-1 acquisitions, every action keeps the flight invariant. */
  lemma FlightStep(s: Sys, a: Action)
    requires Inv(s) && FlightInv(s) && NoWrap(s) && Possible(s, a) && Formed(Do(s, a))
    ensures FlightInv(Do(s, a))
  {
    match a
    case TakeLane(w) => LaneFlights(s, a);
    case GiveLane(w, l) => LaneFlights(s, a);
    case PostEvent(w) => AcquireFlights(s, w);
    case PostWr(w, k, l) => PostFlights(s, w, k, l);
    case ProbeEvent(w, k) => ProbeFlights(s, w, k);
    case AbortEvent(w, k) => AbortFlights(s, w, k);
    case Finish(id, ok) => LaneFlights(s, a);
    case Dispatch(id) => DispatchFlights(s, id);
  }

  // ---------------------------------------------------------------- requests in flight are the newest

  /** Every request in flight belongs to the last acquisition of its slot. */
  ghost predicate AllNewest(s: Sys)
    requires Formed(s)
  {
    forall id :: id in s.flights ==> IsNewest(s.workers[id.worker].pool, id.ticket)
  }

  ghost predicate IsNewest(p: Pool, k: Ticket)
    requires Shaped(p) && k.slot < SLOTS
  {
    k.serial == p.serials[k.slot]
  }

  lemma NewestIsRecent(s: Sys)
    requires Formed(s) && AllNewest(s)
    ensures NoWrap(s)
  {
    forall id | id in s.flights ensures Recent(s.workers[id.worker].pool, id.ticket) {
      assert IsNewest(s.workers[id.worker].pool, id.ticket);
    }
  }

  /** A worker whose slots were not acquired again changes nothing. */
  lemma SameSerials(s: Sys, t: Sys)
    requires Formed(s) && Formed(t) && AllNewest(s) && |t.workers| == |s.workers| && t.flights.Keys <= s.flights.Keys
    requires forall i :: 0 <= i < |s.workers| ==> t.workers[i].pool.serials == s.workers[i].pool.serials
    ensures AllNewest(t)
  {
    forall id | id in t.flights ensures IsNewest(t.workers[id.worker].pool, id.ticket) {
      assert IsNewest(s.workers[id.worker].pool, id.ticket);
    }
  }

  /** While everything open is live, the slot that is acquired next has nothing in flight. */
  lemma AcquireNewest(s: Sys, w: nat)
    requires Inv(s) && FlightInv(s) && AllNewest(s) && Enabled(s, PostEvent(w)) && Formed(Do(s, PostEvent(w)))
    ensures AllNewest(Do(s, PostEvent(w)))
  {
    AcquireWorks(s.workers[w].pool);
    var t := Do(s, PostEvent(w));
    forall id | id in t.flights ensures IsNewest(t.workers[id.worker].pool, id.ticket) {
      assert IsNewest(s.workers[id.worker].pool, id.ticket);
      assert OpenAt(s.workers[id.worker], id.ticket, s.flights[id].lane);
      if id.worker == w { assert Occupies(s.workers[w].pool, id.ticket); }
    }
  }

  lemma PostNewest(s: Sys, w: nat, k: Ticket, lane: Lane)
    requires Formed(s) && AllNewest(s) && Possible(s, PostWr(w, k, lane)) && Formed(Do(s, PostWr(w, k, lane)))
    ensures AllNewest(Do(s, PostWr(w, k, lane)))
  {
    var t := Do(s, PostWr(w, k, lane));
    forall id | id in t.flights ensures IsNewest(t.workers[id.worker].pool, id.ticket) {
      if id != Id(w, k) { assert IsNewest(s.workers[id.worker].pool, id.ticket); }
    }
  }

  /** Every step the workers take keeps it so. */
  lemma NewestStep(s: Sys, a: Action)
    requires Inv(s) && FlightInv(s) && AllNewest(s) && Enabled(s, a) && Formed(Do(s, a))
    ensures AllNewest(Do(s, a))
  {
    if a.PostEvent? {
      AcquireNewest(s, a.w);
    } else if a.PostWr? {
      PostNewest(s, a.w, a.k, a.lane);
    } else {
      if a.Dispatch? { DispatchPool(s, a.id); }
      SameSerials(s, Do(s, a));
    }
  }

  // ---------------------------------------------------------------- whole runs

  /** Bookkeeping holds in every state of every run, also of those that go on after a failure. */
  lemma {:induction false} RunInv(ss: seq<Sys>, i: nat)
    requires IsLooseRun(ss) && i < |ss| && Inv(ss[0])
    ensures Inv(ss[i])
  {
    if i > 0 {
      RunInv(ss, i - 1);
      StepInv(ss[i - 1], ss[i]);
    }
  }

  lemma StepInv(s: Sys, t: Sys)
    requires Inv(s) && LooseStep(s, t)
    ensures Inv(t)
  {
    var a :| Possible(s, a) && t == Do(s, a);
    InvStep(s, a);
  }

  lemma InitFlights(s: Sys)
    requires InitSys(s)
    ensures Inv(s) && FlightInv(s) && AllNewest(s)
  {
    InitInv(s);
  }

  lemma {:induction false} RunFlights(ss: seq<Sys>, i: nat)
    requires IsRun(ss) && i < |ss| && InitSys(ss[0])
    ensures Inv(ss[i]) && FlightInv(ss[i]) && AllNewest(ss[i])
  {
    if i == 0 {
      InitFlights(ss[0]);
    } else {
      RunFlights(ss, i - 1);
      StepFlights(ss[i - 1], ss[i]);
    }
  }

  lemma StepFlights(s: Sys, t: Sys)
    requires Inv(s) && FlightInv(s) && AllNewest(s) && Step(s, t)
    ensures Inv(t) && FlightInv(t) && AllNewest(t)
  {
    var a :| Enabled(s, a) && t == Do(s, a);
    InvStep(s, a);
    NewestIsRecent(s);
    FlightStep(s, a);
    NewestStep(s, a);
  }

  /** A lane that is idle, or held by a worker other than the one that posted, carries no request. */
  ghost predicate LaneSafe(s: Sys) {
    forall id :: id in s.flights ==>
      && s.flights[id].lane !in s.idle
      && id.worker < |s.workers| && s.flights[id].lane in s.workers[id.worker].held
  }

  lemma FlightsHeld(s: Sys)
    requires Inv(s) && FlightInv(s)
    ensures LaneSafe(s)
  {
    forall id | id in s.flights ensures s.flights[id].lane in s.workers[id.worker].held {
      assert WorkerOk(s.workers[id.worker]);
    }
  }

  /** Lane safety: in every state of every run, no lane in the idle queue has a request in the hardware
      or an undispatched completion; such a request's lane is still held by the worker that posted it,
      and its event is the newest of its slot. */
  lemma LaneSafety(ss: seq<Sys>, i: nat)
    requires IsRun(ss) && i < |ss| && InitSys(ss[0])
    ensures LaneSafe(ss[i]) && Formed(ss[i]) && AllNewest(ss[i])
  {
    RunFlights(ss, i);
    FlightsHeld(ss[i]);
  }

  // ---------------------------------------------------------------- runs that go on after a failure

  /** In no state of the run is a completion late by 2^32-1 or more acquisitions of its slot. */
  ghost predicate Timely(ss: seq<Sys>) {
    forall j :: 0 <= j < |ss| ==> Formed(ss[j]) && NoWrap(ss[j])
  }

  lemma {:induction false} LooseFlights(ss: seq<Sys>, i: nat)
    requires IsLooseRun(ss) && i < |ss| && InitSys(ss[0]) && Timely(ss)
    ensures Inv(ss[i]) && FlightInv(ss[i])
  {
    if i == 0 {
      InitFlights(ss[0]);
    } else {
      LooseFlights(ss, i - 1);
      LooseStepFlights(ss[i - 1], ss[i]);
    }
  }

  lemma LooseStepFlights(s: Sys, t: Sys)
    requires Inv(s) && FlightInv(s) && NoWrap(s) && LooseStep(s, t)
    ensures Inv(t) && FlightInv(t)
  {
    var a :| Possible(s, a) && t == Do(s, a);
    InvStep(s, a);
    FlightStep(s, a);
  }

  /** Workers that acquire events after a failure would be safe too, as long as no completion is late by
      2^32-1 or more acquisitions of its slot. */
  lemma LooseLaneSafety(ss: seq<Sys>, i: nat)
    requires IsLooseRun(ss) && i < |ss| && InitSys(ss[0]) && Timely(ss)
    ensures LaneSafe(ss[i])
  {
    LooseFlights(ss, i);
    FlightsHeld(ss[i]);
  }

  // ---------------------------------------------------------------- lanes are conserved

  function HeldCount(ws: seq<Worker>): nat {
    if ws == [] then 0 else HeldCount(ws[..|ws| - 1]) + |ws[|ws| - 1].held|
  }

  function LaneCount(s: Sys): nat {
    |s.idle| + HeldCount(s.workers)
  }

  lemma {:induction false} HeldUpdate(ws: seq<Worker>, w: nat, x: Worker)
    requires w < |ws|
    ensures HeldCount(ws[w := x]) == HeldCount(ws) - |ws[w].held| + |x.held|
  {
    var n := |ws| - 1;
    if w == n {
      assert ws[w := x][..n] == ws[..n];
    } else {
      assert ws[w := x][..n] == ws[..n][w := x];
      HeldUpdate(ws[..n], w, x);
    }
  }

  /** No action creates or loses a lane. */
  lemma LanesConserved(s: Sys, a: Action)
    requires Inv(s) && Possible(s, a)
    ensures LaneCount(Do(s, a)) == LaneCount(s)
  {
    if a.TakeLane? {
      TakeConserves(s, a.w);
    } else if a.Dispatch? {
      DispatchPool(s, a.id);
      var x := s.workers[a.id.worker];
      HeldUpdate(s.workers, a.id.worker, x.(pool := Complete(x.pool, Token(a.id.ticket), s.flights[a.id].stage.ok)));
    } else if !a.Finish? {
      HeldUpdate(s.workers, a.w, Do(s, a).workers[a.w]);
    }
  }

  lemma TakeConserves(s: Sys, w: nat)
    requires Inv(s) && Possible(s, TakeLane(w))
    ensures LaneCount(Do(s, TakeLane(w))) == LaneCount(s)
  {
    if s.idle != [] {
      assert s.idle[0] in s.idle;
      HeldUpdate(s.workers, w, s.workers[w].(held := s.workers[w].held + {s.idle[0]}));
    }
  }
}
