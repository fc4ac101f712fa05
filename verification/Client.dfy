/**
  The state the manager really has (src/urma/urma_manager.cpp): one pool of send lanes and one event
  pool for each registered worker.  Each of its calls is one action of `LaneSystem`, so that what is
  proved there about every run holds for these objects.  The calls are given without interference;
  `EventSlotPools` says what interference does to each: the same step, before or after completions.
 */
module Clients {
  import opened Collections
  import opened EventSlots
  import opened Words
  import opened SendJettyPools
  import opened LaneSystem
  import opened EventSlotPools

  /** The event pools of all workers. */
  class PoolTable {
    const pools: seq<EventSlotPool>

    ghost function Arrays(w: nat): set<object>
      requires w < |pools|
    {
      ArraysOf(pools[w])
    }

    /** No two workers share an event pool or an array. */
    ghost predicate Apart() {
      forall i, j :: 0 <= i < j < |pools| ==> pools[i] != pools[j] && Arrays(i) !! Arrays(j)
    }

    ghost function Footprint(): set<object> {
      (set w | 0 <= w < |pools| :: pools[w] as object) + (set w, a | 0 <= w < |pools| && a in Arrays(w) :: a)
    }

    ghost predicate PoolIs(w: nat, p: Pool)
      requires w < |pools|
      reads pools[w], Arrays(w)
    {
      pools[w].Consistent() && pools[w].View() == p
    }

    /** Each worker has its pool, in the state that `ws` says. */
    ghost predicate Holds(ws: seq<Worker>)
      reads Footprint()
    {
      Apart() && |pools| == |ws| && forall w :: 0 <= w < |pools| ==> PoolIs(w, ws[w].pool)
    }

    constructor (pools: seq<EventSlotPool>)
      requires forall w :: 0 <= w < |pools| ==> pools[w].Consistent() && pools[w].View() == Init()
      requires forall i, j :: 0 <= i < j < |pools| ==> pools[i] != pools[j] && ArraysOf(pools[i]) !! ArraysOf(pools[j])
      ensures this.pools == pools && Holds(seq(|pools|, i => Worker(Init(), {}, map[])))
    {
      this.pools := pools;
    }

    lemma HoldsSame(ws: seq<Worker>, ws': seq<Worker>)
      requires Holds(ws) && |ws'| == |ws| && forall i :: 0 <= i < |ws| ==> ws'[i].pool == ws[i].pool
      ensures Holds(ws')
    {
    }

    method Acquire(w: nat, ghost ws: seq<Worker>) returns (token: nat, ghost ticket: Option<Ticket>)
      requires w < |pools| && Holds(ws)
      modifies pools[w], Arrays(w)
      ensures Holds(ws[w := ws[w].(pool := EventSlots.Acquire(ws[w].pool).0)])
      ensures ticket == EventSlots.Acquire(ws[w].pool).1
      ensures token == if ticket.Some? then Token(ticket.value) else 0
    {
      hide SlotOk, EventSlots.Acquire;
      assert PoolIs(w, ws[w].pool);
      AcquireValid(ws[w].pool);
      if ws[w].pool.free == [] { AcquireNone(ws[w].pool); }
      var ok;
      ok, token, ticket := pools[w].Acquire([]);
      assert PoolIs(w, EventSlots.Acquire(ws[w].pool).0);
    }

    method Probe(w: nat, token: nat, ghost ws: seq<Worker>) returns (r: int)
      requires w < |pools| && Holds(ws) && token < TOKEN_LIMIT
      modifies pools[w], Arrays(w)
      ensures Holds(ws[w := ws[w].(pool := EventSlots.Probe(ws[w].pool, token).0)])
      ensures r == EventSlots.Probe(ws[w].pool, token).1
    {
      hide SlotOk;
      assert PoolIs(w, ws[w].pool);
      r := pools[w].Probe(token, [], []);
      assert PoolIs(w, EventSlots.Probe(ws[w].pool, token).0);
    }

    method Abort(w: nat, token: nat, ghost ws: seq<Worker>) returns (ok: bool)
      requires w < |pools| && Holds(ws) && token < TOKEN_LIMIT
      modifies pools[w], Arrays(w)
      ensures Holds(ws[w := ws[w].(pool := EventSlots.Abort(ws[w].pool, token).0)])
      ensures ok == EventSlots.Abort(ws[w].pool, token).1
    {
      hide SlotOk;
      assert PoolIs(w, ws[w].pool);
      ghost var played;
      ok, played := pools[w].Abort(token, [], []);
      assert PoolIs(w, EventSlots.Abort(ws[w].pool, token).0);
    }

    /** A user context that names no worker is ignored. */
    method Complete(userCtx: nat, ok: bool, ghost ws: seq<Worker>)
      requires Holds(ws)
      modifies Footprint()
      ensures Holds(CompleteEvent(ws, userCtx, ok))
    {
      hide SlotOk, EventSlots.Complete;
      var wid, token := userCtx / RID, userCtx % RID;
      if wid < |pools| {
        assert PoolIs(wid, ws[wid].pool) && pools[wid].states as object in Arrays(wid);
        TokenNotWide(token);
        CompleteValid(ws[wid].pool, token, ok);
        pools[wid].Complete(token, ok);
        assert PoolIs(wid, EventSlots.Complete(ws[wid].pool, token, ok));
        }
    }
  }

  class Client {
    const lanes: SendJettyPool
    const events: PoolTable
    ghost var sys: Sys

    /** The lane pool is the idle queue, and all lanes in use are its members. */
    ghost predicate LanesAre(s: Sys)
      reads lanes
    {
      && lanes.Valid() && lanes.Queue() == s.idle
      && forall w, l :: 0 <= w < |s.workers| && l in s.workers[w].held ==> l in lanes.Members()
    }

    /** The objects are in state `sys`. */
    ghost predicate Coupled()
      reads this, lanes, events.Footprint()
    {
      Inv(sys) && LanesAre(sys) && events.Holds(sys.workers)
    }

    /** A filled pool of lanes and a new event pool for each worker. */
    constructor (lanes: SendJettyPool, events: PoolTable)
      requires lanes.Valid() && |events.pools| <= MAX_WORKERS
      requires events.Holds(seq(|events.pools|, i => Worker(Init(), {}, map[])))
      ensures Coupled() && InitSys(sys) && this.lanes == lanes && this.events == events
    {
      this.lanes, this.events := lanes, events;
      sys := Sys(seq(|events.pools|, i => Worker(Init(), {}, map[])), lanes.Queue(), map[]);
      new;
      lanes.QueueDistinct();
      InitInv(sys);
    }

    method AcquireSendLane(w: nat) returns (lane: Option<Lane>)
      requires Coupled() && Possible(sys, TakeLane(w))
      modifies this, lanes
      ensures Coupled() && sys == Do(old(sys), TakeLane(w))
      ensures lane == if old(sys).idle == [] then None else Some(old(sys).idle[0])
    {
      hide WorkerOk, LanesApart, Formed, Inverse, Flagged, Do;
      TakeMoves(sys, w);
      lanes.QueueDistinct();
      ghost var skipped;
      lane, skipped := lanes.PopIdle();
      sys := Do(sys, TakeLane(w));
      events.HoldsSame(old(sys).workers, sys.workers);
    }

    method ReleaseSendLane(w: nat, lane: Lane)
      requires Coupled() && Possible(sys, GiveLane(w, lane))
      modifies this, lanes
      ensures Coupled() && sys == Do(old(sys), GiveLane(w, lane))
    {
      hide WorkerOk, LanesApart, Formed, Inverse, Flagged, Do;
      GiveMoves(sys, w, lane);
      lanes.Release(Some(lane));
      sys := Do(sys, GiveLane(w, lane));
      events.HoldsSame(old(sys).workers, sys.workers);
    }

    method PostEvent(w: nat) returns (userCtx: nat, token: nat)
      requires Coupled() && Possible(sys, LaneSystem.PostEvent(w))
      modifies this, events.pools[w], events.Arrays(w)
      ensures Coupled() && sys == Do(old(sys), LaneSystem.PostEvent(w))
      ensures var t := Acquire(old(sys).workers[w].pool).1;
        if t.None? then userCtx == token == 0 else token == Token(t.value) && userCtx == UserCtx(w, token)
    {
      hide WorkerOk, LanesApart, SlotOk, Inverse, Flagged, EventSlots.Acquire;
      InvStep(sys, LaneSystem.PostEvent(w));
      ghost var ticket;
      token, ticket := events.Acquire(w, sys.workers);
      AcquiredToken(sys.workers[w].pool);
      userCtx := if token == 0 then 0 else UserCtx(w, token);
      sys := Do(sys, LaneSystem.PostEvent(w));
    }

    method ProbeEvent(w: nat, token: nat, ghost k: Ticket) returns (r: int)
      requires Coupled() && Possible(sys, LaneSystem.ProbeEvent(w, k)) && token == Token(k)
      modifies this, events.pools[w], events.Arrays(w)
      ensures Coupled() && sys == Do(old(sys), LaneSystem.ProbeEvent(w, k))
      ensures r == Probe(old(sys).workers[w].pool, token).1
    {
      hide WorkerOk, LanesApart, SlotOk, Inverse, Flagged, EventSlots.Probe;
      InvStep(sys, LaneSystem.ProbeEvent(w, k));
      TokenFacts(k);
      r := events.Probe(w, token, sys.workers);
      ghost var probed := sys.workers[w := sys.workers[w].(pool := Probe(sys.workers[w].pool, token).0)];
      sys := Do(sys, LaneSystem.ProbeEvent(w, k));
      events.HoldsSame(probed, sys.workers);
    }

    method AbortEvent(w: nat, token: nat, ghost k: Ticket) returns (ok: bool)
      requires Coupled() && Possible(sys, LaneSystem.AbortEvent(w, k)) && token == Token(k)
      modifies this, events.pools[w], events.Arrays(w)
      ensures Coupled() && sys == Do(old(sys), LaneSystem.AbortEvent(w, k))
      ensures ok == Abort(old(sys).workers[w].pool, token).1
    {
      hide WorkerOk, LanesApart, SlotOk, Inverse, Flagged, EventSlots.Abort;
      InvStep(sys, LaneSystem.AbortEvent(w, k));
      TokenFacts(k);
      ok := events.Abort(w, token, sys.workers);
      sys := Do(sys, LaneSystem.AbortEvent(w, k));
    }

    /** The poll thread delivers a completion by its user context, whatever that is.  If it is that of a
        queued request `id`, this is the action of dispatching it. */
    method CompleteEvent(userCtx: nat, ok: bool, ghost id: Option<Id>)
      requires Coupled() && (id.Some? ==> Delivers(sys, userCtx, ok, id.value))
      modifies this, events.Footprint()
      ensures Coupled()
      ensures id.Some? ==> sys == Do(old(sys), Dispatch(id.value))
      ensures id.None? ==>
        sys == old(sys).(workers := LaneSystem.CompleteEvent(old(sys).workers, userCtx, ok))
    {
      hide WorkerOk, LanesApart, Formed, Possible, Do, SlotOk, Inverse, Flagged, LaneSystem.CompleteEvent;
      CompleteKeeps(sys, userCtx, ok);
      if id.Some? { DispatchDelivers(sys, userCtx, ok, id.value); }
      events.Complete(userCtx, ok, sys.workers);
      sys := if id.Some? then Do(sys, Dispatch(id.value))
             else sys.(workers := LaneSystem.CompleteEvent(sys.workers, userCtx, ok));
    }
  }

  /** The completion is that of request `id`, which waits to be dispatched. */
  ghost predicate Delivers(s: Sys, userCtx: nat, ok: bool, id: Id)
    requires Formed(s)
  {
    Possible(s, Dispatch(id)) && userCtx == UserCtx(id.worker, Token(id.ticket)) && ok == s.flights[id].stage.ok
  }

  /** Between two states only lanes moved. */
  ghost predicate SamePools(s: Sys, t: Sys) {
    |t.workers| == |s.workers| && forall i :: 0 <= i < |s.workers| ==> t.workers[i].pool == s.workers[i].pool
  }

  lemma TakeMoves(s: Sys, w: nat)
    requires Inv(s) && w < |s.workers|
    ensures var t := Do(s, TakeLane(w));
      && Inv(t) && SamePools(s, t) && (s.idle == [] ==> t == s) && (s.idle != [] ==> t.idle == s.idle[1..])
      && forall i, l :: 0 <= i < |s.workers| && l in t.workers[i].held ==>
           l in s.workers[i].held || (s.idle != [] && l == s.idle[0])
  {
    InvStep(s, TakeLane(w));
  }

  lemma GiveMoves(s: Sys, w: nat, lane: Lane)
    requires Inv(s) && Possible(s, GiveLane(w, lane))
    ensures var t := Do(s, GiveLane(w, lane));
      && Inv(t) && SamePools(s, t) && lane !in s.idle && t.idle == s.idle + [lane]
      && forall i, l :: 0 <= i < |s.workers| && l in t.workers[i].held ==> l in s.workers[i].held
  {
    InvStep(s, GiveLane(w, lane));
  }

  /** Any user context whatsoever keeps the bookkeeping. */
  lemma CompleteKeeps(s: Sys, userCtx: nat, ok: bool)
    requires Inv(s)
    ensures var t := s.(workers := CompleteEvent(s.workers, userCtx, ok));
      && Inv(t) && |t.workers| == |s.workers|
      && forall i :: 0 <= i < |s.workers| ==> t.workers[i].held == s.workers[i].held
  {
    var wid, token := userCtx / RID, userCtx % RID;
    if wid < |s.workers| {
      var x := s.workers[wid];
      TokenNotWide(token);
      assert WorkerOk(x);
      CompleteValid(x.pool, token, ok);
      PoolChange(s, wid, x.(pool := Complete(x.pool, token, ok)));
    }
  }

  lemma DispatchDelivers(s: Sys, userCtx: nat, ok: bool, id: Id)
    requires Inv(s) && Delivers(s, userCtx, ok, id)
    ensures var t := Do(s, Dispatch(id));
      Inv(t) && t.idle == s.idle && t.workers == CompleteEvent(s.workers, userCtx, ok)
  {
    InvStep(s, Dispatch(id));
  }

  lemma AcquiredToken(p: Pool)
    requires Valid(p)
    ensures var t := Acquire(p).1; t.Some? ==> Token(t.value) != 0
  {
    AcquireWorks(p);
  }

  lemma TokenNotWide(token: nat)
    requires token < RID
    ensures token == 0 || token % U62 != 0
  {
  }

  lemma AcquireNone(p: Pool)
    requires Operable(p) && p.free == []
    ensures Acquire(p) == (p, None)
  {
  }

  ghost function ArraysOf(p: EventSlotPool): set<object> {
    {p.states, p.generations, p.freeSlots}
  }
}
