/**
  What becomes of the verdict of a completion: the hardware ends a request with success or failure, the poll
  thread delivers that to the event of the request (src/urma/urma_manager.cpp), and there it stays until the
  worker takes it.  No event has a verdict that the hardware did not give to its own request.
 */
module Verdicts {
  import opened EventSlots
  import opened LaneSystem
  import opened LaneShares
  import EventHistory

  function StatusFor(ok: bool): Status {
    if ok then Succeeded else Failed
  }

  ghost predicate StatusAt(s: Sys, w: nat, k: Ticket, st: Status) {
    w < |s.workers| && Holds(s.workers[w].pool, k, st)
  }

  // ---------------------------------------------------------------- from the hardware to the event

  /** Finishing and dispatching a request gives its waiting event exactly that verdict, and Probe reports it. */
  lemma FinishDecides(s: Sys, id: Id, ok: bool)
    requires Inv(s) && Possible(s, Finish(id, ok)) && StatusAt(s, id.worker, id.ticket, Waiting)
    ensures var t := Do(s, Finish(id, ok));
      && Inv(t) && Possible(t, Dispatch(id))
      && var u := Do(t, Dispatch(id));
         && Inv(u) && id !in u.flights && StatusAt(u, id.worker, id.ticket, StatusFor(ok))
         && Probe(u.workers[id.worker].pool, Token(id.ticket)).1 == if ok then 1 else -1
  {
    var t := Do(s, Finish(id, ok));
    InvStep(s, Finish(id, ok));
    InvStep(t, Dispatch(id));
    DispatchPool(t, id);
    var u := Do(t, Dispatch(id));
    EventHistory.LiveOperations(s.workers[id.worker].pool, id.ticket, Waiting, ok);
    assert WorkerOk(u.workers[id.worker]);
    EventHistory.LiveOperations(u.workers[id.worker].pool, id.ticket, StatusFor(ok), ok);
  }

  /** A success that comes between the last look of a wait and its abort is lost: the look sees the event waiting, the
      abort takes it with its success, and the request stays open. */
  lemma LateSuccessLost(s: Sys, id: Id)
    requires Inv(s) && Possible(s, Finish(id, true)) && StatusAt(s, id.worker, id.ticket, Waiting)
    ensures Probe(s.workers[id.worker].pool, Token(id.ticket)).1 == 0
    ensures var t := Do(s, Finish(id, true));
      && Formed(t) && Possible(t, Dispatch(id))
      && var u := Do(t, Dispatch(id));
         && Formed(u) && StatusAt(u, id.worker, id.ticket, Succeeded) && Possible(u, AbortEvent(id.worker, id.ticket))
         && var x := Do(u, AbortEvent(id.worker, id.ticket)).workers[id.worker];
            x.open == s.workers[id.worker].open && Shaped(x.pool) && !Occupies(x.pool, id.ticket)
  {
    FinishDecides(s, id, true);
    EventHistory.LiveOperations(s.workers[id.worker].pool, id.ticket, Waiting, true);
    var t := Do(s, Finish(id, true));
    var u := Do(t, Dispatch(id));
    DispatchPool(t, id);
    assert WorkerOk(u.workers[id.worker]);
    EventHistory.LiveOperations(u.workers[id.worker].pool, id.ticket, Succeeded, true);
  }

  // ---------------------------------------------------------------- verdicts last

  /** From `p` to `q`, an event with a verdict keeps it or is gone, and one that is gone stays gone. */
  ghost predicate Lasting(p: Pool, q: Pool) {
    && Shaped(p) && Shaped(q) && (forall i :: 0 <= i < SLOTS ==> p.serials[i] <= q.serials[i])
    && (forall k, st :: Holds(p, k, st) && st != Waiting ==> Holds(q, k, st) || !Occupies(q, k))
    && (forall k :: Issued(p, k) && !Occupies(p, k) ==> !Occupies(q, k))
  }

  lemma LastingTwice(p: Pool, q: Pool, r: Pool)
    requires Lasting(p, q) && Lasting(q, r)
    ensures Lasting(p, r)
  {
    forall k | Issued(p, k) && !Occupies(p, k) ensures !Occupies(r, k) {
      assert Issued(q, k);
    }
    forall k, st | Holds(p, k, st) && st != Waiting ensures Holds(r, k, st) || !Occupies(r, k) {
      assert Issued(p, k) && Issued(q, k);
    }
  }

  lemma SameLasts(p: Pool)
    requires Valid(p)
    ensures Lasting(p, p)
  {
  }

  lemma AcquireLasts(p: Pool)
    requires Valid(p)
    ensures Lasting(p, Acquire(p).0)
  {
    AcquireWorks(p);
    var (q, t) := Acquire(p);
    if t.Some? {
      forall k, st | Holds(p, k, st) ensures Holds(q, k, st) {
        WordFacts(k, st);
      }
    }
  }

  /** A completion gives a verdict to nothing but the waiting event of its token. */
  lemma CompleteGives(p: Pool, token: nat, ok: bool, k: Ticket, st: Status)
    requires Shaped(p) && token < RID && Holds(Complete(p, token, ok), k, st)
    ensures Holds(p, k, st) || (st == StatusFor(ok) && Token(k) == token && Holds(p, k, Waiting))
  {
    if !Holds(p, k, st) {
      TokenFacts(k);
      WordFacts(k, st);
      PendingWraps(token);
    }
  }

  lemma CompleteLasts(p: Pool, token: nat, ok: bool)
    requires Valid(p) && token < RID
    ensures Lasting(p, Complete(p, token, ok))
  {
    var q := Complete(p, token, ok);
    PendingWraps(token);
    forall k, st | Holds(p, k, st) && st != Waiting ensures Holds(q, k, st) {
      WordFacts(k, st);
    }
  }

  lemma VacateLasts(p: Pool, i: nat)
    requires Valid(p) && i < SLOTS
    ensures Lasting(p, Vacate(p, i))
  {
  }

  lemma StepLasts(s: Sys, a: Action, w: nat)
    requires Inv(s) && Possible(s, a) && w < |s.workers|
    ensures w < |Do(s, a).workers| && Lasting(s.workers[w].pool, Do(s, a).workers[w].pool)
  {
    hide Lasting, SlotOk, LanesApart, EventSlots.Acquire, EventSlots.Complete;
    var p := s.workers[w].pool;
    assert WorkerOk(s.workers[w]);
    SameLasts(p);
    match a {
      case PostEvent(_) => AcquireLasts(p);
      case ProbeEvent(_, k) => VacateLasts(p, k.slot); TokenFacts(k);
      case AbortEvent(_, k) => VacateLasts(p, k.slot); TokenFacts(k);
      case Dispatch(id) =>
        DispatchPool(s, id);
        TokenFacts(id.ticket);
        CompleteLasts(p, Token(id.ticket), s.flights[id].stage.ok);
      case _ =>
    }
  }

  lemma StaysSame(s: Sys, w: nat)
    requires Inv(s) && w < |s.workers|
    ensures Lasting(s.workers[w].pool, s.workers[w].pool)
  {
    assert WorkerOk(s.workers[w]);
    SameLasts(s.workers[w].pool);
  }

  lemma OneStepLasts(s: Sys, t: Sys, w: nat)
    requires Inv(s) && Step(s, t) && w < |s.workers|
    ensures w < |t.workers| && Lasting(s.workers[w].pool, t.workers[w].pool)
  {
    var a :| Enabled(s, a) && t == Do(s, a);
    StepLasts(s, a, w);
  }

  /** In every run, from any state to any later one. */
  lemma {:induction false} RunLasts(ss: seq<Sys>, i: nat, j: nat, w: nat)
    requires IsRun(ss) && i <= j < |ss| && Inv(ss[0]) && w < |ss[0].workers|
    ensures Inv(ss[i]) && Inv(ss[j]) && |ss[i].workers| == |ss[j].workers| == |ss[0].workers|
    ensures Lasting(ss[i].workers[w].pool, ss[j].workers[w].pool)
  {
    hide Lasting, Inv, Step;
    RunCounts(ss, i);
    RunCounts(ss, j);
    if i == j {
      StaysSame(ss[i], w);
    } else {
      RunLasts(ss, i, j - 1, w);
      OneStepLasts(ss[j - 1], ss[j], w);
      LastingTwice(ss[i].workers[w].pool, ss[j - 1].workers[w].pool, ss[j].workers[w].pool);
    }
  }

  /** A verdict is final: an event that has one has no other status in any later state of the run. */
  lemma VerdictIsFinal(ss: seq<Sys>, i: nat, j: nat, w: nat, k: Ticket, st: Status, st': Status)
    requires IsRun(ss) && i <= j < |ss| && Inv(ss[0])
    requires StatusAt(ss[i], w, k, st) && st != Waiting && StatusAt(ss[j], w, k, st')
    ensures st' == st
  {
    RunCounts(ss, i);
    RunLasts(ss, i, j, w);
    WordFacts(k, st');
    HoldsOne(ss[j].workers[w].pool, k, st, st');
  }

  // ---------------------------------------------------------------- from the event back to the hardware

  /** Action `a` leads from `s` to `t`. */
  ghost predicate Leads(s: Sys, a: Action, t: Sys) {
    Formed(s) && Enabled(s, a) && t == Do(s, a)
  }

  /** The run that these actions make. */
  ghost predicate RunBy(ss: seq<Sys>, acts: seq<Action>) {
    |ss| == |acts| + 1 && forall i :: 0 <= i < |acts| ==> Leads(ss[i], acts[i], ss[i + 1])
  }

  lemma StepLeads(s: Sys, t: Sys) returns (a: Action)
    requires Step(s, t)
    ensures Leads(s, a, t)
  {
    a :| Enabled(s, a) && t == Do(s, a);
  }

  lemma LeadsIsStep(s: Sys, a: Action, t: Sys)
    requires Leads(s, a, t)
    ensures Step(s, t)
  {
  }

  /** Every run is made by actions. */
  lemma {:induction false} RunHasActions(ss: seq<Sys>) returns (acts: seq<Action>)
    requires IsRun(ss) && ss != []
    ensures RunBy(ss, acts)
    decreases |ss|
  {
    hide Step, Leads;
    var n := |ss| - 1;
    if n == 0 {
      acts := [];
    } else {
      assert IsRun(ss[..n]);
      acts := RunHasActions(ss[..n]);
      var a := StepLeads(ss[n - 1], ss[n]);
      ActionAdded(ss, acts, a);
      acts := acts + [a];
    }
  }

  lemma ActionAdded(ss: seq<Sys>, acts: seq<Action>, a: Action)
    requires |ss| >= 2 && RunBy(ss[..|ss| - 1], acts) && Leads(ss[|ss| - 2], a, ss[|ss| - 1])
    ensures RunBy(ss, acts + [a])
  {
    hide Leads;
    var ss0 := ss[..|ss| - 1];
    forall i | 0 <= i < |acts| ensures Leads(ss[i], acts[i], ss[i + 1]) {
      assert ss[i] == ss0[i] && ss[i + 1] == ss0[i + 1];
    }
  }

  lemma ActionsMakeRun(ss: seq<Sys>, acts: seq<Action>)
    requires RunBy(ss, acts)
    ensures IsRun(ss)
  {
    hide Step, Leads;
    forall i, j | 0 <= i < j < |ss| && j == i + 1 ensures Step(ss[i], ss[j]) {
      LeadsIsStep(ss[i], acts[i], ss[i + 1]);
    }
  }

  /** Among the first `n` actions the hardware ends request `id` with this verdict. */
  ghost predicate Ended(acts: seq<Action>, n: nat, id: Id, ok: bool) {
    exists j :: 0 <= j < n && j < |acts| && acts[j] == Finish(id, ok)
  }

  /** All completions and all verdicts of events come from the hardware. */
  ghost predicate Grounded(s: Sys, acts: seq<Action>, n: nat) {
    && (forall id, ok :: id in s.flights && s.flights[id].stage == Queued(ok) ==> Ended(acts, n, id, ok))
    && (forall w: nat, k, ok :: StatusAt(s, w, k, StatusFor(ok)) ==> Ended(acts, n, Id(w, k), ok))
  }

  lemma AcquireGives(p: Pool, k: Ticket, st: Status)
    requires Valid(p) && Holds(Acquire(p).0, k, st) && st != Waiting
    ensures Holds(p, k, st)
  {
    AcquireWorks(p);
    var (q, t) := Acquire(p);
    if t.Some? && k.slot == t.value.slot { HoldsOne(q, k, st, Waiting); }
  }

  lemma VacateGives(p: Pool, i: nat, k: Ticket, st: Status)
    requires Valid(p) && i < SLOTS && Holds(Vacate(p, i), k, st)
    ensures Holds(p, k, st)
  {
    WordFacts(k, st);
  }

  /** A dispatched completion gives its verdict to the event of its own request, the newest of its slot. */
  lemma DispatchGives(s: Sys, id: Id, k: Ticket, st: Status)
    requires Inv(s) && AllNewest(s) && Possible(s, Dispatch(id)) && st != Waiting
    requires StatusAt(Do(s, Dispatch(id)), id.worker, k, st)
    ensures StatusAt(s, id.worker, k, st) || (k == id.ticket && st == StatusFor(s.flights[id].stage.ok))
  {
    DispatchPool(s, id);
    TokenFacts(id.ticket);
    TokenFacts(k);
    CompleteGives(s.workers[id.worker].pool, Token(id.ticket), s.flights[id].stage.ok, k, st);
    assert IsNewest(s.workers[id.worker].pool, id.ticket);
  }

  /** No other action gives an event a verdict. */
  lemma StepGives(s: Sys, a: Action, w: nat, k: Ticket, st: Status)
    requires Inv(s) && AllNewest(s) && Possible(s, a) && st != Waiting && StatusAt(Do(s, a), w, k, st)
    ensures StatusAt(s, w, k, st)
            || (a.Dispatch? && Id(w, k) == a.id && st == StatusFor(s.flights[a.id].stage.ok))
  {
    hide SlotOk, LanesApart, EventSlots.Acquire, EventSlots.Complete;
    if a.Dispatch? { DispatchPool(s, a.id); }
    assert w < |s.workers| && WorkerOk(s.workers[w]);
    var p := s.workers[w].pool;
    match a {
      case PostEvent(v) => if v == w { AcquireGives(p, k, st); }
      case ProbeEvent(v, j) =>
        TokenFacts(j);
        if v == w && Do(s, a).workers[w].pool != p { VacateGives(p, j.slot, k, st); }
      case AbortEvent(v, j) =>
        TokenFacts(j);
        if v == w && Do(s, a).workers[w].pool != p { VacateGives(p, j.slot, k, st); }
      case Dispatch(id) => if id.worker == w { DispatchGives(s, id, k, st); }
      case _ =>
    }
  }

  lemma EndedMore(acts: seq<Action>, n: nat, id: Id, ok: bool)
    requires Ended(acts, n, id, ok)
    ensures Ended(acts, n + 1, id, ok)
  {
  }

  lemma GroundedStep(s: Sys, acts: seq<Action>, n: nat)
    requires n < |acts| && Inv(s) && AllNewest(s) && Enabled(s, acts[n]) && Grounded(s, acts, n)
    ensures Grounded(Do(s, acts[n]), acts, n + 1)
  {
    hide Ended, SlotOk, WorkerOk, LanesApart;
    var a, t := acts[n], Do(s, acts[n]);
    forall id, ok | id in t.flights && t.flights[id].stage == Queued(ok) ensures Ended(acts, n + 1, id, ok) {
      FlightGrounded(s, acts, n, id, ok);
    }
    forall w: nat, k, ok | StatusAt(t, w, k, StatusFor(ok)) ensures Ended(acts, n + 1, Id(w, k), ok) {
      StepGives(s, a, w, k, StatusFor(ok));
      if StatusAt(s, w, k, StatusFor(ok)) {
        EndedMore(acts, n, Id(w, k), ok);
      } else {
        EndedMore(acts, n, a.id, ok);
      }
    }
  }

  lemma FlightGrounded(s: Sys, acts: seq<Action>, n: nat, id: Id, ok: bool)
    requires n < |acts| && Inv(s) && Enabled(s, acts[n]) && Grounded(s, acts, n)
    requires var t := Do(s, acts[n]); id in t.flights && t.flights[id].stage == Queued(ok)
    ensures Ended(acts, n + 1, id, ok)
  {
    if id in s.flights && s.flights[id].stage == Queued(ok) {
      EndedMore(acts, n, id, ok);
    } else {
      assert acts[n] == Finish(id, ok);
    }
  }

  lemma NothingYet(s: Sys, acts: seq<Action>)
    requires InitSys(s)
    ensures Grounded(s, acts, 0)
  {
    forall w: nat, k, ok | StatusAt(s, w, k, StatusFor(ok)) ensures false {
      WordFacts(k, StatusFor(ok));
    }
  }

  lemma GroundedNext(ss: seq<Sys>, acts: seq<Action>, i: nat)
    requires RunBy(ss, acts) && i < |acts| && InitSys(ss[0]) && Grounded(ss[i], acts, i)
    ensures Grounded(ss[i + 1], acts, i + 1)
  {
    hide Grounded, WorkerOk, LanesApart, FlightInv, Step, IsRun, Possible, Do;
    ActionsMakeRun(ss, acts);
    RunFlights(ss, i);
    assert Leads(ss[i], acts[i], ss[i + 1]);
    GroundedStep(ss[i], acts, i);
  }

  lemma {:induction false} RunGrounded(ss: seq<Sys>, acts: seq<Action>, i: nat)
    requires RunBy(ss, acts) && i < |ss| && InitSys(ss[0])
    ensures Grounded(ss[i], acts, i)
  {
    hide Grounded, Leads, InitSys;
    if i == 0 {
      NothingYet(ss[0], acts);
    } else {
      RunGrounded(ss, acts, i - 1);
      GroundedNext(ss, acts, i - 1);
    }
  }

  /** In every run, an event has a verdict only if the hardware ended its own request with that verdict before. */
  lemma VerdictHasCause(ss: seq<Sys>, acts: seq<Action>, i: nat, w: nat, k: Ticket, ok: bool)
    requires RunBy(ss, acts) && i < |ss| && InitSys(ss[0]) && StatusAt(ss[i], w, k, StatusFor(ok))
    ensures Ended(acts, i, Id(w, k), ok)
  {
    RunGrounded(ss, acts, i);
  }

  /** And Probe answers only such verdicts: that of the event that has the slot and carries the token. */
  lemma ProbeHasCause(ss: seq<Sys>, acts: seq<Action>, i: nat, w: nat, k: Ticket)
    requires RunBy(ss, acts) && i < |ss| && InitSys(ss[0]) && Formed(ss[i])
    requires w < |ss[i].workers| && Issued(ss[i].workers[w].pool, k)
    ensures var p := ss[i].workers[w].pool;
      var r, c := Probe(p, Token(k)).1, Current(p, k.slot);
      r != 0 ==> Token(c) == Token(k) && Ended(acts, i, Id(w, c), r == 1)
  {
    var p := ss[i].workers[w].pool;
    var r := Probe(p, Token(k)).1;
    if r != 0 {
      ProbeTells(p, k);
      VerdictHasCause(ss, acts, i, w, Current(p, k.slot), r == 1);
    }
  }

  /** What Probe answers is the status of the event that has the slot, if it carries the token. */
  lemma ProbeTells(p: Pool, k: Ticket)
    requires Valid(p) && Issued(p, k)
    ensures var r, c := Probe(p, Token(k)).1, Current(p, k.slot);
      && (r == 0 || r == 1 || r == -1)
      && (r != 0 ==> Token(c) == Token(k) && Holds(p, c, StatusFor(r == 1)))
      && (r == 0 && p.states[k.slot] != 0 && Token(c) == Token(k) ==> Holds(p, c, Waiting))
  {
    TokenFacts(k);
    var c := Current(p, k.slot);
    TokenFacts(c);
    if p.states[k.slot] != 0 {
      LiveIffOccupied(p, c);
      var st :| Holds(p, c, st);
      WordFacts(c, st);
      WordFacts(k, Succeeded);
      WordFacts(k, Failed);
    }
  }
}
