/**
  Whole histories of one event pool.

  A history interleaves, in any order, the atomic operations of the worker (acquire, probe, abort)
  and of the completion thread (complete) together with what each returned.  `FateOf` reads a
  history as an abstract map from tickets to what became of them, without looking at any state
  word; the theorems say that the pool's words and answers are exactly those of that map.
 */
module EventHistory {
  import opened Collections
  import opened EventSlots

  datatype Event =
    | Acquired(k: Ticket)
    | Exhausted
    | Completed(k: Ticket, ok: bool)
    | Probed(k: Ticket, r: int)
    | Aborted(k: Ticket, hit: bool)

  /** The pool makes this step, with this visible result. */
  ghost predicate Happens(p: Pool, e: Event, q: Pool)
    requires Operable(p)
  {
    match e
    case Acquired(k) => Acquire(p) == (q, Some(k))
    case Exhausted => Acquire(p) == (q, None)
    case Completed(k, ok) => q == Complete(p, Token(k), ok)
    case Probed(k, r) => Probe(p, Token(k)) == (q, r)
    case Aborted(k, hit) => Abort(p, Token(k)) == (q, hit)
  }

  /** Callers name only tickets they were given, while fewer than 2^32-1 acquisitions separate the
      ticket from the present. */
  ghost predicate Named(p: Pool, e: Event) {
    (e.Completed? || e.Probed? || e.Aborted?) ==> Recent(p, e.k)
  }

  ghost predicate History(ps: seq<Pool>, es: seq<Event>) {
    && |ps| == |es| + 1
    && ps[0] == Init()
    && (forall i :: 0 <= i < |es| ==> Operable(ps[i]) && Happens(ps[i], es[i], ps[i + 1]) && Named(ps[i], es[i]))
  }

  // ---------------------------------------------------------------- the abstract map

  datatype Fate = Unborn | In(status: Status) | Retired

  function Next(f: Fate, e: Event, k: Ticket): Fate {
    match e
    case Acquired(j) => if j == k then In(Waiting) else f
    case Exhausted => f
    case Completed(j, ok) =>
      if j == k && f == In(Waiting) then In(if ok then Succeeded else Failed) else f
    case Probed(j, r) => if j == k && r != 0 then Retired else f
    case Aborted(j, hit) => if j == k && hit then Retired else f
  }

  function FateOf(es: seq<Event>, k: Ticket): Fate {
    if es == [] then Unborn
    else Next(FateOf(es[..|es| - 1], k), es[|es| - 1], k)
  }

  lemma {:induction false} FateSnoc(es: seq<Event>, e: Event, k: Ticket)
    ensures FateOf(es + [e], k) == Next(FateOf(es, k), e, k)
  {
    assert (es + [e])[..|es|] == es;
  }

  ghost predicate Busy(es: seq<Event>, i: nat) {
    exists serial :: FateOf(es, Ticket(i, serial)).In?
  }

  /** What the abstract map answers to an event. */
  ghost predicate Answers(es: seq<Event>, e: Event) {
    match e
    case Acquired(k) => FateOf(es, k) == Unborn
    case Exhausted => forall i :: 0 <= i < SLOTS ==> Busy(es, i)
    case Completed(k, ok) => FateOf(es, k) != Unborn
    case Probed(k, r) =>
      r == (match FateOf(es, k) case In(Succeeded) => 1 case In(Failed) => -1 case _ => 0)
    case Aborted(k, hit) => hit == FateOf(es, k).In?
  }

  /** The words of the pool are the abstract map. */
  ghost predicate Agrees(p: Pool, es: seq<Event>)
    requires Shaped(p)
  {
    && (forall k, st :: FateOf(es, k) == In(st) <==> Holds(p, k, st))
    && (forall k :: FateOf(es, k) == Unborn <==> !Issued(p, k))
  }

  // ---------------------------------------------------------------- one step

  /** A ticket other than the current one of its slot is dead, and every operation on it is void. */
  lemma {:induction false} StaleChangesNothing(p: Pool, k: Ticket, ok: bool)
    requires Valid(p) && Recent(p, k) && !Live(p, k)
    ensures Complete(p, Token(k), ok) == p
    ensures Probe(p, Token(k)) == (p, 0)
    ensures Abort(p, Token(k)) == (p, false)
  {
    RecentMatches(p, k);
    TokenFacts(k);
  }

  /** The operations of a live ticket do what its status says. */
  lemma {:induction false} LiveOperations(p: Pool, k: Ticket, st: Status, ok: bool)
    requires Valid(p) && Holds(p, k, st)
    ensures Complete(p, Token(k), ok) ==
            if st == Waiting then p.(states := p.states[k.slot := Word(k, if ok then Succeeded else Failed)]) else p
    ensures Probe(p, Token(k)) ==
            if st == Waiting then (p, 0) else (Vacate(p, k.slot), if st == Succeeded then 1 else -1)
    ensures Abort(p, Token(k)) == (Vacate(p, k.slot), true)
  {
    TokenFacts(k);
    WordFacts(k, st);
  }

  /** Changing the word of one slot leaves every other ticket as it was. */
  lemma {:induction false} OtherTickets(p: Pool, q: Pool, i: nat, k: Ticket, st: Status)
    requires Shaped(p) && Shaped(q) && i < SLOTS
    requires forall j :: 0 <= j < SLOTS && j != i ==> q.states[j] == p.states[j] && q.serials[j] == p.serials[j]
    requires k.slot != i
    ensures Holds(q, k, st) <==> Holds(p, k, st)
    ensures Issued(q, k) <==> Issued(p, k)
  {
  }

  lemma {:induction false} VacatedHolds(p: Pool, k: Ticket, j: Ticket, st: Status)
    requires Valid(p) && Live(p, k)
    ensures Holds(Vacate(p, k.slot), j, st) <==> Holds(p, j, st) && j != k
  {
    if j.slot < SLOTS && j.serial > 0 { WordFacts(j, st); }
  }

  lemma {:induction false} AcquireStep(p: Pool, es: seq<Event>, e: Event, q: Pool)
    requires Valid(p) && Agrees(p, es) && Happens(p, e, q)
    requires e.Acquired? || e.Exhausted?
    ensures Valid(q) && Answers(es, e) && Agrees(q, es + [e])
  {
    AcquireValid(p);
    AcquireWorks(p);
    if e.Exhausted? {
      forall i | 0 <= i < SLOTS ensures Busy(es, i) {
        var k := Current(p, i);
        LiveIffOccupied(p, k);
        var st :| Holds(p, k, st);
        assert FateOf(es, Ticket(i, k.serial)) == In(st);
      }
    }
    forall k ensures FateOf(es + [e], k) == Unborn <==> !Issued(q, k) {
      FateSnoc(es, e, k);
    }
    forall k, st ensures FateOf(es + [e], k) == In(st) <==> Holds(q, k, st) {
      FateSnoc(es, e, k);
      if e.Acquired? {
        var i := e.k.slot;
        if k == e.k {
          if Holds(q, k, st) { HoldsOne(q, k, st, Waiting); }
        } else if k.slot != i {
          OtherTickets(p, q, i, k, st);
        } else if k.serial > 0 {
          WordFacts(k, st);
        }
      }
    }
  }

  lemma TicketStepValid(p: Pool, e: Event, q: Pool)
    requires Valid(p) && Happens(p, e, q) && (e.Completed? || e.Probed? || e.Aborted?) && e.k.slot < SLOTS
    requires e.k.serial > 0
    ensures Valid(q)
  {
    TokenFacts(e.k);
    CompleteValid(p, Token(e.k), true);
    CompleteValid(p, Token(e.k), false);
    ProbeValid(p, Token(e.k));
    AbortValid(p, Token(e.k));
  }

  lemma {:induction false} TicketStep(p: Pool, es: seq<Event>, e: Event, q: Pool)
    requires Valid(p) && Agrees(p, es) && Happens(p, e, q) && Named(p, e)
    requires e.Completed? || e.Probed? || e.Aborted?
    ensures Valid(q) && Answers(es, e) && Agrees(q, es + [e])
  {
    var k := e.k;
    TicketStepValid(p, e, q);
    TokenFacts(k);
    assert Issued(p, k);
    forall j ensures FateOf(es + [e], j) == Next(FateOf(es, j), e, j) {
      FateSnoc(es, e, j);
    }
    if !Live(p, k) {
      StaleChangesNothing(p, k, true);
      StaleChangesNothing(p, k, false);
      assert forall st :: FateOf(es, k) != In(st);
    } else {
      var st :| Holds(p, k, st);
      LiveOperations(p, k, st, true);
      LiveOperations(p, k, st, false);
      assert FateOf(es, k) == In(st);
      if q != p && !e.Completed? {
        assert q == Vacate(p, k.slot);
        forall j, s ensures Holds(q, j, s) <==> Holds(p, j, s) && j != k { VacatedHolds(p, k, j, s); }
      } else if q != p {
        var now := if e.ok then Succeeded else Failed;
        assert Holds(q, k, now);
        forall j, s ensures FateOf(es + [e], j) == In(s) <==> Holds(q, j, s) {
          if j.slot != k.slot { OtherTickets(p, q, k.slot, j, s); }
          else if j == k && Holds(q, k, s) { HoldsOne(q, k, s, now); }
        }
      }
    }
  }

  // ---------------------------------------------------------------- every history

  ghost predicate Answered(es: seq<Event>) {
    forall i :: 0 <= i < |es| ==> Answers(es[..i], es[i])
  }

  lemma {:induction false} PoolStep(p: Pool, es: seq<Event>, e: Event, q: Pool)
    requires Valid(p) && Agrees(p, es) && Happens(p, e, q) && Named(p, e)
    ensures Valid(q) && Answers(es, e) && Agrees(q, es + [e])
  {
    if e.Acquired? || e.Exhausted? {
      AcquireStep(p, es, e, q);
    } else {
      TicketStep(p, es, e, q);
    }
  }

  lemma {:induction false} InitAgrees()
    ensures Valid(Init()) && Agrees(Init(), [])
  {
    InitValid();
  }

  /** Refinement: over every history the pool stays consistent, its words are the abstract map and
      every answer it gave is the map's. */
  lemma {:induction false} PoolRefinesMap(ps: seq<Pool>, es: seq<Event>)
    requires History(ps, es)
    ensures Valid(ps[|es|]) && Agrees(ps[|es|], es)
    ensures Answered(es)
  {
    if es == [] {
      InitAgrees();
    } else {
      var n := |es| - 1;
      var es', e := es[..n], es[n];
      assert es == es' + [e];
      PoolRefinesMap(ps[..n + 1], es');
      PoolStep(ps[n], es', e, ps[n + 1]);
      forall i | 0 <= i < |es| ensures Answers(es[..i], es[i]) {
        if i < n {
          assert es'[..i] == es[..i] && es'[i] == es[i];
        } else {
          assert es[..i] == es';
        }
      }
    }
  }

  predicate Retires(e: Event, k: Ticket) {
    match e
    case Probed(j, r) => j == k && r != 0
    case Aborted(j, hit) => j == k && hit
    case _ => false
  }

  lemma {:induction false} RetiredForever(es: seq<Event>, k: Ticket, i: nat, j: nat)
    requires Answered(es) && i < j <= |es| && Retires(es[i], k)
    ensures FateOf(es[..j], k) == Retired
  {
    assert es[..j] == es[..j - 1] + [es[j - 1]];
    FateSnoc(es[..j - 1], es[j - 1], k);
    if i < j - 1 {
      RetiredForever(es, k, i, j - 1);
      assert Answers(es[..j - 1], es[j - 1]);
    }
  }

  /** An event is handed back at most once: once a Probe verdict or a successful Abort has retired
      it, every later operation of any history finds it retired and retires nothing. */
  lemma {:induction false} RetiredOnce(ps: seq<Pool>, es: seq<Event>, k: Ticket, i: nat, j: nat)
    requires History(ps, es) && i < j < |es| && Retires(es[i], k)
    ensures FateOf(es[..j], k) == Retired && !Retires(es[j], k) && es[j] != Acquired(k)
  {
    PoolRefinesMap(ps, es);
    RetiredForever(es, k, i, j);
    assert Answers(es[..j], es[j]);
  }

  /** Completion `i` of ticket `k` is the first one after its acquisition at `a`. */
  ghost predicate FirstVerdict(es: seq<Event>, k: Ticket, a: nat, i: nat, ok: bool) {
    && a < i < |es|
    && es[a] == Acquired(k)
    && es[i] == Completed(k, ok)
    && forall m :: a < m < i ==> !(es[m].Completed? && es[m].k == k)
  }

  lemma {:induction false} StatusHasCause(es: seq<Event>, k: Ticket, st: Status) returns (a: nat, i: nat)
    requires FateOf(es, k) == In(st)
    ensures st == Waiting ==> a < |es| && es[a] == Acquired(k)
    ensures st == Waiting ==> forall m :: a < m < |es| ==> !(es[m].Completed? && es[m].k == k)
    ensures st != Waiting ==> FirstVerdict(es, k, a, i, st == Succeeded)
  {
    var n := |es| - 1;
    var e := es[n];
    i := 0;
    if e == Acquired(k) {
      a := n;
    } else if e.Completed? && e.k == k && FateOf(es[..n], k) == In(Waiting) {
      a, i := StatusHasCause(es[..n], k, Waiting);
      i := n;
    } else {
      a, i := StatusHasCause(es[..n], k, st);
      if st != Waiting {
        forall m | a < m < i ensures !(es[m].Completed? && es[m].k == k) { assert es[m] == es[..n][m]; }
      }
    }
  }

  /** A verdict reported by Probe is the verdict of the first completion after the acquisition. */
  lemma {:induction false} ProbeReportsFirst(ps: seq<Pool>, es: seq<Event>, j: nat) returns (a: nat, i: nat)
    requires History(ps, es) && j < |es| && es[j].Probed? && es[j].r != 0
    ensures i < j && FirstVerdict(es, es[j].k, a, i, es[j].r == 1)
  {
    PoolRefinesMap(ps, es);
    var k := es[j].k;
    assert Answers(es[..j], es[j]);
    var st := FateOf(es[..j], k).status;
    a, i := StatusHasCause(es[..j], k, st);
    forall m | a < m < i ensures !(es[m].Completed? && es[m].k == k) { assert es[m] == es[..j][m]; }
  }

  // ---------------------------------------------------------------- the wrap-around, exactly

  /** A late completion disturbs the event that now waits in its slot exactly when the slot has been
      acquired a multiple of 2^32-1 times since. */
  lemma {:induction false} LateCompletionHits(p: Pool, k: Ticket, ok: bool)
    requires Valid(p) && k.slot < SLOTS && 0 < k.serial < p.serials[k.slot]
    requires Holds(p, Current(p, k.slot), Waiting)
    ensures Complete(p, Token(k), ok) != p <==> (p.serials[k.slot] - k.serial) % GENERATIONS == 0
  {
    var c := Current(p, k.slot);
    TokenFacts(k);
    WordFacts(c, Waiting);
    TokenFacts(c);
    TokensCoincide(k, c);
  }
}
