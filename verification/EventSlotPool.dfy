/**
  The class of src/urma/event_slot_pool.h, on arrays, one worker against one completion thread.

  The worker's Probe and Abort read a state word and change it in a later compare-and-swap.  In
  between the completion thread may run any number of completions: the schedules of those are
  parameters, as are the spurious failures of the weak compare-and-swap.  The contracts say that
  each operation nevertheless takes effect as one atomic step of `EventSlots` at its first load.
 */
module EventSlotPools {
  import opened EventSlots
  import opened Words
  import opened Collections

  const TOKEN_LIMIT: nat := 0x100_0000_0000   // 2^40: CompleteEvent masks the user context

  /** A completion as the poll thread delivers it: a raw user context and a verdict. */
  datatype Completion = Completion(ctx: nat, ok: bool)

  function CompleteAll(p: Pool, cs: seq<Completion>): (q: Pool)
    requires Shaped(p)
    ensures Shaped(q) && q.serials == p.serials && q.free == p.free
    decreases |cs|
  {
    if cs == [] then p
    else CompleteAll(Complete(p, cs[0].ctx % TOKEN_LIMIT, cs[0].ok), cs[1..])
  }

  // ---------------------------------------------------------------- what completions leave alone

  lemma {:induction false} CompleteAllValid(p: Pool, cs: seq<Completion>)
    requires Valid(p)
    ensures Valid(CompleteAll(p, cs))
    decreases |cs|
  {
    if cs != [] {
      CompleteValid(p, cs[0].ctx % TOKEN_LIMIT, cs[0].ok);
      CompleteAllValid(Complete(p, cs[0].ctx % TOKEN_LIMIT, cs[0].ok), cs[1..]);
    }
  }

  lemma CompletionFacts(token: nat, ok: bool)
    requires token < TOKEN_LIMIT
    ensures Pending(token) == 4 * token && Done(token, ok) / 4 == token
  {
  }

  /** Completions never change whose event a word belongs to, and never touch a finished word. */
  lemma {:induction false} WordOwnerKept(p: Pool, cs: seq<Completion>, i: nat)
    requires Shaped(p) && i < SLOTS
    ensures CompleteAll(p, cs).states[i] / 4 == p.states[i] / 4
    ensures p.states[i] % 4 != 0 || p.states[i] == 0 ==> CompleteAll(p, cs).states[i] == p.states[i]
    decreases |cs|
  {
    if cs != [] {
      CompletionFacts(cs[0].ctx % TOKEN_LIMIT, cs[0].ok);
      WordOwnerKept(Complete(p, cs[0].ctx % TOKEN_LIMIT, cs[0].ok), cs[1..], i);
    }
  }

  /** Emptying a slot before or after a batch of completions is the same. */
  lemma {:induction false} VacateCommutes(p: Pool, cs: seq<Completion>, i: nat)
    requires Shaped(p) && i < SLOTS
    ensures Vacate(CompleteAll(p, cs), i) == CompleteAll(Vacate(p, i), cs)
    decreases |cs|
  {
    if cs != [] {
      var t, ok := cs[0].ctx % TOKEN_LIMIT, cs[0].ok;
      CompletionFacts(t, ok);
      VacateCommutes(Complete(p, t, ok), cs[1..], i);
      assert Complete(Vacate(p, i), t, ok) == Vacate(Complete(p, t, ok), i) by {
        if Index(t) == i {
          assert Complete(Vacate(p, i), t, ok) == Vacate(p, i);
          assert Vacate(Complete(p, t, ok), i).states == Vacate(p, i).states;
        } else {
          assert Complete(Vacate(p, i), t, ok).states == Vacate(Complete(p, t, ok), i).states;
        }
      }
    }
  }

  lemma {:induction false} CompleteAllConcat(p: Pool, a: seq<Completion>, b: seq<Completion>)
    requires Shaped(p)
    ensures CompleteAll(CompleteAll(p, a), b) == CompleteAll(p, a + b)
    decreases |a|
  {
    if a == [] {
      assert a + b == b;
    } else {
      assert (a + b)[1..] == a[1..] + b;
      CompleteAllConcat(Complete(p, a[0].ctx % TOKEN_LIMIT, a[0].ok), a[1..], b);
    }
  }

  // ---------------------------------------------------------------- the class

  /** One round of Abort's loop: what completes before the compare-and-swap, and whether that
      compare-and-swap fails spuriously. */
  datatype Round = Round(before: seq<Completion>, spurious: bool)

  function Completions(rounds: seq<Round>): seq<Completion> {
    if rounds == [] then [] else Completions(rounds[..|rounds| - 1]) + rounds[|rounds| - 1].before
  }

  /** What one more round of completions does to a pool that has seen the first `n` rounds. */
  lemma {:induction false} MoreCompletions(p: Pool, rounds: seq<Round>, n: nat, i: nat)
    requires Shaped(p) && n < |rounds| && i < SLOTS && Valid(CompleteAll(p, Completions(rounds[..n])))
    ensures var q := CompleteAll(p, Completions(rounds[..n]));
      var q1 := CompleteAll(p, Completions(rounds[..n + 1]));
      q1 == CompleteAll(q, rounds[n].before) && Valid(q1) && q1.states[i] / 4 == q.states[i] / 4
  {
    var q := CompleteAll(p, Completions(rounds[..n]));
    assert Completions(rounds[..n + 1]) == Completions(rounds[..n]) + rounds[n].before by {
      assert rounds[..n + 1][..n] == rounds[..n];
    }
    CompleteAllConcat(p, Completions(rounds[..n]), rounds[n].before);
    CompleteAllValid(q, rounds[n].before);
    WordOwnerKept(q, rounds[n].before, i);
  }

  class EventSlotPool {
    const states: array<nat>
    const generations: array<nat>
    const freeSlots: array<nat>
    var freeCount: nat
    ghost var serials: seq<nat>   // acquisitions of each slot so far

    ghost predicate Shape()
      reads this, generations
    {
      && states.Length == SLOTS && generations.Length == SLOTS && freeSlots.Length == SLOTS
      && states != generations && states != freeSlots && generations != freeSlots
      && freeCount <= SLOTS
      && |serials| == SLOTS
      && forall i :: 0 <= i < SLOTS ==> generations[i] == Generation(serials[i])
    }

    ghost function View(): Pool
      requires Shape()
      reads this, states, generations, freeSlots
    {
      Pool(states[..], serials, freeSlots[..freeCount])
    }

    ghost predicate Consistent()
      reads this, states, generations, freeSlots
    {
      Shape() && Valid(View())
    }

    constructor ()
      ensures Consistent() && View() == Init()
      ensures fresh(states) && fresh(generations) && fresh(freeSlots)
    {
      states := new nat[SLOTS](i => 0);
      generations := new nat[SLOTS](i => 0);
      freeSlots := new nat[SLOTS](i requires 0 <= i < SLOTS => (SLOTS - 1 - i) as nat);
      freeCount := SLOTS;
      serials := seq(SLOTS, i => 0);
      new;
      InitValid();
      assert View() == Init();
    }

    method BumpGeneration(index: nat) returns (generation: nat)
      requires Shape() && index < SLOTS
      modifies this`serials, generations
      ensures Shape()
      ensures serials == old(serials)[index := old(serials)[index] + 1]
      ensures generation == Generation(serials[index])
    {
      GenerationStep(serials[index]);
      generation := (generations[index] + 1) % U32;
      if generation == 0 {
        generation := (generation + 1) % U32;
      }
      generations[index] := generation;
      serials := serials[index := serials[index] + 1];
    }

    /** Hands out the next event, with completions `seen` before its compare-and-swap.  The whole new
        state is that of the atomic Acquire at the compare-and-swap, also when the slot on top of the
        free stack turns out to be occupied. */
    method Acquire(seen: seq<Completion>) returns (ok: bool, token: nat, ghost ticket: Option<Ticket>)
      requires Shape() && Operable(View())
      modifies this`freeCount, this`serials, states, generations, freeSlots
      ensures Shape()
      ensures old(freeCount) == 0 ==> View() == old(View()) && ticket == None
      ensures old(freeCount) > 0 ==> (View(), ticket) == EventSlots.Acquire(CompleteAll(old(View()), seen))
      ensures ok == ticket.Some? && token == (if ok then Token(ticket.value) else 0)
    {
      token, ok, ticket := 0, false, None;
      if freeCount == 0 {
        return;
      }
      ghost var p := CompleteAll(View(), seen);
      freeCount := freeCount - 1;
      var index := freeSlots[freeCount];
      assert p.free[|p.free| - 1] == index && index in p.free;
      var generation := BumpGeneration(index);
      token := generation * SLOTS + index;
      ghost var k := Ticket(index, serials[index]);
      OnlyWordsMatter(old(View()), View(), seen);
      CompletionThread(seen);
      if states[index] == 0 {
        states[index] := Pending(token);
        ok, ticket := true, Some(k);
        assert View().states == p.states[index := Pending(Token(k))];
        assert View().free == p.free[..|p.free| - 1];
      } else {
        freeSlots[freeCount] := index;
        freeCount := freeCount + 1;
        token := 0;
        assert View().free == p.free;
        assert View().states == p.states;
      }
    }

    /** The poll thread's compare-and-swap from pending to done. */
    method Complete(token: nat, ok: bool)
      requires Shape()
      modifies states
      ensures Shape() && View() == EventSlots.Complete(old(View()), token, ok)
    {
      if token == 0 {
        return;
      }
      var index := Index(token);
      if states[index] == Pending(token) {
        states[index] := Done(token, ok);
      }
      assert View().states == EventSlots.Complete(old(View()), token, ok).states;
    }

    /** Whatever the completion thread does while the worker is between two of its own steps. */
    method CompletionThread(cs: seq<Completion>)
      requires Shape()
      modifies states
      ensures Shape() && View() == CompleteAll(old(View()), cs)
    {
      var i := 0;
      while i < |cs|
        invariant 0 <= i <= |cs|
        invariant Shape() && CompleteAll(View(), cs[i..]) == CompleteAll(old(View()), cs)
      {
        assert cs[i..][0] == cs[i] && cs[i..][1..] == cs[i + 1..];
        Complete(cs[i].ctx % TOKEN_LIMIT, cs[i].ok);
        i := i + 1;
      }
    }

    method CompareExchange(index: nat, expected: nat, desired: nat) returns (swapped: bool)
      requires Shape() && index < SLOTS
      modifies states
      ensures Shape()
      ensures swapped == (old(states[index]) == expected)
      ensures View() == old(View()).(states := if swapped then old(states[..])[index := desired] else old(states[..]))
    {
      swapped := states[index] == expected;
      if swapped {
        states[index] := desired;
      }
    }

    method Release(index: nat)
      requires Shape() && freeCount < SLOTS && index < SLOTS
      modifies this`freeCount, freeSlots
      ensures Shape()
      ensures View() == old(View()).(free := old(View()).free + [index])
    {
      freeSlots[freeCount] := index;
      freeCount := freeCount + 1;
      assert View().free == old(View()).free + [index];
    }

    /** Probe with completions `seen` between its load and its compare-and-swap and completions
        `taken` between that and giving the slot back.  It is the atomic Probe at the load: the
        compare-and-swap cannot fail once a finished word was seen, and the free stack cannot
        overflow. */
    method Probe(token: nat, seen: seq<Completion>, taken: seq<Completion>) returns (r: int)
      requires Consistent() && token < TOKEN_LIMIT
      modifies this`freeCount, states, freeSlots
      ensures Consistent()
      ensures r == EventSlots.Probe(old(View()), token).1
      ensures View() == if r == 0 then old(View())
                        else CompleteAll(EventSlots.Probe(old(View()), token).0, seen + taken)
    {
      hide SlotOk, Distinct, CompleteAll;
      if token == 0 {
        return 0;
      }
      var index := Index(token);
      var value := states[index];
      if value != Done(token, true) && value != Done(token, false) {
        return 0;
      }
      ghost var p := View();
      CompletionFacts(token, true);
      WordOwnerKept(p, seen, index);
      CompleteAllValid(p, seen);
      CompletionThread(seen);
      ghost var p1 := View();
      VacateValid(p1, index);
      DistinctBelow(p1.free, SLOTS, index);
      var swapped := CompareExchange(index, value, 0);
      CompletionThread(taken);
      if swapped {
        Release(index);
      }
      ghost var emptied := p1.(states := p1.states[index := 0]);
      WordOwnerKept(emptied, taken, index);
      r := if !swapped then 0 else if value == Done(token, true) then 1 else -1;
      AfterEmptying(p1, taken, index);
      CompleteAllValid(Vacate(p1, index), taken);
      VacateCommutes(p, seen, index);
      CompleteAllConcat(Vacate(p, index), seen, taken);
    }

    /** A compare-and-swap to 0 that succeeded, completions `taken`, and the release. */
    method Retire(index: nat, taken: seq<Completion>)
      requires Consistent() && index < SLOTS && states[index] != 0
      modifies this`freeCount, states, freeSlots
      ensures Consistent() && View() == CompleteAll(Vacate(old(View()), index), taken)
    {
      ghost var p := View();
      VacateValid(p, index);
      DistinctBelow(p.free, SLOTS, index);
      CompleteAllValid(Vacate(p, index), taken);
      AfterEmptying(p, taken, index);
      states[index] := 0;
      assert View() == p.(states := p.states[index := 0]);
      CompletionThread(taken);
      Release(index);
    }

    /** Abort under any schedule, with completions `taken` between its last compare-and-swap and giving the slot
        back: it succeeds exactly when the ticket's event still occupies the slot at the first load, however
        often the weak compare-and-swap fails or loses to a completion. */
    method Abort(token: nat, rounds: seq<Round>, taken: seq<Completion>) returns (ok: bool, ghost played: nat)
      requires Consistent() && token < TOKEN_LIMIT
      modifies this`freeCount, states, freeSlots
      ensures Consistent()
      ensures ok == EventSlots.Abort(old(View()), token).1
      ensures played <= |rounds|
      ensures View() == CompleteAll(EventSlots.Abort(old(View()), token).0,
                                    Completions(rounds[..played]) + if ok then taken else [])
    {
      hide SlotOk, Distinct, CompleteAll, Completions;
      ok, played := false, 0;
      NoCompletions(View(), rounds);
      assert Completions(rounds[..0]) + [] == [];
      if token == 0 {
        return;
      }
      var index := Index(token);
      var value := states[index];
      ghost var p := View();
      var n := 0;
      while value / 4 == token
        invariant played == n <= |rounds|
        invariant Consistent() && View() == CompleteAll(p, Completions(rounds[..played]))
        invariant value == states[index] && value / 4 == p.states[index] / 4
        decreases |rounds| - n
      {
        var spurious := false;
        if n < |rounds| {
          MoreCompletions(p, rounds, n, index);
          CompletionThread(rounds[n].before);
          spurious := rounds[n].spurious;
          n, played := n + 1, n + 1;
        }
        if !spurious && states[index] == value {
          VacateCommutes(p, Completions(rounds[..played]), index);
          CompleteAllConcat(Vacate(p, index), Completions(rounds[..played]), taken);
          Retire(index, taken);
          ok := true;
          return;
        }
        value := states[index];
      }
      assert Completions(rounds[..played]) + [] == Completions(rounds[..played]);
    }
  }

  lemma NoCompletions(p: Pool, rounds: seq<Round>)
    requires Shaped(p)
    ensures Completions(rounds[..0]) == [] && CompleteAll(p, []) == p
  {
  }

  /** Completions between emptying a word and listing its slot as free change nothing of either. */
  lemma {:induction false} AfterEmptying(p: Pool, cs: seq<Completion>, i: nat)
    requires Shaped(p) && i < SLOTS
    ensures var q := CompleteAll(p.(states := p.states[i := 0]), cs);
      q.(free := q.free + [i]) == CompleteAll(Vacate(p, i), cs)
  {
    var e := p.(states := p.states[i := 0]);
    OnlyWordsMatter(e, Vacate(p, i), cs);
  }

  /** Completions look at nothing but the state words. */
  lemma {:induction false} OnlyWordsMatter(p: Pool, q: Pool, cs: seq<Completion>)
    requires Shaped(p) && Shaped(q) && q.states == p.states
    ensures CompleteAll(q, cs).states == CompleteAll(p, cs).states
    decreases |cs|
  {
    if cs != [] {
      var t, ok := cs[0].ctx % TOKEN_LIMIT, cs[0].ok;
      OnlyWordsMatter(Complete(p, t, ok), Complete(q, t, ok), cs[1..]);
    }
  }
}
