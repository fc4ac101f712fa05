/**
  The completion-event slots of one worker (src/urma/event_slot_pool.h), as values.

  A slot's state word is 0 when the slot is free and otherwise carries the token of the event
  that occupies it, shifted left by two, with the two low bits giving pending / ok / failed.
  A token packs a 32-bit generation above an 8-bit slot index.  To speak about an event across the
  wrap-around of its generation we name it by a `Ticket`: its slot and the number of times that
  slot had been acquired when the event was created.
 */
module EventSlots {
  import opened Collections
  import opened Words

  const SLOTS: nat := 256
  const GENERATIONS: nat := 0xFFFF_FFFF   // generation 0 is skipped

  datatype Ticket = Ticket(slot: nat, serial: nat)

  // ---------------------------------------------------------------- encodings

  /** One pre-increment of a 32-bit generation counter, repeated when it lands on zero. */
  function NextGeneration(g: nat): nat {
    var g1 := (g + 1) % U32;
    if g1 == 0 then (g1 + 1) % U32 else g1
  }

  /** The generation counter of a slot that has been acquired `serial` times. */
  function Generation(serial: nat): (g: nat)
    ensures g < U32
    ensures g == 0 <==> serial == 0
  {
    if serial == 0 then 0 else (serial - 1) % GENERATIONS + 1
  }

  function Token(k: Ticket): nat {
    Generation(k.serial) * SLOTS + k.slot
  }

  function Index(token: nat): (i: nat)
    ensures i < SLOTS
  {
    token % SLOTS
  }

  function Pending(token: nat): nat {
    (token * 4) % U64
  }

  function Done(token: nat, ok: bool): nat {
    (token * 4) % U64 + (if ok then 1 else 2)
  }

  /** The counter in the code takes exactly the values `Generation` predicts, wrap included. */
  lemma GenerationStep(serial: nat)
    ensures NextGeneration(Generation(serial)) == Generation(serial + 1)
  {
    if serial > 0 {
      var r := (serial - 1) % GENERATIONS;
      if r + 1 < GENERATIONS {
        assert serial % GENERATIONS == r + 1;
      } else {
        assert serial % GENERATIONS == 0;
      }
    }
  }

  /** Two generations coincide exactly when the acquisition counts differ by a multiple of 2^32-1. */
  lemma GenerationsCoincide(a: nat, b: nat)
    requires 0 < a <= b
    ensures Generation(a) == Generation(b) <==> (b - a) % GENERATIONS == 0
  {
    var qa, ra := (a - 1) / GENERATIONS, (a - 1) % GENERATIONS;
    var qb, rb := (b - 1) / GENERATIONS, (b - 1) % GENERATIONS;
    assert b - a == (qb - qa) * GENERATIONS + (rb - ra);
    MultiplePlus(qb - qa, rb - ra);
  }

  lemma MultiplePlus(q: int, r: int)
    requires 0 - GENERATIONS < r < GENERATIONS
    ensures (q * GENERATIONS + r) % GENERATIONS == 0 <==> r == 0
  {
    var m := (q * GENERATIONS + r) / GENERATIONS;
    if r > 0 {
      assert m == q;
    } else if r < 0 {
      assert m == q - 1;
    }
  }

  /** Facts about the token of a ticket: it fits the 40 bits reserved for it, it is not 0, its low
      byte is the slot, and shifting it into a state word loses nothing. */
  lemma TokenFacts(k: Ticket)
    requires k.slot < SLOTS && k.serial > 0
    ensures 0 < Token(k) < 0x100_0000_0000
    ensures Index(Token(k)) == k.slot
    ensures Pending(Token(k)) == Token(k) * 4
    ensures Pending(Token(k)) / 4 == Done(Token(k), true) / 4 == Done(Token(k), false) / 4 == Token(k)
  {
    PackedFacts(Generation(k.serial), k.slot);
  }

  lemma PackedFacts(g: nat, i: nat)
    requires 0 < g < U32 && i < SLOTS
    ensures var t := g * SLOTS + i;
      && 0 < t < 0x100_0000_0000
      && t % SLOTS == i
      && (t * 4) % U64 == t * 4
  {
  }

  lemma TokensCoincide(j: Ticket, k: Ticket)
    requires j.slot < SLOTS && k.slot < SLOTS && 0 < j.serial <= k.serial
    ensures Token(j) == Token(k) <==> j.slot == k.slot && (k.serial - j.serial) % GENERATIONS == 0
  {
    TokenFacts(j);
    TokenFacts(k);
    GenerationsCoincide(j.serial, k.serial);
  }

  // ---------------------------------------------------------------- the pool

  datatype Pool = Pool(states: seq<nat>, serials: seq<nat>, free: seq<nat>)

  datatype Status = Waiting | Succeeded | Failed

  /** The word a slot holds while the event of ticket `k` occupies it. */
  function Word(k: Ticket, st: Status): nat {
    match st
    case Waiting => Pending(Token(k))
    case Succeeded => Done(Token(k), true)
    case Failed => Done(Token(k), false)
  }

  ghost predicate Shaped(p: Pool) {
    |p.states| == SLOTS && |p.serials| == SLOTS
  }

  function Current(p: Pool, i: nat): Ticket
    requires i < |p.serials|
  {
    Ticket(i, p.serials[i])
  }

  /** Slot `i` is free, or occupied by the event that acquired it last. */
  ghost predicate SlotOk(p: Pool, i: nat)
    requires Shaped(p) && i < SLOTS
  {
    p.states[i] == 0 ||
    (p.serials[i] > 0 && exists st :: p.states[i] == Word(Current(p, i), st))
  }

  /** Slot conservation: the free stack lists, once each, exactly the slots whose word is 0. */
  ghost predicate Valid(p: Pool) {
    && Shaped(p)
    && Distinct(p.free)
    && (forall x :: x in p.free ==> x < SLOTS && p.states[x] == 0)
    && (forall i :: 0 <= i < SLOTS && p.states[i] == 0 ==> i in p.free)
    && (forall i :: 0 <= i < SLOTS ==> SlotOk(p, i))
  }

  function Init(): Pool {
    Pool(seq(SLOTS, i => 0), seq(SLOTS, i => 0), seq(SLOTS, i requires 0 <= i < SLOTS => (SLOTS - 1 - i) as nat))
  }

  lemma InitValid()
    ensures Valid(Init())
  {
    var p := Init();
    forall i | 0 <= i < SLOTS ensures i in p.free {
      assert p.free[SLOTS - 1 - i] == i;
    }
  }

  /** Occupied slots hold the event of their current ticket, with this status. */
  ghost predicate Holds(p: Pool, k: Ticket, st: Status) {
    && Shaped(p)
    && k.slot < SLOTS
    && 0 < k.serial == p.serials[k.slot]
    && p.states[k.slot] == Word(k, st)
  }

  ghost predicate Live(p: Pool, k: Ticket) {
    exists st :: Holds(p, k, st)
  }

  // ---------------------------------------------------------------- atomic operations

  /** What it takes to run the operations at all: the arrays have their sizes and the free stack
      holds array indices. */
  ghost predicate Operable(p: Pool) {
    Shaped(p) && forall x :: x in p.free ==> x < SLOTS
  }

  function Acquire(p: Pool): (Pool, Option<Ticket>)
    requires Operable(p)
  {
    if p.free == [] then (p, None)
    else
      var i := p.free[|p.free| - 1];
      assert i in p.free;
      var k := Ticket(i, p.serials[i] + 1);
      if p.states[i] == 0 then
        (Pool(p.states[i := Pending(Token(k))], p.serials[i := k.serial], p.free[..|p.free| - 1]), Some(k))
      else
        (p.(serials := p.serials[i := k.serial]), None)
  }

  function Complete(p: Pool, token: nat, ok: bool): (q: Pool)
    requires Shaped(p)
    ensures Shaped(q) && q.serials == p.serials && q.free == p.free
  {
    if token != 0 && p.states[Index(token)] == Pending(token) then
      p.(states := p.states[Index(token) := Done(token, ok)])
    else p
  }

  function Vacate(p: Pool, i: nat): (q: Pool)
    requires Shaped(p) && i < SLOTS
    ensures Shaped(q)
  {
    p.(states := p.states[i := 0], free := p.free + [i])
  }

  /** 1 = success, -1 = failure, 0 = not finished or not this event; a verdict frees the slot. */
  function Probe(p: Pool, token: nat): (r: (Pool, int))
    requires Shaped(p)
    ensures Shaped(r.0)
  {
    var w := p.states[Index(token)];
    if token == 0 then (p, 0)
    else if w == Done(token, true) then (Vacate(p, Index(token)), 1)
    else if w == Done(token, false) then (Vacate(p, Index(token)), -1)
    else (p, 0)
  }

  function Abort(p: Pool, token: nat): (r: (Pool, bool))
    requires Shaped(p)
    ensures Shaped(r.0)
  {
    if token != 0 && p.states[Index(token)] / 4 == token then (Vacate(p, Index(token)), true)
    else (p, false)
  }

  // ---------------------------------------------------------------- words determine statuses

  lemma WordFacts(k: Ticket, st: Status)
    requires k.slot < SLOTS && k.serial > 0
    ensures Word(k, st) != 0 && Word(k, st) / 4 == Token(k)
    ensures Word(k, st) % 4 == (match st case Waiting => 0 case Succeeded => 1 case Failed => 2)
  {
    TokenFacts(k);
  }

  /** A slot holds at most one status. */
  lemma HoldsOne(p: Pool, k: Ticket, a: Status, b: Status)
    requires Holds(p, k, a) && Holds(p, k, b)
    ensures a == b
  {
    WordFacts(k, a);
    WordFacts(k, b);
  }

  lemma LiveIffOccupied(p: Pool, k: Ticket)
    requires Valid(p) && k.slot < SLOTS
    ensures Live(p, k) <==> p.states[k.slot] != 0 && k.serial == p.serials[k.slot]
  {
    if Live(p, k) {
      var st :| Holds(p, k, st);
      WordFacts(k, st);
    }
    if p.states[k.slot] != 0 && k.serial == p.serials[k.slot] {
      assert SlotOk(p, k.slot);
      var st :| p.states[k.slot] == Word(Current(p, k.slot), st);
      assert Holds(p, k, st);
    }
  }

  /** Which words the raw token operations react to: only the words of that very token. */
  lemma TokenMatches(p: Pool, k: Ticket)
    requires Valid(p) && k.slot < SLOTS && 0 < k.serial <= p.serials[k.slot]
    ensures p.states[k.slot] / 4 == Token(k)
            <==> p.states[k.slot] != 0 && (p.serials[k.slot] - k.serial) % GENERATIONS == 0
  {
    var c := Current(p, k.slot);
    TokenFacts(k);
    TokensCoincide(k, c);
    if p.states[k.slot] != 0 {
      assert SlotOk(p, k.slot);
      var st :| p.states[k.slot] == Word(c, st);
      WordFacts(c, st);
    }
  }

  /** The event of `k` was handed out at some time. */
  predicate Issued(p: Pool, k: Ticket)
    requires Shaped(p)
  {
    k.slot < SLOTS && 0 < k.serial <= p.serials[k.slot]
  }

  /** Fewer than 2^32-1 acquisitions of the ticket's slot separate it from the present. */
  ghost predicate Recent(p: Pool, k: Ticket) {
    && Shaped(p)
    && k.slot < SLOTS
    && 0 < k.serial <= p.serials[k.slot]
    && p.serials[k.slot] - k.serial < GENERATIONS
  }

  lemma RecentMatches(p: Pool, k: Ticket)
    requires Valid(p) && Recent(p, k)
    ensures p.states[k.slot] / 4 == Token(k) <==> Live(p, k)
  {
    TokenMatches(p, k);
    LiveIffOccupied(p, k);
  }

  // ---------------------------------------------------------------- conservation

  lemma AcquireValid(p: Pool)
    requires Valid(p)
    ensures Valid(Acquire(p).0)
  {
    if p.free != [] {
      var q := Acquire(p).0;
      var i := p.free[|p.free| - 1];
      assert i in p.free;
      WordFacts(Ticket(i, p.serials[i] + 1), Waiting);
      DropLast(p.free);
      assert q.states[i] == Word(Current(q, i), Waiting);
      forall x | x in q.free ensures x < SLOTS && q.states[x] == 0 { assert x in p.free; }
      forall j | 0 <= j < SLOTS ensures SlotOk(q, j) {
        assert SlotOk(p, j);
        if j != i { assert Current(q, j) == Current(p, j); }
      }
    }
  }

  /** Acquire's compare-and-swap never fails; it fails only on an exhausted pool, and the ticket it
      hands out is new. */
  lemma AcquireWorks(p: Pool)
    requires Valid(p)
    ensures var (q, t) := Acquire(p);
      && (t.None? <==> forall i :: 0 <= i < SLOTS ==> p.states[i] != 0)
      && (t.None? ==> q == p)
      && (t.Some? ==>
        && Shaped(q)
        && Holds(q, t.value, Waiting)
        && p.states[t.value.slot] == 0
        && t.value.serial == p.serials[t.value.slot] + 1
        && q.states == p.states[t.value.slot := q.states[t.value.slot]]
        && q.serials == p.serials[t.value.slot := t.value.serial])
  {
    if p.free != [] {
      assert p.free[|p.free| - 1] in p.free;
    }
  }

  lemma VacateValid(p: Pool, i: nat)
    requires Valid(p) && i < SLOTS && p.states[i] != 0
    ensures Valid(Vacate(p, i))
  {
    var q := Vacate(p, i);
    forall j | 0 <= j < SLOTS ensures SlotOk(q, j) {
      assert SlotOk(p, j);
      assert Current(q, j) == Current(p, j);
    }
    forall j | 0 <= j < SLOTS && q.states[j] == 0 ensures j in q.free {
      if j == i { assert q.free[|p.free|] == i; } else { assert j in p.free; }
    }
  }

  /** The word of a token keeps its low 62 bits. */
  lemma PendingWraps(token: nat)
    ensures Pending(token) == 4 * (token % U62) && (token % U62 == 0 ==> Index(token) == 0)
  {
    var q, r := token / U62, token % U62;
    assert token == q * U62 + r;
    WordOf(q, r);
    SlotOfMultiple(q);
  }

  lemma WordOf(q: nat, r: nat)
    requires r < U62
    ensures ((q * U62 + r) * 4) % U64 == 4 * r
  {
    assert (q * U62 + r) * 4 == q * U64 + 4 * r;
  }

  lemma SlotOfMultiple(q: nat)
    ensures (q * U62) % SLOTS == 0
  {
    assert q * U62 == q * 0x40_0000_0000_0000 * SLOTS;
  }

  /** A completion keeps the pool consistent: it turns the waiting event of that token into a finished one or does
      nothing.  That is so for every token but those whose low 62 bits are 0. */
  lemma CompleteValid(p: Pool, token: nat, ok: bool)
    requires Valid(p) && (token == 0 || token % U62 != 0)
    ensures Valid(Complete(p, token, ok))
  {
    var q := Complete(p, token, ok);
    var i := Index(token);
    if q != p {
      PendingWraps(token);
      assert SlotOk(p, i);
      var c := Current(p, i);
      var st :| p.states[i] == Word(c, st);
      WordFacts(c, st);
      TokenFacts(c);
      assert token % U62 == Token(c);
      assert q.states[i] == Word(c, if ok then Succeeded else Failed);
      forall j | 0 <= j < SLOTS ensures SlotOk(q, j) {
        assert SlotOk(p, j);
        assert Current(q, j) == Current(p, j);
        if j == i { assert q.states[i] == Word(Current(q, i), if ok then Succeeded else Failed); }
      }
    }
  }

  /** Such a token would take a free slot for a waiting one. */
  lemma CompleteBreaks(token: nat, ok: bool)
    requires token != 0 && token % U62 == 0
    ensures Valid(Init()) && !Valid(Complete(Init(), token, ok))
  {
    InitValid();
    PendingWraps(token);
    var q := Complete(Init(), token, ok);
    assert q.states[0] != 0 && q.free[SLOTS - 1] == 0;
  }

  lemma ProbeValid(p: Pool, token: nat)
    requires Valid(p)
    ensures Valid(Probe(p, token).0)
  {
    if Probe(p, token).1 != 0 { VacateValid(p, Index(token)); }
  }

  lemma AbortValid(p: Pool, token: nat)
    requires Valid(p)
    ensures Valid(Abort(p, token).0)
  {
    if Abort(p, token).1 { VacateValid(p, Index(token)); }
  }
}
