/**
  Slots through a request's life: vacant, being posted, in flight, and vacant again.  What one step
  does to one slot, and what that leaves true of all slots together.
 */
module RequestFlow {
  import opened Collections
  import opened EventSlots
  import opened SendJettyPools
  import opened UrmaManagers
  import opened RequestBooks

  /** The sends that `wrs` work requests take. */
  function Sends(wrs: nat): nat {
    (wrs + 1) / 2
  }

  function VacantSlot(): Slot {
    Slot(seq(SENDS, j => None), seq(WRS, j => Ticket(0, 0)), seq(WRS, j => false), 0, false)
  }

  ghost predicate Vacant(b: Books, i: nat) {
    && (forall k :: k in b.owner ==> b.owner[k].slot != i)
    && (forall l :: l in b.lanes ==> b.lanes[l].slot != i)
  }

  // ---------------------------------------------------------------- posting

  /** The first `wr` work requests and the lanes of the first `sends` sends of slot `i` are booked, on top of `b0`. */
  ghost predicate Posting(b0: Books, b: Books, s: Slot, i: nat, wr: nat, sends: nat)
    requires Sized(s) && wr <= WRS && sends <= SENDS
  {
    && s.active && s.doneCnt == 0
    && (forall n :: 0 <= n < wr ==> !s.done[n])
    && WrsBooked(b, s, i, 0, wr) && LanesBooked(b, s, i, 0, sends)
    && SameElsewhere(b0, b, i)
    && b == b0.(owner := b.owner, lanes := b.lanes, live := b0.live + wr, inUse := b0.inUse + sends)
  }

  lemma PostingStart(b: Books, s: Slot, i: nat)
    requires Sized(s) && Vacant(b, i) && s.active && s.doneCnt == 0
    ensures Posting(b, b, s, i, 0, 0)
  {
  }

  lemma OthersWith<K>(m: map<K, Pos>, k: K, p: Pos)
    requires k !in m
    ensures Others(m[k := p], p.slot) == Others(m, p.slot)
  {
  }

  lemma PostingLane(b0: Books, b: Books, s: Slot, i: nat, send: nat, l: Lane)
    requires Sized(s) && send < SENDS && Posting(b0, b, s, i, 2 * send, send) && l !in b.lanes
    ensures Posting(b0, WithLane(b, l, Pos(i, send, 0)), s.(jetty := s.jetty[send := Some(l)]), i, 2 * send, send + 1)
  {
    var c, t := WithLane(b, l, Pos(i, send, 0)), s.(jetty := s.jetty[send := Some(l)]);
    OthersWith(b.lanes, l, Pos(i, send, 0));
    WrsAfterClose(b, c, s, t, i, 0, 2 * send);
    forall m | 0 <= m < send + 1 ensures LaneBooked(c, t, i, m) {
      assert m < send ==> LaneBooked(b, s, i, m);
    }
  }

  function Written(s: Slot, wr: nat, k: Ticket): Slot
    requires Sized(s) && wr < WRS
  {
    s.(token := s.token[wr := k], done := s.done[wr := false])
  }

  lemma PostingWr(b0: Books, b: Books, s: Slot, i: nat, send: nat, half: nat, k: Ticket)
    requires Sized(s) && send < SENDS && half < 2 && Posting(b0, b, s, i, 2 * send + half, send + 1) && k !in b.owner
    ensures Posting(b0, WithWr(b, k, Pos(i, send, half)), Written(s, 2 * send + half, k), i,
                    2 * send + half + 1, send + 1)
  {
    var c, t := WithWr(b, k, Pos(i, send, half)), Written(s, 2 * send + half, k);
    OthersWith(b.owner, k, Pos(i, send, half));
    forall m, h | 0 <= m < SENDS && 0 <= h < 2 && 2 * m + h < 2 * send + half + 1 && !t.done[2 * m + h]
      ensures Booked(c, t, i, m, h)
    {
      assert 2 * m + h < 2 * send + half ==> Booked(b, s, i, m, h);
    }
    forall m | 0 <= m < send + 1 ensures LaneBooked(c, t, i, m) {
      assert LaneBooked(b, s, i, m);
    }
  }

  /** Posting a work request: its slot and the books of all slots, in one step. */
  lemma WrEntered(v: View, b0: Books, b: Books, slots: seq<Slot>, i: nat, send: nat, half: nat, k: Ticket, l: Lane)
    requires Balanced(v, b, slots) && i < |slots| && send < SENDS && half < 2 && k !in v.live && k !in v.open
    requires v.spare > 0 && Next(v, k)
    requires Posting(b0, b, slots[i], i, 2 * send + half, send + 1) && slots[i].jetty[send] == Some(l)
    ensures var slots', c := slots[i := Written(slots[i], 2 * send + half, k)], WithWr(b, k, Pos(i, send, half));
      Balanced(Sent(Got(v, k), k, l), c, slots') && Posting(b0, c, slots'[i], i, 2 * send + half + 1, send + 1)
  {
    var s := slots[i];
    PostingWr(b0, b, s, i, send, half, k);
    WriteUnbooked(v, b, slots, i, send, half, k, false, s.doneCnt);
    assert LaneBooked(b, s, i, send);
    assert slots[i := Written(s, 2 * send + half, k)] ==
      slots[i := s.(token := s.token[2 * send + half := k], done := s.done[2 * send + half := false],
                   doneCnt := s.doneCnt)];
    BookWr(v, b, slots[i := Written(s, 2 * send + half, k)], Pos(i, send, half), k, l);
  }

  lemma LaneEntered(v: View, b0: Books, b: Books, slots: seq<Slot>, i: nat, send: nat, l: Lane)
    requires Balanced(v, b, slots) && i < |slots| && send < SENDS && l !in v.held
    requires Posting(b0, b, slots[i], i, 2 * send, send)
    ensures
      var slots' := slots[i := slots[i].(jetty := slots[i].jetty[send := Some(l)])];
      var c := WithLane(b, l, Pos(i, send, 0));
      Balanced(Took(v, l), c, slots') && Posting(b0, c, slots'[i], i, 2 * send, send + 1)
  {
    PostingLane(b0, b, slots[i], i, send, l);
    BookLane(v, b, slots, i, send, l);
  }

  /** How often slots were acquired does not matter to the books. */
  lemma BalancedAnew(v: View, b: Books, slots: seq<Slot>, serials: seq<nat>)
    requires Balanced(v, b, slots)
    ensures Balanced(v.(serials := serials), b, slots)
  {
  }

  /** With no lane set aside, every open request still has its event. */
  /** Nor does it how often the library refused a post. */
  lemma DeniedBooks(v: View, b: Books, slots: seq<Slot>, g: set<Ticket>, spoiled: set<Lane>)
    requires Balanced(v, b, slots) && Traced(v, b, slots, g, spoiled)
    ensures Balanced(Denied(v), b, slots) && Traced(Denied(v), b, slots, g, spoiled)
  {
    forall i | 0 <= i < |slots| ensures SlotPast(Denied(v), slots[i]) {
      assert SlotPast(v, slots[i]);
    }
  }

  lemma MayPost(v: View, b: Books, slots: seq<Slot>)
    requires Balanced(v, b, slots) && b.quarantine == {}
    ensures v.open.Keys <= v.live && v.spare + b.live == SLOTS && b.lanes.Keys <= v.held
  {
  }

  lemma WrittenPast(v: View, slots: seq<Slot>, i: nat, wr: nat, k: Ticket)
    requires AllPast(v, slots) && i < |slots| && Sized(slots[i]) && wr < WRS
    ensures AllPast(v, slots[i := Written(slots[i], wr, k)])
  {
    assert SlotPast(v, slots[i]);
    assert SlotPast(v, Written(slots[i], wr, k));
  }

  /** Giving back the lane of a send whose first work request was not posted. */
  lemma PostingSansLane(b0: Books, b: Books, s: Slot, i: nat, send: nat)
    requires Matches(b, s, i) && send < SENDS && Posting(b0, b, s, i, 2 * send, send + 1)
    ensures LaneBooked(b, s, i, send) && NoWr(b, i, send)
    ensures Posting(b0, SansLane(b, s.jetty[send].value), s.(jetty := s.jetty[send := None]), i, 2 * send, send)
  {
    assert LaneBooked(b, s, i, send);
    var l := s.jetty[send].value;
    var c, t := SansLane(b, l), s.(jetty := s.jetty[send := None]);
    OthersSans(b.lanes, l, i);
    WrsAfterClose(b, c, s, t, i, 0, 2 * send);
    forall m | 0 <= m < send ensures LaneBooked(c, t, i, m) {
      assert LaneBooked(b, s, i, m);
    }
  }

  /** The flags and the counter of a slot do not matter to the books. */
  lemma Relabel(v: View, b: Books, slots: seq<Slot>, i: nat, cnt: nat, active: bool)
    requires Balanced(v, b, slots) && i < |slots|
    ensures Balanced(v, b, slots[i := slots[i].(doneCnt := cnt, active := active)])
  {
  }

  lemma {:induction false} UndoneAll(done: seq<bool>, hi: nat)
    requires hi <= |done| && forall n :: 0 <= n < hi ==> !done[n]
    ensures Undone(done, 0, hi) == hi
  {
    if hi > 0 { UndoneAll(done, hi - 1); }
  }

  lemma DrainedIsVacant(b0: Books, b: Books, s0: Slot, s: Slot, i: nat, posted: nat, sends: nat, failed: nat,
          recorded: nat, bad: set<nat>)
    requires Sized(s0) && posted <= WRS && sends <= SENDS && posted <= 2 * sends
    requires Drained(b0, b, s0, s, i, sends, posted, sends, failed, recorded, bad)
    ensures Vacant(b, i)
  {
  }

  lemma OthersAll<K>(m: map<K, Pos>, i: nat)
    requires forall k :: k in m ==> m[k].slot != i
    ensures Others(m, i) == m
  {
  }

  lemma VacantSame(b: Books, c: Books, i: nat)
    requires Vacant(b, i) && Vacant(c, i) && SameElsewhere(b, c, i)
    ensures b.owner == c.owner && b.lanes == c.lanes
  {
    OthersAll(b.owner, i);
    OthersAll(c.owner, i);
    OthersAll(b.lanes, i);
    OthersAll(c.lanes, i);
  }

  /** Rolling back a partly posted request restores the books, but for the lanes that stay aside. */
  lemma RollbackRestores(b0: Books, b1: Books, b: Books, s1: Slot, s: Slot, i: nat, posted: nat, sends: nat,
          failed: nat, recorded: nat, bad: set<nat>)
    requires Sized(s1) && posted <= WRS && sends <= SENDS && posted <= 2 * sends
    requires Vacant(b0, i) && Posting(b0, b1, s1, i, posted, sends)
    requires Drained(b1, b, s1, s, i, sends, posted, sends, failed, recorded, bad)
    ensures failed + recorded == posted && Vacant(b, i)
    ensures b == b0.(quarantine := b0.quarantine + LanesOf(s1, bad), lost := b0.lost + |bad|)
  {
    UndoneAll(s1.done, posted);
    DrainedIsVacant(b1, b, s1, s, i, posted, sends, failed, recorded, bad);
    VacantSame(b0, b, i);
  }

  // ---------------------------------------------------------------- all slots together

  /** A request is in flight in slot `i`: ten lanes in use, and an event live for each work request that is not done. */
  ghost predicate InFlight(b: Books, s: Slot, i: nat) {
    && Sized(s) && s.active && s.doneCnt == CountTrue(s.done)
    && WrsBooked(b, s, i, 0, WRS) && LanesBooked(b, s, i, 0, SENDS)
  }

  ghost predicate SlotAgrees(b: Books, s: Slot, i: nat, active: seq<nat>) {
    if i in active then InFlight(b, s, i) else Vacant(b, i) && !s.active
  }

  ghost predicate Listed(slots: seq<Slot>, active: seq<nat>) {
    Distinct(active) && forall j :: 0 <= j < |active| ==> active[j] < |slots|
  }

  /** Exactly the listed slots are in flight, and the books hold nothing else. */
  ghost predicate Fleet(b: Books, slots: seq<Slot>, active: seq<nat>) {
    && Listed(slots, active)
    && (forall i {:trigger slots[i]} :: 0 <= i < |slots| ==> SlotAgrees(b, slots[i], i, active))
    && b.live + DoneSum(slots, active) == WRS * |active|
    && b.inUse == SENDS * |active|
  }

  /** Room for one more request means enough event slots, and ten lanes to spare of ten for each slot. */
  lemma Capacity(b: Books, slots: seq<Slot>, active: seq<nat>, concurrency: nat, idx: nat)
    requires Fleet(b, slots, active) && concurrency <= MAX_CONCURRENCY && idx < concurrency && idx !in active
    requires forall i :: i in active ==> i < concurrency
    ensures b.live + WRS <= SLOTS && b.inUse + SENDS <= SENDS * concurrency
  {
    DistinctBelow(active, concurrency, idx);
  }

  lemma OthersHas<K>(m: map<K, Pos>, n: map<K, Pos>, k: K, i: nat)
    requires Others(m, i) == Others(n, i) && k in m && m[k].slot != i
    ensures k in n && n[k] == m[k]
  {
    assert k in Others(m, i);
  }

  /** What happens in slot `i` is invisible in slot `j`. */
  lemma SlotFrame(b: Books, c: Books, i: nat, s: Slot, j: nat, active: seq<nat>, active': seq<nat>)
    requires SameElsewhere(b, c, i) && j != i && SlotAgrees(b, s, j, active) && (j in active <==> j in active')
    ensures SlotAgrees(c, s, j, active')
  {
    forall k | k in c.owner && c.owner[k].slot != i ensures k in b.owner && b.owner[k] == c.owner[k] {
      OthersHas(c.owner, b.owner, k, i);
    }
    forall l | l in c.lanes && c.lanes[l].slot != i ensures l in b.lanes && b.lanes[l] == c.lanes[l] {
      OthersHas(c.lanes, b.lanes, l, i);
    }
    if j in active {
      forall m, h | 0 <= m < SENDS && 0 <= h < 2 && 2 * m + h < WRS && !s.done[2 * m + h]
        ensures Booked(c, s, j, m, h)
      {
        assert Booked(b, s, j, m, h);
        OthersHas(b.owner, c.owner, s.token[2 * m + h], i);
      }
      forall m | 0 <= m < SENDS ensures LaneBooked(c, s, j, m) {
        assert LaneBooked(b, s, j, m);
        OthersHas(b.lanes, c.lanes, s.jetty[m].value, i);
      }
    }
  }

  /** A change in slot `i` alone leaves the fleet in order if slot `i` and the counts are. */
  lemma FleetFrame(b: Books, c: Books, slots: seq<Slot>, s: Slot, i: nat, active: seq<nat>, active': seq<nat>)
    requires Fleet(b, slots, active) && i < |slots| && SameElsewhere(b, c, i) && SlotAgrees(c, s, i, active')
    requires Listed(slots, active') && forall j: nat :: j != i ==> (j in active <==> j in active')
    requires c.live + DoneSum(slots[i := s], active') == WRS * |active'| && c.inUse == SENDS * |active'|
    ensures Fleet(c, slots[i := s], active')
  {
    forall j {:trigger slots[i := s][j]} | 0 <= j < |slots| ensures SlotAgrees(c, slots[i := s][j], j, active') {
      if j != i { SlotFrame(b, c, i, slots[j], j, active, active'); }
    }
  }

  lemma DoneSumPush(slots: seq<Slot>, s: Slot, i: nat, active: seq<nat>)
    requires Listed(slots, active) && i < |slots| && i !in active
    ensures DoneSum(slots[i := s], active + [i]) == DoneSum(slots, active) + s.doneCnt
  {
    DoneSumFrame(slots, slots[i := s], active);
    assert (active + [i])[..|active|] == active;
  }

  /** A request that was posted completely joins the fleet. */
  lemma FleetJoins(b: Books, c: Books, slots: seq<Slot>, s: Slot, i: nat, active: seq<nat>)
    requires Fleet(b, slots, active) && i < |slots| && i !in active && Sized(s)
    requires Posting(b, c, s, i, WRS, SENDS)
    ensures Fleet(c, slots[i := s], active + [i])
  {
    CountNone(s.done);
    DoneSumPush(slots, s, i, active);
    FleetFrame(b, c, slots, s, i, active, active + [i]);
  }

  /** A request that could not be posted does not. */
  lemma FleetStays(b: Books, c: Books, slots: seq<Slot>, s: Slot, i: nat, active: seq<nat>)
    requires Fleet(b, slots, active) && i < |slots| && i !in active && !s.active
    requires c.owner == b.owner && c.lanes == b.lanes && c.live == b.live && c.inUse == b.inUse
    ensures Fleet(c, slots[i := s], active)
  {
    assert SlotAgrees(b, slots[i], i, active);
    DoneSumFrame(slots, slots[i := s], active);
    FleetFrame(b, c, slots, s, i, active, active);
  }

  // ---------------------------------------------------------------- a work request succeeds

  function Ticked(s: Slot, wr: nat): Slot
    requires Sized(s) && wr < WRS
  {
    s.(done := s.done[wr := true], doneCnt := s.doneCnt + 1)
  }

  lemma TickedPast(v: View, slots: seq<Slot>, i: nat, wr: nat)
    requires AllPast(v, slots) && i < |slots| && Sized(slots[i]) && wr < WRS && Past(v, slots[i].token[wr])
    ensures AllPast(v, slots[i := Ticked(slots[i], wr)])
  {
    assert SlotPast(v, slots[i]);
    assert SlotPast(v, Ticked(slots[i], wr));
  }

  lemma TickStep(b: Books, s: Slot, i: nat, send: nat, half: nat)
    requires InFlight(b, s, i) && send < SENDS && half < 2 && !s.done[2 * send + half]
    ensures Booked(b, s, i, send, half)
    ensures InFlight(SansWr(b, s.token[2 * send + half]), Ticked(s, 2 * send + half), i)
    ensures SameElsewhere(b, SansWr(b, s.token[2 * send + half]), i)
  {
    assert Booked(b, s, i, send, half);
    var k := s.token[2 * send + half];
    var c, t := SansWr(b, k), Ticked(s, 2 * send + half);
    OthersSans(b.owner, k, i);
    CountSet(s.done, 2 * send + half);
    forall m, h | 0 <= m < SENDS && 0 <= h < 2 && 2 * m + h < WRS && !t.done[2 * m + h] ensures Booked(c, t, i, m, h) {
      assert Booked(b, s, i, m, h);
    }
    forall m | 0 <= m < SENDS ensures LaneBooked(c, t, i, m) {
      assert LaneBooked(b, s, i, m);
    }
  }

  /** Every undone work request of a request in flight has its event. */
  lemma FlightBooked(v: View, b: Books, slots: seq<Slot>, active: seq<nat>, n: nat, send: nat, half: nat)
    requires Balanced(v, b, slots) && Fleet(b, slots, active) && n < |active| && send < SENDS && half < 2
    requires Sized(slots[active[n]]) && !slots[active[n]].done[2 * send + half]
    ensures Booked(b, slots[active[n]], active[n], send, half) && slots[active[n]].token[2 * send + half] in v.live
    ensures active[n] < |slots| && slots[active[n]].token[2 * send + half] in v.open
  {
    assert active[n] in active && SlotAgrees(b, slots[active[n]], active[n], active);
  }

  /** No two events are booked at the same place. */
  lemma OnePlace(v: View, b: Books, slots: seq<Slot>, i: nat, send: nat, half: nat)
    requires Balanced(v, b, slots) && i < |slots| && send < SENDS && half < 2
    ensures AllSized(slots)
    ensures forall x :: x in b.owner && x != slots[i].token[2 * send + half] ==> b.owner[x] != Pos(i, send, half)
  {
    forall x | x in b.owner && b.owner[x] == Pos(i, send, half) ensures x == slots[i].token[2 * send + half] {
      assert WrHome(slots, b.owner[x], x, v.open[x]);
    }
  }

  lemma TickBalances(v: View, b: Books, slots: seq<Slot>, i: nat, send: nat, half: nat)
    requires Balanced(v, b, slots) && i < |slots| && send < SENDS && half < 2 && Booked(b, slots[i], i, send, half)
    ensures var w := 2 * send + half;
      var k := slots[i].token[w];
      Balanced(Probed(v, k, 1), SansWr(b, k), slots[i := Ticked(slots[i], w)])
  {
    hide Balanced;
    OnePlace(v, b, slots, i, send, half);
    var s, w := slots[i], 2 * send + half;
    var k := s.token[w];
    CloseWr(v, b, slots, k);
    WriteUnbooked(Probed(v, k, 1), SansWr(b, k), slots, i, send, half, k, true, s.doneCnt + 1);
    assert s.token[w := k] == s.token;
  }

  lemma FleetTicks(b: Books, slots: seq<Slot>, active: seq<nat>, n: nat, send: nat, half: nat)
    requires Fleet(b, slots, active) && n < |active| && send < SENDS && half < 2
    requires Sized(slots[active[n]]) && !slots[active[n]].done[2 * send + half]
    ensures var i, w := active[n], 2 * send + half;
      Fleet(SansWr(b, slots[i].token[w]), slots[i := Ticked(slots[i], w)], active)
  {
    var i, w := active[n], 2 * send + half;
    var c, s := SansWr(b, slots[i].token[w]), Ticked(slots[i], w);
    assert i in active;
    assert SlotAgrees(b, slots[i], i, active);
    TickStep(b, slots[i], i, send, half);
    DoneSumChange(slots, slots[i := s], active, n);
    FleetFrame(b, c, slots, s, i, active, active);
  }

  // ---------------------------------------------------------------- a request ends

  lemma {:induction false} UndoneCount(done: seq<bool>, hi: nat)
    requires hi <= |done|
    ensures Undone(done, 0, hi) + CountTrue(done[..hi]) == hi
  {
    if hi > 0 {
      UndoneCount(done, hi - 1);
      assert done[..hi][..hi - 1] == done[..hi - 1];
    }
  }

  lemma MovedListed(slots: seq<Slot>, active: seq<nat>, n: nat)
    requires Listed(slots, active) && n < |active|
    ensures Listed(slots, Moved(active, n)) && active[n] !in Moved(active, n)
    ensures forall j :: j != active[n] ==> (j in active <==> j in Moved(active, n))
  {
    forall j | j in active && j != active[n] ensures j in Moved(active, n) {
      var m :| 0 <= m < |active| && active[m] == j;
      assert Moved(active, n)[if m == |active| - 1 then n else m] == j;
    }
  }

  /** A request that ended leaves the fleet; `slots1` are the slots by then. */
  lemma FleetDrops(b: Books, c: Books, slots: seq<Slot>, slots1: seq<Slot>, active: seq<nat>, n: nat)
    requires Fleet(b, slots, active) && n < |active| && |slots1| == |slots|
    requires slots1 == slots[active[n] := slots1[active[n]]]
    requires Vacant(c, active[n]) && SameElsewhere(b, c, active[n])
    requires c.live == b.live - (WRS - slots[active[n]].doneCnt) && c.inUse == b.inUse - SENDS
    ensures Fleet(c, slots1[active[n] := slots1[active[n]].(active := false)], Moved(active, n))
  {
    var i := active[n];
    var t := slots1[i].(active := false);
    MovedListed(slots, active, n);
    DoneSumRemove(slots, active, n);
    DoneSumFrame(slots, slots[i := t], Moved(active, n));
    FleetFrame(b, c, slots, t, i, active, Moved(active, n));
    assert slots1[i := t] == slots[i := t];
  }

  lemma FleetLeaves(b: Books, c: Books, slots: seq<Slot>, slots1: seq<Slot>, active: seq<nat>, n: nat, failed: nat,
          recorded: nat, bad: set<nat>)
    requires Fleet(b, slots, active) && n < |active| && |slots1| == |slots|
    requires slots1 == slots[active[n] := slots1[active[n]]] && Sized(slots[active[n]])
    requires Drained(b, c, slots[active[n]], slots1[active[n]], active[n], SENDS, WRS, SENDS, failed, recorded, bad)
    ensures failed + recorded == WRS - slots[active[n]].doneCnt
    ensures Fleet(c, slots1[active[n] := slots1[active[n]].(active := false)], Moved(active, n))
    ensures c.live == b.live - failed - recorded
    ensures c.quarantine == b.quarantine + LanesOf(slots[active[n]], bad) && c.lost == b.lost + |bad|
    ensures |bad| <= failed && (failed == 0 <==> bad == {})
  {
    var i := active[n];
    UndoneInFlight(b, slots, active, n);
    DrainedIsVacant(b, c, slots[i], slots1[i], i, WRS, SENDS, failed, recorded, bad);
    FleetDrops(b, c, slots, slots1, active, n);
  }

  /** A request in flight has an undone work request for each that is not counted. */
  lemma UndoneInFlight(b: Books, slots: seq<Slot>, active: seq<nat>, n: nat)
    requires Fleet(b, slots, active) && n < |active|
    ensures InFlight(b, slots[active[n]], active[n])
    ensures Undone(slots[active[n]].done, 0, WRS) == WRS - slots[active[n]].doneCnt
  {
    var i := active[n];
    assert i in active && SlotAgrees(b, slots[i], i, active);
    UndoneCount(slots[i].done, WRS);
    assert slots[i].done[..WRS] == slots[i].done;
  }

  // ---------------------------------------------------------------- what a drain loses

  /** Nothing is set aside. */
  predicate Intact(b: Books) {
    b.lost == 0 && b.quarantine == {}
  }

  /** No lane was set aside between. */
  predicate SameLosses(b: Books, c: Books) {
    c.lost == b.lost && c.quarantine == b.quarantine
  }

  /** Draining slot `s`, exactly `failed` waits failed, and the lanes of exactly the sends they were for were
      set aside. */
  ghost predicate Losses(b: Books, c: Books, g0: set<Ticket>, g: set<Ticket>, s: Slot, bad: set<nat>, failed: nat)
    requires Sized(s)
  {
    && c.quarantine == b.quarantine + LanesOf(s, bad) && c.lost == b.lost + |bad|
    && |bad| <= failed && (failed == 0 <==> bad == {}) && AllMarked(g0, g, s, bad, failed)
  }

  /** The books are as before but for the lanes of the sends `bad` of slot `s`, which was rolled back. */
  ghost predicate UndoneBut(b: Books, c: Books, g0: set<Ticket>, g: set<Ticket>, s: Slot, bad: set<nat>, failed: nat)
    requires Sized(s)
  {
    && c == b.(quarantine := c.quarantine, lost := b.lost + |bad|) && b.quarantine <= c.quarantine
    && |bad| <= failed && (failed == 0 <==> bad == {}) && AllMarked(g0, g, s, bad, failed)
    && (failed == 0 ==> c == b)
  }

  lemma NoLosses(b: Books, c: Books, g0: set<Ticket>, g: set<Ticket>, s: Slot, bad: set<nat>)
    requires Sized(s) && Losses(b, c, g0, g, s, bad, 0)
    ensures SameLosses(b, c) && g == g0
  {
    assert LanesOf(s, {}) == {};
  }

  /** Exactly `failed` waits failed, each for an undone work request of a listed slot. */
  ghost predicate FailedIn(g0: set<Ticket>, g: set<Ticket>, slots: seq<Slot>, active: seq<nat>, failed: nat) {
    && g0 <= g && |g - g0| == failed && AllSized(slots)
    && forall k :: k in g && k !in g0 ==> InSome(slots, active, k)
  }

  ghost predicate InSome(slots: seq<Slot>, active: seq<nat>, k: Ticket)
    requires AllSized(slots)
  {
    exists i, m :: i in active && i < |slots| && 0 <= m < SENDS && OfSend(slots[i], m, k)
  }

  /** The slots that are left were not touched. */
  ghost predicate Undrained(slots0: seq<Slot>, slots: seq<Slot>, active0: seq<nat>, active: seq<nat>) {
    && Distinct(active) && |slots| == |slots0|
    && forall i :: i in active ==> i in active0 && i < |slots| && slots[i] == slots0[i]
  }

  lemma UndrainedHead(slots0: seq<Slot>, slots: seq<Slot>, active0: seq<nat>, active: seq<nat>)
    requires Undrained(slots0, slots, active0, active) && active != []
    ensures Distinct(active) && |slots| == |slots0| && active[0] in active0 && active[0] < |slots|
    ensures slots[active[0]] == slots0[active[0]]
  {
    assert active[0] in active;
  }

  lemma UndrainedNext(slots0: seq<Slot>, slots1: seq<Slot>, slots: seq<Slot>, active0: seq<nat>, active: seq<nat>)
    requires Undrained(slots0, slots1, active0, active) && active != [] && |slots| == |slots1|
    requires active[0] < |slots| && slots == slots1[active[0] := slots[active[0]]]
    ensures Undrained(slots0, slots, active0, Moved(active, 0))
  {
    var rest := Moved(active, 0);
    forall i | i in rest ensures i in active && i != active[0] {
      var j :| 0 <= j < |rest| && rest[j] == i;
    }
  }

  lemma MovedOut(active: seq<nat>)
    requires active != [] && Distinct(active)
    ensures active[0] !in Moved(active, 0) && forall i :: i in Moved(active, 0) ==> i in active
  {
    var rest := Moved(active, 0);
    forall i | i in rest ensures i in active && i != active[0] {
      var j :| 0 <= j < |rest| && rest[j] == i;
    }
  }

  lemma DrainBegins(b: Books, g: set<Ticket>, slots: seq<Slot>, active: seq<nat>)
    requires AllSized(slots) && Fleet(b, slots, active)
    ensures FailedIn(g, g, slots, active, 0) && Undrained(slots, slots, active, active)
  {
    assert g - g == {};
  }

  lemma FailedNext(g0: set<Ticket>, g1: set<Ticket>, g: set<Ticket>, slots0: seq<Slot>, slots1: seq<Slot>,
          active0: seq<nat>, active: seq<nat>, bad: set<nat>, failures: nat, failed: nat)
    requires FailedIn(g0, g1, slots0, active0, failures) && Undrained(slots0, slots1, active0, active) && active != []
    requires active[0] < |slots1| && Sized(slots1[active[0]]) && AllMarked(g1, g, slots1[active[0]], bad, failed)
    ensures FailedIn(g0, g, slots0, active0, failures + failed)
  {
    NewlyGone(g0, g1, g);
    var i := active[0];
    assert i in active;
    forall k | k in g && k !in g0 ensures InSome(slots0, active0, k) {
      if k !in g1 {
        assert OfAny(slots1[i], bad, k);
        var m :| m in bad && m < SENDS && OfSend(slots1[i], m, k);
        assert OfSend(slots0[i], m, k);
      }
    }
  }

  // ---------------------------------------------------------------- the roster

  /** Every slot below `n` is either listed as in flight or on the free stack, never both. */
  ghost predicate Roster(active: seq<nat>, free: seq<nat>, n: nat) {
    && n <= MAX_CONCURRENCY && |active| + |free| == n
    && Distinct(active) && Distinct(free)
    && (forall i :: i in active ==> i < n && i !in free)
    && (forall i :: i in free ==> i < n)
  }

  lemma RosterRoom(active: seq<nat>, free: seq<nat>, n: nat)
    requires Roster(active, free, n)
    ensures |active| + |free| == n
  {
  }

  lemma RosterRetires(active: seq<nat>, free: seq<nat>, n: nat, j: nat)
    requires Roster(active, free, n) && j < |active|
    ensures Roster(Moved(active, j), free + [active[j]], n)
  {
    forall i | i in Moved(active, j) ensures i in active && i != active[j] {
      var m :| 0 <= m < |active| - 1 && Moved(active, j)[m] == i;
    }
    assert active[j] in active;
  }

  lemma RosterPosts(active: seq<nat>, free: seq<nat>, n: nat)
    requires Roster(active, free, n) && free != []
    ensures var top := free[|free| - 1];
      top < n && top !in active && Roster(active + [top], free[..|free| - 1], n)
  {
    DropLast(free);
    var top := free[|free| - 1];
    assert top in free;
    var a := active + [top];
    forall i, j | 0 <= i < j < |a| ensures a[i] != a[j] {
      assert a[i] in active;
    }
    var rest := free[..|free| - 1];
    assert Distinct(rest);
    forall i | i in rest ensures i < n { assert i in free; }
    forall i | i in a ensures i < n && i !in rest { if i != top { assert i in active; } }
  }

  // ---------------------------------------------------------------- one sweep over the slots in flight

  /** A sweep that has reached position `n` of the list has visited each slot of `all` once or still
      has it ahead, and never both. */
  ghost predicate Sweep(all: seq<nat>, active: seq<nat>, n: nat, visited: seq<nat>) {
    && n <= |active| && Distinct(active) && Distinct(visited)
    && (forall i :: i in all <==> i in visited || i in active[n..])
    && (forall i :: i in active[n..] ==> i !in visited)
  }

  lemma SweepStarts(active: seq<nat>)
    requires Distinct(active)
    ensures Sweep(active, active, 0, [])
  {
    assert active[0..] == active;
  }

  lemma SweepEnds(all: seq<nat>, active: seq<nat>, visited: seq<nat>)
    requires Sweep(all, active, |active|, visited)
    ensures Distinct(visited) && forall i :: i in visited <==> i in all
  {
  }

  lemma Ahead(active: seq<nat>, n: nat, visited: seq<nat>)
    requires n < |active| && Distinct(active) && Distinct(visited) && active[n] !in visited
    ensures Distinct(visited + [active[n]]) && active[n] in active[n..] && active[n] !in active[n + 1..]
    ensures forall i :: i in active[n..] <==> i in active[n + 1..] || i == active[n]
    ensures forall i :: i in visited + [active[n]] <==> i in visited || i == active[n]
  {
    assert active[n..] == [active[n]] + active[n + 1..];
  }

  /** Moving on past a request that is not finished. */
  lemma SweepOn(all: seq<nat>, active: seq<nat>, n: nat, visited: seq<nat>)
    requires Sweep(all, active, n, visited) && n < |active|
    ensures Sweep(all, active, n + 1, visited + [active[n]])
  {
    assert active[n..][0] == active[n];
    Ahead(active, n, visited);
  }

  /** Staying at a position whose request was finished and replaced with the last one. */
  lemma SweepStays(all: seq<nat>, active: seq<nat>, n: nat, visited: seq<nat>)
    requires Sweep(all, active, n, visited) && n < |active|
    ensures Sweep(all, Moved(active, n), n, visited + [active[n]])
  {
    assert active[n..][0] == active[n];
    Ahead(active, n, visited);
    var next, last := Moved(active, n), |active| - 1;
    assert n == last ==> next[n..] == active[n + 1..] == [];
    assert n < last ==> next[n..] == [active[last]] + active[n + 1..last];
    assert n < last ==> active[n + 1..] == active[n + 1..last] + [active[last]];
    assert forall i :: i in next[n..] <==> i in active[n + 1..];
  }

  lemma EntriesInRange(v: View, b: Books, slots: seq<Slot>)
    requires Balanced(v, b, slots)
    ensures forall k :: k in b.owner ==> b.owner[k].slot < |slots|
    ensures forall l :: l in b.lanes ==> b.lanes[l].slot < |slots|
  {
  }

  /** With no request in flight, only quarantined lanes are held and no event is live. */
  lemma NoneInFlight(v: View, b: Books, slots: seq<Slot>)
    requires Balanced(v, b, slots) && Fleet(b, slots, [])
    ensures v.live == {} && v.held == b.quarantine && v.spare == SLOTS && v.holding == b.lost && b.live == 0
  {
    EntriesInRange(v, b, slots);
    forall i | 0 <= i < |slots| ensures Vacant(b, i) {
      assert SlotAgrees(b, slots[i], i, []);
    }
  }
}
