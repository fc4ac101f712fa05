/**
  The request pipelines of src/kv_bench.cpp: posting a request with rollback at any of its twenty
  work requests, collecting completions, and draining at the end.  A worker runs against a
  `UrmaManager`, whose other workers, hardware and poll thread act between any two of its steps.
 */
module Pipelines {
  import opened Bits
  import opened Collections
  import opened EventSlots
  import opened SendJettyPools
  import opened LaneSystem
  import opened UrmaManagers
  import opened RequestBooks
  import opened RequestFlow
  import opened GetDrains
  import opened Sightings
  import opened PoolSizing

  /** How a pipeline ends. */
  datatype Verdict = Finished | ProbeFailed | PostFailed(outcome: Outcome)

  /** How posting a request ends. */
  datatype Outcome = Posted | LanesExhausted | EventsExhausted | PostRefused

  /** The bytes of `ops` requests. */
  function BytesOf(ops: nat, sendSize: nat): nat {
    MulNat(ops, SENDS * sendSize);
    ops * (SENDS * sendSize)
  }

  lemma BytesNext(ops: nat, sendSize: nat)
    ensures BytesOf(ops + 1, sendSize) == BytesOf(ops, sendSize) + sendSize * SENDS
  {
  }

  class BenchWorker {
    const mgr: UrmaManager
    const id: nat
    const concurrency: nat
    const sendSize: nat
    var slots: seq<Slot>
    var activeSlots: seq<nat>   // active_slots[..active_count]
    var freeSlots: seq<nat>     // free_slots[..free_count]
    var ops: nat
    var bytes: nat
    var errors: nat
    var histWr: nat             // samples recorded in hist_wr
    var histReq: nat            // samples recorded in hist_req
    ghost var books: Books
    ghost var gone: set<Ticket>   // requests on which a wait or a probe failed
    ghost var spoiled: set<Lane>  // lanes that a get drain sets aside along with a failed one
    ghost var refused: nat        // posts that the library refused
    ghost const lanes: nat      // lanes of the manager
    ghost const workers: nat    // workers registered with it

    /** What it says about the pool that this worker, with fewer than `n` lanes of its own, finds none: alone,
        there are fewer than `n`; and if `n` is within its share, fewer than the shares of all workers. */
    ghost predicate Scarce(n: int) {
      (workers == 1 ==> lanes < n) && (n <= mgr.share ==> lanes < workers * mgr.share)
    }

    /** Holds between any two steps: the books account for all lanes and events of this worker; the lanes of
        exactly the requests `gone`, and the spoiled ones, are set aside. */
    ghost predicate Sound()
      reads this, mgr
    {
      && mgr.Registered(id) && mgr.Me(id).lanes == lanes && mgr.Me(id).workers == workers && mgr.Me(id).fair
      && mgr.Me(id).refused == refused
      && |slots| == MAX_CONCURRENCY && AllSized(slots) && Balanced(mgr.Me(id), books, slots)
      && Traced(mgr.Me(id), books, slots, gone, spoiled)
    }

    /** Holds whenever no request is being posted or drained: the listed requests are in flight, nothing
        else is, and the counters agree with the completed requests. */
    ghost predicate Ready()
      reads this, mgr
    {
      && Sound() && Roster(activeSlots, freeSlots, concurrency) && Fleet(books, slots, activeSlots)
      && histReq == ops && bytes == BytesOf(ops, sendSize)
    }

    /** `requested` is --concurrency; only slots [0, concurrency) are used. */
    constructor (mgr: UrmaManager, id: nat, requested: int, sendSize: nat)
      requires mgr.Registered(id) && mgr.Me(id) == NewView(mgr.Me(id).lanes, mgr.Me(id).workers)
      ensures this.mgr == mgr && this.id == id && this.sendSize == sendSize
      ensures concurrency == SlotCount(requested) && lanes == mgr.Me(id).lanes && workers == mgr.Me(id).workers
      ensures Ready() && activeSlots == [] && ops == 0 && histWr == 0 && errors == 0
      ensures Intact(books) && gone == {} && spoiled == {} && refused == 0
    {
      hide Recorded;
      this.mgr, this.id, this.sendSize := mgr, id, sendSize;
      lanes, workers := mgr.Me(id).lanes, mgr.Me(id).workers;
      var slotCount := if requested >= 1 then requested else 1;
      if slotCount > MAX_CONCURRENCY {
        slotCount := MAX_CONCURRENCY;
      }
      concurrency := slotCount;
      slots := seq(MAX_CONCURRENCY, i => VacantSlot());
      activeSlots := [];
      freeSlots := seq(slotCount, i requires 0 <= i => i as nat);
      ops, bytes, errors, histWr, histReq := 0, 0, 0, 0, 0;
      books, gone, spoiled, refused := Books(map[], map[], {}, 0, 0, 0), {}, {}, 0;
    }

    // ---------------------------------------------------------------- draining

    /** Waits for one work request.  Its event is retired; if the wait failed, its lane is set aside. */
    method WaitWr(idx: nat, send: nat, half: nat) returns (ok: bool)
      requires Sound() && idx < MAX_CONCURRENCY && send < SENDS && half < 2
      requires Booked(books, slots[idx], idx, send, half)
      modifies this`books, this`gone, mgr
      ensures old(mgr.run) <= mgr.run
      ensures Sound()
      ensures old(slots[idx].jetty[send].Some?)
      ensures books == AfterWait(old(books), slots[idx].token[2 * send + half], slots[idx].jetty[send].value, ok)
      ensures gone == if ok then old(gone) else old(gone) + {slots[idx].token[2 * send + half]}
      ensures slots[idx].token[2 * send + half] !in old(gone)
      ensures AllMissed(mgr.run, |old(mgr.run)| - 1, id, gone - old(gone))
    {
      hide Balanced, Traced, Recorded, AllMissed;
      var k := slots[idx].token[2 * send + half];
      ghost var v := mgr.Me(id);
      BookedAt(v, books, slots, idx, send, half);
      mgr.Dates(id);
      ghost var late;
      ok, late := mgr.WaitEvent(id, k);
      BookWait(v, books, slots, k, ok);
      TraceWait(v, books, slots, gone, spoiled, k, ok);
      books := AfterWait(books, k, v.open[k], ok);
      if ok {
        MissedNone(mgr.run, |old(mgr.run)| - 1, id, gone);
      } else {
        MissedOne(mgr.run, |old(mgr.run)| - 1, id, gone, k);
      }
      gone := if ok then gone else gone + {k};
    }

    /** Waits for one work request of a send, unless it is done. */
    method WaitStep(idx: nat, send: nat, half: nat, ghost g0: set<Ticket>, ghost b0: Books, ghost posted: nat,
            ghost sends: nat, failed: nat, ghost recorded: nat)
      returns (failed': nat, ghost recorded': nat)
      requires Sound() && idx < MAX_CONCURRENCY && posted <= WRS && send < sends <= SENDS && half < 2
      requires 2 * send + half < posted
      requires SendProgress(b0, books, slots[idx], idx, send, 2 * send + half, posted, sends, failed, recorded)
      requires Marked(g0, gone, slots[idx], send, failed)
      modifies this`books, this`gone, this`histWr, mgr
      ensures old(mgr.run) <= mgr.run
      ensures Sound() && histWr == old(histWr) + recorded' - recorded
      ensures SendProgress(b0, books, slots[idx], idx, send, 2 * send + half + 1, posted, sends, failed', recorded')
      ensures Marked(g0, gone, slots[idx], send, failed')
      ensures AllMissed(mgr.run, |old(mgr.run)| - 1, id, gone - old(gone))
    {
      hide Balanced, Traced, WrsBooked, LanesBooked, SameElsewhere, Tally, Marked, Recorded, AllMissed;
      ghost var b, s, v := books, slots[idx], mgr.Me(id);
      failed', recorded' := failed, recorded;
      if slots[idx].done[2 * send + half] {
        SendStep(v, g0, gone, b0, b, slots, idx, send, half, posted, sends, failed, recorded, true);
        MissedNone(mgr.run, |old(mgr.run)| - 1, id, gone);
      } else {
        IsBooked(b, s, idx, send, half, posted);
        var ok := WaitWr(idx, send, half);
        SendStep(v, g0, old(gone), b0, b, slots, idx, send, half, posted, sends, failed, recorded, ok);
        if ok {
          histWr, recorded' := histWr + 1, recorded + 1;
        } else {
          failed' := failed + 1;
        }
      }
    }

    /** Waits for those of the posted work requests of one send that are not done. */
    method WaitSend(idx: nat, send: nat, posted: nat, ghost sends: nat) returns (failed: nat, ghost recorded: nat)
      requires Sound() && idx < MAX_CONCURRENCY && posted <= WRS && send < sends <= SENDS && 2 * send <= posted
      requires WrsBooked(books, slots[idx], idx, 2 * send, posted)
      requires LanesBooked(books, slots[idx], idx, send, sends)
      modifies this`books, this`gone, this`histWr, mgr
      ensures old(mgr.run) <= mgr.run
      ensures Sound() && histWr == old(histWr) + recorded
      ensures SendProgress(old(books), books, slots[idx], idx, send, EndOf(send, posted), posted, sends,
                           failed, recorded)
      ensures Marked(old(gone), gone, slots[idx], send, failed)
      ensures AllMissed(mgr.run, |old(mgr.run)| - 1, id, gone - old(gone))
    {
      hide Balanced, Traced, WrsBooked, LanesBooked, SendProgress, Recorded, AllMissed;
      failed, recorded := 0, 0;
      ghost var g0, b0 := gone, books;
      SendProgressStart(b0, slots[idx], idx, send, posted, sends);
      MissedNone(mgr.run, |old(mgr.run)| - 1, id, gone);
      var half := 0;
      while 2 * send + half < EndOf(send, posted)
        invariant old(mgr.run) <= mgr.run
        invariant half <= 2 && 2 * send + half <= EndOf(send, posted)
        invariant Sound() && histWr == old(histWr) + recorded
        invariant SendProgress(b0, books, slots[idx], idx, send, 2 * send + half, posted, sends, failed, recorded)
        invariant Marked(g0, gone, slots[idx], send, failed)
        invariant AllMissed(mgr.run, |old(mgr.run)| - 1, id, gone - old(gone))
      {
        ghost var run1, g1 := mgr.run, gone;
        failed, recorded := WaitStep(idx, send, half, g0, b0, posted, sends, failed, recorded);
        MissedJoin(run1, mgr.run, |old(mgr.run)| - 1, |run1| - 1, id, old(gone), g1, gone);
        half := half + 1;
      }
    }

    /** Gives the lane of a send back or not, and forgets it.  With `exact` the books follow. */
    method ForgetLane(idx: nat, send: nat, give: bool, ghost exact: bool)
      requires mgr.Registered(id) && |slots| == MAX_CONCURRENCY && AllSized(slots) && idx < MAX_CONCURRENCY
      requires send < SENDS && slots[idx].jetty[send].Some?
      requires give ==> slots[idx].jetty[send].value in mgr.Me(id).held
      requires give ==> forall k :: k in mgr.Me(id).open ==> mgr.Me(id).open[k] != slots[idx].jetty[send].value
      requires exact ==> Sound() && NoWr(books, idx, send)
      requires exact ==> if give then LaneBooked(books, slots[idx], idx, send) else NoLane(books, idx, send)
      modifies this`books, this`slots, mgr
      ensures old(mgr.run) <= mgr.run
      ensures mgr.Registered(id) && (give ==> old(mgr.Me(id)).holding > 0)
      ensures mgr.Me(id) == if give then Gave(old(mgr.Me(id)), old(slots)[idx].jetty[send].value) else old(mgr.Me(id))
      ensures slots == old(slots)[idx := old(slots)[idx].(jetty := old(slots)[idx].jetty[send := None])]
      ensures exact ==> Sound() && books == Closed(old(books), old(slots)[idx].jetty[send].value, if give then 0 else 1)
    {
      hide Balanced, AllPast, NoWr, NoLane, LanesFor, Recorded;
      if give {
        var lane := slots[idx].jetty[send].value;
        ghost var v := mgr.Me(id);
        if exact { FreeLane(v, books, slots, lane); }
        mgr.ReleaseSendLane(id, lane);
        if exact {
          TraceLane(v, mgr.Me(id), books, SansLane(books, lane), slots, gone, spoiled);
          books := SansLane(books, lane);
        }
      }
      if exact {
        ForgetJetty(mgr.Me(id), books, slots, idx, send);
        SlotStaysPast(mgr.Me(id), slots, idx, slots[idx].(jetty := slots[idx].jetty[send := None]));
      }
      slots := slots[idx := slots[idx].(jetty := slots[idx].jetty[send := None])];
    }

    /** Ends a send: its lane is given back unless a wait on it failed, and is no longer noted. */
    method CloseSend(idx: nat, send: nat, failed: nat)
      requires Sound() && idx < MAX_CONCURRENCY && send < SENDS && slots[idx].jetty[send].Some?
      requires NoWr(books, idx, send)
      requires failed > 0 ==> NoLane(books, idx, send)
      requires failed == 0 ==> LaneBooked(books, slots[idx], idx, send)
      modifies this`books, this`slots, mgr
      ensures old(mgr.run) <= mgr.run
      ensures Sound()
      ensures books == Closed(old(books), old(slots[idx].jetty[send].value), failed)
      ensures slots == old(slots)[idx := old(slots[idx]).(jetty := old(slots[idx].jetty)[send := None])]
    {
      hide Balanced, Traced, NoWr, NoLane, Recorded;
      if failed == 0 { FreeLane(mgr.Me(id), books, slots, slots[idx].jetty[send].value); }
      ForgetLane(idx, send, failed == 0, true);
    }

    /** Waits for one send and ends it. */
    method DrainSend(idx: nat, send: nat, posted: nat, ghost sends: nat, ghost g0: set<Ticket>, ghost b0: Books,
            ghost s0: Slot, failed: nat, ghost recorded: nat, ghost bad: set<nat>)
      returns (failed': nat, ghost recorded': nat, ghost bad': set<nat>)
      requires Sound() && idx < MAX_CONCURRENCY && posted <= WRS && send < sends <= SENDS && 2 * send <= posted
      requires Sized(s0)
      requires Drained(b0, books, s0, slots[idx], idx, send, posted, sends, failed, recorded, bad)
      requires AllMarked(g0, gone, s0, bad, failed)
      modifies this`books, this`gone, this`slots, this`histWr, mgr
      ensures old(mgr.run) <= mgr.run
      ensures Sound() && histWr == old(histWr) + recorded' - recorded
      ensures slots == old(slots)[idx := slots[idx]]
      ensures Drained(b0, books, s0, slots[idx], idx, send + 1, posted, sends, failed', recorded', bad')
      ensures AllMarked(g0, gone, s0, bad', failed')
      ensures AllMissed(mgr.run, |old(mgr.run)| - 1, id, gone - old(gone))
    {
      hide Balanced, Traced, AllMarked, Marked, DrainTally, WrsBooked, LanesBooked, NoWr, NoLane, LaneBooked,
           SendProgress, Cleared, Recorded, AllMissed;
      ghost var b1 := books;
      var f: nat;
      ghost var r: nat;
      f, r := WaitSend(idx, send, posted, sends);
      ghost var run1 := mgr.run;
      ghost var v, b, slots1 := mgr.Me(id), books, slots;
      MayClose(v, b1, b, slots1, idx, send, posted, sends, f, r);
      CloseSend(idx, send, f);
      MissedStill(run1, mgr.run, |old(mgr.run)| - 1, |old(mgr.run)| - 1, id, gone - old(gone));
      failed', recorded', bad' := failed + f, recorded + r, if f > 0 then bad + {send} else bad;
      DrainStep(v, g0, old(gone), gone, b0, b1, b, books, s0, slots1, slots[idx], idx, send, posted, sends, failed,
                recorded, bad, bad', f, r);
    }

    /** Drains a slot of which `posted` work requests, of `sends` sends, were posted: waits for those that are
        not done, and gives back exactly the lanes on which no wait failed; on those of `bad` one did. */
    method DrainSlot(idx: nat, posted: nat, sends: nat) returns (failed: nat, ghost recorded: nat, ghost bad: set<nat>)
      requires Sound() && idx < MAX_CONCURRENCY && posted <= WRS && posted <= 2 * sends <= posted + 1
      requires WrsBooked(books, slots[idx], idx, 0, posted) && LanesBooked(books, slots[idx], idx, 0, sends)
      modifies this`books, this`gone, this`slots, this`histWr, mgr
      ensures old(mgr.run) <= mgr.run
      ensures Sound() && histWr == old(histWr) + recorded
      ensures slots == old(slots)[idx := slots[idx]]
      ensures Drained(old(books), books, old(slots[idx]), slots[idx], idx, sends, posted, sends, failed, recorded, bad)
      ensures AllMarked(old(gone), gone, old(slots[idx]), bad, failed)
      ensures AllMissed(mgr.run, |old(mgr.run)| - 1, id, gone - old(gone))
    {
      hide Balanced, Traced, AllMarked, Drained, WrsBooked, LanesBooked, Recorded, AllMissed;
      ghost var g0, b0, s0 := gone, books, slots[idx];
      failed, recorded, bad := 0, 0, {};
      DrainStart(b0, s0, idx, posted, sends);
      NoneMarked(g0, s0);
      MissedNone(mgr.run, |old(mgr.run)| - 1, id, gone);
      for send := 0 to sends
        invariant old(mgr.run) <= mgr.run
        invariant Sound() && histWr == old(histWr) + recorded
        invariant slots == old(slots)[idx := slots[idx]]
        invariant Drained(b0, books, s0, slots[idx], idx, send, posted, sends, failed, recorded, bad)
        invariant AllMarked(g0, gone, s0, bad, failed)
        invariant AllMissed(mgr.run, |old(mgr.run)| - 1, id, gone - old(gone))
      {
        ghost var slots1, run1, g1 := slots, mgr.run, gone;
        failed, recorded, bad := DrainSend(idx, send, posted, sends, g0, b0, s0, failed, recorded, bad);
        UpdatedTwice(old(slots), slots1, slots, idx);
        MissedJoin(run1, mgr.run, |old(mgr.run)| - 1, |run1| - 1, id, old(gone), g1, gone);
      }
    }

    // ---------------------------------------------------------------- posting

    method TakeLane(idx: nat, send: nat, ghost b0: Books) returns (ok: bool)
      requires Sound() && idx < MAX_CONCURRENCY && send < SENDS
      requires Posting(b0, books, slots[idx], idx, 2 * send, send)
      modifies this`books, this`slots, mgr
      ensures old(mgr.run) <= mgr.run
      ensures Sound() && slots == old(slots)[idx := slots[idx]]
      ensures ok ==> Posting(b0, books, slots[idx], idx, 2 * send, send + 1)
      ensures !ok ==> books == old(books) && slots == old(slots)
      ensures !ok ==> Scarce(books.inUse + books.lost + 1)
    {
      hide Recorded;
      ghost var v := mgr.Me(id);
      var lane := mgr.AcquireSendLane(id);
      ok := lane.Some?;
      if ok {
        LaneEntered(v, b0, books, slots, idx, send, lane.value);
        TraceLane(v, mgr.Me(id), books, WithLane(books, lane.value, Pos(idx, send, 0)), slots, gone, spoiled);
        SlotStaysPast(mgr.Me(id), slots, idx, slots[idx].(jetty := slots[idx].jetty[send := Some(lane.value)]));
        books := WithLane(books, lane.value, Pos(idx, send, 0));
        slots := slots[idx := slots[idx].(jetty := slots[idx].jetty[send := Some(lane.value)])];
      }
    }

    /** Posts one work request on the lane of its send; a refused one leaves no trace. */
    method PostWr(idx: nat, send: nat, half: nat, ghost b0: Books) returns (outcome: Outcome)
      requires Sound() && idx < MAX_CONCURRENCY && send < SENDS && half < 2
      requires Posting(b0, books, slots[idx], idx, 2 * send + half, send + 1) && books.quarantine == {}
      modifies this`books, this`refused, this`slots, mgr
      ensures old(mgr.run) <= mgr.run
      ensures Sound() && slots == old(slots)[idx := slots[idx]]
      ensures !outcome.LanesExhausted?
      ensures outcome.Posted? ==> Posting(b0, books, slots[idx], idx, 2 * send + half + 1, send + 1)
      ensures !outcome.Posted? ==> books == old(books) && slots == old(slots)
      ensures outcome.EventsExhausted? ==> old(books.live) == SLOTS
      ensures refused == old(refused) + (if outcome.PostRefused? then 1 else 0)
    {
      hide Balanced, LanesFor, AllPast, WrsBooked, Recorded;
      ghost var v := mgr.Me(id);
      MayPost(v, books, slots);
      var ticket := mgr.PostEvent(id);
      if ticket.None? {
        return EventsExhausted;
      }
      var k := ticket.value;
      assert LaneBooked(books, slots[idx], idx, send);
      var lane := slots[idx].jetty[send].value;
      var accepted := mgr.PostWrite(id, lane, k);
      if !accepted {
        TraceRefused(v, books, slots, gone, spoiled, k);
        BalancedAnew(v, books, slots, v.serials[k.slot := k.serial]);
        mgr.AbortEvent(id, k);
        DeniedBooks(Dropped(Got(v, k), k), books, slots, gone, spoiled);
        refused := refused + 1;
        return PostRefused;
      }
      WrEntered(v, b0, books, slots, idx, send, half, k, lane);
      TraceSent(v, books, slots, gone, spoiled, k, lane);
      WrittenPast(mgr.Me(id), slots, idx, 2 * send + half, k);
      books := WithWr(books, k, Pos(idx, send, half));
      slots := slots[idx := Written(slots[idx], 2 * send + half, k)];
      return Posted;
    }

    /** Posts the next work request, taking a lane first when it begins a send; a failure leaves
        slot and books as before the attempt. */
    method PostNext(idx: nat, send: nat, half: nat, ghost b0: Books) returns (outcome: Outcome)
      requires Sound() && idx < MAX_CONCURRENCY && send < SENDS && half < 2
      requires Posting(b0, books, slots[idx], idx, 2 * send + half, send + half) && books.quarantine == {}
      modifies this`books, this`refused, this`slots, mgr
      ensures old(mgr.run) <= mgr.run
      ensures Sound() && slots == old(slots)[idx := slots[idx]]
      ensures outcome.Posted? ==> Posting(b0, books, slots[idx], idx, 2 * send + half + 1, send + 1)
      ensures !outcome.Posted? ==> Posting(b0, books, slots[idx], idx, 2 * send + half, send + half)
      ensures outcome.EventsExhausted? ==> old(books.live) == SLOTS
      ensures outcome.LanesExhausted? ==> half == 0 && Scarce(old(books.inUse + books.lost) + 1)
      ensures refused == old(refused) + (if outcome.PostRefused? then 1 else 0)
    {
      hide Balanced, Traced, WrsBooked, LanesBooked, SameElsewhere, Matches, NoWr, NoLane, LaneBooked, Recorded;
      if half == 0 {
        var ok := TakeLane(idx, send, b0);
        if !ok {
          return LanesExhausted;
        }
      }
      outcome := PostWr(idx, send, half, b0);
      if !outcome.Posted? && half == 0 {
        BalancedMatches(mgr.Me(id), books, slots, idx);
        PostingSansLane(b0, books, slots[idx], idx, send);
        CloseSend(idx, send, 0);
      }
    }

    /** Undoes a partly posted request: waits for all its posted work requests.  Everything is as before
        the request, except that the lanes of the sends `bad`, on which a wait failed, stay aside. */
    method Rollback(idx: nat, posted: nat, ghost b0: Books) returns (failed: nat, ghost bad: set<nat>)
      requires Sound() && idx < MAX_CONCURRENCY && posted <= WRS && Vacant(b0, idx)
      requires Posting(b0, books, slots[idx], idx, posted, Sends(posted))
      modifies this`books, this`gone, this`slots, this`histWr, mgr
      ensures old(mgr.run) <= mgr.run
      ensures Sound() && Vacant(books, idx) && !slots[idx].active && slots == old(slots)[idx := slots[idx]]
      ensures failed <= posted && histWr == old(histWr) + posted - failed
      ensures books == b0.(quarantine := b0.quarantine + LanesOf(old(slots[idx]), bad), lost := b0.lost + |bad|)
      ensures AllMarked(old(gone), gone, slots[idx], bad, failed)
      ensures |bad| <= failed && (failed == 0 <==> bad == {})
      ensures failed == 0 ==> books == b0
      ensures AllMissed(mgr.run, |old(mgr.run)| - 1, id, gone - old(gone))
    {
      hide Balanced, Traced, WrsBooked, LanesBooked, AllMarked, Recorded, AllMissed;
      ghost var b1, s1, recorded := books, slots[idx], 0;
      failed, recorded, bad := DrainSlot(idx, posted, Sends(posted));
      RollbackRestores(b0, b1, books, s1, slots[idx], idx, posted, Sends(posted), failed, recorded, bad);
      AllMarkedSame(old(gone), gone, s1, slots[idx].(active := false), bad, failed);
      Deactivate(idx);
    }

    /** Only the flag changes. */
    method Deactivate(idx: nat)
      requires Sound() && idx < MAX_CONCURRENCY
      modifies this`slots
      ensures Sound() && slots == old(slots)[idx := old(slots)[idx].(active := false)]
    {
      hide Recorded;
      Relabel(mgr.Me(id), books, slots, idx, slots[idx].doneCnt, false);
      SlotStaysPast(mgr.Me(id), slots, idx, slots[idx].(active := false));
      slots := slots[idx := slots[idx].(active := false)];
    }

    method BeginReq(idx: nat)
      requires Sound() && idx < MAX_CONCURRENCY && Vacant(books, idx)
      modifies this`slots
      ensures Sound() && slots == old(slots)[idx := slots[idx]]
      ensures Posting(books, books, slots[idx], idx, 0, 0)
    {
      hide Recorded;
      Relabel(mgr.Me(id), books, slots, idx, 0, true);
      SlotStaysPast(mgr.Me(id), slots, idx, slots[idx].(doneCnt := 0, active := true));
      slots := slots[idx := slots[idx].(doneCnt := 0, active := true)];
      PostingStart(books, slots[idx], idx);
    }

    method PostAt(idx: nat, wr: nat, ghost b0: Books) returns (outcome: Outcome)
      requires Sound() && idx < MAX_CONCURRENCY && wr < WRS && books.quarantine == {}
      requires Posting(b0, books, slots[idx], idx, wr, Sends(wr))
      modifies this`books, this`refused, this`slots, mgr
      ensures old(mgr.run) <= mgr.run
      ensures Sound() && slots == old(slots)[idx := slots[idx]]
      ensures outcome.Posted? ==> Posting(b0, books, slots[idx], idx, wr + 1, Sends(wr + 1))
      ensures !outcome.Posted? ==> Posting(b0, books, slots[idx], idx, wr, Sends(wr))
      ensures outcome.EventsExhausted? ==> b0.live + WRS > SLOTS
      ensures outcome.LanesExhausted? ==> Scarce(b0.inUse + b0.lost + SENDS)
      ensures refused == old(refused) + (if outcome.PostRefused? then 1 else 0)
    {
      hide Balanced, Traced, WrsBooked, LanesBooked, SameElsewhere, Recorded;
      var send, half := wr / 2, wr % 2;
      assert wr == 2 * send + half && Sends(wr) == send + half && Sends(wr + 1) == send + 1;
      outcome := PostNext(idx, send, half, b0);
    }

    /** Posts the twenty work requests of a request, up to the first that cannot be posted. */
    method PostAll(idx: nat) returns (outcome: Outcome, posted: nat)
      requires Sound() && idx < MAX_CONCURRENCY && Posting(books, books, slots[idx], idx, 0, 0)
      requires books.quarantine == {}
      modifies this`books, this`refused, this`slots, mgr
      ensures old(mgr.run) <= mgr.run
      ensures Sound() && slots == old(slots)[idx := slots[idx]] && posted <= WRS
      ensures Posting(old(books), books, slots[idx], idx, posted, Sends(posted))
      ensures outcome.Posted? <==> posted == WRS
      ensures outcome.EventsExhausted? ==> old(books.live) + WRS > SLOTS
      ensures outcome.LanesExhausted? ==> Scarce(old(books.inUse + books.lost) + SENDS)
      ensures refused == old(refused) + (if outcome.PostRefused? then 1 else 0)
    {
      hide Balanced, Traced, WrsBooked, LanesBooked, SameElsewhere, Recorded;
      for wr := 0 to WRS
        invariant old(mgr.run) <= mgr.run && refused == old(refused)
        invariant Sound() && slots == old(slots)[idx := slots[idx]]
        invariant Posting(old(books), books, slots[idx], idx, wr, Sends(wr))
      {
        outcome := PostAt(idx, wr, old(books));
        if !outcome.Posted? {
          return outcome, wr;
        }
      }
      return Posted, WRS;
    }

    /** Posts a whole request or undoes it; undone, `failed` waits failed, for work requests of exactly the sends
        `bad`. */
    method TryPost(idx: nat) returns (outcome: Outcome, ghost failed: nat, ghost bad: set<nat>)
      requires Sound() && idx < MAX_CONCURRENCY && Vacant(books, idx) && books.quarantine == {}
      modifies this`books, this`refused, this`gone, this`slots, this`histWr, mgr
      ensures old(mgr.run) <= mgr.run
      ensures Sound() && slots == old(slots)[idx := slots[idx]]
      ensures outcome.Posted? ==> histWr == old(histWr) && gone == old(gone)
      ensures outcome.Posted? ==> Posting(old(books), books, slots[idx], idx, WRS, SENDS)
      ensures !outcome.Posted? ==>
        && !slots[idx].active && old(histWr) <= histWr && failed + histWr - old(histWr) < WRS
        && UndoneBut(old(books), books, old(gone), gone, slots[idx], bad, failed)
      ensures outcome.EventsExhausted? ==> old(books.live) + WRS > SLOTS
      ensures outcome.LanesExhausted? ==> Scarce(old(books.inUse + books.lost) + SENDS)
      ensures refused == old(refused) + (if outcome.PostRefused? then 1 else 0)
      ensures AllMissed(mgr.run, |old(mgr.run)| - 1, id, gone - old(gone))
    {
      hide Balanced, Traced, AllMarked, Posting, LanesOf, Recorded, AllMissed;
      BeginReq(idx);
      var posted: nat;
      outcome, posted := PostAll(idx);
      failed, bad := 0, {};
      ghost var run1 := mgr.run;
      if outcome.Posted? {
        MissedNone(mgr.run, |old(mgr.run)| - 1, id, gone);
      } else {
        failed, bad := Rollback(idx, posted, old(books));
        MissedStill(mgr.run, mgr.run, |old(mgr.run)| - 1, |run1| - 1, id, gone - old(gone));
      }
    }

    /** Posts a request in a vacant slot, or leaves everything as it was but for the lanes on which a wait
        failed. */
    method PostOneReq(idx: nat) returns (outcome: Outcome, ghost failed: nat, ghost bad: set<nat>)
      requires Ready() && idx < concurrency && idx !in activeSlots && books.quarantine == {}
      modifies this`books, this`refused, this`gone, this`slots, this`activeSlots, this`histWr, mgr
      ensures old(mgr.run) <= mgr.run
      ensures Sound() && Fleet(books, slots, activeSlots)
      ensures outcome.Posted? ==>
        && activeSlots == old(activeSlots) + [idx] && histWr == old(histWr) && gone == old(gone)
        && SameLosses(old(books), books) && books.live == old(books.live) + WRS
      ensures !outcome.Posted? ==>
        && activeSlots == old(activeSlots) && old(histWr) <= histWr && failed + histWr - old(histWr) < WRS
        && Sized(slots[idx]) && UndoneBut(old(books), books, old(gone), gone, slots[idx], bad, failed)
      ensures !outcome.EventsExhausted?
      ensures outcome.LanesExhausted? ==> Scarce(old(books.lost) + SENDS * concurrency)
      ensures refused == old(refused) + (if outcome.PostRefused? then 1 else 0)
      ensures AllMissed(mgr.run, |old(mgr.run)| - 1, id, gone - old(gone))
    {
      hide Recorded, BytesOf, AllMissed;
      ghost var b0, slots0 := books, slots;
      assert SlotAgrees(books, slots[idx], idx, activeSlots);
      Capacity(books, slots, activeSlots, concurrency, idx);
      outcome, failed, bad := TryPost(idx);
      if outcome.Posted? {
        FleetJoins(b0, books, slots0, slots[idx], idx, activeSlots);
        activeSlots := activeSlots + [idx];
      } else {
        FleetStays(b0, books, slots0, slots[idx], idx, activeSlots);
      }
    }

    // ---------------------------------------------------------------- collecting completions

    /** Looks at one work request in flight: 1 done now, 0 not yet, -1 failed. */
    method ProbeWr(n: nat, idx: nat, send: nat, half: nat) returns (r: int)
      requires n < |activeSlots| && idx == activeSlots[n] < |slots| && send < SENDS && half < 2
      requires Sized(slots[idx]) && !slots[idx].done[2 * send + half]
      requires Sound() && Fleet(books, slots, activeSlots)
      modifies this`books, this`gone, this`slots, mgr
      ensures old(mgr.run) <= mgr.run
      ensures Sound() && (r == 0 || r == 1 || r == -1)
      ensures gone == if r == -1 then old(gone) + {old(slots[idx]).token[2 * send + half]} else old(gone)
      ensures r == 0 ==> books == old(books) && slots == old(slots)
      ensures r == 1 ==> slots == old(slots)[idx := Ticked(old(slots[idx]), 2 * send + half)]
      ensures r == 1 ==> books.live == old(books.live) - 1 && SameLosses(old(books), books)
      ensures r == 1 ==> Fleet(books, slots, activeSlots)
      ensures r == 0 ==> Saw(mgr.run, |old(mgr.run)| - 1, id, old(slots[idx]).token[2 * send + half], Waiting)
      ensures r == -1 ==> Saw(mgr.run, |old(mgr.run)| - 1, id, old(slots[idx]).token[2 * send + half], Failed)
      ensures r == -1 ==> old(slots[idx]).token[2 * send + half] !in old(gone)
    {
      hide Balanced, Blamed, AllPast, WrsBooked, LanesBooked, InFlight, SlotAgrees, Recorded, Saw;
      var w := 2 * send + half;
      var k := slots[idx].token[w];
      ghost var v := mgr.Me(id);
      FlightBooked(v, books, slots, activeSlots, n, send, half);
      mgr.Dates(id);
      r := mgr.ProbeEvent(id, k);
      if r == 1 {
        TraceWait(v, books, slots, gone, spoiled, k, true);
        TickedPast(mgr.Me(id), slots, idx, w);
        TickBalances(v, books, slots, idx, send, half);
        FleetTicks(books, slots, activeSlots, n, send, half);
        books := SansWr(books, k);
        slots := slots[idx := Ticked(slots[idx], w)];
      } else if r == -1 {
        BookWait(v, books, slots, k, false);
        TraceWait(v, books, slots, gone, spoiled, k, false);
        books, gone := AfterWait(books, k, v.open[k], false), gone + {k};
      }
    }

    /** Looks at every work request of a slot that is not done; stops at the first failure. */
    method ProbeSlot(n: nat, idx: nat) returns (ok: bool)
      requires n < |activeSlots| && idx == activeSlots[n] < |slots|
      requires Sound() && Fleet(books, slots, activeSlots)
      modifies this`books, this`gone, this`slots, this`histWr, mgr
      ensures old(mgr.run) <= mgr.run
      ensures Sound()
      ensures idx < |slots|
      ensures ok ==> Fleet(books, slots, activeSlots) && slots == old(slots)[idx := slots[idx]]
      ensures ok ==> histWr + books.live == old(histWr + books.live)
      ensures ok ==> SameLosses(old(books), books) && gone == old(gone)
      ensures ok ==> Looked(mgr.run, |old(mgr.run)| - 1, id, slots[idx], WRS)
      ensures ok ==> Advanced(old(slots)[idx], slots[idx])
      ensures !ok ==> ProbedToFail(mgr.run, |old(mgr.run)| - 1, id, old(gone), gone)
    {
      hide Balanced, Traced, Recorded, Saw, Looked, ProbedToFail;
      LookStarts(mgr.run, |mgr.run| - 1, id, slots[idx]);
      for i := 0 to WRS
        invariant old(mgr.run) <= mgr.run
        invariant Sound() && Fleet(books, slots, activeSlots) && slots == old(slots)[idx := slots[idx]]
        invariant Advanced(old(slots)[idx], slots[idx]) && Looked(mgr.run, |old(mgr.run)| - 1, id, slots[idx], i)
        invariant histWr + books.live == old(histWr + books.live) && SameLosses(old(books), books) && gone == old(gone)
      {
        ghost var run1, s1 := mgr.run, slots[idx];
        if !slots[idx].done[i] {
          var send, half := i / 2, i % 2;
          assert i == 2 * send + half;
          var r := ProbeWr(n, idx, send, half);
          if r == -1 {
            FailsNow(mgr.run, |old(mgr.run)| - 1, |run1| - 1, id, old(gone), gone, s1.token[i]);
            return false;
          }
          if r == 1 {
            histWr := histWr + 1;
          }
          LookAdvances(s1, slots[idx], i, r);
        } else {
          LookAdvances(s1, slots[idx], i, 2);
        }
        AdvancedTwice(old(slots)[idx], s1, slots[idx]);
        LookedNext(run1, mgr.run, |old(mgr.run)| - 1, |run1| - 1, id, s1, slots[idx], i);
      }
      return true;
    }

    /** Drains a request in flight and takes its slot out of use; the lanes of the sends `bad` stay aside, on
        which exactly the `failed` waits failed. */
    method EmptySlot(n: nat) returns (failed: nat, ghost bad: set<nat>)
      requires Sound() && Fleet(books, slots, activeSlots) && n < |activeSlots|
      modifies this`books, this`gone, this`slots, this`histWr, mgr
      ensures old(mgr.run) <= mgr.run
      ensures Sound() && Fleet(books, slots, Moved(activeSlots, n))
      ensures slots == old(slots)[activeSlots[n] := slots[activeSlots[n]]]
      ensures failed <= WRS - old(slots[activeSlots[n]].doneCnt)
      ensures histWr + failed + books.live == old(histWr + books.live)
      ensures Sized(old(slots)[activeSlots[n]])
      ensures Losses(old(books), books, old(gone), gone, old(slots)[activeSlots[n]], bad, failed)
      ensures AllMissed(mgr.run, |old(mgr.run)| - 1, id, gone - old(gone))
    {
      hide Balanced, Traced, WrsBooked, LanesBooked, AllMarked, Recorded, AllMissed;
      var idx := activeSlots[n];
      ghost var b0, slots0 := books, slots;
      assert InFlight(books, slots[idx], idx) by {
        assert idx in activeSlots && SlotAgrees(books, slots[idx], idx, activeSlots);
      }
      ghost var recorded;
      failed, recorded, bad := DrainSlot(idx, WRS, SENDS);
      FleetLeaves(b0, books, slots0, slots, activeSlots, n, failed, recorded, bad);
      Deactivate(idx);
    }

    /** Takes a slot whose request ended off the list and puts it on the free stack. */
    method FreeSlot(n: nat, completed: bool)
      requires Roster(activeSlots, freeSlots, concurrency) && n < |activeSlots|
      requires histReq == ops && bytes == BytesOf(ops, sendSize)
      modifies this`activeSlots, this`freeSlots, this`histReq, this`ops, this`bytes
      ensures Roster(activeSlots, freeSlots, concurrency) && histReq == ops && bytes == BytesOf(ops, sendSize)
      ensures activeSlots == Moved(old(activeSlots), n) && freeSlots == old(freeSlots) + [old(activeSlots)[n]]
      ensures ops == old(ops) + (if completed then 1 else 0)
    {
      hide Roster, Recorded, BytesOf;
      if completed {
        BytesNext(ops, sendSize);
        histReq := histReq + 1;
        ops := ops + 1;
        bytes := bytes + sendSize * SENDS;
      }
      RosterRetires(activeSlots, freeSlots, concurrency, n);
      freeSlots := freeSlots + [activeSlots[n]];
      activeSlots := Moved(activeSlots, n);
    }

    /** Takes a request out of flight: waits for what is not done, gives back the lanes on which no wait
        failed, counts the request if all of it succeeded, and frees the slot. */
    method RetireSlot(n: nat) returns (failed: nat, ghost bad: set<nat>)
      requires Ready() && n < |activeSlots|
      modifies this`books, this`gone, this`slots, this`activeSlots, this`freeSlots
      modifies this`histWr, this`histReq, this`ops, this`bytes, mgr
      ensures old(mgr.run) <= mgr.run
      ensures Ready() && activeSlots == Moved(old(activeSlots), n)
      ensures freeSlots == old(freeSlots) + [old(activeSlots)[n]]
      ensures slots == old(slots)[old(activeSlots)[n] := slots[old(activeSlots)[n]]]
      ensures failed <= WRS - old(slots[activeSlots[n]].doneCnt)
      ensures histWr + failed + books.live == old(histWr + books.live)
      ensures ops == old(ops) + (if failed == 0 then 1 else 0)
      ensures Sized(old(slots)[old(activeSlots)[n]])
      ensures Losses(old(books), books, old(gone), gone, old(slots)[old(activeSlots)[n]], bad, failed)
      ensures AllMissed(mgr.run, |old(mgr.run)| - 1, id, gone - old(gone))
    {
      hide Balanced, Traced, Fleet, Roster, Losses, Recorded, BytesOf, AllMissed;
      failed, bad := EmptySlot(n);
      FreeSlot(n, failed == 0);
    }

    /** Probes the request at position `n` and, if all of it is done, takes it out of flight. */
    method ScanSlot(n: nat) returns (ok: bool, finished: bool)
      requires Ready() && n < |activeSlots|
      modifies this`books, this`gone, this`slots, this`activeSlots, this`freeSlots
      modifies this`histWr, this`histReq, this`ops, this`bytes, mgr
      ensures old(mgr.run) <= mgr.run
      ensures Sound()
      ensures ok ==> Ready() && histWr + books.live == old(histWr + books.live)
      ensures ok ==> SameLosses(old(books), books) && gone == old(gone)
      ensures ok ==> slots == old(slots)[old(activeSlots)[n] := slots[old(activeSlots)[n]]]
      ensures ok && finished ==> activeSlots == Moved(old(activeSlots), n) && ops == old(ops) + 1
      ensures ok && !finished ==> activeSlots == old(activeSlots) && ops == old(ops)
      ensures ok && !finished ==> slots[activeSlots[n]].doneCnt < WRS
      ensures ok && !finished ==>
        Busy(mgr.run, |old(mgr.run)| - 1, id, old(slots)[activeSlots[n]], slots[activeSlots[n]])
      ensures !ok ==> ProbedToFail(mgr.run, |old(mgr.run)| - 1, id, old(gone), gone)
    {
      hide Balanced, Traced, Roster, Losses, Recorded, BytesOf, AllMissed, Looked, Busy, ProbedToFail;
      finished := false;
      ok := ProbeSlot(n, activeSlots[n]);
      if ok && slots[activeSlots[n]].doneCnt >= WRS {
        ghost var b1, s1, bad := books, slots[activeSlots[n]], {};
        var failed;
        failed, bad := RetireSlot(n);
        NoLosses(b1, books, old(gone), gone, s1, bad);
        finished := true;
      } else if ok {
        InFlightCount(books, slots, activeSlots, n);
        LookedIsBusy(mgr.run, |old(mgr.run)| - 1, id, old(slots)[activeSlots[n]], slots[activeSlots[n]]);
      }
    }

    /** One pass over the requests in flight, each looked at exactly once although finished ones are
        replaced with the last one; afterwards none that is left is finished. */
    method Scan(reqActive: nat) returns (ok: bool, stillActive: nat, ghost visited: seq<nat>)
      requires Ready() && reqActive == |activeSlots|
      modifies this`books, this`gone, this`slots, this`activeSlots, this`freeSlots
      modifies this`histWr, this`histReq, this`ops, this`bytes, mgr
      ensures old(mgr.run) <= mgr.run
      ensures Sound()
      ensures ok ==> Ready() && histWr + books.live == old(histWr + books.live)
      ensures ok ==> SameLosses(old(books), books) && gone == old(gone)
      ensures ok ==> ops + |activeSlots| == old(ops + |activeSlots|) && stillActive == |activeSlots|
      ensures ok ==> Distinct(visited) && forall i :: i in visited <==> i in old(activeSlots)
      ensures ok ==> Scanned(mgr.run, |old(mgr.run)| - 1, id, old(slots), slots, activeSlots, |activeSlots|)
      ensures ok ==> forall i :: i in activeSlots ==> i < |old(slots)| && !AllThrough(old(mgr.sys), id, old(slots)[i])
      ensures !ok ==> ProbedToFail(mgr.run, |old(mgr.run)| - 1, id, old(gone), gone)
      ensures ok ==> |activeSlots| <= |old(activeSlots)|
      ensures ok ==> ops >= old(ops) + |Through(old(mgr.sys), id, old(slots), old(activeSlots))|
    {
      hide Balanced, Traced, Sweep, SlotAgrees, Recorded, BytesOf, Busy, Scanned, ProbedToFail, AllThrough;
      stillActive, visited := reqActive, [];
      mgr.IsRecorded();
      SweepStarts(activeSlots);
      ScanStarts(mgr.run, |mgr.run| - 1, id, slots, activeSlots);
      var n := 0;
      while n < |activeSlots|
        invariant old(mgr.run) <= mgr.run
        invariant Ready() && n <= |activeSlots| == stillActive
        invariant histWr + books.live == old(histWr + books.live)
        invariant SameLosses(old(books), books) && gone == old(gone)
        invariant ops + |activeSlots| == old(ops + |activeSlots|) && |activeSlots| <= |old(activeSlots)|
        invariant Sweep(old(activeSlots), activeSlots, n, visited)
        invariant forall i :: i in activeSlots ==> i in old(activeSlots)
        invariant Scanned(mgr.run, |old(mgr.run)| - 1, id, old(slots), slots, activeSlots, n)
        decreases |activeSlots| - n
      {
        ghost var active, slots1, run1 := activeSlots, slots, mgr.run;
        var finished: bool;
        ok, finished := ScanSlot(n);
        if !ok {
          FailStill(mgr.run, |old(mgr.run)| - 1, |run1| - 1, id, old(gone), gone);
          return;
        }
        visited := visited + [active[n]];
        if finished {
          ScanReplaces(run1, mgr.run, |old(mgr.run)| - 1, id, old(slots), slots1, slots, active, n);
          SweepStays(old(activeSlots), active, n, visited[..|visited| - 1]);
          if stillActive > 0 {
            stillActive := stillActive - 1;
          }
        } else {
          ScanGoesOn(run1, mgr.run, |old(mgr.run)| - 1, |run1| - 1, id, old(slots), slots1, slots, active, n);
          SweepOn(old(activeSlots), active, n, visited[..|visited| - 1]);
          n := n + 1;
        }
      }
      SweepEnds(old(activeSlots), activeSlots, visited);
      mgr.IsRecorded();
      ScanEnds(mgr.run, |old(mgr.run)| - 1, id, old(slots), slots, activeSlots);
      ScanCollects(old(mgr.sys), id, old(slots), old(activeSlots), activeSlots);
      ok := true;
    }

    // ---------------------------------------------------------------- the write pipeline

    /** Takes a free slot and posts one request in it; a slot whose request could not be posted goes back. */
    method SendOne() returns (outcome: Outcome)
      requires Ready() && freeSlots != [] && books.quarantine == {}
      modifies this`books, this`refused, this`gone, this`slots, this`activeSlots, this`freeSlots, this`histWr, mgr
      ensures old(mgr.run) <= mgr.run
      ensures Ready()
      ensures outcome.Posted? ==>
        && |activeSlots| == |old(activeSlots)| + 1 && histWr == old(histWr) && gone == old(gone)
        && SameLosses(old(books), books) && books.live == old(books.live) + WRS
      ensures !outcome.Posted? ==>
        && activeSlots == old(activeSlots) && freeSlots == old(freeSlots)
        && books.owner == old(books.owner) && books.lanes == old(books.lanes)
      ensures !outcome.EventsExhausted?
      ensures outcome.LanesExhausted? ==> Scarce(old(books.lost) + SENDS * concurrency)
      ensures refused == old(refused) + (if outcome.PostRefused? then 1 else 0)
      ensures AllMissed(mgr.run, |old(mgr.run)| - 1, id, gone - old(gone))
    {
      hide Balanced, Traced, Fleet, AllMarked, LanesOf, Recorded, BytesOf, AllMissed;
      RosterPosts(activeSlots, freeSlots, concurrency);
      var slot := freeSlots[|freeSlots| - 1];
      ghost var failed, bad;
      outcome, failed, bad := PostOneReq(slot);
      if outcome.Posted? {
        freeSlots := freeSlots[..|freeSlots| - 1];
      }
    }

    /** Posts requests until the limit is reached, time is up, or one cannot be posted: as many as there is
        `time` for, up to the limit.  The free stack never runs out first. */
    method SendRequests(reqActive: nat, reqSeq: nat, time: nat)
      returns (outcome: Outcome, nowActive: nat, seqNo: nat, starved: bool)
      requires Ready() && reqActive == |activeSlots| && books.quarantine == {}
      modifies this`books, this`refused, this`gone, this`slots, this`activeSlots, this`freeSlots, this`histWr, mgr
      ensures old(mgr.run) <= mgr.run
      ensures Ready() && !starved
      ensures outcome.Posted? ==> histWr == old(histWr) && nowActive == |activeSlots|
      ensures outcome.Posted? ==> SameLosses(old(books), books) && gone == old(gone)
      ensures outcome.Posted? ==> seqNo - |activeSlots| == reqSeq - |old(activeSlots)|
      ensures outcome.Posted? ==> books.live - WRS * seqNo == old(books.live) - WRS * reqSeq
      ensures outcome.Posted? ==> nowActive == if reqActive + time < concurrency then reqActive + time else concurrency
      ensures !outcome.EventsExhausted?
      ensures outcome.LanesExhausted? ==> Scarce(old(books.lost) + SENDS * concurrency)
      ensures refused == old(refused) + (if outcome.PostRefused? then 1 else 0)
      ensures AllMissed(mgr.run, |old(mgr.run)| - 1, id, gone - old(gone))
    {
      hide Balanced, Traced, Fleet, Roster, Recorded, BytesOf, AllMissed;
      outcome, nowActive, seqNo, starved := Posted, reqActive, reqSeq, false;
      RosterRoom(activeSlots, freeSlots, concurrency);
      MissedNone(mgr.run, |mgr.run| - 1, id, gone);
      var left := time;
      while left > 0 && nowActive < concurrency
        invariant old(mgr.run) <= mgr.run
        invariant Ready() && outcome.Posted? && !starved
        invariant nowActive == |activeSlots| <= concurrency && nowActive + left == reqActive + time
        invariant histWr == old(histWr) && refused == old(refused)
        invariant SameLosses(old(books), books) && gone == old(gone)
        invariant seqNo - |activeSlots| == reqSeq - |old(activeSlots)|
        invariant books.live - WRS * seqNo == old(books.live) - WRS * reqSeq
        invariant AllMissed(mgr.run, |old(mgr.run)| - 1, id, gone - old(gone))
        decreases left
      {
        RosterRoom(activeSlots, freeSlots, concurrency);
        if freeSlots == [] {
          starved := true;
          return;
        }
        ghost var run1 := mgr.run;
        outcome := SendOne();
        MissedStill(mgr.run, mgr.run, |old(mgr.run)| - 1, |run1| - 1, id, gone - old(gone));
        if !outcome.Posted? {
          return;
        }
        nowActive, seqNo, left := nowActive + 1, seqNo + 1, left - 1;
        RosterRoom(activeSlots, freeSlots, concurrency);
      }
    }

    /** Ends every request in flight. */
    method DrainAll() returns (failures: nat, ghost lostReqs: nat)
      requires Ready()
      modifies this`books, this`gone, this`slots, this`activeSlots, this`freeSlots
      modifies this`histWr, this`histReq, this`ops, this`bytes, mgr
      ensures old(mgr.run) <= mgr.run
      ensures Ready() && activeSlots == []
      ensures histWr + failures + books.live == old(histWr + books.live)
      ensures ops + lostReqs == old(ops) + |old(activeSlots)| && lostReqs <= failures
      ensures (lostReqs == 0 <==> failures == 0)
      ensures old(books.lost) <= books.lost <= old(books.lost) + failures
      ensures (failures == 0 <==> books.lost == old(books.lost))
      ensures FailedIn(old(gone), gone, old(slots), old(activeSlots), failures)
      ensures AllMissed(mgr.run, |old(mgr.run)| - 1, id, gone - old(gone))
    {
      hide Balanced, Traced, Roster, Fleet, Undrained, FailedIn, Moved, AllMarked, LanesOf, Recorded, BytesOf,
           AllMissed;
      failures, lostReqs := 0, 0;
      MissedNone(mgr.run, |old(mgr.run)| - 1, id, gone);
      DrainBegins(books, gone, slots, activeSlots);
      while activeSlots != []
        invariant old(mgr.run) <= mgr.run
        invariant Ready()
        invariant histWr + failures + books.live == old(histWr + books.live)
        invariant ops + lostReqs + |activeSlots| == old(ops) + |old(activeSlots)| && lostReqs <= failures
        invariant (lostReqs == 0 <==> failures == 0)
        invariant old(books.lost) <= books.lost <= old(books.lost) + failures
        invariant (failures == 0 <==> books.lost == old(books.lost))
        invariant FailedIn(old(gone), gone, old(slots), old(activeSlots), failures)
        invariant AllMissed(mgr.run, |old(mgr.run)| - 1, id, gone - old(gone))
        invariant Undrained(old(slots), slots, old(activeSlots), activeSlots)
        decreases |activeSlots|
      {
        ghost var g1, run1, active1, slots1, bad := gone, mgr.run, activeSlots, slots, {};
        UndrainedHead(old(slots), slots, old(activeSlots), activeSlots);
        var failed;
        failed, bad := RetireSlot(0);
        FailedNext(old(gone), g1, gone, old(slots), slots1, old(activeSlots), active1, bad, failures, failed);
        UndrainedNext(old(slots), slots1, slots, old(activeSlots), active1);
        MissedJoin(run1, mgr.run, |old(mgr.run)| - 1, |run1| - 1, id, old(gone), g1, gone);
        failures := failures + failed;
        lostReqs := lostReqs + (if failed == 0 then 0 else 1);
      }
    }

    /** One round: collects what has come through and posts what there is time for.  Every request that had come
        through at its start is collected. */
    method Round(reqActive: nat, reqSeq: nat, time: nat) returns (verdict: Verdict, nowActive: nat, seqNo: nat)
      requires Ready() && reqActive == |activeSlots| && Intact(books)
      modifies this`books, this`refused, this`gone, this`slots, this`activeSlots, this`freeSlots
      modifies this`histWr, this`histReq, this`ops, this`bytes, mgr
      ensures old(mgr.run) <= mgr.run
      ensures Sound() && (!verdict.ProbeFailed? ==> Ready())
      ensures verdict.Finished? ==> Intact(books) && gone == old(gone) && nowActive == |activeSlots|
      ensures verdict.Finished? ==> ops + |activeSlots| - seqNo == old(ops + |activeSlots|) - reqSeq
      ensures verdict.Finished? ==> histWr + books.live - WRS * seqNo == old(histWr + books.live) - WRS * reqSeq
      ensures verdict.Finished? ==> ops >= old(ops) + |Through(old(mgr.sys), id, old(slots), old(activeSlots))|
      ensures verdict.Finished? && reqActive <= reqSeq ==> nowActive <= seqNo
      ensures verdict.Finished? && time >= concurrency ==> nowActive == concurrency
      ensures verdict.PostFailed? ==> !verdict.outcome.Posted? && !verdict.outcome.EventsExhausted?
      ensures verdict == PostFailed(LanesExhausted) ==> Scarce(SENDS * concurrency)
      ensures refused == old(refused) + (if verdict == PostFailed(PostRefused) then 1 else 0)
      ensures verdict.ProbeFailed? ==> ProbedToFail(mgr.run, |old(mgr.run)| - 1, id, old(gone), gone)
      ensures verdict.PostFailed? ==> AllMissed(mgr.run, |old(mgr.run)| - 1, id, gone - old(gone))
    {
      hide Balanced, Traced, Roster, Fleet, Recorded, BytesOf, AllMissed, Scanned, ProbedToFail, AllThrough, Through;
      var ok, starved, outcome;
      ghost var visited;
      seqNo := reqSeq;
      ok, nowActive, visited := Scan(reqActive);
      if !ok {
        return ProbeFailed, nowActive, seqNo;
      }
      ghost var run1 := mgr.run;
      outcome, nowActive, seqNo, starved := SendRequests(nowActive, reqSeq, time);
      if !outcome.Posted? {
        MissedStill(mgr.run, mgr.run, |old(mgr.run)| - 1, |run1| - 1, id, gone - old(gone));
        return PostFailed(outcome), nowActive, seqNo;
      }
      return Finished, nowActive, seqNo;
    }

    /** Scans and sends until time is up; in round `i` there is time for `times[i]` posts. */
    method Cycle(times: seq<nat>) returns (verdict: Verdict, reqSeq: nat)
      requires Ready() && activeSlots == [] && Intact(books)
      modifies this`books, this`refused, this`gone, this`slots, this`activeSlots, this`freeSlots
      modifies this`histWr, this`histReq, this`ops, this`bytes, mgr
      ensures old(mgr.run) <= mgr.run
      ensures Sound() && (!verdict.ProbeFailed? ==> Ready())
      ensures verdict.Finished? ==> Intact(books) && gone == old(gone) && ops + |activeSlots| == old(ops) + reqSeq
      ensures verdict.Finished? ==> histWr + books.live == old(histWr) + WRS * reqSeq
      ensures verdict.Finished? ==> histWr - old(histWr) == WRS * (ops - old(ops)) + DoneSum(slots, activeSlots)
      ensures verdict.PostFailed? ==> !verdict.outcome.Posted? && !verdict.outcome.EventsExhausted?
      ensures verdict == PostFailed(LanesExhausted) ==> Scarce(SENDS * concurrency)
      ensures refused == old(refused) + (if verdict == PostFailed(PostRefused) then 1 else 0)
      ensures verdict.ProbeFailed? ==> ProbedToFail(mgr.run, |old(mgr.run)| - 1, id, old(gone), gone)
      ensures verdict.PostFailed? ==> AllMissed(mgr.run, |old(mgr.run)| - 1, id, gone - old(gone))
      ensures verdict.Finished? && times != [] && times[|times| - 1] >= concurrency ==> |activeSlots| == concurrency
      ensures verdict.Finished? ==> |activeSlots| <= reqSeq
    {
      hide Balanced, Traced, Roster, Recorded, BytesOf, AllMissed, ProbedToFail;
      reqSeq := 0;
      var reqActive := 0;
      for i := 0 to |times|
        invariant old(mgr.run) <= mgr.run && refused == old(refused)
        invariant Ready() && reqActive == |activeSlots| && Intact(books) && gone == old(gone)
        invariant ops + |activeSlots| == old(ops) + reqSeq && histWr + books.live == old(histWr) + WRS * reqSeq
        invariant |activeSlots| <= reqSeq
        invariant i > 0 && times[i - 1] >= concurrency ==> |activeSlots| == concurrency
      {
        ghost var run1 := mgr.run;
        verdict, reqActive, reqSeq := Round(reqActive, reqSeq, times[i]);
        if verdict.ProbeFailed? {
          FailStill(mgr.run, |old(mgr.run)| - 1, |run1| - 1, id, old(gone), gone);
          return;
        }
        if verdict.PostFailed? {
          MissedStill(mgr.run, mgr.run, |old(mgr.run)| - 1, |run1| - 1, id, gone - old(gone));
          return;
        }
      }
      return Finished, reqSeq;
    }

    /** The end of the write pipeline: everything is drained and the failed waits are counted as errors. */
    method FinishWrite() returns (ghost lostReqs: nat)
      requires Ready()
      modifies this`books, this`gone, this`slots, this`activeSlots, this`freeSlots
      modifies this`histWr, this`histReq, this`ops, this`bytes, this`errors, mgr
      ensures old(mgr.run) <= mgr.run
      ensures Ready() && activeSlots == [] && mgr.Me(id).live == {} && mgr.Me(id).spare == SLOTS
      ensures histWr + errors == old(histWr + errors + books.live)
      ensures ops + lostReqs == old(ops) + |old(activeSlots)| && lostReqs <= errors - old(errors)
      ensures (lostReqs == 0 <==> errors == old(errors))
      ensures old(gone) <= gone && errors == old(errors) + |gone - old(gone)|
      ensures mgr.Me(id).held == books.quarantine && mgr.Me(id).holding == books.lost
      ensures old(books.lost) <= books.lost <= old(books.lost) + errors - old(errors)
      ensures (books.lost == old(books.lost) <==> errors == old(errors))
      ensures AllMissed(mgr.run, |old(mgr.run)| - 1, id, gone - old(gone))
    {
      hide Balanced, Traced, Roster, Recorded, BytesOf, AllMissed;
      var failures;
      failures, lostReqs := DrainAll();
      if failures > 0 {
        errors := errors + failures;
      }
      NoneInFlight(mgr.Me(id), books, slots);
    }

    /** The write pipeline.  Lane safety holds in every state the manager goes through, whoever acts.  When it
        finishes, every work request of every request posted was either recorded or counted as an error, no
        event is live, and the worker holds exactly the lanes on which a wait failed. */
    method WritePipeline(times: seq<nat>) returns (verdict: Verdict, reqSeq: nat, ghost lostReqs: nat)
      requires Ready() && activeSlots == [] && Intact(books)
      modifies this, mgr
      ensures old(mgr.run) <= mgr.run && forall i :: 0 <= i < |mgr.run| ==> LaneSafe(mgr.run[i])
      ensures Sound() && (!verdict.ProbeFailed? ==> Ready())
      ensures books.quarantine == LanesFor(mgr.Me(id).open, gone)
      ensures verdict.Finished? ==> activeSlots == [] && mgr.Me(id).live == {} && mgr.Me(id).spare == SLOTS
      ensures verdict.Finished? ==> histWr + errors == old(histWr + errors) + WRS * reqSeq
      ensures verdict.Finished? ==> ops + lostReqs == old(ops) + reqSeq && lostReqs <= errors - old(errors)
      ensures verdict.Finished? ==> (lostReqs == 0 <==> errors == old(errors))
      ensures verdict.Finished? ==> old(gone) <= gone && errors == old(errors) + |gone - old(gone)|
      ensures verdict.Finished? ==> mgr.Me(id).held == LanesFor(mgr.Me(id).open, gone)
      ensures verdict.Finished? ==> mgr.Me(id).holding <= errors - old(errors)
      ensures verdict.Finished? ==> (mgr.Me(id).holding == 0 <==> errors == old(errors))
      ensures verdict.PostFailed? ==> !verdict.outcome.Posted? && !verdict.outcome.EventsExhausted?
      ensures verdict == PostFailed(LanesExhausted) ==> Scarce(SENDS * concurrency)
      ensures refused == old(refused) + (if verdict == PostFailed(PostRefused) then 1 else 0)
      ensures verdict.ProbeFailed? ==> ProbedToFail(mgr.run, |old(mgr.run)| - 1, id, old(gone), gone)
      ensures verdict.Finished? && times != [] && times[|times| - 1] >= concurrency ==> reqSeq >= concurrency
    {
      hide Balanced, Traced, Fleet, Roster, LanesFor, Recorded, LaneSafe, AllSized, BytesOf, AllMissed, ProbedToFail;
      SetAsideIs(mgr.Me(id), books, slots, gone, spoiled);
      lostReqs := 0;
      verdict, reqSeq := Cycle(times);
      if verdict.Finished? {
        lostReqs := FinishWrite();
      }
      SetAsideIs(mgr.Me(id), books, slots, gone, spoiled);
      mgr.AlwaysSafe();
    }

    // ---------------------------------------------------------------- the get pipeline

    /** Holds between two requests of the get drain: only the own work requests of a request in flight can be open
        on its lanes; and, if `exact`, everything that holds in the write pipeline. */
    ghost predicate GetReady(exact: bool)
      reads this, mgr
    {
      && mgr.Registered(id) && |slots| == MAX_CONCURRENCY && AllSized(slots) && InUse(mgr.Me(id), slots, activeSlots)
      && Roster(activeSlots, freeSlots, concurrency) && histReq == ops && bytes == BytesOf(ops, sendSize)
      && (exact ==> Sound() && Fleet(books, slots, activeSlots) && AllSpent(mgr.Me(id), slots, activeSlots))
    }

    /** The work requests of slot `idx` below `wr` were waited for, with exact books. */
    ghost predicate WaitedTo(idx: nat, b0: Books, wr: nat, allOk: bool, recorded: nat)
      requires idx < |slots| && Sized(slots[idx]) && wr <= WRS
      reads this, mgr
    {
      && Sound() && DoneAreSpent(mgr.Me(id), slots[idx])
      && GetProgress(b0, books, slots[idx], idx, wr, allOk, recorded)
    }

    /** Waits for a work request, collected before or not.  Whichever event is struck, the request is not open
        after a success.  If no token is shared, a wait for a collected one fails. */
    method GetWaitWr(idx: nat, send: nat, half: nat, ghost exact: bool, ghost b0: Books, allOk: bool,
            ghost recorded: nat) returns (ok: bool)
      requires mgr.Registered(id) && |slots| == MAX_CONCURRENCY && AllSized(slots) && idx < MAX_CONCURRENCY
      requires send < SENDS && half < 2 && Known(mgr.Me(id), slots[idx].token[2 * send + half])
      requires exact ==> WaitedTo(idx, b0, 2 * send + half, allOk, recorded)
      modifies this`books, this`spoiled, mgr
      ensures old(mgr.run) <= mgr.run
      ensures mgr.Registered(id) && Shrunk(old(mgr.Me(id)), mgr.Me(id))
      ensures ok ==> slots[idx].token[2 * send + half] !in mgr.Me(id).open
      ensures exact && slots[idx].done[2 * send + half] ==> !ok
      ensures exact ==> WaitedTo(idx, b0, 2 * send + half + 1, allOk && ok, if ok then recorded + 1 else recorded)
      ensures exact && !ok && !slots[idx].done[2 * send + half] ==>
        Missed(mgr.run, |old(mgr.run)| - 1, id, slots[idx].token[2 * send + half])
    {
      hide Balanced, Traced, WrsBooked, LanesBooked, Recorded, Missed, GetProgress, DoneAreSpent, AllLanes;
      ghost var v, s := mgr.Me(id), slots[idx];
      var k := slots[idx].token[2 * send + half];
      mgr.Dates(id);
      ghost var late;
      ok, late := mgr.WaitEvent(id, k);
      if exact {
        NextToWait(v, b0, books, slots, idx, send, half, allOk, recorded);
        GetWaitBalances(v, b0, books, slots, idx, send, half, allOk, recorded, ok);
        GetWaitMovesOn(v, b0, books, slots, idx, send, half, allOk, recorded, ok);
        TraceGetWait(v, b0, books, slots, gone, spoiled, idx, send, half, allOk, recorded, ok);
        SpentShrinks(v, mgr.Me(id), s);
        books := AfterGetWait(books, s, 2 * send + half, allOk, ok);
        spoiled := if allOk && !ok then spoiled + AllLanes(s) else spoiled;
      }
    }

    /** Waits for all twenty work requests of a request; `allOk` if every wait succeeded. */
    method GetWaitAll(idx: nat, ghost exact: bool) returns (allOk: bool, ghost recorded: nat)
      requires mgr.Registered(id) && |slots| == MAX_CONCURRENCY && AllSized(slots) && idx < MAX_CONCURRENCY
      requires LaneUse(mgr.Me(id), slots[idx])
      requires exact ==> Sound() && InFlight(books, slots[idx], idx) && DoneAreSpent(mgr.Me(id), slots[idx])
      modifies this`books, this`spoiled, this`histWr, mgr
      ensures old(mgr.run) <= mgr.run
      ensures mgr.Registered(id) && Shrunk(old(mgr.Me(id)), mgr.Me(id)) && histWr == old(histWr) + recorded
      ensures allOk ==> forall n :: 0 <= n < WRS ==> slots[idx].token[n] !in mgr.Me(id).open
      ensures exact ==> WaitedTo(idx, old(books), WRS, allOk, recorded)
      ensures exact && !allOk ==> Excused(mgr.run, |old(mgr.run)| - 1, id, slots[idx])
    {
      hide Balanced, Traced, GetProgress, DoneAreSpent, InFlight, Recorded, Missed, Excused;
      allOk, recorded := true, 0;
      if exact { GetProgressStart(books, slots[idx], idx); }
      for wr := 0 to WRS
        invariant old(mgr.run) <= mgr.run
        invariant mgr.Registered(id) && Shrunk(old(mgr.Me(id)), mgr.Me(id)) && histWr == old(histWr) + recorded
        invariant allOk ==> forall n :: 0 <= n < wr ==> slots[idx].token[n] !in mgr.Me(id).open
        invariant exact && !allOk ==> Excused(mgr.run, |old(mgr.run)| - 1, id, slots[idx])
        invariant exact ==> WaitedTo(idx, old(books), wr, allOk, recorded)
      {
        var send, half := wr / 2, wr % 2;
        assert wr == 2 * send + half;
        ghost var run1, was := mgr.run, allOk;
        var ok := GetWaitWr(idx, send, half, exact, old(books), allOk, recorded);
        if ok {
          histWr, recorded := histWr + 1, recorded + 1;
        } else {
          allOk := false;
        }
        if exact && !was {
          ExcusedStill(run1, mgr.run, |old(mgr.run)| - 1, |old(mgr.run)| - 1, id, slots[idx]);
        } else if exact && !ok {
          ExcusedNow(mgr.run, |old(mgr.run)| - 1, |run1| - 1, id, slots[idx], wr);
        }
      }
    }

    /** Gives the ten lanes of a request back if all waits succeeded, and forgets them. */
    method GetCloseAll(idx: nat, allOk: bool, ghost exact: bool)
      requires mgr.Registered(id) && |slots| == MAX_CONCURRENCY && AllSized(slots) && idx < MAX_CONCURRENCY
      requires LaneUse(mgr.Me(id), slots[idx])
      requires allOk ==> forall n :: 0 <= n < WRS ==> slots[idx].token[n] !in mgr.Me(id).open
      requires exact ==> Sound() && GetClosing(books, books, slots[idx], slots[idx], idx, 0, allOk)
      modifies this`books, this`slots, mgr
      ensures old(mgr.run) <= mgr.run
      ensures mgr.Registered(id) && |slots| == MAX_CONCURRENCY && AllSized(slots)
      ensures slots == old(slots)[idx := slots[idx]]
      ensures Returned(old(mgr.Me(id)), mgr.Me(id), old(slots)[idx], SENDS, allOk)
      ensures exact ==> Sound() && GetClosing(old(books), books, old(slots)[idx], slots[idx], idx, SENDS, allOk)
    {
      hide Balanced, Traced, GetClosing, NoWr, NoLane, LaneBooked, LanesBelow, Recorded;
      ghost var v, s0 := mgr.Me(id), slots[idx];
      ReturnStarts(v, s0, allOk);
      for send := 0 to SENDS
        invariant old(mgr.run) <= mgr.run
        invariant mgr.Registered(id) && |slots| == MAX_CONCURRENCY && slots == old(slots)[idx := slots[idx]]
        invariant AllSized(slots) && forall m :: send <= m < SENDS ==> slots[idx].jetty[m] == s0.jetty[m]
        invariant Returned(v, mgr.Me(id), s0, send, allOk)
        invariant exact ==> Sound() && GetClosing(old(books), books, s0, slots[idx], idx, send, allOk)
      {
        ReturnNext(v, mgr.Me(id), s0, send, allOk);
        if allOk { NothingOpen(v, s0, send); }
        if exact {
          BalancedMatches(mgr.Me(id), books, slots, idx);
          GetCloseNext(old(books), books, s0, slots[idx], idx, send, allOk);
        }
        ForgetLane(idx, send, allOk, exact);
      }
    }

    /** Ends the first get request in flight.  If no token is shared, it counts as complete only if nothing of it
        had been collected before, and otherwise all its ten lanes are set aside. */
    method EmptyGetSlot(ghost exact: bool) returns (allOk: bool, ghost recorded: nat)
      requires GetReady(exact) && activeSlots != []
      modifies this`books, this`spoiled, this`slots, this`histWr, mgr
      ensures old(mgr.run) <= mgr.run
      ensures mgr.Registered(id) && |slots| == MAX_CONCURRENCY && AllSized(slots)
      ensures InUse(mgr.Me(id), slots, Moved(activeSlots, 0))
      ensures slots == old(slots)[activeSlots[0] := slots[activeSlots[0]]]
      ensures mgr.Me(id).holding + (if allOk then SENDS else 0) == old(mgr.Me(id)).holding
      ensures mgr.Me(id).serials == old(mgr.Me(id)).serials && histWr == old(histWr) + recorded
      ensures exact ==> Sound() && Fleet(books, slots, Moved(activeSlots, 0))
      ensures exact ==> AllSpent(mgr.Me(id), slots, Moved(activeSlots, 0))
      ensures exact ==> recorded <= WRS - old(slots[activeSlots[0]].doneCnt) && (allOk <==> recorded == WRS)
      ensures exact ==> histWr + books.live <= old(histWr + books.live)
      ensures exact ==> books.lost == old(books.lost) + (if allOk then 0 else SENDS) && gone == old(gone)
      ensures exact && !allOk ==> Excused(mgr.run, |old(mgr.run)| - 1, id, old(slots[activeSlots[0]]))
    {
      hide Balanced, Blamed, AllPast, LaneUse, Apart, Returned, Shrunk, GetProgress, GetClosing, InFlight, SlotAgrees,
           DoneAreSpent, Vacant, SameElsewhere, Recorded, BytesOf, Excused, Fleet;
      var idx := activeSlots[0];
      ghost var v, b0, slots0 := mgr.Me(id), books, slots;
      if exact { UndoneInFlight(books, slots, activeSlots, 0); }
      allOk, recorded := GetWaitAll(idx, exact);
      ghost var w, b1 := mgr.Me(id), books;
      ShrunkFacts(v, w);
      UseShrinks(v, w, slots[idx]);
      if exact { GetClosingStart(b0, b1, slots[idx], idx, allOk, recorded); }
      ghost var run1 := mgr.run;
      GetCloseAll(idx, allOk, exact);
      if exact && !allOk { ExcusedStill(run1, mgr.run, |old(mgr.run)| - 1, |old(mgr.run)| - 1, id, slots0[idx]); }
      ReturnedAll(w, mgr.Me(id), slots0[idx], allOk);
      if exact { GetLeaves(mgr.Me(id), b0, b1, books, slots0, slots, activeSlots, allOk, recorded); }
      slots := slots[idx := slots[idx].(active := false)];
      UseRemains(v, w, mgr.Me(id), slots0, slots, activeSlots, allOk);
      if exact { SpentRemains(v, mgr.Me(id), slots0, slots, activeSlots, 0); }
    }

    /** Ends the first get request in flight, counts it if it completed, and frees the slot. */
    method RetireGetSlot(ghost exact: bool) returns (allOk: bool)
      requires GetReady(exact) && activeSlots != []
      modifies this`books, this`spoiled, this`slots, this`activeSlots, this`freeSlots
      modifies this`histWr, this`histReq, this`ops, this`bytes, mgr
      ensures old(mgr.run) <= mgr.run
      ensures GetReady(exact) && activeSlots == Moved(old(activeSlots), 0)
      ensures freeSlots == old(freeSlots) + [old(activeSlots)[0]]
      ensures slots == old(slots)[old(activeSlots)[0] := slots[old(activeSlots)[0]]]
      ensures ops == old(ops) + (if allOk then 1 else 0) && mgr.Me(id).serials == old(mgr.Me(id)).serials
      ensures mgr.Me(id).holding + (if allOk then SENDS else 0) == old(mgr.Me(id)).holding
      ensures exact && allOk ==> old(slots[activeSlots[0]].doneCnt) == 0 && histWr == old(histWr) + WRS
      ensures exact ==> histWr + books.live <= old(histWr + books.live) && histWr >= old(histWr)
      ensures exact ==> books.lost == old(books.lost) + (if allOk then 0 else SENDS) && gone == old(gone)
      ensures exact && !allOk ==> Excused(mgr.run, |old(mgr.run)| - 1, id, old(slots[activeSlots[0]]))
    {
      hide Balanced, Traced, LaneUse, Apart, AllSpent, Fleet, Recorded, BytesOf, Excused;
      ghost var recorded;
      allOk, recorded := EmptyGetSlot(exact);
      FreeSlot(0, allOk);
    }

    /** Ends every get request in flight.  Each is counted as complete, with its ten lanes given back, or as one
        error.  If no token is shared, the books are exact, and `kept`, the requests that completed, are only
        ones of which nothing had been collected before. */
    method DrainGet() returns (failures: nat, ghost kept: set<nat>)
      requires Ready()
      modifies this`books, this`spoiled, this`slots, this`activeSlots, this`freeSlots
      modifies this`histWr, this`histReq, this`ops, this`bytes, this`errors, mgr
      ensures old(mgr.run) <= mgr.run
      ensures mgr.Registered(id) && activeSlots == [] && Roster(activeSlots, freeSlots, concurrency)
      ensures histReq == ops && bytes == BytesOf(ops, sendSize)
      ensures ops + failures == old(ops) + |old(activeSlots)| && errors == old(errors) + failures
      ensures mgr.Me(id).holding + SENDS * (ops - old(ops)) == old(mgr.Me(id)).holding
      ensures mgr.Me(id).serials == old(mgr.Me(id)).serials && |kept| == ops - old(ops)
      ensures old(AllSpent(mgr.Me(id), slots, activeSlots)) ==>
        && Ready() && mgr.Me(id).live == {} && mgr.Me(id).held == books.quarantine
        && books.lost == old(books.lost) + SENDS * failures && gone == old(gone)
        && old(histWr) + WRS * |kept| <= histWr <= old(histWr + books.live)
        && Untouched(kept, old(slots), old(activeSlots))
        && Accounted(mgr.run, |old(mgr.run)| - 1, id, old(slots), old(activeSlots), [], kept)
    {
      hide Balanced, Traced, InUse, AllSpent, Roster, Recorded, Undrained, Moved, Fleet, AllSized, LaneSafe, BytesOf,
           Kept, Untouched, Excused, Accounted;
      ghost var exact := AllSpent(mgr.Me(id), slots, activeSlots);
      mgr.Dates(id);
      BeginGetDrain(exact);
      failures, kept := 0, {};
      KeptNone(slots, activeSlots, exact);
      AccountStarts(mgr.run, |mgr.run| - 1, id, slots, activeSlots);
      while activeSlots != []
        invariant old(mgr.run) <= mgr.run && errors == old(errors)
        invariant GetReady(exact) && Undrained(old(slots), slots, old(activeSlots), activeSlots)
        invariant ops + failures + |activeSlots| == old(ops) + |old(activeSlots)| && |kept| == ops - old(ops)
        invariant mgr.Me(id).holding + SENDS * (ops - old(ops)) == old(mgr.Me(id)).holding
        invariant mgr.Me(id).serials == old(mgr.Me(id)).serials
        invariant exact ==> Accounted(mgr.run, |old(mgr.run)| - 1, id, old(slots), old(activeSlots), activeSlots, kept)
        invariant Kept(kept, old(slots), old(activeSlots), activeSlots, exact)
        invariant exact ==> books.lost == old(books.lost) + SENDS * failures && gone == old(gone)
        invariant exact ==> old(histWr) + WRS * |kept| <= histWr && histWr + books.live <= old(histWr + books.live)
        decreases |activeSlots|
      {
        ghost var active, slots1, run1, kept1 := activeSlots, slots, mgr.run, kept;
        UndrainedHead(old(slots), slots, old(activeSlots), activeSlots);
        var allOk := RetireGetSlot(exact);
        UndrainedNext(old(slots), slots1, slots, old(activeSlots), active);
        if exact {
          AccountNext(run1, mgr.run, |old(mgr.run)| - 1, |run1| - 1, id, old(slots), old(activeSlots), active, kept1,
                      allOk);
        }
        KeptNext(kept, old(slots), old(activeSlots), active, exact, allOk);
        if allOk {
          kept := kept + {active[0]};
        } else {
          failures := failures + 1;
        }
      }
      if exact {
        NoneInFlight(mgr.Me(id), books, slots);
        KeptUntouched(kept, old(slots), old(activeSlots), activeSlots);
      }
      if failures > 0 {
        errors := errors + failures;
      }
    }

    lemma BeginGetDrain(exact: bool)
      requires Ready() && Dated(mgr.Me(id)) && exact == AllSpent(mgr.Me(id), slots, activeSlots)
      ensures GetReady(exact) && Undrained(slots, slots, activeSlots, activeSlots)
    {
      hide Recorded, BytesOf;
      UseFromBooks(mgr.Me(id), books, slots, activeSlots);
    }

    /** The get pipeline.  Lane safety holds in every state the manager goes through, whoever acts, and every
        request posted ends as complete or as one error.  `last` and `active` are the slots and the requests
        in flight when the drain begins, and `kept` those of them that complete.  As long as what was collected
        of them is recent, no event is live at the end, ten lanes are set aside for each error, no work
        request is recorded twice, and a request of which anything was collected is an error. */
    method GetPipeline(times: seq<nat>)
      returns (verdict: Verdict, reqSeq: nat, ghost last: seq<Slot>, ghost active: seq<nat>, ghost kept: set<nat>)
      requires Ready() && activeSlots == [] && Intact(books)
      modifies this, mgr
      ensures old(mgr.run) <= mgr.run && forall i :: 0 <= i < |mgr.run| ==> LaneSafe(mgr.run[i])
      ensures mgr.Registered(id) && (verdict.PostFailed? ==> Ready())
      ensures verdict.Finished? ==> activeSlots == [] && histReq == ops && bytes == BytesOf(ops, sendSize)
      ensures verdict.Finished? ==> ops + errors == old(ops + errors) + reqSeq && errors >= old(errors)
      ensures verdict.Finished? ==> errors == old(errors) + |active| - |kept| && Listed(last, active)
      ensures verdict.Finished? && AllRecent(mgr.Me(id), last, active) ==>
        && Ready() && mgr.Me(id).live == {} && mgr.Me(id).spare == SLOTS
        && mgr.Me(id).held == books.quarantine && mgr.Me(id).holding == SENDS * (errors - old(errors))
        && old(histWr) + WRS * (ops - old(ops)) <= histWr <= old(histWr) + WRS * reqSeq
        && Untouched(kept, last, active)
      ensures verdict.Finished? && Unwrapped(mgr.Me(id)) ==> AllRecent(mgr.Me(id), last, active)
      ensures verdict.PostFailed? ==> !verdict.outcome.Posted? && !verdict.outcome.EventsExhausted?
      ensures verdict == PostFailed(LanesExhausted) ==> Scarce(SENDS * concurrency)
      ensures refused == old(refused) + (if verdict == PostFailed(PostRefused) then 1 else 0)
      ensures verdict.ProbeFailed? ==> ProbedToFail(mgr.run, |old(mgr.run)| - 1, id, old(gone), gone)
      ensures verdict.Finished? && times != [] && times[|times| - 1] >= concurrency ==> reqSeq >= concurrency
    {
      hide Balanced, Blamed, AllSpent, AllPast, Roster, Recorded, DoneAreRecent, BytesOf, AllMissed, ProbedToFail;
      verdict, reqSeq := Cycle(times);
      last, active, kept := slots, activeSlots, {};
      if verdict.Finished? {
        ghost var v := mgr.Me(id);
        if Unwrapped(v) { RecentWhenUnwrapped(v, slots, activeSlots); }
        if AllRecent(v, slots, activeSlots) { SpentWhileRecent(v, slots, activeSlots); }
        var failures;
        failures, kept := DrainGet();
        RecentBySerials(v, mgr.Me(id), last, active);
        if AllRecent(v, last, active) { NoneInFlight(mgr.Me(id), books, slots); }
      }
      mgr.AlwaysSafe();
    }
  }
}
