/**
  The end of the get pipeline (client_get_pipeline in src/kv_bench.cpp).  Its drain waits for all
  twenty work requests of a request, those already collected included, and gives the ten lanes back
  only if every wait succeeded.

  A wait for a collected work request fails unless the generation of its slot has come round and a
  live event carries the same token.  So there are two accounts of this drain: what holds in any
  case, which is what lane safety needs, and the books, which are exact while no token is shared.
 */
module GetDrains {
  import opened Collections
  import opened EventSlots
  import opened SendJettyPools
  import opened UrmaManagers
  import opened RequestBooks
  import opened RequestFlow

  // ---------------------------------------------------------------- tokens of collected work requests

  /** The event of `k` was handed out before and no live event carries its token. */
  ghost predicate Spent(v: View, k: Ticket) {
    Known(v, k) && !Carries(v, k)
  }

  /** The work requests of `s` that were collected share no token with a live event. */
  ghost predicate DoneAreSpent(v: View, s: Slot) {
    Sized(s) && forall n :: 0 <= n < WRS && s.done[n] ==> Spent(v, s.token[n])
  }

  ghost predicate AllSpent(v: View, slots: seq<Slot>, active: seq<nat>) {
    forall j :: 0 <= j < |active| ==> active[j] < |slots| && DoneAreSpent(v, slots[active[j]])
  }

  /** No event slot was acquired more than 2^32-1 times. */
  ghost predicate Unwrapped(v: View) {
    forall i :: 0 <= i < |v.serials| ==> v.serials[i] <= GENERATIONS
  }

  /** The event slot of a collected work request was acquired fewer than 2^32-1 times since its own acquisition. */
  ghost predicate DoneAreRecent(v: View, s: Slot) {
    Sized(s) && forall n :: 0 <= n < WRS && s.done[n] ==>
      Known(v, s.token[n]) && v.serials[s.token[n].slot] - s.token[n].serial < GENERATIONS
  }

  ghost predicate AllRecent(v: View, slots: seq<Slot>, active: seq<nat>) {
    forall j :: 0 <= j < |active| ==> active[j] < |slots| && DoneAreRecent(v, slots[active[j]])
  }

  /** Then no token is shared. */
  lemma SpentWhileRecent(v: View, slots: seq<Slot>, active: seq<nat>)
    requires AllRecent(v, slots, active) && AllPast(v, slots)
    ensures AllSpent(v, slots, active)
  {
    forall j | 0 <= j < |active| ensures DoneAreSpent(v, slots[active[j]]) {
      var s := slots[active[j]];
      assert SlotPast(v, s);
      forall n | 0 <= n < WRS && s.done[n] ensures Spent(v, s.token[n]) {
        SpentWhenRecent(v, s.token[n]);
      }
    }
  }

  lemma RecentBySerials(v: View, w: View, slots: seq<Slot>, active: seq<nat>)
    requires v.serials == w.serials
    ensures AllRecent(v, slots, active) <==> AllRecent(w, slots, active)
    ensures Unwrapped(v) <==> Unwrapped(w)
  {
  }

  /** For one thing, all are recent until a slot is acquired for the 2^32nd time. */
  lemma RecentWhenUnwrapped(v: View, slots: seq<Slot>, active: seq<nat>)
    requires Unwrapped(v) && AllPast(v, slots) && Listed(slots, active)
    ensures AllRecent(v, slots, active)
  {
    forall j | 0 <= j < |active| ensures DoneAreRecent(v, slots[active[j]]) {
      assert SlotPast(v, slots[active[j]]);
    }
  }

  /** What waits can do to a view: events are retired and requests closed. */
  ghost predicate Shrunk(v: View, w: View) {
    && w == v.(live := w.live, spare := w.spare, open := w.open) && w.live <= v.live
    && forall k :: k in w.open ==> k in v.open && w.open[k] == v.open[k]
  }

  lemma ShrunkFacts(v: View, w: View)
    requires Shrunk(v, w)
    ensures w.live <= v.live && w.serials == v.serials && w.held == v.held && w.holding == v.holding
  {
  }

  lemma SpentShrinks(v: View, w: View, s: Slot)
    requires DoneAreSpent(v, s) && w.serials == v.serials && w.live <= v.live
    ensures DoneAreSpent(w, s)
  {
    forall n | 0 <= n < WRS && s.done[n] ensures Spent(w, s.token[n]) {
      assert Spent(v, s.token[n]);
    }
  }

  lemma SpentRemains(v: View, w: View, slots: seq<Slot>, slots1: seq<Slot>, active: seq<nat>, n: nat)
    requires AllSpent(v, slots, active) && n < |active| && Distinct(active)
    requires w.serials == v.serials && w.live <= v.live
    requires |slots1| == |slots| && slots1 == slots[active[n] := slots1[active[n]]]
    ensures AllSpent(w, slots1, Moved(active, n))
  {
    var rest := Moved(active, n);
    forall j | 0 <= j < |rest| ensures DoneAreSpent(w, slots1[rest[j]]) {
      var m := if j == n then |active| - 1 else j;
      assert rest[j] == active[m] && active[m] != active[n];
      SpentShrinks(v, w, slots[rest[j]]);
    }
  }

  // ---------------------------------------------------------------- what holds in any case

  /** The request in slot `s` has ten lanes, and only its own work requests can be open on them. */
  ghost predicate LaneUse(v: View, s: Slot) {
    && Sized(s)
    && (forall m :: 0 <= m < SENDS ==> s.jetty[m].Some? && s.jetty[m].value in v.held)
    && (forall m, n :: 0 <= m < n < SENDS ==> s.jetty[m] != s.jetty[n])
    && (forall n :: 0 <= n < WRS ==> Known(v, s.token[n]))
    && (forall k, m :: k in v.open && 0 <= m < SENDS && s.jetty[m] == Some(v.open[k]) ==> OfPair(s, m, k))
  }

  ghost predicate OfPair(s: Slot, m: nat, k: Ticket)
    requires Sized(s) && m < SENDS
  {
    k == s.token[2 * m] || k == s.token[2 * m + 1]
  }

  /** No lane is noted in both. */
  ghost predicate Apart(s: Slot, t: Slot) {
    Sized(s) && Sized(t) && forall m, n :: 0 <= m < SENDS && 0 <= n < SENDS ==> s.jetty[m] != t.jetty[n]
  }

  /** So it is for all requests in flight, and no two of them share a lane. */
  ghost predicate InUse(v: View, slots: seq<Slot>, active: seq<nat>) {
    && Listed(slots, active)
    && (forall j :: 0 <= j < |active| ==> LaneUse(v, slots[active[j]]))
    && (forall i, j :: 0 <= i < j < |active| ==> Apart(slots[active[i]], slots[active[j]]))
  }

  lemma TokensKnown(v: View, b: Books, slots: seq<Slot>, i: nat)
    requires Balanced(v, b, slots) && i < |slots| && InFlight(b, slots[i], i) && SlotPast(v, slots[i]) && Dated(v)
    ensures forall n :: 0 <= n < WRS ==> Known(v, slots[i].token[n])
  {
    hide LaneHome, LaneAgrees, WrHome, LanesBooked, Known;
    var s := slots[i];
    forall n | 0 <= n < WRS ensures Known(v, s.token[n]) {
      assert n == 2 * (n / 2) + n % 2;
      if s.done[n] { assert Past(v, s.token[n]); } else { assert Booked(b, s, i, n / 2, n % 2); }
    }
  }

  lemma OpenOnLane(v: View, b: Books, slots: seq<Slot>, i: nat, m: nat, k: Ticket)
    requires Balanced(v, b, slots) && i < |slots| && InFlight(b, slots[i], i) && m < SENDS && k in v.open
    requires slots[i].jetty[m] == Some(v.open[k])
    ensures OfPair(slots[i], m, k)
  {
    hide LaneHome, WrsBooked;
    assert LaneBooked(b, slots[i], i, m);
    assert LaneAgrees(b, b.owner[k], v.open[k]) && WrHome(slots, b.owner[k], k, v.open[k]);
  }

  lemma UseOfSlot(v: View, b: Books, slots: seq<Slot>, i: nat)
    requires Balanced(v, b, slots) && i < |slots| && InFlight(b, slots[i], i) && SlotPast(v, slots[i]) && Dated(v)
    ensures LaneUse(v, slots[i])
  {
    hide LaneHome, LaneAgrees, WrHome, WrsBooked, SlotPast, Dated;
    var s := slots[i];
    forall m | 0 <= m < SENDS ensures s.jetty[m].Some? && s.jetty[m].value in v.held { assert LaneBooked(b, s, i, m); }
    forall m, n | 0 <= m < n < SENDS ensures s.jetty[m] != s.jetty[n] {
      assert LaneBooked(b, s, i, m) && LaneBooked(b, s, i, n);
    }
    TokensKnown(v, b, slots, i);
    forall k, m | k in v.open && 0 <= m < SENDS && s.jetty[m] == Some(v.open[k]) ensures OfPair(s, m, k) {
      OpenOnLane(v, b, slots, i, m, k);
    }
  }

  lemma SlotsApart(b: Books, s: Slot, t: Slot, i: nat, j: nat)
    requires InFlight(b, s, i) && InFlight(b, t, j) && i != j
    ensures Apart(s, t)
  {
    forall m, n | 0 <= m < SENDS && 0 <= n < SENDS ensures s.jetty[m] != t.jetty[n] {
      assert LaneBooked(b, s, i, m) && LaneBooked(b, t, j, n);
    }
  }

  /** The requests in flight at the end of the pipeline are so. */
  lemma UseFromBooks(v: View, b: Books, slots: seq<Slot>, active: seq<nat>)
    requires Balanced(v, b, slots) && Fleet(b, slots, active) && AllPast(v, slots) && Dated(v)
    ensures InUse(v, slots, active)
  {
    forall j | 0 <= j < |active| ensures LaneUse(v, slots[active[j]]) {
      UndoneInFlight(b, slots, active, j);
      UseOfSlot(v, b, slots, active[j]);
    }
    forall i, j | 0 <= i < j < |active| ensures Apart(slots[active[i]], slots[active[j]]) {
      UndoneInFlight(b, slots, active, i);
      UndoneInFlight(b, slots, active, j);
      SlotsApart(b, slots[active[i]], slots[active[j]], active[i], active[j]);
    }
  }

  lemma UseShrinks(v: View, w: View, s: Slot)
    requires LaneUse(v, s) && Shrunk(v, w)
    ensures LaneUse(w, s)
  {
  }

  /** Once none of its work requests is open, nothing is open on any of its lanes. */
  lemma NothingOpen(v: View, s: Slot, m: nat)
    requires LaneUse(v, s) && m < SENDS && forall n :: 0 <= n < WRS ==> s.token[n] !in v.open
    ensures forall k :: k in v.open ==> v.open[k] != s.jetty[m].value
  {
    forall k | k in v.open ensures v.open[k] != s.jetty[m].value {
      assert s.jetty[m] == Some(v.open[k]) ==> OfPair(s, m, k);
    }
  }

  /** `w` is `v` after the lanes of the sends below `n` were given back, if they were. */
  ghost predicate Returned(v: View, w: View, s: Slot, n: nat, given: bool) {
    && w == v.(held := w.held, holding := w.holding)
    && w.held == v.held - (if given then LanesBelow(s, n) else {})
    && w.holding + (if given then n else 0) == v.holding
  }

  lemma ReturnStarts(v: View, s: Slot, given: bool)
    ensures Returned(v, v, s, 0, given)
  {
    assert LanesBelow(s, 0) == {};
  }

  lemma ReturnedAll(v: View, w: View, s: Slot, given: bool)
    requires Returned(v, w, s, SENDS, given)
    ensures w.holding + (if given then SENDS else 0) == v.holding && w.serials == v.serials && w.live == v.live
  {
  }

  lemma ReturnNext(v: View, w: View, s: Slot, n: nat, given: bool)
    requires LaneUse(v, s) && n < SENDS && Returned(v, w, s, n, given)
    ensures s.jetty[n].value in w.held
    ensures w.holding > 0 ==> Returned(v, if given then Gave(w, s.jetty[n].value) else w, s, n + 1, given)
  {
    assert LanesBelow(s, n + 1) == LanesBelow(s, n) + {s.jetty[n].value};
    assert s.jetty[n].value !in LanesBelow(s, n);
  }

  /** The requests that are left keep their lanes. */
  lemma UseRemains(v: View, w: View, x: View, slots: seq<Slot>, slots1: seq<Slot>, active: seq<nat>, given: bool)
    requires InUse(v, slots, active) && active != [] && Shrunk(v, w) && Returned(w, x, slots[active[0]], SENDS, given)
    requires |slots1| == |slots| && slots1 == slots[active[0] := slots1[active[0]]]
    ensures InUse(x, slots1, Moved(active, 0))
  {
    var rest := Moved(active, 0);
    MovedListed(slots, active, 0);
    forall j | 0 <= j < |rest| ensures LaneUse(x, slots1[rest[j]]) {
      var m := if j == 0 then |active| - 1 else j;
      assert rest[j] == active[m] && active[m] != active[0];
      UseShrinks(v, w, slots[active[m]]);
      assert Apart(slots[active[0]], slots[active[m]]);
      UseElsewhere(w, x, slots[active[0]], slots[active[m]], given);
    }
    forall i, j | 0 <= i < j < |rest| ensures Apart(slots1[rest[i]], slots1[rest[j]]) {
      var m := if i == 0 then |active| - 1 else i;
      assert rest[i] == active[m] && rest[j] == active[j];
      if m < j {
        assert Apart(slots[active[m]], slots[active[j]]);
      } else {
        assert Apart(slots[active[j]], slots[active[m]]);
      }
    }
  }

  lemma UseElsewhere(w: View, x: View, s: Slot, t: Slot, given: bool)
    requires Returned(w, x, s, SENDS, given) && LaneUse(w, t) && Apart(s, t)
    ensures LaneUse(x, t)
  {
    forall m | 0 <= m < SENDS ensures t.jetty[m].value in x.held {
      assert t.jetty[m].value !in LanesBelow(s, SENDS);
    }
  }

  // ---------------------------------------------------------------- the requests that complete at drain

  /** Nothing of the requests `kept`, which were in flight, had been collected. */
  ghost predicate Untouched(kept: set<nat>, slots: seq<Slot>, active: seq<nat>) {
    forall i :: i in kept ==> i in active && i < |slots| && slots[i].doneCnt == 0
  }

  /** The requests `kept` of the list `active0` were drained. */
  ghost predicate Kept(kept: set<nat>, slots0: seq<Slot>, active0: seq<nat>, active: seq<nat>, exact: bool) {
    && (forall i :: i in kept ==> i !in active)
    && (exact ==> Untouched(kept, slots0, active0))
  }

  lemma KeptNone(slots0: seq<Slot>, active0: seq<nat>, exact: bool)
    ensures Kept({}, slots0, active0, active0, exact)
  {
  }

  lemma KeptNext(kept: set<nat>, slots0: seq<Slot>, active0: seq<nat>, active: seq<nat>, exact: bool, ok: bool)
    requires Kept(kept, slots0, active0, active, exact) && active != [] && Distinct(active)
    requires active[0] in active0 && active[0] < |slots0| && (exact && ok ==> slots0[active[0]].doneCnt == 0)
    ensures Kept(if ok then kept + {active[0]} else kept, slots0, active0, Moved(active, 0), exact)
    ensures |kept + {active[0]}| == |kept| + 1
  {
    MovedOut(active);
    assert active[0] in active;
  }

  lemma KeptUntouched(kept: set<nat>, slots0: seq<Slot>, active0: seq<nat>, active: seq<nat>)
    requires Kept(kept, slots0, active0, active, true)
    ensures Untouched(kept, slots0, active0)
  {
  }

  // ---------------------------------------------------------------- all lanes of a request together

  /** The lanes of a whole request are set aside. */
  ghost function AllAside(b: Books, s: Slot): Books {
    b.(lanes := b.lanes - AllLanes(s), quarantine := b.quarantine + AllLanes(s),
       inUse := b.inUse - SENDS, lost := b.lost + SENDS)
  }

  lemma AllLanesBooked(b: Books, s: Slot, i: nat, l: Lane)
    requires Sized(s) && LanesBooked(b, s, i, 0, SENDS)
    ensures l in AllLanes(s) ==> l in b.lanes && b.lanes[l].slot == i
  {
    if l in AllLanes(s) {
      var m :| 0 <= m < SENDS && s.jetty[m] == Some(l);
      assert LaneBooked(b, s, i, m);
    }
  }

  lemma SetAllAside(v: View, b: Books, slots: seq<Slot>, i: nat)
    requires Balanced(v, b, slots) && i < |slots| && LanesBooked(b, slots[i], i, 0, SENDS)
    ensures Balanced(v, AllAside(b, slots[i]), slots)
  {
    var s, c := slots[i], AllAside(b, slots[i]);
    forall l ensures l in AllLanes(s) ==> l in b.lanes { AllLanesBooked(b, s, i, l); }
    assert v.held == c.lanes.Keys + c.quarantine;
  }

  lemma AllAsideClears(b: Books, s: Slot, i: nat)
    requires Matches(b, s, i) && LanesBooked(b, s, i, 0, SENDS)
    ensures LanesBooked(AllAside(b, s), s, i, SENDS, SENDS) && Matches(AllAside(b, s), s, i)
    ensures SameElsewhere(b, AllAside(b, s), i)
  {
    var c := AllAside(b, s);
    forall l ensures l in AllLanes(s) ==> l in b.lanes && b.lanes[l].slot == i { AllLanesBooked(b, s, i, l); }
    assert Others(c.lanes, i) == Others(b.lanes, i);
  }

  // ---------------------------------------------------------------- waiting for a whole request

  /** After the waits for the work requests below `wr`, of which `recorded` succeeded: `allOk` says
      that all did, and otherwise all ten lanes are aside. */
  ghost predicate GetProgress(b0: Books, b: Books, s: Slot, i: nat, wr: nat, allOk: bool, recorded: nat)
    requires Sized(s) && wr <= WRS
  {
    && WrsBooked(b, s, i, wr, WRS)
    && LanesBooked(b, s, i, if allOk then 0 else SENDS, SENDS)
    && SameElsewhere(b0, b, i)
    && recorded <= Undone(s.done, 0, wr) <= wr
    && (allOk <==> recorded == wr)
    && b.live == b0.live - Undone(s.done, 0, wr)
    && b.inUse == b0.inUse - (if allOk then 0 else SENDS) && b.lost == b0.lost + (if allOk then 0 else SENDS)
    && b.quarantine == b0.quarantine + (if allOk then {} else AllLanes(s))
  }

  ghost function AfterGetWait(b: Books, s: Slot, wr: nat, allOk: bool, ok: bool): Books
    requires Sized(s) && wr < WRS
  {
    var c := if allOk && !ok then AllAside(b, s) else b;
    if s.done[wr] then c else SansWr(c, s.token[wr])
  }

  /** The view after a wait: nothing changes when the event was retired long ago. */
  ghost function GetWaited(v: View, s: Slot, wr: nat, ok: bool): View
    requires Sized(s) && wr < WRS
  {
    if s.done[wr] then v else Waited(v, s.token[wr], ok)
  }

  /** The books follow the waits. */
  lemma GetWaitBalances(v: View, b0: Books, b: Books, slots: seq<Slot>, i: nat, send: nat, half: nat, allOk: bool,
          recorded: nat, ok: bool)
    requires Balanced(v, b, slots) && i < |slots| && send < SENDS && half < 2
    requires (slots[i].done[2 * send + half] ==> !ok)
    requires GetProgress(b0, b, slots[i], i, 2 * send + half, allOk, recorded)
    ensures Balanced(GetWaited(v, slots[i], 2 * send + half, ok),
                     AfterGetWait(b, slots[i], 2 * send + half, allOk, ok), slots)
  {
    var s, w := slots[i], 2 * send + half;
    var c := if allOk && !ok then AllAside(b, s) else b;
    if allOk && !ok {
      SetAllAside(v, b, slots, i);
    }
    if !s.done[w] {
      var k := s.token[w];
      assert Booked(b, s, i, send, half);
      if ok {
        CloseWr(v, c, slots, k);
      } else {
        LaneIsAside(v, b0, b, slots, i, send, half, allOk, recorded);
        LoseWr(v, c, slots, k);
      }
    }
  }

  /** A get drain sets lanes aside by request. */
  lemma TraceGetWait(v: View, b0: Books, b: Books, slots: seq<Slot>, g: set<Ticket>, spoiled: set<Lane>, i: nat,
          send: nat, half: nat, allOk: bool, recorded: nat, ok: bool)
    requires Balanced(v, b, slots) && Traced(v, b, slots, g, spoiled) && i < |slots| && send < SENDS && half < 2
    requires (slots[i].done[2 * send + half] ==> !ok) && Known(v, slots[i].token[2 * send + half])
    requires GetProgress(b0, b, slots[i], i, 2 * send + half, allOk, recorded)
    ensures var s, w := slots[i], 2 * send + half;
      Traced(GetWaited(v, s, w, ok), AfterGetWait(b, s, w, allOk, ok), slots, g,
             if allOk && !ok then spoiled + AllLanes(s) else spoiled)
  {
    hide WrHome, LaneHome, LaneAgrees, LanesBooked;
    var s, k := slots[i], slots[i].token[2 * send + half];
    var w := GetWaited(v, s, 2 * send + half, ok);
    if !s.done[2 * send + half] {
      assert Booked(b, s, i, send, half);
      assert Later(v, w);
      StaysPast(v, w, slots);
      assert LanesFor(w.open, g) == LanesFor(v.open, g);
    }
  }

  lemma LaneIsAside(v: View, b0: Books, b: Books, slots: seq<Slot>, i: nat, send: nat, half: nat, allOk: bool,
          recorded: nat)
    requires Balanced(v, b, slots) && i < |slots| && send < SENDS && half < 2 && Booked(b, slots[i], i, send, half)
    requires GetProgress(b0, b, slots[i], i, 2 * send + half, allOk, recorded)
    ensures var c := if allOk then AllAside(b, slots[i]) else b;
      v.open[slots[i].token[2 * send + half]] in c.quarantine
  {
    var k := slots[i].token[2 * send + half];
    assert WrHome(slots, b.owner[k], k, v.open[k]);
    assert v.open[k] in AllLanes(slots[i]);
  }

  /** Moving on when no wait failed before, or one did. */
  lemma GetRetire(b0: Books, b: Books, s: Slot, i: nat, send: nat, half: nat, allOk: bool, recorded: nat, ok: bool)
    requires Matches(b, s, i) && send < SENDS && half < 2 && (s.done[2 * send + half] ==> !ok) && (allOk ==> ok)
    requires GetProgress(b0, b, s, i, 2 * send + half, allOk, recorded)
    ensures GetProgress(b0, AfterGetWait(b, s, 2 * send + half, allOk, ok), s, i, 2 * send + half + 1, allOk,
                        if ok then recorded + 1 else recorded)
  {
    var w := 2 * send + half;
    if !s.done[w] {
      RetireMovesOn(b, s, i, send, half, WRS);
      LanesFrame(b, SansWr(b, s.token[w]), s, i, if allOk then 0 else SENDS, SENDS);
    }
  }

  /** The first wait that fails. */
  lemma GetFails(b0: Books, b: Books, s: Slot, i: nat, send: nat, half: nat, recorded: nat)
    requires Matches(b, s, i) && send < SENDS && half < 2
    requires GetProgress(b0, b, s, i, 2 * send + half, true, recorded)
    ensures GetProgress(b0, AfterGetWait(b, s, 2 * send + half, true, false), s, i,
                        2 * send + half + 1, false, recorded)
  {
    var w, c := 2 * send + half, AllAside(b, s);
    AllAsideClears(b, s, i);
    WrsFrame(b, c, s, i, w, WRS);
    if !s.done[w] {
      RetireMovesOn(c, s, i, send, half, WRS);
      LanesFrame(c, SansWr(c, s.token[w]), s, i, SENDS, SENDS);
    }
  }

  /** The waits move on by one work request. */
  lemma GetWaitMovesOn(v: View, b0: Books, b: Books, slots: seq<Slot>, i: nat, send: nat, half: nat, allOk: bool,
          recorded: nat, ok: bool)
    requires Balanced(v, b, slots) && i < |slots| && send < SENDS && half < 2
    requires (slots[i].done[2 * send + half] ==> !ok)
    requires GetProgress(b0, b, slots[i], i, 2 * send + half, allOk, recorded)
    ensures GetProgress(b0, AfterGetWait(b, slots[i], 2 * send + half, allOk, ok), slots[i], i, 2 * send + half + 1,
                        allOk && ok, if ok then recorded + 1 else recorded)
  {
    BalancedMatches(v, b, slots, i);
    if allOk && !ok {
      GetFails(b0, b, slots[i], i, send, half, recorded);
    } else {
      GetRetire(b0, b, slots[i], i, send, half, allOk, recorded, ok);
    }
  }

  lemma GetProgressStart(b: Books, s: Slot, i: nat)
    requires InFlight(b, s, i)
    ensures GetProgress(b, b, s, i, 0, true, 0)
  {
  }

  // ---------------------------------------------------------------- giving the lanes back

  /** The lanes of the sends below `send` are dealt with: given back if all waits succeeded. */
  ghost predicate GetClosing(b1: Books, b: Books, s0: Slot, s: Slot, i: nat, send: nat, allOk: bool)
    requires Sized(s0) && send <= SENDS
  {
    && Cleared(s0, s, send)
    && WrsBooked(b, s, i, WRS, WRS)
    && LanesBooked(b, s, i, if allOk then send else SENDS, SENDS)
    && SameElsewhere(b1, b, i)
    && b == b1.(lanes := b.lanes, inUse := b1.inUse - (if allOk then send else 0))
  }

  lemma GetClosingStart(b0: Books, b: Books, s: Slot, i: nat, allOk: bool, recorded: nat)
    requires Sized(s) && GetProgress(b0, b, s, i, WRS, allOk, recorded)
    ensures GetClosing(b, b, s, s, i, 0, allOk)
  {
  }

  lemma GetCloseNext(b1: Books, b: Books, s0: Slot, s: Slot, i: nat, send: nat, allOk: bool)
    requires Sized(s0) && send < SENDS && GetClosing(b1, b, s0, s, i, send, allOk) && Matches(b, s, i)
    requires s0.jetty[send].Some?
    ensures NoWr(b, i, send) && (allOk ==> LaneBooked(b, s, i, send)) && (!allOk ==> NoLane(b, i, send))
    ensures GetClosing(b1, Closed(b, s.jetty[send].value, if allOk then 0 else 1), s0,
                       s.(jetty := s.jetty[send := None]), i, send + 1, allOk)
  {
    var c, t := Closed(b, s.jetty[send].value, if allOk then 0 else 1), s.(jetty := s.jetty[send := None]);
    ClearNext(s0, s, send);
    WrsAfterClose(b, c, s, t, i, WRS, WRS);
    if allOk {
      assert LaneBooked(b, s, i, send);
      LanesAfterClose(b, s, i, send, SENDS, 0);
    }
  }

  /** All of it: the books of a request that was waited for and whose lanes were dealt with. */
  lemma GetEnds(b0: Books, b1: Books, b: Books, s0: Slot, s: Slot, i: nat, allOk: bool, recorded: nat)
    requires Sized(s0) && GetProgress(b0, b1, s0, i, WRS, allOk, recorded) && GetClosing(b1, b, s0, s, i, SENDS, allOk)
    ensures Vacant(b, i) && SameElsewhere(b0, b, i) && b.owner.Keys <= b0.owner.Keys
    ensures b.live == b0.live - Undone(s0.done, 0, WRS) && b.inUse == b0.inUse - SENDS
    ensures b.lost == b0.lost + (if allOk then 0 else SENDS)
    ensures b.quarantine == if allOk then b0.quarantine else b0.quarantine + AllLanes(s0)
    ensures recorded <= Undone(s0.done, 0, WRS) && (allOk <==> recorded == WRS)
  {
    forall k | k in b.owner ensures k in b0.owner {
      OthersHas(b.owner, b0.owner, k, i);
    }
  }

  /** The fleet without the request that was drained first. */
  lemma GetLeaves(v: View, b0: Books, b1: Books, b: Books, slots0: seq<Slot>, slots: seq<Slot>, active: seq<nat>,
          allOk: bool, recorded: nat)
    requires active != [] && Fleet(b0, slots0, active) && |slots| == |slots0| && AllSized(slots0) && AllSized(slots)
    requires slots == slots0[active[0] := slots[active[0]]] && Balanced(v, b, slots) && AllPast(v, slots)
    requires GetProgress(b0, b1, slots0[active[0]], active[0], WRS, allOk, recorded)
    requires GetClosing(b1, b, slots0[active[0]], slots[active[0]], active[0], SENDS, allOk)
    ensures var slots' := slots[active[0] := slots[active[0]].(active := false)];
      Balanced(v, b, slots') && AllPast(v, slots') && AllSized(slots') && Fleet(b, slots', Moved(active, 0))
    ensures recorded <= WRS - slots0[active[0]].doneCnt && (allOk <==> recorded == WRS)
    ensures b.lost == b0.lost + (if allOk then 0 else SENDS) && recorded + b.live <= b0.live
  {
    hide Balanced, AllPast, GetProgress, GetClosing, SlotAgrees, Vacant, SameElsewhere;
    var i := active[0];
    UndoneInFlight(b0, slots0, active, 0);
    GetEnds(b0, b1, b, slots0[i], slots[i], i, allOk, recorded);
    FleetDrops(b0, b, slots0, slots, active, 0);
    Relabel(v, b, slots, i, slots[i].doneCnt, false);
    SlotStaysPast(v, slots, i, slots[i].(active := false));
  }

  /** The next work request to wait for was collected, or its event is live and its request open. */
  lemma NextToWait(v: View, b0: Books, b: Books, slots: seq<Slot>, i: nat, send: nat, half: nat, allOk: bool,
          recorded: nat)
    requires Balanced(v, b, slots) && i < |slots| && send < SENDS && half < 2 && DoneAreSpent(v, slots[i])
    requires GetProgress(b0, b, slots[i], i, 2 * send + half, allOk, recorded)
    ensures var k := slots[i].token[2 * send + half];
      if slots[i].done[2 * send + half] then Spent(v, k) else k in v.live && k in v.open
  {
    hide Balanced;
    if !slots[i].done[2 * send + half] {
      IsBooked(b, slots[i], i, send, half, WRS);
      BookedAt(v, b, slots, i, send, half);
    }
  }
}
