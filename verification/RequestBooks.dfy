/**
  The bookkeeping of a pipeline worker (struct wr_slot and struct worker of src/kv_bench.cpp): request
  slots, and how they account for every lane the worker holds and every event it has live.
 */
module RequestBooks {
  import opened Collections
  import opened EventSlots
  import opened SendJettyPools
  import opened UrmaManagers

  const SENDS: nat := 10
  const WRS: nat := 20
  const MAX_CONCURRENCY: nat := 10

  /** One request: ten lanes, twenty work requests. */
  datatype Slot = Slot(jetty: seq<Option<Lane>>, token: seq<Ticket>, done: seq<bool>, doneCnt: nat, active: bool)

  /** Work request `half` of send `send` of slot `slot`; for a lane, `half` is 0. */
  datatype Pos = Pos(slot: nat, send: nat, half: nat)

  /** owner: where each live event belongs.  lanes: where each lane in use belongs.
      quarantine: lanes that are never given back.
      live, inUse, lost: how many entries each of these has. */
  datatype Books = Books(owner: map<Ticket, Pos>, lanes: map<Lane, Pos>, quarantine: set<Lane>,
                         live: int, inUse: int, lost: int)

  predicate Sized(s: Slot) {
    |s.jetty| == SENDS && |s.token| == WRS && |s.done| == WRS
  }

  ghost predicate AllSized(slots: seq<Slot>) {
    forall i :: 0 <= i < |slots| ==> Sized(slots[i])
  }

  /** The event of ticket `k` is that of an undone work request at `p`, posted on lane `l`. */
  ghost predicate WrHome(slots: seq<Slot>, p: Pos, k: Ticket, l: Lane)
    requires AllSized(slots)
  {
    && p.slot < |slots| && p.send < SENDS && p.half < 2
    && slots[p.slot].token[2 * p.send + p.half] == k && !slots[p.slot].done[2 * p.send + p.half]
    && slots[p.slot].jetty[p.send] == Some(l)
  }

  ghost predicate LaneHome(slots: seq<Slot>, p: Pos, l: Lane)
    requires AllSized(slots)
  {
    p.slot < |slots| && p.send < SENDS && p.half == 0 && slots[p.slot].jetty[p.send] == Some(l)
  }

  /** The lane of an open request: the lane of its send, unless that lane is quarantined. */
  ghost predicate LaneAgrees(b: Books, p: Pos, l: Lane) {
    l in b.quarantine || (l in b.lanes && b.lanes[l] == Pos(p.slot, p.send, 0))
  }

  /** The books account for everything the worker holds. */
  ghost predicate Balanced(v: View, b: Books, slots: seq<Slot>) {
    && AllSized(slots)
    && v.spare + b.live == SLOTS
    && v.holding == b.inUse + b.lost
    && v.live == b.owner.Keys
    && v.held == b.lanes.Keys + b.quarantine
    && b.lanes.Keys !! b.quarantine
    && (forall k :: k in b.owner ==>
          k in v.open && WrHome(slots, b.owner[k], k, v.open[k]) && LaneAgrees(b, b.owner[k], v.open[k]))
    && (forall k :: k in v.open ==> k in b.owner || v.open[k] in b.quarantine)
    && (forall l :: l in b.lanes ==> LaneHome(slots, b.lanes[l], l))
  }

  predicate InSend(p: Pos, i: nat, send: nat) {
    p.slot == i && p.send == send
  }

  /** No event is booked in one send of slot `i`. */
  ghost predicate NoWr(b: Books, i: nat, send: nat) {
    forall k :: k in b.owner ==> !InSend(b.owner[k], i, send)
  }

  /** No lane is booked for one send of slot `i`. */
  ghost predicate NoLane(b: Books, i: nat, send: nat) {
    forall l :: l in b.lanes ==> !InSend(b.lanes[l], i, send)
  }

  /** A work request of slot `i` is out: its event is live and booked there. */
  ghost predicate Booked(b: Books, s: Slot, i: nat, send: nat, half: nat)
    requires Sized(s) && send < SENDS && half < 2
  {
    var k := s.token[2 * send + half];
    k in b.owner && b.owner[k] == Pos(i, send, half)
  }

  ghost predicate LaneBooked(b: Books, s: Slot, i: nat, send: nat)
    requires Sized(s) && send < SENDS
  {
    var j := s.jetty[send];
    j.Some? && j.value in b.lanes && b.lanes[j.value] == Pos(i, send, 0)
  }

  /** Of slot `i`, exactly the undone ones among work requests `lo..hi` are booked. */
  ghost predicate WrsBooked(b: Books, s: Slot, i: nat, lo: nat, hi: nat)
    requires Sized(s) && hi <= WRS
  {
    && (forall m, h :: 0 <= m < SENDS && 0 <= h < 2 && lo <= 2 * m + h < hi && !s.done[2 * m + h] ==>
          Booked(b, s, i, m, h))
    && (forall k :: k in b.owner && b.owner[k].slot == i ==> lo <= 2 * b.owner[k].send + b.owner[k].half < hi)
  }

  lemma IsBooked(b: Books, s: Slot, i: nat, send: nat, half: nat, hi: nat)
    requires Sized(s) && hi <= WRS && send < SENDS && half < 2 && 2 * send + half < hi && !s.done[2 * send + half]
    requires WrsBooked(b, s, i, 2 * send + half, hi)
    ensures Booked(b, s, i, send, half)
  {
  }

  /** Of slot `i`, exactly the lanes of sends `lo..hi` are booked. */
  ghost predicate LanesBooked(b: Books, s: Slot, i: nat, lo: nat, hi: nat)
    requires Sized(s) && hi <= SENDS
  {
    && (forall n :: lo <= n < hi ==> LaneBooked(b, s, i, n))
    && (forall l :: l in b.lanes && b.lanes[l].slot == i ==> lo <= b.lanes[l].send < hi)
  }

  ghost function Others<K>(m: map<K, Pos>, i: nat): map<K, Pos> {
    map k | k in m && m[k].slot != i :: m[k]
  }

  /** Both books say the same about all slots but `i`. */
  ghost predicate SameElsewhere(b: Books, c: Books, i: nat) {
    Others(b.owner, i) == Others(c.owner, i) && Others(b.lanes, i) == Others(c.lanes, i)
  }

  /** A booked work request has a live event and is open on the lane of its send. */
  lemma BookedAt(v: View, b: Books, slots: seq<Slot>, i: nat, send: nat, half: nat)
    requires Balanced(v, b, slots) && i < |slots| && send < SENDS && half < 2 && Booked(b, slots[i], i, send, half)
    ensures var k := slots[i].token[2 * send + half];
      k in v.live && k in v.open && slots[i].jetty[send] == Some(v.open[k])
  {
    var k := slots[i].token[2 * send + half];
    assert WrHome(slots, b.owner[k], k, v.open[k]);
  }

  // ---------------------------------------------------------------- single entries

  ghost function WithLane(b: Books, l: Lane, p: Pos): Books {
    b.(lanes := b.lanes[l := p], inUse := b.inUse + 1)
  }

  ghost function WithWr(b: Books, k: Ticket, p: Pos): Books {
    b.(owner := b.owner[k := p], live := b.live + 1)
  }

  ghost function SansWr(b: Books, k: Ticket): Books
  {
    b.(owner := b.owner - {k}, live := b.live - 1)
  }

  ghost function SansLane(b: Books, l: Lane): Books
  {
    b.(lanes := b.lanes - {l}, inUse := b.inUse - 1)
  }

  ghost function Aside(b: Books, l: Lane): Books
  {
    b.(lanes := b.lanes - {l}, quarantine := b.quarantine + {l}, inUse := b.inUse - 1, lost := b.lost + 1)
  }

  /** A lane is taken for a send of slot `i`. */
  lemma BookLane(v: View, b: Books, slots: seq<Slot>, i: nat, send: nat, l: Lane)
    requires Balanced(v, b, slots) && i < |slots| && send < SENDS && l !in v.held
    requires forall x :: x in b.lanes ==> !InSend(b.lanes[x], i, send)
    requires forall k :: k in b.owner ==> !InSend(b.owner[k], i, send)
    ensures Balanced(Took(v, l), WithLane(b, l, Pos(i, send, 0)),
                     slots[i := slots[i].(jetty := slots[i].jetty[send := Some(l)])])
  {
  }

  /** Writing at a position where nothing is booked is invisible. */
  lemma WriteUnbooked(v: View, b: Books, slots: seq<Slot>, i: nat, send: nat, half: nat, k: Ticket, done: bool,
          cnt: nat)
    requires Balanced(v, b, slots) && i < |slots| && send < SENDS && half < 2
    requires forall x :: x in b.owner ==> b.owner[x] != Pos(i, send, half)
    ensures var s, w := slots[i], 2 * send + half;
      Balanced(v, b, slots[i := s.(token := s.token[w := k], done := s.done[w := done], doneCnt := cnt)])
  {
    hide LaneAgrees;
    var s, w := slots[i], 2 * send + half;
    var slots' := slots[i := s.(token := s.token[w := k], done := s.done[w := done], doneCnt := cnt)];
    assert AllSized(slots');
    forall x | x in b.owner ensures WrHome(slots', b.owner[x], x, v.open[x]) {
      assert WrHome(slots, b.owner[x], x, v.open[x]);
    }
  }

  /** A posted request is entered as the work request written at its position. */
  lemma BookWr(v: View, b: Books, slots: seq<Slot>, p: Pos, k: Ticket, l: Lane)
    requires Balanced(v, b, slots) && k !in v.live && k !in v.open && v.spare > 0 && Next(v, k)
    requires WrHome(slots, p, k, l) && l in b.lanes && b.lanes[l] == Pos(p.slot, p.send, 0)
    ensures Balanced(Sent(Got(v, k), k, l), WithWr(b, k, p), slots)
  {
  }

  /** A request succeeded. */
  lemma CloseWr(v: View, b: Books, slots: seq<Slot>, k: Ticket)
    requires Balanced(v, b, slots) && k in b.owner
    ensures Balanced(Probed(v, k, 1), SansWr(b, k), slots)
  {
  }

  /** A lane is set aside for good. */
  lemma SetAside(v: View, b: Books, slots: seq<Slot>, l: Lane)
    requires Balanced(v, b, slots) && l in b.lanes
    ensures Balanced(v, Aside(b, l), slots)
  {
    assert v.held == (b.lanes - {l}).Keys + (b.quarantine + {l});
  }

  /** A request on a quarantined lane failed or was given up. */
  lemma LoseWr(v: View, b: Books, slots: seq<Slot>, k: Ticket)
    requires Balanced(v, b, slots) && k in b.owner && v.open[k] in b.quarantine
    ensures Balanced(Probed(v, k, -1), SansWr(b, k), slots)
  {
  }

  /** A lane with no live event of its own may be given back. */
  lemma FreeLane(v: View, b: Books, slots: seq<Slot>, l: Lane)
    requires Balanced(v, b, slots) && l in b.lanes && NoWr(b, b.lanes[l].slot, b.lanes[l].send)
    ensures l in v.held && forall k :: k in v.open ==> v.open[k] != l
    ensures NoLane(SansLane(b, l), b.lanes[l].slot, b.lanes[l].send)
    ensures NoWr(SansLane(b, l), b.lanes[l].slot, b.lanes[l].send)
    ensures v.holding > 0 ==> Balanced(Gave(v, l), SansLane(b, l), slots)
  {
    if v.holding > 0 {
      assert v.held - {l} == (b.lanes - {l}).Keys + b.quarantine;
    }
  }

  /** Clearing the jetty of a send that has no lane in use and no live event is invisible. */
  lemma ForgetJetty(v: View, b: Books, slots: seq<Slot>, i: nat, send: nat)
    requires Balanced(v, b, slots) && i < |slots| && send < SENDS && NoLane(b, i, send) && NoWr(b, i, send)
    ensures Balanced(v, b, slots[i := slots[i].(jetty := slots[i].jetty[send := None])])
  {
  }

  // ---------------------------------------------------------------- counting

  function CountTrue(s: seq<bool>): (n: nat)
    ensures n <= |s|
  {
    if s == [] then 0 else CountTrue(s[..|s| - 1]) + (if s[|s| - 1] then 1 else 0)
  }

  lemma {:induction false} CountSet(s: seq<bool>, i: nat)
    requires i < |s| && !s[i]
    ensures CountTrue(s[i := true]) == CountTrue(s) + 1
  {
    var n := |s| - 1;
    if i == n {
      assert s[i := true][..n] == s[..n];
    } else {
      assert s[i := true][..n] == s[..n][i := true];
      CountSet(s[..n], i);
    }
  }

  lemma {:induction false} CountAll(s: seq<bool>)
    ensures CountTrue(s) == |s| <==> forall i :: 0 <= i < |s| ==> s[i]
  {
    if s != [] { CountAll(s[..|s| - 1]); }
  }

  lemma {:induction false} CountNone(s: seq<bool>)
    requires forall i :: 0 <= i < |s| ==> !s[i]
    ensures CountTrue(s) == 0
  {
    if s != [] { CountNone(s[..|s| - 1]); }
  }

  /** The sum of done_cnt over the listed slots. */
  function DoneSum(slots: seq<Slot>, active: seq<nat>): nat
    requires forall j :: 0 <= j < |active| ==> active[j] < |slots|
  {
    if active == [] then 0
    else DoneSum(slots, active[..|active| - 1]) + slots[active[|active| - 1]].doneCnt
  }

  lemma {:induction false} DoneSumFrame(slots: seq<Slot>, slots': seq<Slot>, active: seq<nat>)
    requires forall j :: 0 <= j < |active| ==> active[j] < |slots| && active[j] < |slots'|
    requires forall j :: 0 <= j < |active| ==> slots'[active[j]].doneCnt == slots[active[j]].doneCnt
    ensures DoneSum(slots', active) == DoneSum(slots, active)
  {
    if active != [] { DoneSumFrame(slots, slots', active[..|active| - 1]); }
  }

  lemma {:induction false} DoneSumChange(slots: seq<Slot>, slots': seq<Slot>, active: seq<nat>, k: nat)
    requires k < |active| && Distinct(active)
    requires forall j :: 0 <= j < |active| ==> active[j] < |slots| && active[j] < |slots'|
    requires forall j :: 0 <= j < |active| && j != k ==> slots'[active[j]].doneCnt == slots[active[j]].doneCnt
    ensures DoneSum(slots', active) == DoneSum(slots, active) - slots[active[k]].doneCnt + slots'[active[k]].doneCnt
  {
    var n := |active| - 1;
    if k == n {
      DoneSumFrame(slots, slots', active[..n]);
    } else {
      DoneSumChange(slots, slots', active[..n], k);
    }
  }

  /** Swap-with-last removal takes exactly the removed entry out of the sum. */
  lemma {:induction false} DoneSumRemove(slots: seq<Slot>, active: seq<nat>, k: nat)
    requires k < |active| && forall j :: 0 <= j < |active| ==> active[j] < |slots|
    ensures DoneSum(slots, Moved(active, k)) == DoneSum(slots, active) - slots[active[k]].doneCnt
  {
    var n := |active| - 1;
    if k == n {
      assert Moved(active, k) == active[..n];
    } else {
      DoneSumPut(slots, active[..n], k, active[n]);
      assert Moved(active, k) == active[..n][k := active[n]];
    }
  }

  lemma {:induction false} DoneSumPut(slots: seq<Slot>, active: seq<nat>, k: nat, x: nat)
    requires k < |active| && x < |slots| && forall j :: 0 <= j < |active| ==> active[j] < |slots|
    ensures DoneSum(slots, active[k := x]) == DoneSum(slots, active) - slots[active[k]].doneCnt + slots[x].doneCnt
  {
    var n := |active| - 1;
    if k == n {
      assert active[k := x][..n] == active[..n];
    } else {
      assert active[k := x][..n] == active[..n][k := x];
      DoneSumPut(slots, active[..n], k, x);
    }
  }

  // ---------------------------------------------------------------- waiting for a send

  /** How many of the work requests `lo..hi` are not done. */
  function Undone(done: seq<bool>, lo: nat, hi: nat): nat
    requires lo <= hi <= |done|
  {
    if lo == hi then 0 else Undone(done, lo, hi - 1) + (if done[hi - 1] then 0 else 1)
  }

  /** What a wait does to the books: the event is retired, and a failed wait sets the lane aside. */
  ghost function AfterWait(b: Books, k: Ticket, lane: Lane, ok: bool): Books {
    if ok || lane !in b.lanes then SansWr(b, k) else SansWr(Aside(b, lane), k)
  }

  lemma BookWait(v: View, b: Books, slots: seq<Slot>, k: Ticket, ok: bool)
    requires Balanced(v, b, slots) && k in b.owner
    ensures Balanced(Waited(v, k, ok), AfterWait(b, k, v.open[k], ok), slots)
  {
    var lane := v.open[k];
    if ok {
      CloseWr(v, b, slots, k);
    } else if lane in b.lanes {
      SetAside(v, b, slots, lane);
      LoseWr(v, Aside(b, lane), slots, k);
    } else {
      LoseWr(v, b, slots, k);
    }
  }

  /** Ticket `k` is that of an undone work request of send `m`. */
  ghost predicate OfSend(s: Slot, m: nat, k: Ticket)
    requires Sized(s) && m < SENDS
  {
    (s.token[2 * m] == k && !s.done[2 * m]) || (s.token[2 * m + 1] == k && !s.done[2 * m + 1])
  }

  /** From `g0` to `g`, exactly `failed` waits failed, for work requests of send `m`. */
  ghost predicate Marked(g0: set<Ticket>, g: set<Ticket>, s: Slot, m: nat, failed: nat)
    requires Sized(s) && m < SENDS
  {
    g0 <= g && |g - g0| == failed && forall k :: k in g && k !in g0 ==> OfSend(s, m, k)
  }

  lemma MarkedStep(g0: set<Ticket>, g: set<Ticket>, s: Slot, send: nat, half: nat, failed: nat)
    requires Sized(s) && send < SENDS && half < 2 && !s.done[2 * send + half] && Marked(g0, g, s, send, failed)
    requires s.token[2 * send + half] !in g
    ensures Marked(g0, g + {s.token[2 * send + half]}, s, send, failed + 1)
  {
    var k := s.token[2 * send + half];
    assert OfSend(s, send, k);
    assert g + {k} - g0 == (g - g0) + {k};
  }

  /** From `g0` to `g`, a wait for a work request of send `m` failed. */
  ghost predicate FailedOn(g0: set<Ticket>, g: set<Ticket>, s: Slot, m: nat)
    requires Sized(s) && m < SENDS
  {
    exists k :: k in g && k !in g0 && OfSend(s, m, k)
  }

  ghost predicate OfAny(s: Slot, sends: set<nat>, k: Ticket)
    requires Sized(s)
  {
    exists m :: m in sends && m < SENDS && OfSend(s, m, k)
  }

  /** From `g0` to `g`, exactly `failed` waits failed, for work requests of exactly the sends `bad`. */
  ghost predicate AllMarked(g0: set<Ticket>, g: set<Ticket>, s: Slot, bad: set<nat>, failed: nat)
    requires Sized(s)
  {
    && g0 <= g && |g - g0| == failed
    && (forall m :: m in bad ==> m < SENDS)
    && (forall m {:trigger FailedOn(g0, g, s, m)} :: m in bad ==> FailedOn(g0, g, s, m))
    && (forall k :: k in g && k !in g0 ==> OfAny(s, bad, k))
  }

  lemma NewlyGone(g0: set<Ticket>, g1: set<Ticket>, g: set<Ticket>)
    requires g0 <= g1 <= g
    ensures g0 <= g && |g - g0| == |g1 - g0| + |g - g1|
  {
    assert g - g0 == (g1 - g0) + (g - g1);
  }

  lemma FailedOnNext(g0: set<Ticket>, g1: set<Ticket>, g: set<Ticket>, s: Slot, m: nat, n: nat, f: nat)
    requires Sized(s) && m < SENDS && n < SENDS && g0 <= g1 && Marked(g1, g, s, m, f)
    requires FailedOn(g0, g1, s, n) || (n == m && f > 0)
    ensures FailedOn(g0, g, s, n)
  {
    if FailedOn(g0, g1, s, n) {
      var k :| k in g1 && k !in g0 && OfSend(s, n, k);
      assert k in g;
    } else {
      assert g - g1 != {};
      var k :| k in g - g1;
      assert OfSend(s, n, k);
    }
  }

  lemma OfAnyNext(g0: set<Ticket>, g1: set<Ticket>, g: set<Ticket>, s: Slot, bad: set<nat>, m: nat, f: nat, k: Ticket)
    requires Sized(s) && m < SENDS && g0 <= g1 && Marked(g1, g, s, m, f) && k in g && k !in g0
    requires k in g1 ==> OfAny(s, bad, k)
    ensures OfAny(s, if f > 0 then bad + {m} else bad, k)
  {
    if k in g1 {
      var n :| n in bad && n < SENDS && OfSend(s, n, k);
      assert n in bad + {m};
    } else {
      assert k in g - g1 && OfSend(s, m, k);
      assert f > 0 && m in bad + {m};
    }
  }

  lemma {:induction false} AllMarkedNext(g0: set<Ticket>, g1: set<Ticket>, g: set<Ticket>, s: Slot, bad: set<nat>,
          failed: nat, m: nat, f: nat)
    requires Sized(s) && m < SENDS && AllMarked(g0, g1, s, bad, failed) && Marked(g1, g, s, m, f)
    ensures AllMarked(g0, g, s, if f > 0 then bad + {m} else bad, failed + f)
  {
    NewlyGone(g0, g1, g);
    var bad' := if f > 0 then bad + {m} else bad;
    forall k | k in g && k !in g0 ensures OfAny(s, bad', k) {
      OfAnyNext(g0, g1, g, s, bad, m, f, k);
    }
    forall n | n in bad' ensures FailedOn(g0, g, s, n) {
      FailedOnNext(g0, g1, g, s, m, n, f);
    }
  }

  /** Only tokens and done flags matter to the marks. */
  lemma MarkedSame(g0: set<Ticket>, g: set<Ticket>, s: Slot, t: Slot, m: nat, f: nat)
    requires Sized(s) && Sized(t) && m < SENDS && t.token == s.token && t.done == s.done && Marked(g0, g, s, m, f)
    ensures Marked(g0, g, t, m, f)
  {
    forall k | k in g && k !in g0 ensures OfSend(t, m, k) { assert OfSend(s, m, k); }
  }

  lemma {:induction false} AllMarkedSame(g0: set<Ticket>, g: set<Ticket>, s: Slot, t: Slot, bad: set<nat>, f: nat)
    requires Sized(s) && Sized(t) && t.token == s.token && t.done == s.done && AllMarked(g0, g, s, bad, f)
    ensures AllMarked(g0, g, t, bad, f)
  {
    forall m | m in bad ensures FailedOn(g0, g, t, m) {
      assert FailedOn(g0, g, s, m);
      var k :| k in g && k !in g0 && OfSend(s, m, k);
      assert OfSend(t, m, k);
    }
    forall k | k in g && k !in g0 ensures OfAny(t, bad, k) {
      var m :| m in bad && m < SENDS && OfSend(s, m, k);
      assert OfSend(t, m, k);
    }
  }

  // ---------------------------------------------------------------- what has failed, and what is past

  /** The lanes of these open requests. */
  ghost function LanesFor(open: map<Ticket, Lane>, g: set<Ticket>): set<Lane> {
    set k | k in g && k in open :: open[k]
  }

  /** The requests `g`, on which a wait or a probe failed, are still open and have no event any more; exactly
      their lanes are set aside, and the lanes `spoiled`. */
  ghost predicate Blamed(v: View, b: Books, g: set<Ticket>, spoiled: set<Lane>) {
    g <= v.open.Keys && g !! v.live && b.quarantine == LanesFor(v.open, g) + spoiled
  }

  /** The event of `k` was handed out and retired. */
  ghost predicate Past(v: View, k: Ticket) {
    Known(v, k) && k !in v.live
  }

  ghost predicate SlotPast(v: View, s: Slot) {
    Sized(s) && forall n :: 0 <= n < WRS && s.done[n] ==> Past(v, s.token[n])
  }

  /** Every work request that is marked as done has had its event retired. */
  ghost predicate AllPast(v: View, slots: seq<Slot>) {
    forall i :: 0 <= i < |slots| ==> SlotPast(v, slots[i])
  }

  /** Both together. */
  ghost predicate Traced(v: View, b: Books, slots: seq<Slot>, g: set<Ticket>, spoiled: set<Lane>) {
    Blamed(v, b, g, spoiled) && AllPast(v, slots)
  }

  lemma SetAsideIs(v: View, b: Books, slots: seq<Slot>, g: set<Ticket>, spoiled: set<Lane>)
    requires Traced(v, b, slots, g, spoiled)
    ensures b.quarantine == LanesFor(v.open, g) + spoiled && (b.quarantine == {} ==> spoiled == {})
    ensures spoiled == {} ==> b.quarantine == LanesFor(v.open, g)
  {
  }

  /** Slots are only acquired anew, and events that are live now were live before or are new. */
  ghost predicate Later(v: View, w: View) {
    && |v.serials| == |w.serials| == SLOTS && (forall i :: 0 <= i < SLOTS ==> v.serials[i] <= w.serials[i])
    && forall k :: k in w.live && Known(v, k) ==> k in v.live
  }

  lemma StaysPast(v: View, w: View, slots: seq<Slot>)
    requires AllPast(v, slots) && Later(v, w)
    ensures AllPast(w, slots)
  {
    forall i | 0 <= i < |slots| ensures SlotPast(w, slots[i]) {
      forall n | 0 <= n < WRS && slots[i].done[n] ensures Past(w, slots[i].token[n]) {
        assert SlotPast(v, slots[i]);
      }
    }
  }

  /** Nothing but tokens and done flags matters to what is past. */
  lemma SlotStaysPast(v: View, slots: seq<Slot>, i: nat, t: Slot)
    requires AllPast(v, slots) && i < |slots| && Sized(t) && t.token == slots[i].token && t.done == slots[i].done
    ensures AllPast(v, slots[i := t])
  {
    assert SlotPast(v, slots[i]);
    assert SlotPast(v, t);
  }

  /** A wait for a live event, or a probe that gave a verdict. */
  lemma TraceWait(v: View, b: Books, slots: seq<Slot>, g: set<Ticket>, spoiled: set<Lane>, k: Ticket, ok: bool)
    requires Balanced(v, b, slots) && Traced(v, b, slots, g, spoiled) && k in b.owner && Known(v, k)
    ensures k !in g
    ensures Traced(Waited(v, k, ok), AfterWait(b, k, v.open[k], ok), slots, if ok then g else g + {k}, spoiled)
  {
    var w := Waited(v, k, ok);
    assert Later(v, w);
    StaysPast(v, w, slots);
    if ok {
      assert LanesFor(w.open, g) == LanesFor(v.open, g);
    } else {
      assert LaneAgrees(b, b.owner[k], v.open[k]);
      assert LanesFor(v.open, g + {k}) == LanesFor(v.open, g) + {v.open[k]};
    }
  }

  /** A new event, with its request posted. */
  lemma TraceSent(v: View, b: Books, slots: seq<Slot>, g: set<Ticket>, spoiled: set<Lane>, k: Ticket, l: Lane)
    requires Traced(v, b, slots, g, spoiled) && v.spare > 0 && Next(v, k) && k !in v.open
    ensures Traced(Sent(Got(v, k), k, l), b, slots, g, spoiled)
  {
    var w := Sent(Got(v, k), k, l);
    assert Later(v, w);
    StaysPast(v, w, slots);
    assert LanesFor(w.open, g) == LanesFor(v.open, g);
  }

  /** A new event whose request was refused. */
  lemma TraceRefused(v: View, b: Books, slots: seq<Slot>, g: set<Ticket>, spoiled: set<Lane>, k: Ticket)
    requires Traced(v, b, slots, g, spoiled) && v.spare > 0 && Next(v, k) && k !in v.live
    ensures Dropped(Got(v, k), k) == v.(serials := v.serials[k.slot := k.serial])
    ensures Traced(Dropped(Got(v, k), k), b, slots, g, spoiled)
  {
    var w := Dropped(Got(v, k), k);
    assert Later(v, w);
    StaysPast(v, w, slots);
  }

  /** A lane comes or goes. */
  lemma TraceLane(v: View, w: View, b: Books, c: Books, slots: seq<Slot>, g: set<Ticket>, spoiled: set<Lane>)
    requires Traced(v, b, slots, g, spoiled) && c.quarantine == b.quarantine
    requires w == v.(held := w.held, holding := w.holding)
    ensures Traced(w, c, slots, g, spoiled)
  {
    forall i | 0 <= i < |slots| ensures SlotPast(w, slots[i]) {
      assert SlotPast(v, slots[i]);
    }
  }

  lemma OthersSans<K>(m: map<K, Pos>, k: K, i: nat)
    requires k in m && m[k].slot == i
    ensures Others(m - {k}, i) == Others(m, i)
  {
  }

  /** What the books say about slot `i` matches what is written in it; no lane is both in use and set aside. */
  ghost predicate Matches(b: Books, s: Slot, i: nat) {
    && Sized(s) && b.lanes.Keys !! b.quarantine
    && (forall k :: k in b.owner && b.owner[k].slot == i ==>
          b.owner[k].send < SENDS && b.owner[k].half < 2
          && s.token[2 * b.owner[k].send + b.owner[k].half] == k && !s.done[2 * b.owner[k].send + b.owner[k].half])
    && (forall l :: l in b.lanes && b.lanes[l].slot == i ==>
          b.lanes[l].send < SENDS && s.jetty[b.lanes[l].send] == Some(l))
  }

  lemma BalancedMatches(v: View, b: Books, slots: seq<Slot>, i: nat)
    requires Balanced(v, b, slots) && i < |slots|
    ensures Matches(b, slots[i], i)
  {
  }

  lemma RetireMovesOn(b: Books, s: Slot, i: nat, send: nat, half: nat, hi: nat)
    requires Matches(b, s, i) && send < SENDS && half < 2 && hi <= WRS
    requires 2 * send + half < hi && !s.done[2 * send + half]
    requires WrsBooked(b, s, i, 2 * send + half, hi)
    ensures Booked(b, s, i, send, half)
    ensures WrsBooked(SansWr(b, s.token[2 * send + half]), s, i, 2 * send + half + 1, hi)
    ensures SameElsewhere(b, SansWr(b, s.token[2 * send + half]), i)
  {
    var k := s.token[2 * send + half];
    assert Booked(b, s, i, send, half);
    OthersSans(b.owner, k, i);
    forall m, h | 0 <= m < SENDS && 0 <= h < 2 && 2 * send + half + 1 <= 2 * m + h < hi && !s.done[2 * m + h]
      ensures Booked(SansWr(b, k), s, i, m, h)
    {
      assert Booked(b, s, i, m, h);
    }
  }

  lemma LaneLeaves(b: Books, c: Books, s: Slot, i: nat, send: nat, hi: nat)
    requires Matches(b, s, i) && send < hi <= SENDS && LanesBooked(b, s, i, send, hi)
    requires s.jetty[send].Some? ==> c.lanes == b.lanes - {s.jetty[send].value}
    ensures LaneBooked(b, s, i, send)
    ensures LanesBooked(c, s, i, send + 1, hi) && Others(c.lanes, i) == Others(b.lanes, i)
  {
    assert LaneBooked(b, s, i, send);
    OthersSans(b.lanes, s.jetty[send].value, i);
    forall m | send + 1 <= m < hi ensures LaneBooked(c, s, i, m) {
      assert LaneBooked(b, s, i, m);
    }
  }

  /** The lanes of a slot do not depend on which events are booked. */
  lemma LanesFrame(b: Books, c: Books, s: Slot, i: nat, lo: nat, hi: nat)
    requires Sized(s) && hi <= SENDS && LanesBooked(b, s, i, lo, hi) && c.lanes == b.lanes
    ensures LanesBooked(c, s, i, lo, hi)
  {
    forall m | lo <= m < hi ensures LaneBooked(c, s, i, m) { assert LaneBooked(b, s, i, m); }
  }

  lemma WrsFrame(b: Books, c: Books, s: Slot, i: nat, lo: nat, hi: nat)
    requires Sized(s) && hi <= WRS && WrsBooked(b, s, i, lo, hi) && c.owner == b.owner
    ensures WrsBooked(c, s, i, lo, hi)
  {
    forall m, h | 0 <= m < SENDS && 0 <= h < 2 && lo <= 2 * m + h < hi && !s.done[2 * m + h]
      ensures Booked(c, s, i, m, h)
    {
      assert Booked(b, s, i, m, h);
    }
  }

  /** From `b` to `c`, `retired` events were retired and `aside` lanes set aside. */
  ghost predicate Tally(b: Books, c: Books, retired: int, aside: int) {
    c.live == b.live - retired && c.inUse == b.inUse - aside && c.lost == b.lost + aside
  }

  /** State of the books while the work requests of a send below `wr` have been waited for. */
  ghost predicate SendProgress(b0: Books, b: Books, s: Slot, i: nat, send: nat, wr: nat, posted: nat, sends: nat,
          failed: nat, recorded: nat)
    requires Sized(s) && posted <= WRS && send < sends <= SENDS && 2 * send <= wr <= posted
  {
    && WrsBooked(b, s, i, wr, posted)
    && LanesBooked(b, s, i, if failed > 0 then send + 1 else send, sends)
    && failed + recorded == Undone(s.done, 2 * send, wr)
    && SameElsewhere(b0, b, i)
    && Tally(b0, b, failed + recorded, if failed > 0 then 1 else 0)
    && s.jetty[send].Some?
    && b.quarantine == (if failed > 0 then b0.quarantine + {s.jetty[send].value} else b0.quarantine)
  }

  lemma SendProgressStart(b: Books, s: Slot, i: nat, send: nat, posted: nat, sends: nat)
    requires Sized(s) && posted <= WRS && send < sends <= SENDS && 2 * send <= posted
    requires WrsBooked(b, s, i, 2 * send, posted) && LanesBooked(b, s, i, send, sends)
    ensures SendProgress(b, b, s, i, send, 2 * send, posted, sends, 0, 0)
  {
    assert LaneBooked(b, s, i, send);
  }

  /** Waiting for the next work request of the send, whatever the result. */
  lemma SendProgressWait(b0: Books, b: Books, s: Slot, i: nat, send: nat, half: nat, posted: nat, sends: nat,
          failed: nat, recorded: nat, ok: bool)
    requires Matches(b, s, i) && posted <= WRS && send < sends <= SENDS
    requires half < 2 && 2 * send + half < posted && !s.done[2 * send + half]
    requires SendProgress(b0, b, s, i, send, 2 * send + half, posted, sends, failed, recorded)
    ensures Booked(b, s, i, send, half)
    ensures SendProgress(b0, AfterWait(b, s.token[2 * send + half], s.jetty[send].value, ok), s, i, send,
                         2 * send + half + 1, posted, sends,
                         if ok then failed else failed + 1, if ok then recorded + 1 else recorded)
  {
    var k, lane := s.token[2 * send + half], s.jetty[send].value;
    RetireMovesOn(b, s, i, send, half, posted);
    if !ok && failed == 0 {
      var c := Aside(b, lane);
      LaneLeaves(b, c, s, i, send, sends);
      WrsFrame(b, c, s, i, 2 * send + half, posted);
      RetireMovesOn(c, s, i, send, half, posted);
      LanesFrame(c, SansWr(c, k), s, i, send + 1, sends);
    } else {
      assert failed > 0 ==> lane !in b.lanes;
      LanesFrame(b, SansWr(b, k), s, i, if failed > 0 then send + 1 else send, sends);
    }
  }

  lemma SendProgressSkip(b0: Books, b: Books, s: Slot, i: nat, send: nat, wr: nat, posted: nat, sends: nat,
          failed: nat, recorded: nat)
    requires Matches(b, s, i) && posted <= WRS && send < sends <= SENDS && 2 * send <= wr < posted && s.done[wr]
    requires SendProgress(b0, b, s, i, send, wr, posted, sends, failed, recorded)
    ensures SendProgress(b0, b, s, i, send, wr + 1, posted, sends, failed, recorded)
  {
    forall k | k in b.owner && b.owner[k].slot == i ensures wr + 1 <= 2 * b.owner[k].send + b.owner[k].half < posted {
    }
  }

  /** Both together: skipping a work request that is done, waiting for one that is not. */
  lemma SendStep(v: View, g0: set<Ticket>, g: set<Ticket>, b0: Books, b: Books, slots: seq<Slot>, i: nat, send: nat,
          half: nat, posted: nat, sends: nat, failed: nat, recorded: nat, ok: bool)
    requires Balanced(v, b, slots) && i < |slots| && posted <= WRS && send < sends <= SENDS && half < 2
    requires 2 * send + half < posted && Marked(g0, g, slots[i], send, failed)
    requires !slots[i].done[2 * send + half] && !ok ==> slots[i].token[2 * send + half] !in g
    requires SendProgress(b0, b, slots[i], i, send, 2 * send + half, posted, sends, failed, recorded)
    ensures var s, w := slots[i], 2 * send + half;
      var c := AfterWait(b, s.token[w], s.jetty[send].value, ok);
      if s.done[w] then SendProgress(b0, b, s, i, send, w + 1, posted, sends, failed, recorded)
      else if ok then SendProgress(b0, c, s, i, send, w + 1, posted, sends, failed, recorded + 1)
      else
        && SendProgress(b0, c, s, i, send, w + 1, posted, sends, failed + 1, recorded)
        && Marked(g0, g + {s.token[w]}, s, send, failed + 1)
  {
    BalancedMatches(v, b, slots, i);
    if slots[i].done[2 * send + half] {
      SendProgressSkip(b0, b, slots[i], i, send, 2 * send + half, posted, sends, failed, recorded);
    } else {
      SendProgressWait(b0, b, slots[i], i, send, half, posted, sends, failed, recorded, ok);
      if !ok { MarkedStep(g0, g, slots[i], send, half, failed); }
    }
  }

  // ---------------------------------------------------------------- draining a send and a request

  /** Where the work requests of a send end, of `posted` that were posted. */
  function EndOf(send: nat, posted: nat): nat {
    if 2 * send + 2 > posted then posted else 2 * send + 2
  }

  function Start(send: nat, posted: nat): nat {
    if 2 * send > posted then posted else 2 * send
  }

  lemma {:induction false} UndoneSplit(done: seq<bool>, lo: nat, mid: nat, hi: nat)
    requires lo <= mid <= hi <= |done|
    ensures Undone(done, lo, hi) == Undone(done, lo, mid) + Undone(done, mid, hi)
  {
    if mid < hi { UndoneSplit(done, lo, mid, hi - 1); }
  }

  /** The lanes of some sends of a slot. */
  ghost function LanesOf(s: Slot, sends: set<nat>): set<Lane> {
    set m | m in sends && m < |s.jetty| && s.jetty[m].Some? :: s.jetty[m].value
  }

  /** Those of the sends below `n`. */
  ghost function LanesBelow(s: Slot, n: nat): set<Lane> {
    set m | 0 <= m < n && m < |s.jetty| && s.jetty[m].Some? :: s.jetty[m].value
  }

  ghost function AllLanes(s: Slot): set<Lane> {
    LanesBelow(s, SENDS)
  }

  /** Of slot `s0`, the lanes of the sends below `send` are no longer noted. */
  ghost predicate Cleared(s0: Slot, s: Slot, send: nat)
    requires Sized(s0) && send <= SENDS
  {
    && s == s0.(jetty := s.jetty) && Sized(s)
    && (forall m :: send <= m < SENDS ==> s.jetty[m] == s0.jetty[m])
    && (forall m :: 0 <= m < send ==> s.jetty[m].None? && s0.jetty[m].Some?)
  }

  /** Effect on the books of draining the sends of a slot below `send`; `bad` are those of them on
      which a wait failed. */
  ghost predicate DrainTally(b0: Books, b: Books, s0: Slot, i: nat, send: nat, upTo: nat, failed: nat, recorded: nat,
          bad: set<nat>)
    requires Sized(s0) && upTo <= WRS
  {
    && SameElsewhere(b0, b, i)
    && failed + recorded == Undone(s0.done, 0, upTo)
    && (forall m :: m in bad ==> m < send)
    && (failed == 0 <==> bad == {}) && |bad| <= failed
    && b.quarantine == b0.quarantine + LanesOf(s0, bad)
    && b.live == b0.live - failed - recorded && b.inUse == b0.inUse - send && b.lost == b0.lost + |bad|
  }

  /** State of slot and books after the sends below `send` were drained. */
  ghost predicate Drained(b0: Books, b: Books, s0: Slot, s: Slot, i: nat, send: nat, posted: nat, sends: nat,
          failed: nat, recorded: nat, bad: set<nat>)
    requires Sized(s0) && posted <= WRS && send <= sends <= SENDS
  {
    && Cleared(s0, s, send)
    && WrsBooked(b, s, i, Start(send, posted), posted)
    && LanesBooked(b, s, i, send, sends)
    && DrainTally(b0, b, s0, i, send, Start(send, posted), failed, recorded, bad)
  }

  lemma UpdatedTwice<T>(a: seq<T>, b: seq<T>, c: seq<T>, i: nat)
    requires i < |a| == |b| == |c| && b == a[i := b[i]] && c == b[i := c[i]]
    ensures c == a[i := c[i]]
  {
  }

  lemma NoneMarked(g: set<Ticket>, s: Slot)
    requires Sized(s)
    ensures AllMarked(g, g, s, {}, 0)
  {
  }

  lemma DrainStart(b: Books, s: Slot, i: nat, posted: nat, sends: nat)
    requires Sized(s) && posted <= WRS && sends <= SENDS
    requires WrsBooked(b, s, i, 0, posted) && LanesBooked(b, s, i, 0, sends)
    ensures Drained(b, b, s, s, i, 0, posted, sends, 0, 0, {})
  {
    assert b.quarantine == b.quarantine + LanesOf(s, {});
  }

  lemma SendIsClear(b: Books, s: Slot, i: nat, send: nat, posted: nat)
    requires Matches(b, s, i) && posted <= WRS && WrsBooked(b, s, i, EndOf(send, posted), posted)
    ensures NoWr(b, i, send)
  {
    forall k | k in b.owner ensures !InSend(b.owner[k], i, send) {
      if b.owner[k].slot == i { assert b.owner[k].half < 2; }
    }
  }

  /** The books once a send is closed: its lane goes back unless a wait on it failed. */
  ghost function Closed(b: Books, lane: Lane, failed: nat): Books {
    if failed > 0 then b else SansLane(b, lane)
  }

  lemma LanesAfterClose(b: Books, s: Slot, i: nat, send: nat, sends: nat, failed: nat)
    requires Matches(b, s, i) && send < sends <= SENDS && s.jetty[send].Some?
    requires LanesBooked(b, s, i, if failed > 0 then send + 1 else send, sends)
    ensures var c := Closed(b, s.jetty[send].value, failed);
      LanesBooked(c, s.(jetty := s.jetty[send := None]), i, send + 1, sends) && Others(c.lanes, i) == Others(b.lanes, i)
  {
    var c, t := Closed(b, s.jetty[send].value, failed), s.(jetty := s.jetty[send := None]);
    if failed == 0 { LaneLeaves(b, c, s, i, send, sends); }
    forall m | send + 1 <= m < sends ensures LaneBooked(c, t, i, m) {
      assert LaneBooked(c, s, i, m);
    }
  }

  lemma WrsAfterClose(b: Books, c: Books, s: Slot, t: Slot, i: nat, lo: nat, hi: nat)
    requires Sized(s) && Sized(t) && hi <= WRS && WrsBooked(b, s, i, lo, hi) && c.owner == b.owner
    requires t.token == s.token && t.done == s.done
    ensures WrsBooked(c, t, i, lo, hi)
  {
    forall m, h | 0 <= m < SENDS && 0 <= h < 2 && lo <= 2 * m + h < hi && !t.done[2 * m + h]
      ensures Booked(c, t, i, m, h)
    {
      assert Booked(b, s, i, m, h);
    }
  }

  lemma TallyNext(b0: Books, b1: Books, b: Books, s0: Slot, i: nat, send: nat, posted: nat, failed: nat,
          recorded: nat, bad: set<nat>, f: nat, r: nat)
    requires Sized(s0) && posted <= WRS && send < SENDS && 2 * send <= posted && s0.jetty[send].Some?
    requires DrainTally(b0, b1, s0, i, send, 2 * send, failed, recorded, bad)
    requires SameElsewhere(b1, b, i) && f + r == Undone(s0.done, 2 * send, EndOf(send, posted))
    requires b.quarantine == (if f > 0 then b1.quarantine + {s0.jetty[send].value} else b1.quarantine)
    requires Tally(b1, b, f + r, if f > 0 then 1 else 0)
    ensures var c := Closed(b, s0.jetty[send].value, f);
      Others(c.lanes, i) == Others(b.lanes, i) ==>
        DrainTally(b0, c, s0, i, send + 1, Start(send + 1, posted), failed + f, recorded + r,
                   if f > 0 then bad + {send} else bad)
  {
    hide Undone, Others, LanesOf;
    UndoneSplit(s0.done, 0, 2 * send, EndOf(send, posted));
    if f > 0 {
      OneMoreLane(b0.quarantine, s0, bad, send);
    }
  }

  lemma OneMoreLane(q: set<Lane>, s: Slot, bad: set<nat>, send: nat)
    requires send < |s.jetty| && s.jetty[send].Some?
    ensures q + LanesOf(s, bad) + {s.jetty[send].value} == q + LanesOf(s, bad + {send})
  {
  }

  /** A send that was waited for may be closed. */
  lemma SendCloses(b1: Books, b: Books, s: Slot, i: nat, send: nat, posted: nat, sends: nat, f: nat, r: nat)
    requires Matches(b, s, i) && posted <= WRS && send < sends <= SENDS && 2 * send <= posted
    requires SendProgress(b1, b, s, i, send, EndOf(send, posted), posted, sends, f, r)
    ensures NoWr(b, i, send) && (f > 0 ==> NoLane(b, i, send)) && (f == 0 ==> LaneBooked(b, s, i, send))
  {
    SendIsClear(b, s, i, send, posted);
  }

  lemma ClearNext(s0: Slot, s: Slot, send: nat)
    requires Sized(s0) && send < SENDS && Cleared(s0, s, send) && s.jetty[send].Some?
    ensures Cleared(s0, s.(jetty := s.jetty[send := None]), send + 1)
  {
  }

  lemma BookedNext(b: Books, s: Slot, i: nat, send: nat, posted: nat, sends: nat, f: nat)
    requires Matches(b, s, i) && posted <= WRS && send < sends <= SENDS && 2 * send <= posted && s.jetty[send].Some?
    requires WrsBooked(b, s, i, EndOf(send, posted), posted)
    requires LanesBooked(b, s, i, if f > 0 then send + 1 else send, sends)
    ensures var c, t := Closed(b, s.jetty[send].value, f), s.(jetty := s.jetty[send := None]);
      && WrsBooked(c, t, i, Start(send + 1, posted), posted) && LanesBooked(c, t, i, send + 1, sends)
      && Others(c.lanes, i) == Others(b.lanes, i)
  {
    var c, t := Closed(b, s.jetty[send].value, f), s.(jetty := s.jetty[send := None]);
    LanesAfterClose(b, s, i, send, sends, f);
    WrsAfterClose(b, c, s, t, i, EndOf(send, posted), posted);
  }

  lemma DrainNext(b0: Books, b1: Books, b: Books, s0: Slot, s: Slot, i: nat, send: nat, posted: nat, sends: nat,
          failed: nat, recorded: nat, bad: set<nat>, f: nat, r: nat)
    requires Sized(s0) && posted <= WRS && send < sends <= SENDS && 2 * send <= posted
    requires Cleared(s0, s, send) && DrainTally(b0, b1, s0, i, send, 2 * send, failed, recorded, bad)
    requires Matches(b, s, i) && SendProgress(b1, b, s, i, send, EndOf(send, posted), posted, sends, f, r)
    ensures Drained(b0, Closed(b, s.jetty[send].value, f), s0, s.(jetty := s.jetty[send := None]), i, send + 1,
                    posted, sends, failed + f, recorded + r, if f > 0 then bad + {send} else bad)
  {
    ClearNext(s0, s, send);
    BookedNext(b, s, i, send, posted, sends, f);
    TallyNext(b0, b1, b, s0, i, send, posted, failed, recorded, bad, f, r);
  }

  /** A send that was waited for may be closed. */
  lemma MayClose(v: View, b1: Books, b: Books, slots: seq<Slot>, i: nat, send: nat, posted: nat, sends: nat, f: nat,
          r: nat)
    requires Balanced(v, b, slots) && i < |slots| && posted <= WRS && send < sends <= SENDS && 2 * send <= posted
    requires SendProgress(b1, b, slots[i], i, send, EndOf(send, posted), posted, sends, f, r)
    ensures slots[i].jetty[send].Some?
    ensures NoWr(b, i, send) && (f > 0 ==> NoLane(b, i, send)) && (f == 0 ==> LaneBooked(b, slots[i], i, send))
  {
    BalancedMatches(v, b, slots, i);
    SendCloses(b1, b, slots[i], i, send, posted, sends, f, r);
  }

  /** Closing it, with books `c` and slot `t` afterwards, moves on to the next send. */
  lemma DrainStep(v: View, g0: set<Ticket>, g1: set<Ticket>, g: set<Ticket>, b0: Books, b1: Books, b: Books, c: Books,
          s0: Slot, slots: seq<Slot>, t: Slot, i: nat, send: nat, posted: nat, sends: nat, failed: nat, recorded: nat,
          bad: set<nat>, bad': set<nat>, f: nat, r: nat)
    requires Sized(s0) && posted <= WRS && send < sends <= SENDS && 2 * send <= posted
    requires Balanced(v, b, slots) && i < |slots|
    requires Drained(b0, b1, s0, slots[i], i, send, posted, sends, failed, recorded, bad)
    requires AllMarked(g0, g1, s0, bad, failed)
    requires SendProgress(b1, b, slots[i], i, send, EndOf(send, posted), posted, sends, f, r)
    requires Marked(g1, g, slots[i], send, f)
    requires c == Closed(b, slots[i].jetty[send].value, f) && t == slots[i].(jetty := slots[i].jetty[send := None])
    requires bad' == if f > 0 then bad + {send} else bad
    ensures Drained(b0, c, s0, t, i, send + 1, posted, sends, failed + f, recorded + r, bad')
    ensures AllMarked(g0, g, s0, bad', failed + f)
  {
    BalancedMatches(v, b, slots, i);
    DrainNext(b0, b1, b, s0, slots[i], i, send, posted, sends, failed, recorded, bad, f, r);
    MarkedSame(g1, g, slots[i], s0, send, f);
    AllMarkedNext(g0, g1, g, s0, bad, failed, send, f);
  }
}
