/**
  The pool of send lanes (src/urma/urma_send_lane.h): a vector of jettys, a FIFO of idle indices, a
  bitmap and a reverse map, kept consistent under swap-with-last removal.  Its meaning is a plain
  queue of idle lanes and a set of member lanes.  A lane is named by a number; the null handle is
  `None`.  Every operation holds the pool's mutex, so it is one step.
 */
module SendJettyPools {
  import opened Collections

  type Lane = nat

  /** std::remove + erase. */
  function RemoveAll<T(==)>(s: seq<T>, x: T): seq<T> {
    if s == [] then []
    else (if s[0] == x then [] else [s[0]]) + RemoveAll(s[1..], x)
  }

  /** std::replace. */
  function Rename(s: seq<nat>, from: nat, to: nat): (r: seq<nat>)
    ensures |r| == |s|
    ensures forall i :: 0 <= i < |s| ==> r[i] == if s[i] == from then to else s[i]
  {
    if s == [] then [] else [if s[0] == from then to else s[0]] + Rename(s[1..], from, to)
  }

  ghost predicate InRange(indices: seq<nat>, n: nat) {
    forall i :: 0 <= i < |indices| ==> indices[i] < n
  }

  /** The lanes that a list of indices stands for. */
  ghost function Names(jettys: seq<Lane>, indices: seq<nat>): (r: seq<Lane>)
    requires InRange(indices, |jettys|)
    ensures |r| == |indices|
    ensures forall i :: 0 <= i < |indices| ==> r[i] == jettys[indices[i]]
  {
    seq(|indices|, i requires 0 <= i < |indices| => jettys[indices[i]])
  }

  lemma {:induction false} RemoveAllElements<T(!new)>(s: seq<T>, x: T)
    ensures forall y :: y in RemoveAll(s, x) <==> y in s && y != x
    ensures Distinct(s) ==> Distinct(RemoveAll(s, x))
  {
    if s != [] {
      var t := s[1..];
      RemoveAllElements(t, x);
      assert s == [s[0]] + t;
      if Distinct(s) {
        assert s[0] !in t;
      }
    }
  }

  /** Removing an index from the FIFO removes its lane from the queue and keeps the order. */
  lemma {:induction false} RemovalKeepsOrder(jettys: seq<Lane>, indices: seq<nat>, i: nat)
    requires Distinct(jettys) && i < |jettys| && InRange(indices, |jettys|)
    ensures InRange(RemoveAll(indices, i), |jettys|)
    ensures Names(jettys, RemoveAll(indices, i)) == RemoveAll(Names(jettys, indices), jettys[i])
  {
    if indices != [] {
      var x, tail := indices[0], indices[1..];
      RemovalKeepsOrder(jettys, tail, i);
      assert Names(jettys, indices)[1..] == Names(jettys, tail);
      assert jettys[x] == jettys[i] <==> x == i;
      if x != i {
        NamesCons(jettys, x, RemoveAll(tail, i));
      }
    }
  }

  lemma NamesCons(jettys: seq<Lane>, x: nat, rest: seq<nat>)
    requires x < |jettys| && InRange(rest, |jettys|)
    ensures InRange([x] + rest, |jettys|) && Names(jettys, [x] + rest) == [jettys[x]] + Names(jettys, rest)
  {
  }

  // ---------------------------------------------------------------- consistency of the four fields

  /** The map inverts the vector. */
  ghost predicate Inverse(js: seq<Lane>, indices: map<Lane, nat>) {
    && (forall i :: 0 <= i < |js| ==> js[i] in indices && indices[js[i]] == i)
    && (forall l :: l in indices ==> indices[l] < |js| && js[indices[l]] == l)
  }

  /** The FIFO lists, once each, exactly the indices flagged idle. */
  ghost predicate Flagged(idle: seq<nat>, flags: seq<bool>) {
    && Distinct(idle)
    && InRange(idle, |flags|)
    && (forall i :: 0 <= i < |idle| ==> flags[idle[i]])
    && (forall i {:trigger i in idle} :: 0 <= i < |flags| && flags[i] ==> i in idle)
  }

  /** Element `i` overwritten with the last one, and the last one dropped. */
  function Moved<T>(s: seq<T>, i: nat): (r: seq<T>)
    requires i < |s|
    ensures |r| == |s| - 1
    ensures forall j :: 0 <= j < |r| ==> r[j] == if j == i then s[|s| - 1] else s[j]
  {
    s[i := s[|s| - 1]][..|s| - 1]
  }

  /** The map after lane `lane` has made room for the last lane. */
  function Remapped(js: seq<Lane>, indices: map<Lane, nat>, lane: Lane): map<Lane, nat>
    requires lane in indices && js != []
  {
    if indices[lane] == |js| - 1 then indices - {lane} else (indices - {lane})[js[|js| - 1] := indices[lane]]
  }

  /** The FIFO without index `i`, after `last` has been renamed to `i`. */
  function Reindexed(idle: seq<nat>, i: nat, last: nat): seq<nat> {
    if i == last then RemoveAll(idle, i) else Rename(RemoveAll(idle, i), last, i)
  }

  lemma SwapRemoveInverse(js: seq<Lane>, indices: map<Lane, nat>, lane: Lane)
    requires Inverse(js, indices) && lane in indices
    ensures Inverse(Moved(js, indices[lane]), Remapped(js, indices, lane))
    ensures Remapped(js, indices, lane).Keys == indices.Keys - {lane}
  {
  }

  lemma {:induction false} RemoveAllAt(s: seq<nat>, x: nat, bound: nat)
    requires InRange(s, bound) && Distinct(s)
    ensures InRange(RemoveAll(s, x), bound) && Distinct(RemoveAll(s, x))
    ensures forall n :: 0 <= n < |RemoveAll(s, x)| ==> RemoveAll(s, x)[n] in s && RemoveAll(s, x)[n] != x
  {
    RemoveAllElements(s, x);
    var r := RemoveAll(s, x);
    forall n | 0 <= n < |r| ensures r[n] in s && r[n] != x && r[n] < bound {
      assert r[n] in r;
    }
  }

  lemma {:induction false} ReindexedAt(idle: seq<nat>, i: nat, last: nat)
    requires InRange(idle, last + 1) && Distinct(idle) && i <= last
    ensures InRange(RemoveAll(idle, i), last + 1)
    ensures |Reindexed(idle, i, last)| == |RemoveAll(idle, i)|
    ensures forall n :: 0 <= n < |RemoveAll(idle, i)| ==>
      Reindexed(idle, i, last)[n] == if RemoveAll(idle, i)[n] == last then i else RemoveAll(idle, i)[n]
    ensures InRange(Reindexed(idle, i, last), last) && Distinct(Reindexed(idle, i, last))
  {
    RemoveAllAt(idle, i, last + 1);
  }

  lemma {:induction false} SwapRemoveFlagged(idle: seq<nat>, flags: seq<bool>, i: nat)
    requires Flagged(idle, flags) && i < |flags|
    ensures Flagged(Reindexed(idle, i, |flags| - 1), Moved(flags, i))
  {
    hide RemoveAll, Reindexed, Moved;
    ReindexedAt(idle, i, |flags| - 1);
    RemoveAllAt(idle, i, |flags|);
    RemoveAllElements(idle, i);
    SameFlags(idle, flags, RemoveAll(idle, i), Reindexed(idle, i, |flags| - 1), i);
  }

  lemma SameFlags(idle: seq<nat>, flags: seq<bool>, rest: seq<nat>, idle': seq<nat>, i: nat)
    requires Flagged(idle, flags) && i < |flags| && InRange(rest, |flags|) && |idle'| == |rest|
    requires forall n :: 0 <= n < |rest| ==> rest[n] in idle && rest[n] != i
    requires forall k :: k in idle && k != i ==> k in rest
    requires forall n :: 0 <= n < |rest| ==> idle'[n] == if rest[n] == |flags| - 1 then i else rest[n]
    requires InRange(idle', |flags| - 1) && Distinct(idle')
    ensures Flagged(idle', Moved(flags, i))
  {
    var flags' := Moved(flags, i);
    forall n | 0 <= n < |idle'| ensures flags'[idle'[n]] {
      var m :| 0 <= m < |idle| && idle[m] == rest[n];
      assert flags[idle[m]];
    }
    forall j: nat | j < |flags'| && flags'[j] ensures j in idle' {
      var k: nat := if j == i then |flags| - 1 else j;
      assert k in idle;
      var n :| 0 <= n < |rest| && rest[n] == k;
      assert idle'[n] == j;
    }
  }

  lemma SameNames(js: seq<Lane>, rest: seq<nat>, js': seq<Lane>, idle': seq<nat>, i: nat)
    requires i < |js| && js' == Moved(js, i) && InRange(rest, |js|) && |idle'| == |rest|
    requires forall n :: 0 <= n < |rest| ==> rest[n] != i
    requires forall n :: 0 <= n < |rest| ==> idle'[n] == if rest[n] == |js| - 1 then i else rest[n]
    requires InRange(idle', |js'|)
    ensures Names(js', idle') == Names(js, rest)
  {
  }

  /** Swap-with-last removal and the renaming of indices together delete one lane from the queue and
      keep the FIFO order of all others. */
  lemma {:induction false} SwapRemoveQueue(js: seq<Lane>, idle: seq<nat>, i: nat)
    requires Distinct(js) && i < |js| && Distinct(idle) && InRange(idle, |js|)
    ensures InRange(Reindexed(idle, i, |js| - 1), |js| - 1)
    ensures Names(Moved(js, i), Reindexed(idle, i, |js| - 1)) == RemoveAll(Names(js, idle), js[i])
  {
    ReindexedAt(idle, i, |js| - 1);
    RemoveAllAt(idle, i, |js|);
    RemovalKeepsOrder(js, idle, i);
    SameNames(js, RemoveAll(idle, i), Moved(js, i), Reindexed(idle, i, |js| - 1), i);
  }

  lemma {:induction false} SwapRemove(js: seq<Lane>, idle: seq<nat>, flags: seq<bool>, indices: map<Lane, nat>,
          lane: Lane)
    requires |flags| == |js| && Inverse(js, indices) && Flagged(idle, flags) && lane in indices
    ensures Inverse(Moved(js, indices[lane]), Remapped(js, indices, lane))
    ensures Remapped(js, indices, lane).Keys == indices.Keys - {lane}
    ensures Flagged(Reindexed(idle, indices[lane], |js| - 1), Moved(flags, indices[lane]))
    ensures Names(Moved(js, indices[lane]), Reindexed(idle, indices[lane], |js| - 1))
         == RemoveAll(Names(js, idle), lane)
  {
    SwapRemoveInverse(js, indices, lane);
    SwapRemoveFlagged(idle, flags, indices[lane]);
    SwapRemoveQueue(js, idle, indices[lane]);
  }

  /** Clearing the flag of the head of the FIFO takes the head off the queue. */
  lemma PopHead(js: seq<Lane>, idle: seq<nat>, flags: seq<bool>)
    requires Flagged(idle, flags) && |flags| == |js| && idle != []
    ensures Flagged(idle[1..], flags[idle[0] := false])
    ensures Names(js, idle) == [js[idle[0]]] + Names(js, idle[1..])
  {
    TailFlagged(idle, flags, idle[1..], flags[idle[0] := false]);
    HeadName(js, idle);
  }

  lemma HeadName(js: seq<Lane>, idle: seq<nat>)
    requires InRange(idle, |js|) && idle != []
    ensures Names(js, idle) == [js[idle[0]]] + Names(js, idle[1..])
  {
  }

  lemma TailFlagged(idle: seq<nat>, flags: seq<bool>, tail: seq<nat>, flags': seq<bool>)
    requires Flagged(idle, flags) && idle != [] && idle == [idle[0]] + tail && flags' == flags[idle[0] := false]
    ensures Flagged(tail, flags')
  {
    forall n | 0 <= n < |tail| ensures tail[n] < |flags'| && flags'[tail[n]] {
      assert tail[n] == idle[n + 1];
    }
    forall a, b | 0 <= a < b < |tail| ensures tail[a] != tail[b] {
      assert tail[a] == idle[a + 1] && tail[b] == idle[b + 1];
    }
    forall i: nat | i < |flags'| && flags'[i] ensures i in tail {
      assert i in idle;
    }
  }

  /** Setting a flag and appending its index puts that lane at the tail of the queue. */
  lemma PushTail(js: seq<Lane>, idle: seq<nat>, flags: seq<bool>, i: nat)
    requires Flagged(idle, flags) && |flags| == |js| && i < |js| && !flags[i]
    ensures Flagged(idle + [i], flags[i := true])
    ensures Names(js, idle + [i]) == Names(js, idle) + [js[i]]
  {
    assert (idle + [i])[|idle|] == i;
  }

  class SendJettyPool {
    var jettys: seq<Lane>
    var idleIndices: seq<nat>
    var isIdle: seq<bool>
    var jettyIndices: map<Lane, nat>

    ghost predicate Valid()
      reads this
    {
      |isIdle| == |jettys| && Inverse(jettys, jettyIndices) && Flagged(idleIndices, isIdle)
    }

    ghost function Queue(): (q: seq<Lane>)
      requires Valid()
      reads this
    {
      Names(jettys, idleIndices)
    }

    ghost function Members(): set<Lane>
      reads this
    {
      jettyIndices.Keys
    }

    /** A lane is in the queue exactly when its flag is set. */
    lemma QueueIsFlags(l: Lane)
      requires Valid() && l in jettyIndices
      ensures l in Queue() <==> isIdle[jettyIndices[l]]
    {
      if isIdle[jettyIndices[l]] {
        assert jettyIndices[l] in idleIndices;
        var n :| 0 <= n < |idleIndices| && idleIndices[n] == jettyIndices[l];
        assert Queue()[n] == l;
      }
      if l in Queue() {
        var n :| 0 <= n < |idleIndices| && jettys[idleIndices[n]] == l;
      }
    }

    /** The queue never lists a lane twice, and lists members only. */
    lemma QueueDistinct()
      requires Valid()
      ensures Distinct(Queue()) && Elements(Queue()) <= Members()
    {
    }

    constructor ()
      ensures Valid() && Queue() == [] && Members() == {}
    {
      jettys, idleIndices, isIdle, jettyIndices := [], [], [], map[];
    }

    /** Appends a lane.  The pool stays consistent exactly when the lane is new: a lane added twice has two
        places, and its index tells only one of them. */
    method Add(jetty: Lane)
      requires Valid()
      modifies this
      ensures jettys == old(jettys) + [jetty] && isIdle == old(isIdle) + [true]
      ensures idleIndices == old(idleIndices) + [|old(jettys)|]
      ensures jettyIndices == old(jettyIndices)[jetty := |old(jettys)|]
      ensures Valid() <==> jetty !in old(Members())
      ensures jetty !in old(Members()) ==> Queue() == old(Queue()) + [jetty]
      ensures Members() == old(Members()) + {jetty}
    {
      var index := |jettys|;
      assert jetty in jettyIndices <==> jetty in jettys;
      jettyIndices := jettyIndices[jetty := index];
      idleIndices := idleIndices + [index];
      isIdle := isIdle + [true];
      jettys := jettys + [jetty];
      assert index in idleIndices;
      if jetty !in old(Members()) {
        assert Queue() == old(Queue()) + [jetty];
      } else {
        assert jettys[old(jettyIndices)[jetty]] == jetty;
      }
    }

    ghost predicate Usable(index: nat)
      requires |isIdle| == |jettys|
      reads this
    {
      index < |jettys| && isIdle[index]
    }

    /** Takes the first usable index off the FIFO, for any contents whatsoever.  On a consistent pool
        nothing is skipped: the head of the queue is handed out, and `None` means an empty queue. */
    method PopIdle() returns (jetty: Option<Lane>, ghost skipped: nat)
      requires |isIdle| == |jettys|
      modifies this
      ensures skipped <= |old(idleIndices)|
      ensures forall n :: 0 <= n < skipped ==> !old(Usable(idleIndices[n]))
      ensures jetty.None? ==> skipped == |old(idleIndices)|
      ensures jetty.Some? ==>
        && skipped < |old(idleIndices)| && old(Usable(idleIndices[skipped]))
        && jetty.value == old(jettys[idleIndices[skipped]])
      ensures old(Valid()) ==>
        && Valid() && skipped == 0 && Members() == old(Members())
        && (jetty.None? <==> old(Queue()) == [])
        && (jetty.Some? ==> old(Queue()) == [jetty.value] + Queue())
        && (jetty.None? ==> Queue() == old(Queue()))
    {
      skipped := 0;
      ghost var idle0 := idleIndices;
      while idleIndices != []
        invariant skipped <= |idle0| && idleIndices == idle0[skipped..]
        invariant jettys == old(jettys) && isIdle == old(isIdle) && jettyIndices == old(jettyIndices)
        invariant forall n :: 0 <= n < skipped ==> !old(Usable(idle0[n]))
        invariant old(Valid()) ==> skipped == 0
        decreases |idleIndices|
      {
        var idx := idleIndices[0];
        idleIndices := idleIndices[1..];
        if idx >= |jettys| || !isIdle[idx] {
          skipped := skipped + 1;
          continue;
        }
        isIdle := isIdle[idx := false];
        if old(Valid()) {
          PopHead(jettys, idle0, old(isIdle));
        }
        return Some(jettys[idx]), skipped;
      }
      jetty := None;
    }

    /** Gives a lane back: null, foreign and already idle lanes are ignored, any other goes to the
        tail of the queue. */
    method Release(jetty: Option<Lane>)
      requires Valid()
      modifies this
      ensures Valid() && Members() == old(Members())
      ensures Queue() == if jetty.Some? && jetty.value in Members() && jetty.value !in old(Queue())
                         then old(Queue()) + [jetty.value] else old(Queue())
    {
      if jetty.None? {
        return;
      }
      if jetty.value in jettyIndices { QueueIsFlags(jetty.value); }
      if jetty.value !in jettyIndices || isIdle[jettyIndices[jetty.value]] {
        return;
      }
      var index := jettyIndices[jetty.value];
      PushTail(jettys, idleIndices, isIdle, index);
      isIdle := isIdle[index := true];
      idleIndices := idleIndices + [index];
    }

    /** Fills the place of a lane with the last one and renames that one's index everywhere. */
    method SwapOut(lane: Lane)
      requires lane in jettyIndices && jettyIndices[lane] < |jettys| == |isIdle|
      modifies this
      ensures jettys == Moved(old(jettys), old(jettyIndices[lane]))
      ensures isIdle == Moved(old(isIdle), old(jettyIndices[lane]))
      ensures idleIndices == Reindexed(old(idleIndices), old(jettyIndices[lane]), |old(jettys)| - 1)
      ensures jettyIndices == Remapped(old(jettys), old(jettyIndices), lane)
    {
      var index, lastIndex := jettyIndices[lane], |jettys| - 1;
      idleIndices := RemoveAll(idleIndices, index);
      jettyIndices := jettyIndices - {lane};
      if index != lastIndex {
        jettys := jettys[index := jettys[lastIndex]];
        isIdle := isIdle[index := isIdle[lastIndex]];
        jettyIndices := jettyIndices[jettys[index] := index];
        idleIndices := Rename(idleIndices, lastIndex, index);
      }
      jettys := jettys[..lastIndex];
      isIdle := isIdle[..lastIndex];
    }

    /** Deletes one lane; the queue loses exactly that lane and keeps the order of the others. */
    method Remove(jetty: Option<Lane>) returns (removed: bool)
      requires Valid()
      modifies this
      ensures Valid()
      ensures removed == (jetty.Some? && jetty.value in old(Members()))
      ensures removed ==> Queue() == RemoveAll(old(Queue()), jetty.value) && Members() == old(Members()) - {jetty.value}
      ensures !removed ==> Queue() == old(Queue()) && Members() == old(Members())
    {
      if jetty.None? || jetty.value !in jettyIndices {
        return false;
      }
      SwapRemove(jettys, idleIndices, isIdle, jettyIndices, jetty.value);
      SwapOut(jetty.value);
      return true;
    }

    method GetStats() returns (poolSize: nat, idleCount: nat, inUseCount: nat)
      requires Valid()
      ensures poolSize == |Members()| && idleCount == |Queue()|
      ensures inUseCount == |Members() - Elements(Queue())|
    {
      poolSize := |jettys|;
      idleCount := |idleIndices|;
      inUseCount := if poolSize > idleCount then poolSize - idleCount else 0;
      DistinctCard(jettys);
      assert Members() == Elements(jettys);
      QueueDistinct();
      DistinctCard(Queue());
      SubsetCard(Elements(Queue()), Members());
    }
  }
}
