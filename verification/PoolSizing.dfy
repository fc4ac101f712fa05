/**
  The size of the lane pool (src/kv_bench.cpp, run_client; src/urma/urma_manager.cpp, Init), and for which
  options it is enough.
 */
module PoolSizing {
  import opened Bits
  import opened LaneSystem
  import opened LaneShares
  import opened RequestBooks

  const MAX_THREADS: nat := 512
  const MAX_JETTY_COUNT: nat := 200

  /** The slots a worker uses for a requested concurrency. */
  function SlotCount(requested: int): nat {
    var n := if requested >= 1 then requested else 1;
    if n > MAX_CONCURRENCY then MAX_CONCURRENCY else n
  }

  /** The lanes created when at least `least` are needed and `jettyCount` asked for. */
  function LanesCreated(jettyCount: nat, least: nat): nat {
    var count := if jettyCount > least then jettyCount else least;
    if count < 1 then 1 else count
  }

  /** The lanes of a client: at least one for each thread and ten for each request of one thread. */
  function LanePool(threads: nat, requested: int, jettyCount: nat): nat {
    var pipe := (if requested >= 1 then requested else 1) * SENDS;
    LanesCreated(jettyCount, if pipe > threads then pipe else threads)
  }

  /** That is the least number of lanes with a lane for each thread, ten for each request of one thread, and as many
      as were asked for. */
  lemma LanePoolLeast(threads: nat, requested: int, jettyCount: nat, n: nat)
    ensures LanePool(threads, requested, jettyCount) <= n
            <==> threads <= n && jettyCount <= n && SENDS <= n && SENDS * requested <= n
  {
  }

  /** The options that are not rejected. */
  predicate Accepted(threads: nat, requested: int, jettyCount: nat) {
    1 <= threads <= MAX_THREADS && 1 <= requested <= MAX_CONCURRENCY && 1 <= jettyCount <= MAX_JETTY_COUNT
  }

  /** The lanes all workers hold when all their slots are in use. */
  function LanesWanted(threads: nat, requested: int): nat {
    threads * (SENDS * SlotCount(requested))
  }

  /** The pool has ten lanes for each slot of one worker. */
  lemma PoolCoversOne(threads: nat, requested: int, jettyCount: nat)
    ensures LanePool(threads, requested, jettyCount) >= SENDS * SlotCount(requested)
  {
  }

  /** For several workers it has them only if that many were asked for. */
  lemma PoolCoversAll(threads: nat, requested: int, jettyCount: nat)
    requires Accepted(threads, requested, jettyCount)
    ensures LanesWanted(threads, requested) <= LanePool(threads, requested, jettyCount)
            <==> threads == 1 || LanesWanted(threads, requested) <= jettyCount
  {
    var per := SENDS * requested;
    if threads > 1 {
      MulMono(2, threads, per);
      MulMono(2, per, threads);
    }
  }

  /** No run of the pipelines is ever short of lanes, exactly for these options. */
  lemma PoolNeverShort(s0: Sys, threads: nat, requested: int, jettyCount: nat)
    requires Accepted(threads, requested, jettyCount)
    requires InitSys(s0) && |s0.workers| == threads && |s0.idle| == LanePool(threads, requested, jettyCount)
    ensures NeverRefused(s0, SENDS * SlotCount(requested))
            <==> threads == 1 || LanesWanted(threads, requested) <= jettyCount
  {
    FreshCount(s0.workers);
    NeverRefusedIff(s0, SENDS * SlotCount(requested));
    PoolCoversAll(threads, requested, jettyCount);
  }

  /** With more than twenty requests of several workers at a time, no number of lanes that can be asked for is
      enough. */
  lemma ManyThreadsShort(threads: nat, requested: int, jettyCount: nat)
    requires Accepted(threads, requested, jettyCount) && threads > 1 && threads * requested > MAX_JETTY_COUNT / SENDS
    ensures LanePool(threads, requested, jettyCount) < LanesWanted(threads, requested)
  {
    assert threads * (SENDS * requested) == SENDS * (threads * requested);
    PoolCoversAll(threads, requested, jettyCount);
  }
}
