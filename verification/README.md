# kv-bench: a verified model

kv-bench is a load generator for RDMA-style hardware. Client threads ("workers") post work requests
on send lanes ("jettys"), a poll thread dispatches completions to per-worker event slots, and
latencies go into log-linear histograms. This project models the parts of it that do not depend on
the hardware and proves what they promise, over every input, schedule and run.

Check it with `dafny verify dfyconfig.toml` (Dafny 4.11).

## The main results

* **Lane safety over whole runs.** In every state of every run of any number of workers, the
  hardware and the poll thread, a lane in the idle queue has no accepted work request whose
  completion is still to be dispatched (`LaneSystem.LaneSafety`). Runs are as long as you like and
  completions as late as you like. What makes it so is that workers follow two rules: a lane goes back only
  when nothing is open on it, and nobody acquires an event after a request of its own failed. Then a request
  in flight always has the newest event of its slot (`LaneSystem.NewestStep`). The write and the get
  pipeline are proved to follow both rules, and state lane safety of every state they go through
  (`Pipelines.BenchWorker.WritePipeline`, `GetPipeline`). The second rule is needed: without it there is a run in which
  2^32-1 further acquisitions let a late completion hit a newer event and a busy lane goes back
  (`GenerationWrap.WrapBreaksLaneSafety`), and short of that distance every run is safe
  (`LaneSystem.LooseLaneSafety`).
* **Verdicts arrive, last and have a cause.** Finishing a request and dispatching its completion gives its event
  exactly that verdict, for success and failure (`Verdicts.FinishDecides`). A verdict is final until the worker
  takes it (`Verdicts.VerdictIsFinal`), and in every run an event has a verdict only if the hardware ended its own
  request with it (`Verdicts.VerdictHasCause`). So a wait fails only if its event was seen without success, one
  pass over the requests in flight collects every request that had come through at its start, and a post fails
  only if the library refused or lanes are scarce (`UrmaManagers`, `Sightings`, `Pipelines`).
* **How many lanes are enough.** If every worker holds at most its share, no worker below its share is ever
  refused a lane, in any run, if and only if there are as many lanes as all shares together
  (`LaneShares.NeverRefusedIff`). For the pool that the code creates that is so exactly with one thread, or
  when ten lanes for each request of every thread were asked for (`PoolSizing.PoolNeverShort`). Otherwise a
  worker can be refused, and its pipeline fails: `Scenarios.SecondRefused` is a run with the default options and
  two threads. The pipelines never lack lanes when there are enough for all shares.
* **The event protocol refines a map.** Over every history of acquire, complete, probe and abort the
  256 state words are an abstract map from events to pending / ok / failed, every answer is that of
  the map, each event is handed back at most once, and Probe reports the first completion
  (`EventHistory`). The class on arrays takes each operation as one atomic step of that map under
  every interleaving of its loads and compare-and-swaps with the completion thread (`EventSlotPools`).
  Taken by itself the class lets a late completion hit a newer event if and only if the acquisitions in
  between are a multiple of 2^32-1 (`EventHistory.LateCompletionHits`).
* **The pipelines account for everything.** Posting, rollback at any of the twenty work requests,
  scanning and draining run against a manager in which everybody else acts between any two steps.
  Ghost books tie every live event and every held lane to its place in a request slot; a lane goes
  back only when every request on it was seen to succeed. At the end of the write pipeline the errors are
  the number of waits that failed, and the lanes still held are exactly those of the failed requests. The get
  pipeline counts each request as complete, with its ten lanes given back, or as one error with ten lanes
  set aside (`Pipelines`, `RequestBooks`, `RequestFlow`, `GetDrains`).
* **Percentiles refine sorting.** Whatever the order of the samples, the scan reports the sample of
  the requested rank, the rounded share of the samples, with an error proved in significant digits, and higher
  percentiles report no less; merging is the homomorphism from joining samples; windowed
  sampling under concurrent recording neither loses nor repeats a sample.
* **Fixed-point arithmetic.** The clock's multiplier search always succeeds and never overflows in its
  window, and yields 0 exactly from 2^63 cycles a window on; the weighted chip schedule is fair on every
  prefix and periodic.

## How the source is modelled

* The C++ classes and structs that change in place are classes (`EventSlotPool`, `SendJettyPool`,
  `UrmaManager`, `BenchWorker`, `Hist`, `LatencyWindow`, `Clock`, `Context`), with methods and loops
  where the source has them. Pure encodings are functions.
* An event is named by a ghost `Ticket`: its slot and how often that slot had been acquired. Its token is
  the 40-bit number of the source, wrap-around included.
* Atomics are sequentially consistent steps. The load and the compare-and-swap of Probe and Abort are
  separate steps with arbitrary completions in between; the weak compare-and-swap may fail spuriously.
* liburma is an environment: it accepts or refuses a post, a refused post leaves nothing in flight, and
  it delivers at most one completion for an accepted one, at any later time.
* Deadlines, stop flags and pacing are arbitrary: the number of polls before a timeout is an unknown number, and
  the rounds of a pipeline, with the number of posts there is time for in each, are an input.
* `LaneSystem` lets a worker give a lane back only when it has no open request on it. That is the rule in
  DESIGN.md; in the code it is the workers' duty, and `Pipelines` proves that they fulfil it, because
  `UrmaManager.ReleaseSendLane` requires it.
* It lets a worker acquire an event only while each of its open requests still has its event, so not after a
  failed or abandoned one. In the code every path from a failed wait or probe ends the worker
  (src/kv_bench.cpp:925, 942, 964, 1086, 1561, 1575, 1631, 2063). `UrmaManager.PostEvent` requires this,
  and `Pipelines` proves it. Runs without this rule are called loose.
* The manager has a number `share`, any number, and the others take no lane beyond it; with a share of all lanes
  this is no restriction. What a worker sees includes whether all others keep to it.
* `Clients` ties the system to the objects the manager really has, a lane pool and an event pool for each
  worker: each call on them is one action of the system.
* Ghost history: `run` in the manager is every state so far; `gone` in a worker is the set of requests on which
  a wait or a probe failed, empty at first; `refused` counts the posts that the library refused; `spoiled` are the lanes that a get drain sets aside beside them.
* Counters are unbounded where the source would need 2^64 increments to overflow. Words that do wrap
  (generations, state words, the histogram sizing loop, the clock, the chip debts) are written out.

## Files

| file | content |
|---|---|
| `Collections.dfy`, `Words.dfy`, `Bits.dfy` | optional values, finite sets, word sizes, powers of two |
| `EventSlots.dfy`, `EventHistory.dfy`, `EventSlotPool.dfy` | event slots as values, their histories, the class |
| `SendJettyPool.dfy` | the queue of idle lanes |
| `LaneSystem.dfy`, `GenerationWrap.dfy` | the whole client as a state machine, and the run that breaks the rule for events |
| `Verdict.dfy` | the way of a verdict from the hardware to the worker |
| `LaneShares.dfy`, `PoolSizing.dfy` | how many lanes are enough, and how many there are |
| `Client.dfy` | the lane pool and the event pools as one state of that machine |
| `UrmaManager.dfy` | the interface the workers program against |
| `RequestBooks.dfy`, `RequestFlow.dfy`, `GetDrain.dfy`, `Pipeline.dfy` | request slots and pipelines |
| `Sighting.dfy` | what the pipelines saw of their events |
| `Scenario.dfy` | runs in which a worker is refused a lane, and in which a request is collected in part |
| `HistCoding.dfy`, `HistSizing.dfy`, `HistSamples.dfy`, `Histogram.dfy`, `LatencyWindow.dfy` | histograms |
| `Clock.dfy`, `ChipSchedule.dfy`, `BufferLayout.dfy` | arithmetic kernels |

## Model

| member | source | states |
|---|---|---|
| EventSlots.GenerationStep | src/urma/event_slot_pool.h:33-36 | the 32-bit counter that skips 0 takes exactly the predicted generations, wrap included |
| EventSlots.GenerationsCoincide | src/urma/event_slot_pool.h:33-37 | two acquisitions of a slot share a generation if and only if they differ by a multiple of 2^32-1 |
| EventSlots.TokenFacts | src/urma/event_slot_pool.h:101-107 | a token fits 40 bits, is not 0, its low byte is the slot, and shifting it into a state word loses nothing |
| EventSlots.TokensCoincide | src/urma/event_slot_pool.h:37 | tokens of two events coincide if and only if slot and generation do |
| EventSlots.InitValid | src/urma/event_slot_pool.h:18-24 | the initial pool lists every slot as free once |
| EventSlots.AcquireWorks | src/urma/event_slot_pool.h:26-48 | on a consistent pool the compare-and-swap never fails: Acquire fails exactly when all slots are occupied, and its event is new |
| EventSlots.AcquireValid | src/urma/event_slot_pool.h:26-48 | Acquire keeps slot conservation: the free stack lists exactly the slots with word 0, once each |
| EventSlots.CompleteValid | src/urma/event_slot_pool.h:50-59 | a completion keeps it, for every token but those above 0 whose low 62 bits are 0 |
| EventSlots.CompleteBreaks | src/urma/event_slot_pool.h:50-59 | and each of those breaks it on the initial pool |
| EventSlots.ProbeValid | src/urma/event_slot_pool.h:62-79 | Probe keeps it |
| EventSlots.AbortValid | src/urma/event_slot_pool.h:82-96 | Abort keeps it |
| EventSlots.TokenMatches | src/urma/event_slot_pool.h:88 | a word carries an event's token if and only if the slot is occupied at a distance that is a multiple of 2^32-1 |
| EventHistory.StaleChangesNothing | src/urma/event_slot_pool.h:50-96 | complete, probe and abort on a retired event change nothing and answer 0 / false |
| EventHistory.LiveOperations | src/urma/event_slot_pool.h:50-96 | on a live event they do what its status says |
| EventHistory.PoolRefinesMap | src/urma/event_slot_pool.h:26-96 | over every history the words are the abstract map and every answer is the map's |
| EventHistory.RetiredOnce | src/urma/event_slot_pool.h:62-96 | once probed with a verdict or aborted, an event is never handed back again |
| EventHistory.ProbeReportsFirst | src/urma/event_slot_pool.h:50-79 | a verdict of Probe is that of the first completion after the acquisition |
| EventHistory.LateCompletionHits | src/urma/event_slot_pool.h:50-59 | a late completion changes the event waiting in its slot if and only if a multiple of 2^32-1 acquisitions lies in between |
| EventSlotPools.WordOwnerKept | src/urma/event_slot_pool.h:50-59 | completions never change whose word it is and never touch a finished or empty word |
| EventSlotPools.VacateCommutes | src/urma/event_slot_pool.h:73-78 | emptying a slot before or after any batch of completions is the same |
| EventSlotPools.EventSlotPool.constructor | src/urma/event_slot_pool.h:18-24 | starts as the initial pool |
| EventSlotPools.EventSlotPool.BumpGeneration | src/urma/event_slot_pool.h:33-36 | the stored counter is the generation of the acquisition count |
| EventSlotPools.EventSlotPool.Acquire | src/urma/event_slot_pool.h:26-48 | is the atomic Acquire at its compare-and-swap, after any completions |
| EventSlotPools.EventSlotPool.Complete | src/urma/event_slot_pool.h:50-59 | is the atomic Complete |
| EventSlotPools.EventSlotPool.Probe | src/urma/event_slot_pool.h:62-79 | with any completions between load, compare-and-swap and release it is the atomic Probe at the load; its compare-and-swap never fails |
| EventSlotPools.EventSlotPool.Abort | src/urma/event_slot_pool.h:82-96 | under any schedule of completions, also between compare-and-swap and release, and of spurious failures it is the atomic Abort at the first load |
| EventSlotPools.EventSlotPool.Release | src/urma/event_slot_pool.h:109 | pushes one slot on the free stack |
| SendJettyPools.RemovalKeepsOrder | src/urma/urma_send_lane.h:97-99 | removing an index removes its lane from the queue and keeps the order |
| SendJettyPools.SwapRemoveQueue | src/urma/urma_send_lane.h:97-108 | swap with last and renaming together delete one lane and keep the FIFO order of the others |
| SendJettyPools.SwapRemove | src/urma/urma_send_lane.h:89-110 | and keep map, vector, flags and FIFO consistent |
| SendJettyPools.SendJettyPool.QueueIsFlags | src/urma/urma_send_lane.h:57-86 | a lane is queued if and only if its idle flag is set |
| SendJettyPools.SendJettyPool.Add | src/urma/urma_send_lane.h:46-54 | appends a lane to all four fields; the pool stays consistent if and only if the lane is new, and then the queue grows by it |
| SendJettyPools.SendJettyPool.PopIdle | src/urma/urma_send_lane.h:57-71 | takes the first usable index for any contents; on a consistent pool it skips nothing and pops the head, None only when empty |
| SendJettyPools.SendJettyPool.Release | src/urma/urma_send_lane.h:74-86 | null, foreign and idle lanes are ignored, any other goes to the tail |
| SendJettyPools.SendJettyPool.SwapOut | src/urma/urma_send_lane.h:97-108 | the four fields after the swap with the last lane |
| SendJettyPools.SendJettyPool.Remove | src/urma/urma_send_lane.h:89-110 | the queue loses exactly that lane; false exactly for null and unknown lanes |
| SendJettyPools.SendJettyPool.GetStats | src/urma/urma_send_lane.h:112-120 | the three counts are those of members, queue and lanes in use |
| LaneSystem.RoutedHome | src/urma/urma_manager.cpp:375-385 | a dispatched completion reaches exactly the worker and event that posted it |
| LaneSystem.InvStep | src/urma/urma_manager.cpp:325-385 | every action of workers, hardware and poll thread keeps the bookkeeping: each lane in one place, open requests on held lanes |
| LaneSystem.RunInv | src/urma/urma_manager.cpp:325-385 | the bookkeeping holds in every state of every run, also of the loose ones |
| LaneSystem.FlightStep | src/urma/urma_manager.cpp:334-385 | every action keeps: an undispatched request is still open at its worker, on the lane it was posted on |
| LaneSystem.NewestStep | src/kv_bench.cpp:1086-1106 | every step of workers that follow the rule for events keeps: a request in flight has the newest event of its slot |
| LaneSystem.LaneSafety | src/kv_bench.cpp:867-971 | in every state of every run no idle lane has an undispatched request; its worker still holds the lane, and its event is the newest of the slot |
| LaneSystem.LooseLaneSafety | src/urma/event_slot_pool.h:33-37 | runs without the rule for events are safe while no completion is late by 2^32-1 acquisitions |
| Verdicts.FinishDecides | src/urma/urma_manager.cpp:375-385 | finishing and dispatching a request gives its waiting event exactly that verdict, success or failure, and Probe then reports it |
| Verdicts.RunLasts | src/urma/event_slot_pool.h:50-96 | in every run an event with a verdict keeps it or is gone, and one that is gone stays gone |
| Verdicts.VerdictIsFinal | src/urma/event_slot_pool.h:50-79 | an event that has a verdict has no other status in any later state |
| Verdicts.VerdictHasCause | src/urma/urma_manager.cpp:443-457 | in every run an event has a verdict only if the hardware ended its own request with that verdict before |
| Verdicts.ProbeHasCause | src/urma/urma_manager.cpp:359-365 | and so does every answer of Probe but 0 |
| Verdicts.LateSuccessLost | src/urma/urma_manager.cpp:351-356 | a success between the last look of a wait and its abort is lost: the look answers 0, the abort takes the event, the request stays open |
| LaneSystem.LanesConserved | src/urma/urma_send_lane.h:57-86 | no action creates or loses a lane |
| LaneShares.LanesSuffice | src/kv_bench.cpp:2315-2322 | with enough lanes for the shares of all workers, one that holds less than its share finds an idle lane |
| LaneShares.RunCounts | src/urma/urma_send_lane.h:57-86 | no run creates or loses a lane |
| LaneShares.TakeAll | src/kv_bench.cpp:917-926 | with fewer lanes than shares every run in which workers keep to their shares can be extended so that one below its share is refused |
| LaneShares.NeverRefusedIff | src/kv_bench.cpp:2315-2322 | no worker below its share is refused a lane in any run if and only if the lanes cover all shares |
| PoolSizing.PoolCoversOne | src/kv_bench.cpp:2315-2322 | the pool has ten lanes for each slot of one worker, for all options |
| PoolSizing.LanePoolLeast | src/kv_bench.cpp:2314-2322 | the pool is the least with a lane for each thread, ten for each request of one thread, and as many as were asked for |
| PoolSizing.PoolCoversAll | src/kv_bench.cpp:2315-2322 | for options that are accepted it covers all workers if and only if there is one thread or that many lanes were asked for |
| PoolSizing.PoolNeverShort | src/kv_bench.cpp:2315-2327 | exactly for these options no run is ever short of a lane |
| PoolSizing.ManyThreadsShort | src/kv_bench.cpp:2697-2742 | with more than twenty requests of several threads no accepted jetty count is enough |
| Scenarios.SecondRefused | src/kv_bench.cpp:895-925 | default options but two threads: a run in which the first worker has posted a request and the second is refused its first lane |
| Scenarios.PostsRequest | src/kv_bench.cpp:895-971 | from every initial state with ten lanes there is a run in which worker 0 posts a whole request, with its books in order |
| GenerationWrap.WrapBreaksLaneSafety | src/urma/event_slot_pool.h:33-37 | without the rule a completion late by 2^32-1 acquisitions can put a busy lane in the idle queue, in a run that is none with the rule |
| UrmaManagers.OthersAreSteady | src/urma/urma_manager.cpp:447-456 | nothing a worker relies on is changed by other workers, the hardware or the poll thread |
| UrmaManagers.UrmaManager.constructor | src/urma/urma_manager.cpp:288-302 | workers start with no lanes, no events, 256 free slots and nobody above the share |
| UrmaManagers.UrmaManager.AlwaysSafe | src/kv_bench.cpp:867-971 | lane safety of every state that ever occurred through the manager, without further conditions |
| UrmaManagers.UrmaManager.AcquireSendLane | src/urma/urma_manager.cpp:486-488 | hands out the head of the idle queue, and none only when it is empty; a single worker gets none only when it holds all; a worker below its share among others who keep to theirs gets none only when the lanes do not cover all shares |
| UrmaManagers.UrmaManager.ReleaseSendLane | src/urma/urma_manager.cpp:490-492 | gives back a held lane without open requests, and nothing else of the worker changes |
| UrmaManagers.UrmaManager.PostEvent | src/urma/urma_manager.cpp:325-332 | the next event of its slot, or none exactly when no slot is free |
| UrmaManagers.UrmaManager.PostWrite | src/urma/urma_manager.cpp:657-692 | accepted, the request is open on its lane; refused, nothing changed but the count of refusals |
| UrmaManagers.UrmaManager.ProbeEvent | src/urma/urma_manager.cpp:359-365 | for any token handed out so far: the answer is the status of the event that carries it as seen during the call, 0 only for one seen to wait, and a verdict that is there at the call is the answer; it retires the event |
| UrmaManagers.UrmaManager.AbortEvent | src/urma/urma_manager.cpp:367-373 | for any token handed out so far: the event that carries it is gone, and nothing changes without one |
| UrmaManagers.UrmaManager.WaitEvent | src/urma/urma_manager.cpp:334-357 | for any token handed out so far: true only if the event that carries it was seen to have succeeded during the call, false only if it was seen to have failed, or to wait still after the deadline, or if there is none; a verdict that is there at the call decides; the event is retired, and only success closes the request |
| UrmaManagers.OthersPlayed | src/urma/urma_manager.cpp:447-456 | whatever others play before a step is a run, and the worker relies on nothing that it changes |
| UrmaManagers.CarriesIff | src/urma/event_slot_pool.h:33-37 | a live event carries an old token if and only if a multiple of 2^32-1 acquisitions of the slot lies in between |
| UrmaManagers.SpentWhenRecent | src/urma/event_slot_pool.h:62-79 | a retired event shares its token with no live one within 2^32-1 acquisitions |
| Clients.PoolTable.Acquire | src/urma/event_slot_pool.h:26-48 | an acquisition in the pool of one worker leaves those of all others alone |
| Clients.PoolTable.Probe | src/urma/event_slot_pool.h:62-79 | likewise a probe |
| Clients.PoolTable.Abort | src/urma/event_slot_pool.h:82-96 | likewise an abort |
| Clients.PoolTable.Complete | src/urma/urma_manager.cpp:375-385 | any user context completes in the pool of the worker it names, or is ignored |
| Clients.CompleteKeeps | src/urma/urma_manager.cpp:375-385 | any user context whatsoever keeps the bookkeeping |
| Clients.Client.constructor | src/urma/urma_manager.cpp:288-302 | a lane pool and new event pools are an initial state of the system |
| Clients.Client.AcquireSendLane | src/urma/urma_manager.cpp:486-488 | popping the lane pool is the action of taking a lane; the lane is the head of the idle queue |
| Clients.Client.ReleaseSendLane | src/urma/urma_manager.cpp:490-492 | releasing into the lane pool is the action of giving a lane back |
| Clients.Client.PostEvent | src/urma/urma_manager.cpp:325-332 | acquiring from the event pool is the action of posting an event; the user context names worker and token |
| Clients.Client.ProbeEvent | src/urma/urma_manager.cpp:359-365 | probing the event pool is the action of probing, with the same answer |
| Clients.Client.AbortEvent | src/urma/urma_manager.cpp:367-373 | aborting in the event pool is the action of aborting, with the same answer |
| Clients.Client.CompleteEvent | src/urma/urma_manager.cpp:375-385 | splitting any user context and completing in that pool keeps the objects in a consistent state; for a queued request it is the action of dispatching it |
| RequestBooks.SendStep | src/kv_bench.cpp:878-883 | waiting for one work request retires its event and sets its lane aside exactly if this wait failed |
| RequestBooks.DrainStep | src/kv_bench.cpp:873-892 | draining one more send keeps the exact account of retired events, lanes given back and lanes set aside; the lanes aside are those of exactly the sends on which a wait of this drain failed |
| RequestBooks.TraceWait | src/kv_bench.cpp:877-883 | a failed wait is for a request not gone before; after any wait exactly the lanes of the requests gone are set aside |
| RequestFlow.RollbackRestores | src/kv_bench.cpp:867-893 | after rollback the books are as before the request but for the lanes set aside; every posted work request was waited for |
| RequestFlow.Capacity | src/kv_bench.cpp:66-70 | room for one more request means twenty free event slots and ten lanes of ten for each slot |
| RequestFlow.FleetJoins | src/kv_bench.cpp:969 | a posted request joins the requests in flight, all others untouched |
| RequestFlow.FleetTicks | src/kv_bench.cpp:1026-1029 | a completed work request leaves everything else in place; done_cnt counts the done flags |
| RequestBooks.CountAll | src/kv_bench.cpp:1038-1041 | a count of done flags is 20 exactly when all are set |
| RequestFlow.FleetLeaves | src/kv_bench.cpp:1119-1162 | a drained request leaves; it had exactly 20 - done_cnt work requests to wait for, and the lanes lost are those of the sends with a failed wait |
| RequestFlow.SweepStays | src/kv_bench.cpp:1057-1062 | replacing a finished request with the last one skips none and repeats none |
| RequestFlow.RosterRetires | src/kv_bench.cpp:1057-1060 | active list and free stack stay a partition of the slots |
| RequestFlow.RosterPosts | src/kv_bench.cpp:1083-1084 | likewise when a slot is taken |
| RequestFlow.NoneInFlight | src/kv_bench.cpp:1116-1165 | with an empty active list no event is live and only quarantined lanes are held |
| Pipelines.BenchWorker.constructor | src/kv_bench.cpp:1867-1890 | concurrency clamped to 1..10, all slots free, nothing counted, nothing gone |
| Pipelines.BenchWorker.DrainSlot | src/kv_bench.cpp:867-893 | waits for every posted undone work request and gives back exactly the lanes on which no wait of this drain failed; `failed` is the number of requests newly gone, all of the sends `bad`, each seen without success during the drain |
| Pipelines.BenchWorker.ForgetLane | src/kv_bench.cpp:885-891 | a lane is given back or not, and the slot forgets it |
| Pipelines.BenchWorker.PostWr | src/kv_bench.cpp:933-967 | one event and one post; it fails only if the library refused, and leaves no trace |
| Pipelines.BenchWorker.PostNext | src/kv_bench.cpp:913-968 | a failure at any step of a work request restores slot and books |
| Pipelines.BenchWorker.Rollback | src/kv_bench.cpp:867-893 | all tokens retired, each lane given back or aside, aside exactly the lanes on which a wait of this rollback failed, failed + recorded = posted |
| Pipelines.BenchWorker.PostOneReq | src/kv_bench.cpp:895-971 | all twenty posted and in flight, or everything as before but the lanes of exactly the sends on which a wait failed; events never run out; lanes run out only if there are fewer than ten for each slot of a lone worker, or fewer than the shares of all workers |
| Pipelines.BenchWorker.ProbeSlot | src/kv_bench.cpp:1012-1030 | every work request is done or its event was seen to wait; it fails only on an event seen to have failed; recorded plus live work requests are conserved; done flags and done_cnt agree |
| Sightings.ThroughNotBusy | src/kv_bench.cpp:1015-1041 | a request whose undone events had all succeeded is not left in flight by a pass |
| Sightings.ScanEnds | src/kv_bench.cpp:1010-1063 | nor is any such request of the whole list |
| Sightings.ScanCollects | src/kv_bench.cpp:1042-1056 | so the list is shorter by at least the number of requests that had come through |
| Sightings.SuccessNotMissed | src/urma/urma_manager.cpp:334-357 | an event that had succeeded is never among the failed waits |
| Sightings.ThroughNotExcused | src/kv_bench.cpp:1434-1445 | a get request whose twenty events had all succeeded, with nothing collected, is not an error at drain |
| Pipelines.BenchWorker.RetireSlot | src/kv_bench.cpp:1119-1162 | counts the request if and only if no wait failed, frees the slot, conserves work requests, and sets aside the lanes of exactly the sends with a failed wait |
| Pipelines.BenchWorker.Scan | src/kv_bench.cpp:1010-1063 | every request in flight is looked at exactly once; each that is left has an event seen to wait, so none that had come through at the start is left; each one gone is one more op; it fails only on an event seen to have failed; req_active equals active_count |
| Pipelines.BenchWorker.SendRequests | src/kv_bench.cpp:1066-1095 | posts as many requests as there is time for, up to the limit; the free stack never runs out before; posted requests are numbered and counted; it fails only if the library refused or lanes are scarce |
| Pipelines.BenchWorker.Round | src/kv_bench.cpp:1006-1095 | ops grows by at least the number of requests that had come through at its start; requests and work requests are conserved; with time enough the pipeline is full at its end |
| Pipelines.BenchWorker.Cycle | src/kv_bench.cpp:1005-1106 | hist_wr = 20 ops + the done_cnt in flight, requests = ops + active, events never exhausted; with time enough in its last round the pipeline is full |
| Pipelines.BenchWorker.DrainAll | src/kv_bench.cpp:1116-1165 | empties the active list; timed-out or failed work requests plus recorded ones account for all; the failures are exactly the requests newly gone, all of requests in flight, each seen without success during the drain; a request is lost if and only if one failed |
| Pipelines.BenchWorker.FinishWrite | src/kv_bench.cpp:1112-1168 | after the drain no event is live, errors grew by the number of requests newly gone, and the lanes held are the quarantined ones |
| Pipelines.BenchWorker.WritePipeline | src/kv_bench.cpp:978-1168 | every state the manager goes through is lane-safe; at the end hist_wr + errors = 20 requests, no event live, errors = requests gone, the lanes held are exactly those of the requests gone, none exactly if no error; it ends early only on a probe that saw a failure, a refusal by the library or scarce lanes; lanes never run out when there are ten for each slot of a lone worker, or for each slot of every worker |
| GetDrains.GetEnds | src/kv_bench.cpp:1426-1464 | a drained get request gives back all ten lanes or sets all ten aside, and completes if and only if all twenty are recorded |
| GetDrains.SpentWhileRecent | src/kv_bench.cpp:1424-1445 | if the slot of each collected work request was acquired fewer than 2^32-1 times since, none shares its token with a live event |
| GetDrains.RecentWhenUnwrapped | src/urma/event_slot_pool.h:33-37 | which holds as long as no slot was acquired more than 2^32-1 times in all |
| GetDrains.UseFromBooks | src/kv_bench.cpp:1424-1464 | in the state in which the drain begins only the own work requests of a request in flight are open on its lanes |
| Pipelines.BenchWorker.EmptyGetSlot | src/kv_bench.cpp:1426-1460 | always: ten lanes go back if all twenty waits succeeded, and none otherwise; without shared tokens a get request completes if and only if all twenty are recorded now, so not once one was collected, and otherwise its ten lanes are aside |
| Pipelines.BenchWorker.RetireGetSlot | src/kv_bench.cpp:1424-1464 | counts the request if and only if it completed and frees its slot |
| Pipelines.BenchWorker.DrainGet | src/kv_bench.cpp:1424-1467 | always: empties the active list, counts each request as complete or as one error, and gives back ten lanes for each complete one; without shared tokens the books stay exact, ten lanes aside for each error, no work request is recorded twice, only requests of which nothing was collected complete, and each other one had something collected or an event seen without success |
| Pipelines.BenchWorker.GetPipeline | src/kv_bench.cpp:1293-1470 | every state the manager goes through is lane-safe and ops + errors = requests; as long as what was collected of the requests in flight is recent, no event is live at the end, ten lanes are held for each error, 20 ops <= hist_wr <= 20 requests, and a request of which anything was collected is an error |
| Scenarios.PartlyCollected | src/kv_bench.cpp:1320-1341 | such a request occurs: a run leads to books in order with a request of which one of twenty work requests is collected |
| HistCoding.Bucket | src/hist.h:146-153 | bucket 0 below half_count, and otherwise the power-of-two bracket of the value |
| HistCoding.SplitRecovers | src/hist.h:294-295 | shift and mask recover bucket and sub-bucket |
| HistCoding.CodingBrackets | src/hist.h:146-163 | sub·2^bucket <= v < (sub+1)·2^bucket |
| HistCoding.IndexMonotone | src/hist.h:146-172 | larger values have no smaller index |
| HistCoding.ReportedMonotone | src/hist.h:146-163 | what is reported for a larger value is no less, for any lowest |
| HistCoding.CodingError | src/hist.h:160-163 | reported value is v+1 below half_count, and at most 2v/half_count too much above |
| HistCoding.NothingDropped | src/hist.h:165-175 | with lowest 1 every value up to highest has an index in the array |
| HistCoding.CountedIff | src/hist.h:173-175 | for any lowest, all values in range are counted if and only if highest < 2^(magnitude - 1 + buckets) |
| HistCoding.InBuckets | src/hist.h:146-153 | the values of the first buckets are those below half_count times the power of two of their number |
| HistCoding.UnitOneDrops | src/hist.h:146-175 | with lowest 2 and highest 4094 the value 4094 is dropped |
| HistSizing.CeilLog2Least | src/hist.h:57-64 | the ceiling logarithm is the least sufficient exponent |
| HistSizing.ResolvesDigits | src/hist.h:75-89 | half_count is the least power of two that is at least ten to the number of significant digits |
| HistSizing.DigitsError | src/hist.h:75-89 | what is reported is one more than the value, or too much by at most two units of the last significant digit |
| HistSizing.SizingEnds | src/hist.h:93-98 | the sizing loop ends if and only if highest is at most (2^m-1)·2^(64-m) |
| HistSizing.Configure | src/hist.h:67-108 | rejects exactly the empty ranges and lowest 0; otherwise the fewest buckets that cover highest |
| HistSamples.TallyConcat | src/hist.h:188-203 | counting two batches is adding their counts |
| HistSamples.RankIsSorted | src/hist.h:290-298 | the index where the running count reaches rank k is that of the k-th smallest sample |
| HistSamples.ReportedBounds | src/hist.h:302-317 | the weighted sum exceeds the true sum by at least one and at most one per sample plus 2/half_count of it |
| HistSamples.ExtremesAre | src/hist.h:180-185 | min and max are attained and bound every sample |
| HistSamples.LeastIs | src/hist.h:257-274 | the running minimum over counted indices is attained, or the start value, and no counted value is less |
| HistSamples.GreatestIs | src/hist.h:257-274 | likewise for the maximum |
| Histograms.Rank | src/hist.h:282-289 | between 1 and the total, and the share of the samples that the percentile asks for, rounded to the nearest, or 1 below one half |
| Histograms.RankMonotone | src/hist.h:282-289 | higher percentiles ask for no lower ranks |
| Histograms.PercentilesRise | src/hist.h:277-300 | and the values reported for them are no less |
| Histograms.Hist.Reset | src/hist.h:117-126 | the histogram of no samples |
| Histograms.Hist.Record | src/hist.h:165-186 | adds the clamped sample, dropped exactly when its index is outside the array, never with lowest 1 |
| Histograms.Hist.Merge | src/hist.h:188-210 | adds counts, cut off at the own length, total, min and max, also of itself; with the same layout it is the histogram of all samples together |
| Histograms.Hist.Copy | src/hist.h:128-144 | cut off or filled up with zeros; an equal histogram when the lengths agree |
| Histograms.Hist.Scan | src/hist.h:290-299 | the first index with running count at least the rank; the fall-through is unreachable |
| Histograms.Hist.ValueAtPercentile | src/hist.h:277-300 | the ranked sample of any sorted order, within the coding error; 0 when empty |
| Histograms.Hist.Mean | src/hist.h:302-317 | weighted sum over total, with the bounds on the sum |
| Histograms.Hist.Delta | src/hist.h:242-275 | added counts index by index, as far as all three arrays reach, their total, and the least and greatest value with an added count |
| LatencyWindows.RecordingGrows | src/hist.h:176-177 | recording only makes counts grow |
| LatencyWindows.MergeSnapshot | src/hist.h:213-239 | each count taken, up to the shorter length, lies between those before and after, while recorders go on; min and max are the least and greatest value counted |
| LatencyWindows.SnapshotsGrow | src/kv_bench.cpp:1750-1767 | a later snapshot has no smaller count, so delta's fallback is never taken |
| LatencyWindows.LatencyWindow.Sample | src/kv_bench.cpp:1750-1767 | the interval is exactly the difference of two snapshots, each between the live counts before and after |
| LatencyWindows.LatencyWindow.Watch | src/kv_bench.cpp:1750-1767 | all intervals together are the last snapshot less the first, index by index |
| Clocks.OneAdmissible | src/clock.cpp:48-53 | shift 1 always fits, so the search ends through its break |
| Clocks.NoOverflow | src/clock.cpp:42-47 | cycles·mult < 2^64 for all cycles of 600 seconds |
| Clocks.MultRounds | src/clock.cpp:50 | twice the distance of mult·freq from 10^9·2^shift is at most freq |
| Clocks.MultFits | src/clock.cpp:50 | the 64-bit numerator does not wrap for any shift, so the multiplier is the mathematical one |
| Clocks.MultZeroIff | src/clock.cpp:48-56 | the multiplier found is 0, which reads as not calibrated, if and only if 600·freq is at least 2^63 |
| Clocks.Clock.CalcMultShift | src/clock.cpp:32-57 | the largest admissible shift in 1..32 and its multiplier; the multiplier is 0 exactly for frequency 0 and from 600·freq = 2^63 on |
| Clocks.ConversionMonotone | src/clock.cpp:139 | monotone in the window, in 64-bit arithmetic |
| Clocks.ConversionError | src/clock.cpp:139 | off by at most one nanosecond and half a multiplier unit per cycle |
| ChipSchedules.PrefixFair | src/kv_bench.cpp:712-724 | for every prefix of n sends -total <= 2(n·w1 - c1·total) < total |
| ChipSchedules.RoundFair | src/kv_bench.cpp:712-724 | any w1+w2 sends in a row give chip 1 exactly w1 |
| ChipSchedules.Periodic | src/kv_bench.cpp:712-724 | the choices have period w1+w2 |
| ChipSchedules.EqualAlternate | src/kv_bench.cpp:700-703 | equal weights alternate |
| ChipSchedules.SevenToThree | src/kv_bench.cpp:700-703 | 7:3 gives 1,2,1,1,1,2,1,1,2,1 |
| ChipSchedules.PickWeightedChip | src/kv_bench.cpp:704-727 | the recomputation in 32-bit arithmetic agrees with one running allocator |
| BufferLayouts.Context.LayoutClientBuffer | src/kv_bench.cpp:435-456 | the least length with a block for each request in flight of each thread, ten values each for reading, or four values for each thread; and the least whole number of pages |
| BufferLayouts.Context.LayoutServerBuffer | src/kv_bench.cpp:458-472 | the least length with ten blocks or values for each of ten requests, or four values; and the least whole number of pages |
| BufferLayouts.WindowCovers | src/kv_bench.cpp:440-443 | the layout counts every slot that a worker uses |
| BufferLayouts.GetTargetsApart | src/kv_bench.cpp:1218-1225 | no two READs of any workers, slots, sends and halves share a byte |
| BufferLayouts.GetTargetsInside | src/kv_bench.cpp:1266-1272 | all stay inside the client's data |
| BufferLayouts.WriteTargetsApart | src/kv_bench.cpp:901-905 | no two WRITEs of one worker share a byte of the server's data |
| BufferLayouts.WriteTargetsInside | src/kv_bench.cpp:946-952 | all stay inside it when both ends use the same size |
| BufferLayouts.WriteSourcesApart | src/kv_bench.cpp:901-949 | the two halves of a slot's source block, and those of different slots, share no byte |
| BufferLayouts.WriteSourcesInside | src/kv_bench.cpp:946-949 | all sources stay inside the client's data |
| BufferLayouts.GetSourcesInside | src/kv_bench.cpp:1224-1271 | all sources of READs stay inside the server's data |
| BufferLayouts.MixedInside | src/kv_bench.cpp:774-785 | in the mixed mode both values of every round stay inside the client's data, and both remote values inside the server's |

## Where the code differs from its documentation

* DESIGN.md describes an older request shape in places; the model follows the code: ten sends of two
  work requests each.
* DESIGN.md and a comment in event_slot_pool.h say that a late completion can never hit a newer event. For the
  class by itself that holds up to 2^32-2 acquisitions of the slot and fails at 2^32-1
  (`EventHistory.LateCompletionHits`). The client never gets there, because its workers acquire nothing
  after a failure (`LaneSystem.LaneSafety`).
* The comments in the get pipeline call it isomorphic to the write pipeline. Its drain is not: it also
  waits for work requests that were already collected. Such a wait fails unless a live event carries the same
  token (`UrmaManagers.UrmaManager.WaitEvent`), which takes a multiple of 2^32-1 acquisitions of the slot
  (`UrmaManagers.CarriesIff`). Short of that, a request of which anything was collected is counted
  as an error at drain (`Pipelines.BenchWorker.DrainGet`); `Scenarios.PartlyCollected` leads to one.
* A wait that returns false need not mean that the request failed or is late: a success that comes between the last
  look and the abort is thrown away (`Verdicts.LateSuccessLost`). What holds is that the event was seen waiting, or
  failed, during the wait (`UrmaManagers.UrmaManager.WaitEvent`).
* README.md, DESIGN.md and comments in the get pipeline say that a worker waits when the lane pool is empty. In
  the code posting fails, the request is rolled back, and the pipeline ends with an error. It can happen exactly
  when several threads run and fewer lanes were asked for than they use (`PoolSizing.PoolNeverShort`,
  `Scenarios.SecondRefused`).
* Histograms ignore the unit of `lowest` when they choose a bucket, so that with `lowest` above 1 values in
  range can be dropped (`HistCoding.UnitOneDrops`, exactly when: `HistCoding.CountedIff`). Every caller
  uses 1.

## Left out

- Pipelines.BenchWorker.DrainGet: its books are exact only if no collected work request shares its token with a live event, because a shared token lets a wait strike another request; how many work requests it records is bounded on both sides and not summed up, because waits on collected ones fail.
- Pipelines.BenchWorker.EmptyGetSlot: likewise.
- Pipelines.BenchWorker.GetPipeline: its final books are exact only if the slot of each work request that was collected of a request in flight was acquired fewer than 2^32-1 times since; lane safety and the count of requests need no such bound.
- Pipelines.BenchWorker.WritePipeline: after a failed probe only the books are guaranteed, because the source returns at once and leaves its requests in flight.
- Pipelines.BenchWorker.PostOneReq: requires that no lane is set aside, because the callers stop at the first failure.
- Pipelines.BenchWorker.PostWr: likewise.
- Pipelines.BenchWorker.PostNext: likewise.
- UrmaManagers.UrmaManager.ReleaseSendLane: requires a held lane without open requests; the source takes any lane, and this is the duty of its callers.
- UrmaManagers.UrmaManager.PostEvent: requires that every open request still has its event; the source has no such test, and this is the duty of its callers.
- Clients.Client.ReleaseSendLane: requires the same as a step of the system.
- Clients.Client.CompleteEvent: like the other calls on the objects it is taken without interference; what interference does to it is in `EventSlotPools`.
- Clocks.Clock.CalcMultShift: for 600·freq below 2^64, frequencies up to 3·10^16 Hz; beyond that the product wraps.
- HistSizing.Configure: requires that the sizing loop ends and that the unit and the sub-buckets together fit 64 bits.
- Histograms.Hist.Delta: not into one of the two histograms it compares.
- Histograms.Hist.ValueAtPercentile: the percentile is a real number from 0 up, because the source converts a negative product to an unsigned number, which C++ leaves undefined; rounding of doubles is not modelled.
- ChipSchedules.PickWeightedChip: for (send+1)·(w1+w2) below 2^31, where the 32-bit debts do not overflow.
- BufferLayouts.GetTargetsApart: addresses are unbounded numbers; 64-bit overflow of sizes is not modelled.
- The get pipeline's own scan and post loops: the same as the write pipeline's, with READ for WRITE.
- The latency histogram of posts (hist_post), request numbers, timing statistics and log lines.
- Synchronous mixed mode, but for its addresses, and dual-device mode: simpler cases of the same lane and token discipline; such workers occur only as others, who follow the two rules.
- liburma calls, connection set-up, buffer registration, thread pinning, NUMA placement and option parsing.
- Random chip choice of the anti and none modes, and the frequency calibration of the clock.
- Memory orders weaker than sequential consistency.
