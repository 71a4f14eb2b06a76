# Memcached runner loop: scheduler and topology reconciliation

A Dafny model of `MemcachedRunnerAbstract`, the loop at the heart of mewpoke. The loop
interleaves three recurring activities: topology refresh (`UPDATE_TOPOLOGY`), idle wait
(`WAIT`) and health poke (`POKE`). On refresh it reconciles the monitored memcached
groups with what discovery reports, tearing down and rebuilding the per-group monitors
and metrics holders.

The model is a pure state machine:

- `events.dfy` (module `Events`): the three activities and their next-fire timestamps
  (`Ticks`, the enum's mutable `nexTick` fields as one immutable record). It also holds
  the rescheduling rule and the WAIT sleep duration.
- `event_order.dfy` (module `EventOrder`): the re-sort after every iteration, a stable
  insertion sort by next-fire timestamp. It is proved sorted and a permutation. It is also
  proved stable: for every instant, the activities due then keep their previous relative
  order. Any list with these properties equals the one computed here.
- `topology.dfy` (module `Topology`): the `services`, `monitors` and `metrics` tables,
  the refresh reconciliation, and the final release done by `close()`. A `Ledger` records
  every construction, every release and every monitor construction attempt, as multisets.
  Metrics holders are created with `new`, so each is a fresh object. Monitors come from
  `MemcachedMonitor.fromNodes`, and each monitor it returns is assumed to be fresh as
  well. The model expresses object identity by stamping every monitor and metrics holder
  with the generation of tables that built it.
- `runner.dfy` (module `Runner`): the whole runner state, the state right after
  construction, one loop iteration (`Step`), finite runs, and `close()`.
- `scenarios.dfy` (module `Scenarios`): small concrete refresh scenarios.
- `wrappers.dfy` (module `Wrappers`): `Option`, for `java.util.Optional`.

Inputs that the source reads from the outside world are parameters:
- the clock reads: `start`, before dispatch, and `now`, read by WAIT before sleeping;
- the discovery answer of each iteration;
- monitor construction (`MemcachedMonitor.fromNodes`): an arbitrary total function
  `(Service, set<Addr>, timeoutMs) -> Option<C>`, whose payload `C` is opaque. Each
  iteration of a run brings its own function, so a group can succeed in one refresh and
  fail in the next even when its nodes are unchanged;
- the settings `tickRate`, `refreshMs` and `timeoutMs`, in milliseconds.

The source of `IDiscovery.areServicesEquals` is not available; it is modelled as value
equality of the two `map<Service, set<Addr>>`, which compares key sets and address sets
by membership.

## Model

| member | source | states |
|---|---|---|
| Events.Uniform | src/main/java/com/criteo/nosql/mewpoke/memcached/MemcachedRunnerAbstract.java:160-169 | every activity starts due at the same instant |
| Events.DeclaredIsSchedule | src/main/java/com/criteo/nosql/mewpoke/memcached/MemcachedRunnerAbstract.java:61 | the initial list has three entries and holds each of the three activities exactly once |
| Events.ScheduleShape | src/main/java/com/criteo/nosql/mewpoke/memcached/MemcachedRunnerAbstract.java:61 | a schedule has exactly three distinct entries and contains every activity |
| Events.Reschedule | src/main/java/com/criteo/nosql/mewpoke/memcached/MemcachedRunnerAbstract.java:77-96 | WAIT becomes `start + tickRate - 1` whatever ran; a just-run refresh becomes `start + refreshMs`; a just-run poke becomes `start + tickRate`; no other timestamp changes |
| Events.SleepFor | src/main/java/com/criteo/nosql/mewpoke/memcached/MemcachedRunnerAbstract.java:100-102 | the WAIT sleep is never negative; it ends at the later of WAIT's timestamp and `now`; it is zero exactly when the timestamp is not in the future |
| EventOrder.SortByTick | src/main/java/com/criteo/nosql/mewpoke/memcached/MemcachedRunnerAbstract.java:73 | the re-sorted list is sorted by timestamp, a permutation of the old list, and keeps the old relative order of activities due at the same instant |
| EventOrder.InsertKeepsSorted | src/main/java/com/criteo/nosql/mewpoke/memcached/MemcachedRunnerAbstract.java:73 | inserting into a sorted list keeps it sorted |
| EventOrder.InsertIsStable | src/main/java/com/criteo/nosql/mewpoke/memcached/MemcachedRunnerAbstract.java:73 | insertion keeps the relative order of activities due at each instant |
| EventOrder.StableSortIsUnique | src/main/java/com/criteo/nosql/mewpoke/memcached/MemcachedRunnerAbstract.java:73 | two sorted lists that agree on the order of the activities due at every instant are equal |
| EventOrder.StableSortCharacterised | src/main/java/com/criteo/nosql/mewpoke/memcached/MemcachedRunnerAbstract.java:73 | a list is a stable sort of the old list if and only if it is the one the re-sort computes |
| EventOrder.SortedHeadIsEarliest | src/main/java/com/criteo/nosql/mewpoke/memcached/MemcachedRunnerAbstract.java:67-73 | the head of a sorted list is due no later than any listed activity |
| Topology.Empty | src/main/java/com/criteo/nosql/mewpoke/memcached/MemcachedRunnerAbstract.java:35-37 | a new runner has empty `services`, `monitors` and `metrics` and holds nothing |
| Topology.EmptyIsValid | src/main/java/com/criteo/nosql/mewpoke/memcached/MemcachedRunnerAbstract.java:35-37 | the initial tables satisfy the table and ledger invariant |
| Topology.Connect | src/main/java/com/criteo/nosql/mewpoke/memcached/MemcachedRunnerAbstract.java:128-131 | a group's monitor is present exactly when its construction attempt succeeded, bound to that group and generation |
| Topology.Refresh | src/main/java/com/criteo/nosql/mewpoke/memcached/MemcachedRunnerAbstract.java:108-137 | an empty answer changes nothing; an answer equal to `services` changes nothing; otherwise every held object is released, `services` becomes the answer, and each group gets one construction attempt and one metrics holder, with monitor and metrics keys equal to the answer's keys |
| Topology.LedgerReplace | src/main/java/com/criteo/nosql/mewpoke/memcached/MemcachedRunnerAbstract.java:122-136 | releasing the held objects and constructing never-seen ones keeps the ledger balanced with no handle constructed twice |
| Topology.RefreshKeepsValid | src/main/java/com/criteo/nosql/mewpoke/memcached/MemcachedRunnerAbstract.java:108-137 | a refresh keeps the tables covering the same groups and the ledger balanced |
| Topology.ChangeReplacesWholeGeneration | src/main/java/com/criteo/nosql/mewpoke/memcached/MemcachedRunnerAbstract.java:121-136 | on a change, every object of the old generation is released exactly once, including unchanged groups' objects; no other release count moves; the new objects are constructed once and not released; old and new generations share no object |
| Topology.HeldIsCurrent | src/main/java/com/criteo/nosql/mewpoke/memcached/MemcachedRunnerAbstract.java:121-136 | every held object belongs to the current generation |
| Topology.NoLeakNoDoubleRelease | src/main/java/com/criteo/nosql/mewpoke/memcached/MemcachedRunnerAbstract.java:121-136 | releases never exceed constructions, no object is released twice, and what was constructed but not released is exactly what the tables hold |
| Topology.RefreshAllBalances | src/main/java/com/criteo/nosql/mewpoke/memcached/MemcachedRunnerAbstract.java:108-137 | after any finite sequence of refreshes, each with its own discovery answer and monitor construction, the releases equal the constructions of every generation but the current one, and no object of the current generation has been released |
| Topology.ReleaseAll | src/main/java/com/criteo/nosql/mewpoke/memcached/MemcachedRunnerAbstract.java:147-158 | closing releases each present monitor and each metrics holder once and leaves the tables in place |
| Topology.ReleaseAllBalances | src/main/java/com/criteo/nosql/mewpoke/memcached/MemcachedRunnerAbstract.java:147-158 | after the final release, every object ever constructed has been released exactly once |
| Runner.Init | src/main/java/com/criteo/nosql/mewpoke/memcached/MemcachedRunnerAbstract.java:58-65 | the loop starts with the list UPDATE_TOPOLOGY, WAIT, POKE (a schedule), all due at one instant, empty tables, an empty ledger, the given settings and discovery open |
| Runner.InitIsValid | src/main/java/com/criteo/nosql/mewpoke/memcached/MemcachedRunnerAbstract.java:58-65 | the starting state is a sorted schedule with consistent tables |
| Runner.Step | src/main/java/com/criteo/nosql/mewpoke/memcached/MemcachedRunnerAbstract.java:65-74 | one iteration dispatches the head of the list, sleeps only for WAIT, reschedules by kind, re-sorts stably, and touches the tables only on refresh |
| Runner.StepKeepsValid | src/main/java/com/criteo/nosql/mewpoke/memcached/MemcachedRunnerAbstract.java:65-74 | every iteration keeps the list a sorted schedule of the three activities and keeps the tables consistent |
| Runner.DispatchesEarliest | src/main/java/com/criteo/nosql/mewpoke/memcached/MemcachedRunnerAbstract.java:67-73 | the dispatched activity is due no later than any other |
| Runner.PokeNeverRunsTwiceInARow | src/main/java/com/criteo/nosql/mewpoke/memcached/MemcachedRunnerAbstract.java:83-93 | after a poke, the next dispatched activity is not a poke |
| Runner.RefreshNeverRunsTwiceInARow | src/main/java/com/criteo/nosql/mewpoke/memcached/MemcachedRunnerAbstract.java:83-90 | with a refresh period at least the poke period, a refresh is never dispatched twice in a row |
| Runner.ShortRefreshRunsRefreshAgain | src/main/java/com/criteo/nosql/mewpoke/memcached/MemcachedRunnerAbstract.java:73-89 | with a refresh period shorter than the poke period and the poke not yet due, a refresh is dispatched again straight after a refresh, ties with WAIT going to the refresh |
| Runner.Run | src/main/java/com/criteo/nosql/mewpoke/memcached/MemcachedRunnerAbstract.java:65-74 | a finite run keeps the list a schedule and keeps the settings and the discovery flag; after at least one iteration the list is sorted by due time and WAIT is due one millisecond before a poke period after the last iteration's start |
| Runner.RunKeepsValid | src/main/java/com/criteo/nosql/mewpoke/memcached/MemcachedRunnerAbstract.java:65-74 | any finite run keeps the runner consistent |
| Runner.Close | src/main/java/com/criteo/nosql/mewpoke/memcached/MemcachedRunnerAbstract.java:147-158 | closing shuts discovery and releases each held object once; the membership, monitor and metrics tables, the list, the timestamps, the settings, the constructions and the construction attempts are unchanged |
| Runner.CloseAfterRunReleasesEverything | src/main/java/com/criteo/nosql/mewpoke/memcached/MemcachedRunnerAbstract.java:147-158 | after any finite run from construction, closing leaves every object ever constructed released exactly once |
| Scenarios.FirstDiscoveryInstallsGroup | src/main/java/com/criteo/nosql/mewpoke/memcached/MemcachedRunnerAbstract.java:118-136 | from the empty start, a one-group answer makes one attempt and one metrics holder and releases nothing |
| Scenarios.SameAnswerIsNoOp | src/main/java/com/criteo/nosql/mewpoke/memcached/MemcachedRunnerAbstract.java:118-119 | an answer identical to the current membership changes nothing |
| Scenarios.EmptyAnswerKeepsMembership | src/main/java/com/criteo/nosql/mewpoke/memcached/MemcachedRunnerAbstract.java:109-115 | an empty answer keeps a non-empty membership |
| Scenarios.RemovingOneGroupReleasesBoth | src/main/java/com/criteo/nosql/mewpoke/memcached/MemcachedRunnerAbstract.java:121-124 | removing one group releases both groups' metrics holders, and each group's monitor when present, exactly once |
| Scenarios.RemovingOneGroupRebuildsTheOther | src/main/java/com/criteo/nosql/mewpoke/memcached/MemcachedRunnerAbstract.java:127-136 | removing one group leaves only the other in the monitor and metrics tables, with one new construction attempt and a new metrics holder of the next generation, constructed once |

## Left out

- Real suspension. `Thread.sleep` and its interruption handling are not modelled. WAIT only computes its sleep duration (`Iteration.slept`).
- Clock reads. `System.currentTimeMillis` values are parameters. The stop time serves only the duration log, so it is left out.
- Logging. This includes the warning when an operation takes longer than one tick; it is observability only.
- Discovery construction. `buildDiscovery` and the `Consul` and `Dns` backends are foreign classes whose behaviour is not visible. Their answers are inputs. Closing discovery is the `discoveryOpen` flag.
- Configuration parsing. `Long.parseLong`, `getOrDefault`, and the second-to-millisecond and minute-to-millisecond conversions are left out. The settings arrive already in milliseconds.
- The poke body. It is abstract, and the model treats it as a step that leaves the tables unchanged.
- `MemcachedMonitor` and `MemcachedMetrics` internals and the memcached protocol. They are opaque objects whose only visible event is their release.
- Exceptions thrown by release calls or by monitor construction. A release that throws during a refresh would end the loop; `close()` catches monitor release errors only. The model assumes every release succeeds.
- The endless `for(;;)`. Properties are stated per iteration and over finite runs (`Runner.Run`).
- The order of release calls. Java iterates a hash map's values, so this order is unspecified; the ledger records releases as multisets.
- Runner.Step: timestamps are unbounded integers. Java's 64-bit `long` wrap-around in `start + tickRate` is not modelled, because it needs timestamps near 2^63 ms.
- Runner.Init: the three enum constants each read the clock separately, so their initial timestamps can differ by a few milliseconds. The model starts all three at one instant `t0`.
- The `nexTick` fields are instance fields of the enum constants. Each constant is a single object for the whole JVM, so the timestamps are shared between runner instances. The model gives each runner its own `Ticks`.
- Topology.Refresh: `areServicesEquals` is taken to be value equality of the two maps.
- Topology.Refresh: every successful `fromNodes` call is assumed to return a fresh monitor object. A monitor's identity is its generation and group, not the value `fromNodes` returns. So "no monitor is released twice" does not cover a `fromNodes` that hands back an object a previous generation still holds; `fromNodes` is not part of this model.
- Topology.Refresh: within one refresh, `fromNodes` is a function of its arguments. This loses nothing, because each group is attempted exactly once per refresh. Across refreshes, each iteration of `Runner.Run` and each round of `Topology.RefreshAll` supplies its own function.

## Behaviour worth knowing

- Ties in the re-sort are broken by the list's previous order, not by declaration order. `Collections.sort` is stable on the list left by the last iteration. When a refresh ties with WAIT, it is listed first and runs again.
- A refresh period shorter than the poke period makes a refresh run twice in a row while the poke is not due (`Runner.ShortRefreshRunsRefreshAgain`). The settings allow this: `tickRateInSec` = 120 with a one-minute refresh gives a refresh period of 60000 ms against a poke period of 120000 ms. An exact tie (refresh period one millisecond below the poke period) cannot come from the settings, which are whole seconds and whole minutes.
- WAIT need not fire between two non-WAIT activities. After a refresh, an overdue poke runs next. Only the two "never twice in a row" lemmas hold in general.
- The first iteration dispatches UPDATE_TOPOLOGY without sorting first. Because all activities start due at one instant, it is still the earliest one (`Runner.InitIsValid`, `Runner.DispatchesEarliest`).
