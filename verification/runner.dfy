/**
 The runner loop: one iteration dispatches the head of the activity list, reschedules,
 and re-sorts the list; the refresh activity reconciles the topology, the idle activity
 sleeps, and the poke activity hands the tables to the deployment-specific health check.

 Clock readings, discovery results and the behaviour of monitor construction are inputs
 of each iteration.
 */
module Runner {
  import opened Wrappers
  import opened Events
  import opened EventOrder
  import opened Topology

  /**
   The fixed settings: the poke period, the refresh period and the monitor construction
   timeout, all in milliseconds.
   */
  datatype Config = Config(tickRate: int, refreshMs: int, timeoutMs: int)

  /** The whole runner state: settings, activity list, next-fire times, tables, discovery. */
  datatype Runner<C> = Runner(
    cfg: Config,
    order: seq<Event>,
    ticks: Ticks,
    tables: Tables<C>,
    discoveryOpen: bool)

  /**
   The runner as constructed and about to loop: the activities listed in declaration
   order, all due at the instant `t0`, empty tables, discovery open.
   */
  function Init<C>(cfg: Config, t0: int): (r: Runner<C>)
    ensures r.order == [UpdateTopology, Wait, Poke] && IsSchedule(r.order)
    ensures forall e :: r.ticks.At(e) == t0
    ensures r.tables.services == map[] && r.tables.monitors == map[] && r.tables.metrics == map[]
    ensures r.tables.ledger == Ledger(multiset{}, multiset{}, multiset{})
    ensures r.cfg == cfg && r.discoveryOpen
  {
    DeclaredIsSchedule();
    Runner(cfg, Declared, Uniform(t0), Empty(), true)
  }

  /** The runner's consistency: a sorted schedule of the three activities and consistent tables. */
  ghost predicate Valid<C>(r: Runner<C>) {
    && IsSchedule(r.order)
    && SortedBy(r.order, r.ticks)
    && TablesValid(r.tables)
  }

  lemma InitIsValid<C>(cfg: Config, t0: int)
    ensures Valid(Init<C>(cfg, t0))
  {
    DeclaredIsSchedule();
  }

  /** What one iteration did: the activity it ran, how long it slept, and the new state. */
  datatype Iteration<C> = Iteration(dispatched: Event, slept: nat, next: Runner<C>)

  /**
   One loop iteration. `start` is the clock read before dispatch, `now` the clock read by
   the idle activity before sleeping, `discovered` what discovery would answer.
   */
  function Step<C>(r: Runner<C>, start: int, now: int, discovered: Snapshot, fromNodes: FromNodes<C>): (it: Iteration<C>)
    requires IsSchedule(r.order)
    ensures it.dispatched == r.order[0]
    ensures it.dispatched == Wait ==> now + it.slept == if r.ticks.At(Wait) > now then r.ticks.At(Wait) else now
    ensures it.dispatched != Wait ==> it.slept == 0
    ensures it.next.ticks.At(Wait) == start + r.cfg.tickRate - 1
    ensures it.dispatched == UpdateTopology ==> it.next.ticks.At(UpdateTopology) == start + r.cfg.refreshMs
    ensures it.dispatched == Poke ==> it.next.ticks.At(Poke) == start + r.cfg.tickRate
    ensures forall e :: e != Wait && e != it.dispatched ==> it.next.ticks.At(e) == r.ticks.At(e)
    ensures IsStableSortOf(it.next.order, r.order, it.next.ticks) && IsSchedule(it.next.order)
    ensures it.dispatched != UpdateTopology ==> it.next.tables == r.tables
    ensures it.dispatched == UpdateTopology ==>
      it.next.tables == Refresh(r.tables, discovered, fromNodes, r.cfg.timeoutMs)
    ensures it.next.cfg == r.cfg && it.next.discoveryOpen == r.discoveryOpen
  {
    ScheduleShape(r.order);
    var evt := r.order[0];
    var slept := if evt == Wait then SleepFor(r.ticks, now) else 0;
    var tables := if evt == UpdateTopology then Refresh(r.tables, discovered, fromNodes, r.cfg.timeoutMs) else r.tables;
    var ticks := Reschedule(r.ticks, evt, start, r.cfg.tickRate, r.cfg.refreshMs);
    PermutedSchedule(r.order, SortByTick(r.order, ticks));
    Iteration(evt, slept, r.(order := SortByTick(r.order, ticks), ticks := ticks, tables := tables))
  }

  /** Every iteration keeps the runner consistent. */
  lemma StepKeepsValid<C>(r: Runner<C>, start: int, now: int, discovered: Snapshot, fromNodes: FromNodes<C>)
    requires Valid(r)
    ensures Valid(Step(r, start, now, discovered, fromNodes).next)
  {
    RefreshKeepsValid(r.tables, discovered, fromNodes, r.cfg.timeoutMs);
  }

  /** The activity a consistent runner dispatches next is one due no later than any other. */
  lemma DispatchesEarliest<C>(r: Runner<C>)
    requires Valid(r)
    ensures forall e :: r.ticks.At(r.order[0]) <= r.ticks.At(e)
  {
    ScheduleShape(r.order);
    SortedHeadIsEarliest(r.order, r.ticks);
  }

  /**
   A poke is never followed directly by another poke: the idle activity is re-armed one
   millisecond before the poke's own next instant, so it now comes first.
   */
  lemma PokeNeverRunsTwiceInARow<C>(r: Runner<C>, start: int, now: int, discovered: Snapshot, fromNodes: FromNodes<C>)
    requires Valid(r)
    requires r.order[0] == Poke
    ensures Step(r, start, now, discovered, fromNodes).next.order[0] != Poke
  {
    var n := Step(r, start, now, discovered, fromNodes).next;
    ScheduleShape(n.order);
    SortedHeadIsEarliest(n.order, n.ticks);
  }

  /**
   With a refresh period no shorter than the poke period, a refresh is never followed
   directly by another refresh.
   */
  lemma RefreshNeverRunsTwiceInARow<C>(r: Runner<C>, start: int, now: int, discovered: Snapshot, fromNodes: FromNodes<C>)
    requires Valid(r)
    requires r.cfg.refreshMs >= r.cfg.tickRate
    requires r.order[0] == UpdateTopology
    ensures Step(r, start, now, discovered, fromNodes).next.order[0] != UpdateTopology
  {
    var n := Step(r, start, now, discovered, fromNodes).next;
    ScheduleShape(n.order);
    SortedHeadIsEarliest(n.order, n.ticks);
  }

  /**
   A refresh period shorter than the poke period lets a refresh run twice in a row while
   the poke is not yet due: the refresh that just ran falls due no later than the re-armed
   idle activity. At equality the two tie, and the stable sort keeps the refresh, listed
   first before the sort, ahead.
   */
  lemma ShortRefreshRunsRefreshAgain<C>(r: Runner<C>, start: int, now: int, discovered: Snapshot, fromNodes: FromNodes<C>)
    requires Valid(r)
    requires r.cfg.refreshMs <= r.cfg.tickRate - 1
    requires r.order[0] == UpdateTopology
    requires r.ticks.At(Poke) > start + r.cfg.refreshMs
    ensures Step(r, start, now, discovered, fromNodes).next.order[0] == UpdateTopology
  {
  }

  /**
   The clock readings, discovery answer and monitor construction behaviour of one
   iteration: construction may succeed or fail differently from one refresh to the next.
   */
  datatype Input<C> = Input(start: int, now: int, discovered: Snapshot, fromNodes: FromNodes<C>)

  /** A finite prefix of the endless loop, one iteration per input. */
  function Run<C>(r: Runner<C>, inputs: seq<Input<C>>): (s: Runner<C>)
    requires IsSchedule(r.order)
    ensures IsSchedule(s.order)
    ensures s.cfg == r.cfg && s.discoveryOpen == r.discoveryOpen
    ensures |inputs| > 0 ==> SortedBy(s.order, s.ticks)
    ensures |inputs| > 0 ==> s.ticks.At(Wait) == inputs[|inputs| - 1].start + r.cfg.tickRate - 1
    decreases |inputs|
  {
    if |inputs| == 0 then r
    else
      var n := Step(r, inputs[0].start, inputs[0].now, inputs[0].discovered, inputs[0].fromNodes).next;
      assert IsSchedule(n.order);
      assert inputs[1..] == [] || inputs[|inputs| - 1] == inputs[1..][|inputs[1..]| - 1];
      Run(n, inputs[1..])
  }

  /** Any finite run keeps the runner consistent. */
  lemma {:induction false} RunKeepsValid<C>(r: Runner<C>, inputs: seq<Input<C>>)
    requires Valid(r)
    ensures Valid(Run(r, inputs))
    decreases |inputs|
  {
    if |inputs| > 0 {
      StepKeepsValid(r, inputs[0].start, inputs[0].now, inputs[0].discovered, inputs[0].fromNodes);
      RunKeepsValid(Step(r, inputs[0].start, inputs[0].now, inputs[0].discovered, inputs[0].fromNodes).next, inputs[1..]);
    }
  }

  /**
   Closing the runner: discovery is shut down, then every present monitor and every
   metrics holder is released.
   */
  function Close<C>(r: Runner<C>): (c: Runner<C>)
    ensures !c.discoveryOpen
    ensures c.tables.services == r.tables.services
    ensures c.tables.monitors == r.tables.monitors && c.tables.metrics == r.tables.metrics
    ensures c.order == r.order && c.ticks == r.ticks && c.cfg == r.cfg
    ensures c.tables.ledger.constructed == r.tables.ledger.constructed
    ensures c.tables.ledger.attempts == r.tables.ledger.attempts
    ensures forall h :: c.tables.ledger.closed[h] == r.tables.ledger.closed[h] + (if h in Held(r.tables) then 1 else 0)
  {
    r.(discoveryOpen := false, tables := ReleaseAll(r.tables))
  }

  /**
   Whatever finite run precedes it, closing a freshly constructed runner releases every
   monitor and metrics holder ever constructed exactly once.
   */
  lemma {:induction false} CloseAfterRunReleasesEverything<C>(cfg: Config, t0: int, inputs: seq<Input<C>>)
    ensures var c := Close(Run(Init<C>(cfg, t0), inputs));
      && c.tables.ledger.closed == c.tables.ledger.constructed
      && forall h :: h in c.tables.ledger.constructed ==> c.tables.ledger.closed[h] == 1
  {
    InitIsValid<C>(cfg, t0);
    RunKeepsValid(Init<C>(cfg, t0), inputs);
    ReleaseAllBalances(Run(Init<C>(cfg, t0), inputs).tables);
  }
}
