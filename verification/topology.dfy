/**
 The monitored topology and the lifetime of the per-group monitoring objects.

 The runner keeps three tables keyed by group (`Service`): the last known membership
 (`services`), one monitor per group, present only when its construction succeeded
 (`monitors`), and one metrics holder per group (`metrics`). A refresh replaces all
 three at once whenever discovery reports a different non-empty membership.

 Metrics holders are created with `new`, so each is a fresh object; every monitor that
 a successful construction attempt returns is assumed to be a fresh object as well.
 Object identity is modelled by stamping each object with the generation of tables
 that created it; the `Ledger` records every construction, every release and every
 monitor construction attempt, so that "no leak, no double release" is a statement
 about the tables.
 */
module Topology {
  import opened Wrappers

  /** A monitored group: a name and the discovery-scoped qualifier that goes with it. */
  datatype Service = Service(name: string, qualifier: string)

  /** One node of a group: host and port. */
  datatype Addr = Addr(host: string, port: int)

  /** A membership: the node addresses of every group. */
  type Snapshot = map<Service, set<Addr>>

  /**
   Monitor construction from a group, its nodes and a timeout in milliseconds. It may
   fail for any group (`None`); what it connects to is opaque (`C`).
   */
  type FromNodes<C> = (Service, set<Addr>, int) -> Option<C>

  /** A live health-check handle for one group, created in generation `generation`. */
  datatype Monitor<C> = Monitor(generation: nat, service: Service, client: C) {
    function Handle(): Handle {
      MonitorHandle(generation, service)
    }
  }

  /** The metrics holder of one group, created in generation `generation`. */
  datatype Metrics = Metrics(generation: nat, service: Service) {
    function Handle(): Handle {
      MetricsHandle(generation, service)
    }
  }

  /** The identity of a releasable object. */
  datatype Handle =
    | MonitorHandle(generation: nat, service: Service)
    | MetricsHandle(generation: nat, service: Service)

  /** Everything ever constructed and released, and every monitor construction attempt. */
  datatype Ledger = Ledger(constructed: multiset<Handle>, closed: multiset<Handle>, attempts: multiset<Service>)

  /** The runner's tables, and the generation that built the current monitors and metrics. */
  datatype Tables<C> = Tables(
    services: Snapshot,
    monitors: map<Service, Option<Monitor<C>>>,
    metrics: map<Service, Metrics>,
    generation: nat,
    ledger: Ledger)

  /** The tables of a freshly constructed runner: nothing known, nothing held. */
  function Empty<C>(): (t: Tables<C>)
    ensures t.services == map[] && t.monitors == map[] && t.metrics == map[]
    ensures Held(t) == {}
  {
    Tables(map[], map[], map[], 0, Ledger(multiset{}, multiset{}, multiset{}))
  }

  /** The objects the tables currently hold: every present monitor and every metrics holder. */
  function Held<C>(t: Tables<C>): set<Handle> {
    (set k | k in t.monitors && t.monitors[k].Some? :: t.monitors[k].value.Handle())
    + (set k | k in t.metrics :: t.metrics[k].Handle())
  }

  /**
   The consistency the tables keep: the three tables cover the same groups, every held
   object belongs to its group and to the current generation, nothing was constructed
   twice or in a later generation, nothing was released that was not constructed, and
   what was constructed but not yet released is exactly what the tables hold.
   */
  ghost predicate TablesValid<C>(t: Tables<C>) {
    && t.monitors.Keys == t.services.Keys
    && t.metrics.Keys == t.services.Keys
    && (forall k :: k in t.monitors && t.monitors[k].Some? ==>
          t.monitors[k].value.generation == t.generation && t.monitors[k].value.service == k)
    && (forall k :: k in t.metrics ==> t.metrics[k] == Metrics(t.generation, k))
    && (forall h :: h in t.ledger.constructed ==> h.generation <= t.generation)
    && (forall h: Handle :: h.generation == t.generation ==> t.ledger.closed[h] == 0)
    && (forall h :: t.ledger.constructed[h] <= 1)
    && t.ledger.closed <= t.ledger.constructed
    && t.ledger.constructed - t.ledger.closed == multiset(Held(t))
  }

  lemma EmptyIsValid<C>()
    ensures TablesValid(Empty<C>())
  {
  }

  /** Wraps the outcome of one construction attempt for group `k` in generation `g`. */
  function Connect<C>(attempt: Option<C>, g: nat, k: Service): (m: Option<Monitor<C>>)
    ensures m.Some? <==> attempt.Some?
    ensures m.Some? ==> m.value.client == attempt.value && m.value.generation == g && m.value.service == k
  {
    match attempt
    case None => None
    case Some(c) => Some(Monitor(g, k, c))
  }

  /**
   The topology refresh. An empty discovery result is taken as "discovery is down" and
   changes nothing; a result equal to the current membership changes nothing either.
   Otherwise every present monitor and every metrics holder is released, the membership
   becomes the discovered one, and every discovered group gets one monitor construction
   attempt and one metrics holder, whether or not its monitor could be built.
   */
  function Refresh<C>(t: Tables<C>, discovered: Snapshot, fromNodes: FromNodes<C>, timeoutMs: int): (r: Tables<C>)
    ensures |discovered| == 0 ==> r == t
    ensures discovered == t.services ==> r == t
    ensures |discovered| > 0 && discovered != t.services ==>
      && r.services == discovered
      && r.monitors.Keys == discovered.Keys
      && r.metrics.Keys == discovered.Keys
      && r.generation == t.generation + 1
      && (forall k :: k in discovered ==>
            (r.monitors[k].Some? <==> fromNodes(k, discovered[k], timeoutMs).Some?))
      && (forall k :: k in r.monitors && r.monitors[k].Some? ==>
            r.monitors[k].value == Monitor(r.generation, k, fromNodes(k, discovered[k], timeoutMs).value))
      && (forall k :: k in discovered ==> r.metrics[k] == Metrics(r.generation, k))
      && r.ledger.closed == t.ledger.closed + multiset(Held(t))
      && r.ledger.constructed == t.ledger.constructed + multiset(Held(r))
      && r.ledger.attempts == t.ledger.attempts + multiset(discovered.Keys)
  {
    if |discovered| == 0 then t
    else if discovered == t.services then t
    else
      var g := t.generation + 1;
      var monitors := map k | k in discovered :: Connect(fromNodes(k, discovered[k], timeoutMs), g, k);
      var metrics := map k | k in monitors :: Metrics(g, k);
      var built := Tables(discovered, monitors, metrics, g, t.ledger);
      var ledger := Ledger(
        t.ledger.constructed + multiset(Held(built)),
        t.ledger.closed + multiset(Held(t)),
        t.ledger.attempts + multiset(discovered.Keys));
      built.(ledger := ledger)
  }

  /**
   The release done when the runner is closed: every present monitor and every metrics
   holder is released once; the tables themselves are left as they are.
   */
  function ReleaseAll<C>(t: Tables<C>): (r: Tables<C>)
    ensures r.services == t.services && r.monitors == t.monitors && r.metrics == t.metrics
    ensures r.ledger.constructed == t.ledger.constructed && r.ledger.attempts == t.ledger.attempts
    ensures forall h :: r.ledger.closed[h] == t.ledger.closed[h] + (if h in Held(t) then 1 else 0)
  {
    t.(ledger := t.ledger.(closed := t.ledger.closed + multiset(Held(t))))
  }

  /** Every object the tables hold belongs to their current generation. */
  lemma HeldIsCurrent<C>(t: Tables<C>)
    requires TablesValid(t)
    ensures forall h :: h in Held(t) ==> h.generation == t.generation
  {
  }

  /**
   The ledger arithmetic of one generation change: releasing the held objects `held` and
   constructing the new objects `built`, none of which was ever constructed before.
   */
  lemma LedgerReplace(constructed: multiset<Handle>, closed: multiset<Handle>, held: multiset<Handle>, built: multiset<Handle>)
    requires closed <= constructed && constructed - closed == held
    requires forall h :: constructed[h] <= 1
    requires forall h :: h in built ==> constructed[h] == 0
    requires forall h :: built[h] <= 1
    ensures closed + held <= constructed + built
    ensures (constructed + built) - (closed + held) == built
    ensures forall h :: (constructed + built)[h] <= 1
  {
  }

  /**
   A refresh keeps the tables consistent: in particular, after a change the objects
   constructed but not yet released are exactly the new generation's.
   */
  lemma RefreshKeepsValid<C>(t: Tables<C>, discovered: Snapshot, fromNodes: FromNodes<C>, timeoutMs: int)
    requires TablesValid(t)
    ensures TablesValid(Refresh(t, discovered, fromNodes, timeoutMs))
  {
    var r := Refresh(t, discovered, fromNodes, timeoutMs);
    if |discovered| > 0 && discovered != t.services {
      var built := multiset(Held(r));
      assert forall h :: h in built ==> h.generation == r.generation;
      // everything constructed so far belongs to an earlier generation
      assert forall h :: h in built ==> t.ledger.constructed[h] == 0;
      LedgerReplace(t.ledger.constructed, t.ledger.closed, multiset(Held(t)), built);
    }
  }

  /**
   On a detected change, every object of the old generation is released exactly once
   over the whole history, including those of groups whose membership did not change;
   no other object's release count moves; and every object of the new generation has
   been constructed exactly once and not yet released.
   */
  lemma ChangeReplacesWholeGeneration<C>(t: Tables<C>, discovered: Snapshot, fromNodes: FromNodes<C>, timeoutMs: int)
    requires TablesValid(t)
    requires |discovered| > 0 && discovered != t.services
    ensures var r := Refresh(t, discovered, fromNodes, timeoutMs);
      && (forall h :: h in Held(t) ==> r.ledger.closed[h] == 1)
      && (forall h :: h !in Held(t) ==> r.ledger.closed[h] == t.ledger.closed[h])
      && (forall h :: h in Held(r) ==> r.ledger.constructed[h] == 1 && r.ledger.closed[h] == 0)
      && Held(t) !! Held(r)
  {
  }

  /**
   The ledger balances: every release matches an earlier construction, nothing is
   released twice, and the objects constructed and never released are exactly those
   the tables still hold.
   */
  lemma NoLeakNoDoubleRelease<C>(t: Tables<C>)
    requires TablesValid(t)
    ensures t.ledger.constructed == t.ledger.closed + multiset(Held(t))
    ensures forall h :: t.ledger.closed[h] <= 1
  {
  }

  /** After the final release, everything ever constructed has been released exactly once. */
  lemma ReleaseAllBalances<C>(t: Tables<C>)
    requires TablesValid(t)
    ensures ReleaseAll(t).ledger.closed == ReleaseAll(t).ledger.constructed
    ensures forall h :: h in ReleaseAll(t).ledger.constructed ==> ReleaseAll(t).ledger.closed[h] == 1
  {
  }

  /**
   The refreshes of a finite sequence of rounds, in order: each round brings a discovery
   answer and the monitor construction behaviour of that refresh.
   */
  function RefreshAll<C>(t: Tables<C>, rounds: seq<(Snapshot, FromNodes<C>)>, timeoutMs: int): Tables<C>
    decreases |rounds|
  {
    if |rounds| == 0 then t
    else RefreshAll(Refresh(t, rounds[0].0, rounds[0].1, timeoutMs), rounds[1..], timeoutMs)
  }

  /**
   However many refreshes happen, and whatever they discover, the total of releases
   equals the constructions of all generations but the current one, and no object is
   ever released twice.
   */
  lemma {:induction false} RefreshAllBalances<C>(t: Tables<C>, rounds: seq<(Snapshot, FromNodes<C>)>, timeoutMs: int)
    requires TablesValid(t)
    ensures TablesValid(RefreshAll(t, rounds, timeoutMs))
    ensures var r := RefreshAll(t, rounds, timeoutMs);
      r.ledger.constructed == r.ledger.closed + multiset(Held(r))
    ensures var r := RefreshAll(t, rounds, timeoutMs);
      forall h: Handle :: r.ledger.closed[h] > 0 ==> h.generation < r.generation
    decreases |rounds|
  {
    if |rounds| > 0 {
      RefreshKeepsValid(t, rounds[0].0, rounds[0].1, timeoutMs);
      RefreshAllBalances(Refresh(t, rounds[0].0, rounds[0].1, timeoutMs), rounds[1..], timeoutMs);
    } else {
      NoLeakNoDoubleRelease(t);
    }
  }
}
