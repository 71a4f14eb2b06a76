/** Concrete refresh scenarios on small topologies. */
module Scenarios {
  import opened Wrappers
  import opened Topology

  const GroupA := Service("groupA", "")
  const GroupB := Service("groupB", "")
  const Node1 := Addr("node1", 11211)
  const Node2 := Addr("node2", 11211)

  /** From the empty start, a first non-empty answer installs one monitor attempt and one metrics holder and releases nothing. */
  lemma FirstDiscoveryInstallsGroup<C>(fromNodes: FromNodes<C>, timeoutMs: int)
    ensures var r := Refresh(Empty<C>(), map[GroupA := {Node1}], fromNodes, timeoutMs);
      && r.services == map[GroupA := {Node1}]
      && r.metrics == map[GroupA := Metrics(1, GroupA)]
      && r.ledger.attempts == multiset{GroupA}
      && r.ledger.closed == multiset{}
  {
  }

  /** An answer identical to the current membership constructs and releases nothing. */
  lemma SameAnswerIsNoOp<C>(t: Tables<C>, fromNodes: FromNodes<C>, timeoutMs: int)
    requires t.services == map[GroupA := {Node1}]
    ensures Refresh(t, map[GroupA := {Node1}], fromNodes, timeoutMs) == t
  {
  }

  /** An empty answer keeps a non-empty membership and its objects. */
  lemma EmptyAnswerKeepsMembership<C>(t: Tables<C>, fromNodes: FromNodes<C>, timeoutMs: int)
    requires t.services == map[GroupA := {Node1}]
    ensures Refresh(t, map[], fromNodes, timeoutMs) == t
  {
  }

  /**
   Removing one group releases the objects of both groups, including the untouched one:
   both metrics holders and each group's monitor when it is present.
   */
  lemma RemovingOneGroupReleasesBoth<C>(t: Tables<C>, fromNodes: FromNodes<C>, timeoutMs: int)
    requires TablesValid(t)
    requires t.services == map[GroupA := {Node1}, GroupB := {Node2}]
    ensures var r := Refresh(t, map[GroupB := {Node2}], fromNodes, timeoutMs);
      && r.ledger.closed[t.metrics[GroupA].Handle()] == 1
      && r.ledger.closed[t.metrics[GroupB].Handle()] == 1
      && (t.monitors[GroupA].Some? ==> r.ledger.closed[t.monitors[GroupA].value.Handle()] == 1)
      && (t.monitors[GroupB].Some? ==> r.ledger.closed[t.monitors[GroupB].value.Handle()] == 1)
  {
    var d := map[GroupB := {Node2}];
    assert GroupA in t.services && GroupA !in d;
    assert t.metrics[GroupA].Handle() in Held(t) && t.metrics[GroupB].Handle() in Held(t);
    assert t.monitors[GroupA].Some? ==> t.monitors[GroupA].value.Handle() in Held(t);
    assert t.monitors[GroupB].Some? ==> t.monitors[GroupB].value.Handle() in Held(t);
    ChangeReplacesWholeGeneration(t, d, fromNodes, timeoutMs);
  }

  /**
   Removing one group rebuilds the untouched one: it gets one new monitor construction
   attempt and a new metrics holder of the next generation, constructed once, and it is
   the only group left in the monitor and metrics tables.
   */
  lemma RemovingOneGroupRebuildsTheOther<C>(t: Tables<C>, fromNodes: FromNodes<C>, timeoutMs: int)
    requires TablesValid(t)
    requires t.services == map[GroupA := {Node1}, GroupB := {Node2}]
    ensures var r := Refresh(t, map[GroupB := {Node2}], fromNodes, timeoutMs);
      && r.metrics == map[GroupB := Metrics(t.generation + 1, GroupB)]
      && r.ledger.constructed[MetricsHandle(t.generation + 1, GroupB)] == 1
      && r.monitors.Keys == {GroupB}
      && r.ledger.attempts[GroupB] == t.ledger.attempts[GroupB] + 1
  {
    var d := map[GroupB := {Node2}];
    assert GroupA in t.services && GroupA !in d;
    assert |d| > 0 && d != t.services && d.Keys == {GroupB};
    var r := Refresh(t, d, fromNodes, timeoutMs);
    var h := MetricsHandle(t.generation + 1, GroupB);
    assert r.metrics.Keys == {GroupB} && r.metrics[GroupB] == Metrics(t.generation + 1, GroupB);
    assert r.metrics == map[GroupB := Metrics(t.generation + 1, GroupB)];
    assert h == r.metrics[GroupB].Handle();
    assert h in Held(r);
    assert t.ledger.constructed[h] == 0;
  }
}
