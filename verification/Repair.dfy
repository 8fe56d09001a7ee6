/** Which nodes of a cluster are working, failed or yet to be started, and what that calls for. */
module Repair {
  import opened Bits
  import opened ClusterImage
  import opened Sequences

  /** Ticks without a report after which a node or a host counts as failed. */
  const NODE_HOST_TTL: nat := 60

  /** The difference of two 64-bit ticks, which wraps around. */
  function Elapsed(last: uint64, now: uint64): uint64 { (now - last) % 0x1_0000_0000_0000_0000 }

  predicate EntityFailed(last: uint64, now: uint64) { Elapsed(last, now) > NODE_HOST_TTL }

  predicate Failed(n: Node, now: uint64) { if n.tick == 0 then n.firstObserved == 0 else EntityFailed(n.tick, now) }

  predicate WaitingToBeStarted(n: Node, now: uint64) { n.tick == 0 && !Failed(n, now) }

  predicate Ok(n: Node, now: uint64) { !Failed(n, now) && !WaitingToBeStarted(n, now) }

  datatype Status = IsOk | IsFailed | IsToStart

  predicate Has(n: Node, now: uint64, status: Status) {
    match status
    case IsOk => Ok(n, now)
    case IsFailed => Failed(n, now)
    case IsToStart => WaitingToBeStarted(n, now)
  }

  function NodesIn(c: Cluster, now: uint64, status: Status): set<Id> { set k | k in c.nodes && Has(c.nodes[k], now, status) }

  /** What the scheduler gets for one cluster: its nodes by status, each list ordered by node id. */
  datatype ClusterRepair = ClusterRepair(
    clusterId: Id, cluster: Cluster, failedNodes: seq<Id>, okNodes: seq<Id>, nodesToStart: seq<Id>)
  {
    function Quorum(): nat { (|failedNodes| + |okNodes| + |nodesToStart|) / 2 + 1 }

    predicate Available() { |okNodes| >= Quorum() }

    predicate AddRequired() { |failedNodes| > 0 && |nodesToStart| == 0 && Available() }

    predicate CreateRequired() { |nodesToStart| > 0 }

    predicate DeleteRequired(expected: nat) {
      Available() && |failedNodes| > 0 && |failedNodes| + |okNodes| > expected
    }

    /** The lists are exactly the nodes of the cluster by status, in id order. */
    ghost predicate Describes(now: uint64) {
      && Ascending(failedNodes) && Elements(failedNodes) == NodesIn(cluster, now, IsFailed)
      && Ascending(okNodes) && Elements(okNodes) == NodesIn(cluster, now, IsOk)
      && Ascending(nodesToStart) && Elements(nodesToStart) == NodesIn(cluster, now, IsToStart)
    }
  }

  ghost predicate NeedsRepair(c: Cluster, now: uint64) {
    NodesIn(c, now, IsFailed) != {} || NodesIn(c, now, IsToStart) != {}
  }

  /** `x` put where it belongs in an ascending list. */
  method Insert(s: seq<Id>, x: Id) returns (t: seq<Id>)
    requires Ascending(s) && x !in s
    ensures Ascending(t) && Elements(t) == Elements(s) + {x}
  {
    var i := |s|;
    while i > 0 && s[i - 1] > x
      invariant 0 <= i <= |s|
      invariant i < |s| ==> x < s[i]
    {
      i := i - 1;
    }
    t := s[..i] + [x] + s[i..];
    InsertedElements(s, i, x);
    InsertedAscending(s, i, x);
  }

  lemma InsertedElements(s: seq<Id>, i: nat, x: Id)
    requires i <= |s|
    ensures Elements(s[..i] + [x] + s[i..]) == Elements(s) + {x}
  {
    assert s == s[..i] + s[i..];
  }

  lemma InsertedAscending(s: seq<Id>, i: nat, x: Id)
    requires Ascending(s) && i <= |s|
    requires i > 0 ==> s[i - 1] < x
    requires i < |s| ==> x < s[i]
    ensures Ascending(s[..i] + [x] + s[i..])
  {
    var t := s[..i] + [x] + s[i..];
    assert forall j | 0 <= j < i :: t[j] == s[j] && s[j] < x;
    assert forall j | i < j < |t| :: t[j] == s[j - 1] && x < s[j - 1];
    forall j, k | 0 <= j < k < |t|
      ensures t[j] < t[k]
    {
      assert j < i || j == i || j > i;
    }
  }

  /** The nodes with a status, collected in whatever order the map gives them and kept in id order. */
  method Collect(c: Cluster, now: uint64, status: Status) returns (result: seq<Id>)
    ensures Ascending(result) && Elements(result) == NodesIn(c, now, status)
  {
    result := [];
    var todo := c.nodes.Keys;
    while todo != {}
      invariant todo <= c.nodes.Keys && Ascending(result)
      invariant Elements(result) == NodesIn(c, now, status) - todo
      decreases todo
    {
      var k :| k in todo;
      if Has(c.nodes[k], now, status) {
        assert k !in Elements(result);
        result := Insert(result, k);
      }
      todo := todo - {k};
    }
  }

  /** One entry for every cluster with a failed node or a node to start, and for no other. */
  method GetClusterForRepair(clusters: Clusters, now: uint64) returns (crs: seq<ClusterRepair>)
    ensures forall i | 0 <= i < |crs| :: InRepair(crs[i], clusters, now)
    ensures forall cid | cid in clusters && NeedsRepair(clusters[cid], now) ::
              exists i | 0 <= i < |crs| :: crs[i].clusterId == cid
    ensures forall i, j | 0 <= i < j < |crs| :: crs[i].clusterId != crs[j].clusterId
  {
    crs := [];
    var todo := clusters.Keys;
    while todo != {}
      invariant todo <= clusters.Keys
      invariant forall i | 0 <= i < |crs| :: InRepair(crs[i], clusters, now) && crs[i].clusterId !in todo
      invariant forall cid | cid in clusters.Keys - todo && NeedsRepair(clusters[cid], now) ::
                  exists i | 0 <= i < |crs| :: crs[i].clusterId == cid
      invariant forall i, j | 0 <= i < j < |crs| :: crs[i].clusterId != crs[j].clusterId
      decreases todo
    {
      hide Ascending, NodesIn;
      var cid :| cid in todo;
      todo := todo - {cid};
      var c := clusters[cid];
      var failed := Collect(c, now, IsFailed);
      var ok := Collect(c, now, IsOk);
      var toStart := Collect(c, now, IsToStart);
      EmptyElements(failed);
      EmptyElements(toStart);
      if |failed| == 0 && |toStart| == 0 {
        continue;
      }
      var before := crs;
      crs := crs + [ClusterRepair(cid, c, failed, ok, toStart)];
      assert crs[|before|].clusterId == cid && InRepair(crs[|before|], clusters, now);
      assert forall i | 0 <= i < |before| :: crs[i] == before[i];
    }
  }

  lemma EmptyElements(s: seq<Id>)
    ensures Elements(s) == {} <==> |s| == 0
  {
    if |s| > 0 {
      assert s[0] in Elements(s);
    }
  }

  ghost predicate InRepair(cr: ClusterRepair, clusters: Clusters, now: uint64) {
    && cr.clusterId in clusters && cr.cluster == clusters[cr.clusterId]
    && cr.Describes(now) && NeedsRepair(cr.cluster, now)
  }

  // ---- counting ----

  lemma {:induction false} AscendingCount(s: seq<Id>)
    requires Ascending(s)
    ensures |Elements(s)| == |s|
    decreases |s|
  {
    if s != [] {
      var rest := s[..|s| - 1];
      AscendingCount(rest);
      assert s == rest + [s[|s| - 1]];
      assert Elements(s) == Elements(rest) + {s[|s| - 1]};
      assert s[|s| - 1] !in rest;
    }
  }

  /** Every node of the cluster has exactly one status, so the three lists add up to its size. */
  lemma StatusesPartition(cr: ClusterRepair, now: uint64)
    requires cr.Describes(now)
    ensures |cr.failedNodes| + |cr.okNodes| + |cr.nodesToStart| == |cr.cluster.nodes|
    ensures cr.Quorum() == |cr.cluster.nodes| / 2 + 1
  {
    AscendingCount(cr.failedNodes);
    AscendingCount(cr.okNodes);
    AscendingCount(cr.nodesToStart);
    var failed, ok, toStart :=
      NodesIn(cr.cluster, now, IsFailed), NodesIn(cr.cluster, now, IsOk), NodesIn(cr.cluster, now, IsToStart);
    assert failed + ok + toStart == cr.cluster.nodes.Keys;
    assert failed !! ok && (failed + ok) !! toStart;
    assert |failed + ok + toStart| == |failed| + |ok| + |toStart|;
    assert |cr.cluster.nodes.Keys| == |cr.cluster.nodes|;
  }

  /**
    * A deletion is called for only above the expected size and leaves, without the failed node,
    * a majority of working nodes.
    */
  lemma DeleteKeepsQuorum(cr: ClusterRepair, now: uint64, expected: nat)
    requires cr.Describes(now) && cr.DeleteRequired(expected)
    ensures cr.failedNodes[0] in NodesIn(cr.cluster, now, IsFailed)
    ensures |cr.cluster.nodes| > expected
    ensures NodesIn(cr.cluster, now, IsOk) <= cr.cluster.nodes.Keys - {cr.failedNodes[0]}
    ensures |NodesIn(cr.cluster, now, IsOk)| >= (|cr.cluster.nodes| - 1) / 2 + 1
  {
    StatusesPartition(cr, now);
    AscendingCount(cr.okNodes);
    assert cr.failedNodes[0] in Elements(cr.failedNodes);
  }

  /** An addition is called for only at or below the expected size. */
  lemma AddOnlyWhenSmall(cr: ClusterRepair, now: uint64, expected: nat)
    requires cr.Describes(now) && cr.AddRequired() && !cr.DeleteRequired(expected)
    ensures |cr.cluster.nodes| <= expected
  {
    StatusesPartition(cr, now);
  }

  /** The same cluster once an added node has joined and waits to be started. */
  function WithNodeAdded(cr: ClusterRepair, k: Id): ClusterRepair { cr.(nodesToStart := cr.nodesToStart + [k]) }

  /**
    * Unlike a deletion, an addition can cost the cluster its quorum until the new node starts: it
    * does so exactly when the size was odd and the working nodes were a bare majority.
    */
  lemma AddMayCostQuorum(cr: ClusterRepair, now: uint64, k: Id)
    requires cr.Describes(now) && cr.AddRequired()
    ensures WithNodeAdded(cr, k).Available() <==>
            !(|cr.cluster.nodes| % 2 == 1 && |cr.okNodes| == |cr.cluster.nodes| / 2 + 1)
  {
    StatusesPartition(cr, now);
  }
}
