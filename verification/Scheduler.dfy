/** The repair round: from the image of the clusters and hosts to ADD, DELETE and CREATE requests. */
module Scheduler {
  import opened Bits
  import opened ClusterImage
  import opened NodeHostImage
  import opened Repair
  import opened Sequences
  import opened Placement

  /** What a round works from, possibly long out of date: the database and the launched cluster sizes. */
  datatype Context = Context(db: DbState, expected: map<Id, nat>)

  datatype Request =
    | AddNode(clusterId: Id, confChangeId: uint64, nodeId: Id, address: Address, raftAddress: Address)
    | DeleteNode(clusterId: Id, confChangeId: uint64, nodeId: Id, raftAddress: Address)
    | CreateNode(clusterId: Id, nodeIds: seq<Id>, addresses: seq<Address>, nodeId: Id, raftAddress: Address,
                 join: bool, restore: bool)

  datatype Decision = Delete(nodeId: Id) | Create(nodeId: Id) | Add(failed: Id) | Idle

  function Decide(cr: ClusterRepair, expected: nat): Decision {
    if cr.DeleteRequired(expected) then Delete(cr.failedNodes[0])
    else if cr.CreateRequired() then Create(cr.nodesToStart[0])
    else if cr.AddRequired() then Add(cr.failedNodes[0])
    else Idle
  }

  /** Addressed to a working member. */
  ghost predicate ToWorkingMember(cr: ClusterRepair, now: uint64, a: Address) {
    exists k | k in NodesIn(cr.cluster, now, IsOk) :: cr.cluster.nodes[k].address == a
  }

  /** The two lists spell out the members of the cluster, each once. */
  ghost predicate SpellsMembers(nodeIds: seq<Id>, addresses: seq<Address>, c: Cluster) {
    && |nodeIds| == |addresses| && Distinct(nodeIds) && Elements(nodeIds) == c.nodes.Keys
    && forall i | 0 <= i < |nodeIds| && nodeIds[i] in c.nodes :: addresses[i] == c.nodes[nodeIds[i]].address
  }

  /** A host the ADD may go to: eligible, and in the failed node's region if any eligible one is. */
  ghost predicate GoodHost(hosts: Hosts, region: string, cid: Id, now: uint64, address: Address) {
    exists a | a in hosts ::
      && hosts[a].address == address && Eligible(hosts[a], cid, now)
      && (hosts[a].region == region || forall b | b in hosts && Eligible(hosts[b], cid, now) :: hosts[b].region != region)
  }

  /** `req` is the request the round issues for the cluster. */
  ghost predicate Answers(ctx: Context, cr: ClusterRepair, req: Request)
    requires cr.clusterId in ctx.expected
  {
    var c, now := cr.cluster, ctx.db.tick;
    match Decide(cr, ctx.expected[cr.clusterId])
    case Delete(k) =>
      req.DeleteNode? && req == DeleteNode(cr.clusterId, c.configChangeIndex, k, req.raftAddress) &&
      ToWorkingMember(cr, now, req.raftAddress)
    case Create(k) =>
      k in c.nodes && req.CreateNode? && SpellsMembers(req.nodeIds, req.addresses, c) &&
      req == CreateNode(cr.clusterId, req.nodeIds, req.addresses, k, c.nodes[k].address, true, false)
    case Add(k) =>
      k in c.nodes && req.AddNode? &&
      req == AddNode(cr.clusterId, c.configChangeIndex, req.nodeId, req.address, req.raftAddress) &&
      ToWorkingMember(cr, now, req.raftAddress) &&
      GoodHost(ctx.db.hosts, RegionOf(ctx.db.hosts, c.nodes[k].address), cr.clusterId, now, req.address)
    case Idle => false
  }

  /** The launched size is known, and a node to be added has somewhere to go. */
  ghost predicate CanAnswer(ctx: Context, cr: ClusterRepair) {
    && cr.clusterId in ctx.expected
    && (Decide(cr, ctx.expected[cr.clusterId]).Add? ==>
          exists a | a in ctx.db.hosts :: Eligible(ctx.db.hosts[a], cr.clusterId, ctx.db.tick))
  }

  /** One answer, in order, for each cluster that is not being restored and needs something done. */
  ghost predicate AnswersAll(ctx: Context, crs: seq<ClusterRepair>, restored: set<Id>, reqs: seq<Request>)
    decreases |crs|
  {
    if crs == [] then reqs == []
    else
      var cr, before := crs[|crs| - 1], crs[..|crs| - 1];
      if cr.clusterId in restored then AnswersAll(ctx, before, restored, reqs)
      else if cr.clusterId !in ctx.expected then false
      else if Decide(cr, ctx.expected[cr.clusterId]).Idle? then AnswersAll(ctx, before, restored, reqs)
      else
        reqs != [] && Answers(ctx, cr, reqs[|reqs| - 1]) &&
        AnswersAll(ctx, before, restored, reqs[..|reqs| - 1])
  }

  datatype RoundResult = Requests(reqs: seq<Request>) | NotEnoughNodeHost | ClusterNotLocated

  ghost predicate FromContext(ctx: Context, crs: seq<ClusterRepair>) {
    forall i | 0 <= i < |crs| :: InRepair(crs[i], ctx.db.image.clusters, ctx.db.tick)
  }

  ghost predicate ListsHosts(list: seq<HostSpec>, hosts: Hosts) {
    forall spec :: spec in list <==> exists a | a in hosts :: hosts[a] == spec
  }

  // ---- one request ----

  /** Some working member, whichever the draw points at; there is one whenever the cluster is available. */
  method PickWorking(cr: ClusterRepair, now: uint64) returns (a: Address)
    requires cr.Describes(now) && cr.Available()
    ensures ToWorkingMember(cr, now, a)
  {
    var draw: nat := *;
    var k := cr.okNodes[draw % |cr.okNodes|];
    assert k in Elements(cr.okNodes);
    a := cr.cluster.nodes[k].address;
  }

  method GetRepairDeleteRequest(cr: ClusterRepair, now: uint64, k: Id) returns (req: Request)
    requires cr.Describes(now) && cr.Available()
    ensures req.DeleteNode? && req == DeleteNode(cr.clusterId, cr.cluster.configChangeIndex, k, req.raftAddress)
    ensures ToWorkingMember(cr, now, req.raftAddress)
  {
    var a := PickWorking(cr, now);
    req := DeleteNode(cr.clusterId, cr.cluster.configChangeIndex, k, a);
  }

  method GetRepairCreateRequest(cr: ClusterRepair, k: Id) returns (req: Request)
    requires k in cr.cluster.nodes
    ensures req.CreateNode? && SpellsMembers(req.nodeIds, req.addresses, cr.cluster)
    ensures req == CreateNode(cr.clusterId, req.nodeIds, req.addresses, k, cr.cluster.nodes[k].address, true, false)
  {
    var nodes := cr.cluster.nodes;
    var nodeIds: seq<Id>, addresses: seq<Address> := [], [];
    var todo := nodes.Keys;
    while todo != {}
      invariant todo <= nodes.Keys && |nodeIds| == |addresses|
      invariant forall i | 0 <= i < |nodeIds| ::
                  nodeIds[i] in nodes.Keys - todo && addresses[i] == nodes[nodeIds[i]].address
      invariant forall j | j in nodes.Keys - todo :: j in nodeIds
      invariant Distinct(nodeIds)
      decreases todo
    {
      var j :| j in todo;
      nodeIds := nodeIds + [j];
      addresses := addresses + [nodes[j].address];
      todo := todo - {j};
    }
    assert Elements(nodeIds) == nodes.Keys;
    req := CreateNode(cr.clusterId, nodeIds, addresses, k, nodes[k].address, true, false);
  }

  method GetRepairAddRequest(ctx: Context, list: seq<HostSpec>, cr: ClusterRepair, failed: Id) returns (r: RoundResult)
    requires cr.Describes(ctx.db.tick) && cr.Available() && failed in cr.cluster.nodes && ListsHosts(list, ctx.db.hosts)
    ensures r.Requests? <==> exists a | a in ctx.db.hosts :: Eligible(ctx.db.hosts[a], cr.clusterId, ctx.db.tick)
    ensures !r.Requests? ==> r == NotEnoughNodeHost
    ensures r.Requests? ==>
              && |r.reqs| == 1 && r.reqs[0].AddNode?
              && r.reqs[0] == AddNode(cr.clusterId, cr.cluster.configChangeIndex, r.reqs[0].nodeId, r.reqs[0].address,
                                      r.reqs[0].raftAddress)
              && ToWorkingMember(cr, ctx.db.tick, r.reqs[0].raftAddress)
              && GoodHost(ctx.db.hosts, RegionOf(ctx.db.hosts, cr.cluster.nodes[failed].address), cr.clusterId,
                          ctx.db.tick, r.reqs[0].address)
  {
    hide ClusterRepair.Describes, ClusterRepair.Available, ToWorkingMember, Eligible;
    var failedAddress := cr.cluster.nodes[failed].address;
    var selected := GetReplacementNode(ctx.db.hosts, list, failedAddress, cr.clusterId, ctx.db.tick);
    if |selected| != 1 {
      return NotEnoughNodeHost;
    }
    ghost var a :| a in ctx.db.hosts && ctx.db.hosts[a] == selected[0];
    assert forall b | b in ctx.db.hosts :: ctx.db.hosts[b] in list;
    var member := PickWorking(cr, ctx.db.tick);
    var newNodeId: Id := *;
    r := Requests([AddNode(cr.clusterId, cr.cluster.configChangeIndex, newNodeId, selected[0].address, member)]);
  }

  lemma FirstInCluster(cr: ClusterRepair, now: uint64)
    requires cr.Describes(now)
    ensures |cr.failedNodes| > 0 ==> cr.failedNodes[0] in cr.cluster.nodes
    ensures |cr.nodesToStart| > 0 ==> cr.nodesToStart[0] in cr.cluster.nodes
  {
    if |cr.failedNodes| > 0 {
      assert cr.failedNodes[0] in Elements(cr.failedNodes);
    }
    if |cr.nodesToStart| > 0 {
      assert cr.nodesToStart[0] in Elements(cr.nodesToStart);
    }
  }

  /** What one cluster gets. */
  method RepairOne(ctx: Context, list: seq<HostSpec>, cr: ClusterRepair) returns (r: RoundResult)
    requires cr.Describes(ctx.db.tick) && ListsHosts(list, ctx.db.hosts)
    ensures r.Requests? <==> CanAnswer(ctx, cr)
    ensures r.ClusterNotLocated? <==> cr.clusterId !in ctx.expected
    ensures r.Requests? ==>
              if Decide(cr, ctx.expected[cr.clusterId]).Idle? then r.reqs == []
              else |r.reqs| == 1 && Answers(ctx, cr, r.reqs[0])
  {
    hide ClusterRepair.Describes, ListsHosts, GoodHost, ToWorkingMember, SpellsMembers, Eligible;
    if cr.clusterId !in ctx.expected {
      return ClusterNotLocated;
    }
    FirstInCluster(cr, ctx.db.tick);
    if cr.DeleteRequired(ctx.expected[cr.clusterId]) {
      var req := GetRepairDeleteRequest(cr, ctx.db.tick, cr.failedNodes[0]);
      r := Requests([req]);
    } else if cr.CreateRequired() {
      var req := GetRepairCreateRequest(cr, cr.nodesToStart[0]);
      r := Requests([req]);
    } else if cr.AddRequired() {
      r := GetRepairAddRequest(ctx, list, cr, cr.failedNodes[0]);
    } else {
      r := Requests([]);
    }
  }

  // ---- the round ----

  method RepairClusters(ctx: Context, list: seq<HostSpec>, crs: seq<ClusterRepair>, restored: set<Id>)
    returns (r: RoundResult)
    requires FromContext(ctx, crs) && ListsHosts(list, ctx.db.hosts)
    ensures r.Requests? <==> forall i | 0 <= i < |crs| && crs[i].clusterId !in restored :: CanAnswer(ctx, crs[i])
    ensures r.Requests? ==> AnswersAll(ctx, crs, restored, r.reqs)
  {
    hide ListsHosts, CanAnswer, Answers, ClusterRepair.Describes, NeedsRepair;
    var result := [];
    for i := 0 to |crs|
      invariant AnswersAll(ctx, crs[..i], restored, result)
      invariant forall j | 0 <= j < i && crs[j].clusterId !in restored :: CanAnswer(ctx, crs[j])
    {
      assert crs[..i + 1][..i] == crs[..i] && crs[..i + 1][i] == crs[i];
      if crs[i].clusterId in restored {
        continue;
      }
      assert InRepair(crs[i], ctx.db.image.clusters, ctx.db.tick);
      var one := RepairOne(ctx, list, crs[i]);
      if !one.Requests? {
        return one;
      }
      if one.reqs != [] {
        assert (result + one.reqs)[..|result|] == result;
      } else {
        assert result + one.reqs == result;
      }
      result := result + one.reqs;
    }
    assert crs[..|crs|] == crs;
    r := Requests(result);
  }

  /** A request some round could issue from the context. */
  ghost predicate Issuable(ctx: Context, req: Request) {
    exists cr :: IssuedFor(ctx, cr, req)
  }

  ghost predicate IssuedFor(ctx: Context, cr: ClusterRepair, req: Request) {
    InRepair(cr, ctx.db.image.clusters, ctx.db.tick) && cr.clusterId in ctx.expected && Answers(ctx, cr, req)
  }

  lemma {:induction false} AllIssuable(ctx: Context, crs: seq<ClusterRepair>, restored: set<Id>, reqs: seq<Request>)
    requires FromContext(ctx, crs) && AnswersAll(ctx, crs, restored, reqs)
    ensures forall req | req in reqs :: Issuable(ctx, req)
    decreases |crs|
  {
    hide Answers, InRepair;
    if crs != [] {
      var cr, before := crs[|crs| - 1], crs[..|crs| - 1];
      if cr.clusterId in restored || Decide(cr, ctx.expected[cr.clusterId]).Idle? {
        AllIssuable(ctx, before, restored, reqs);
      } else {
        AllIssuable(ctx, before, restored, reqs[..|reqs| - 1]);
        assert IssuedFor(ctx, cr, reqs[|reqs| - 1]);
        assert reqs == reqs[..|reqs| - 1] + [reqs[|reqs| - 1]];
      }
    }
  }

  // ---- what each cluster gets ----

  ghost predicate IsLeast(k: Id, s: set<Id>) { k in s && forall j | j in s :: k <= j }

  /** A failed node may go: a working majority, and more nodes failed or working than expected. */
  ghost predicate DeleteDue(c: Cluster, now: uint64, expected: nat) {
    && NodesIn(c, now, IsFailed) != {} && |NodesIn(c, now, IsOk)| >= |c.nodes| / 2 + 1
    && |NodesIn(c, now, IsFailed)| + |NodesIn(c, now, IsOk)| > expected
  }

  lemma LeastFirst(s: seq<Id>)
    requires Ascending(s) && s != []
    ensures IsLeast(s[0], Elements(s))
  {
  }

  /**
    * The decision by the status of the nodes: a due deletion first, of the lowest failed node, then the
    * start of the lowest node to be started, then, with a working majority, an addition for the lowest
    * failed node.
    */
  lemma DecidesExactly(cr: ClusterRepair, now: uint64, expected: nat)
    requires cr.Describes(now)
    ensures var failed, toStart := NodesIn(cr.cluster, now, IsFailed), NodesIn(cr.cluster, now, IsToStart);
            match Decide(cr, expected)
            case Delete(k) => DeleteDue(cr.cluster, now, expected) && IsLeast(k, failed)
            case Create(k) => !DeleteDue(cr.cluster, now, expected) && IsLeast(k, toStart)
            case Add(k) =>
              && !DeleteDue(cr.cluster, now, expected) && toStart == {} && IsLeast(k, failed)
              && |NodesIn(cr.cluster, now, IsOk)| >= |cr.cluster.nodes| / 2 + 1
            case Idle =>
              && !DeleteDue(cr.cluster, now, expected) && toStart == {}
              && (failed == {} || |NodesIn(cr.cluster, now, IsOk)| < |cr.cluster.nodes| / 2 + 1)
  {
    hide NodesIn;
    StatusesPartition(cr, now);
    AscendingCount(cr.failedNodes);
    AscendingCount(cr.okNodes);
    EmptyElements(cr.failedNodes);
    EmptyElements(cr.nodesToStart);
    if cr.failedNodes != [] { LeastFirst(cr.failedNodes); }
    if cr.nodesToStart != [] { LeastFirst(cr.nodesToStart); }
  }

  /**
    * Unless a deletion is due, the request for a cluster with nodes to be started is the CREATE of the
    * lowest of them, sent to its own address with the members spelled out, to join.
    */
  lemma UnstartedIsCreated(ctx: Context, cr: ClusterRepair, req: Request)
    requires IssuedFor(ctx, cr, req) && NodesIn(cr.cluster, ctx.db.tick, IsToStart) != {}
    requires !DeleteDue(cr.cluster, ctx.db.tick, ctx.expected[cr.clusterId])
    ensures req.CreateNode? && IsLeast(req.nodeId, NodesIn(cr.cluster, ctx.db.tick, IsToStart))
    ensures req.nodeId in cr.cluster.nodes && req.raftAddress == cr.cluster.nodes[req.nodeId].address
    ensures |req.nodeIds| == |req.addresses| == |cr.cluster.nodes|
    ensures forall k | k in cr.cluster.nodes ::
              exists i | 0 <= i < |req.nodeIds| :: req.nodeIds[i] == k && req.addresses[i] == cr.cluster.nodes[k].address
    ensures req.clusterId == cr.clusterId && req.join && !req.restore
  {
    hide SpellsMembers, DeleteDue, NeedsRepair;
    DecidesExactly(cr, ctx.db.tick, ctx.expected[cr.clusterId]);
    SpelledOut(req.nodeIds, req.addresses, cr.cluster);
  }

  lemma {:induction false} DistinctCount(s: seq<Id>)
    requires Distinct(s)
    ensures |Elements(s)| == |s|
    decreases |s|
  {
    if s != [] {
      var rest := s[..|s| - 1];
      DistinctCount(rest);
      assert Elements(s) == Elements(rest) + {s[|s| - 1]};
      assert s[|s| - 1] !in rest;
    }
  }

  lemma SpelledOut(nodeIds: seq<Id>, addresses: seq<Address>, c: Cluster)
    requires SpellsMembers(nodeIds, addresses, c)
    ensures |nodeIds| == |addresses| == |c.nodes|
    ensures forall k | k in c.nodes :: exists i | 0 <= i < |nodeIds| :: nodeIds[i] == k && addresses[i] == c.nodes[k].address
  {
    DistinctCount(nodeIds);
    assert |c.nodes.Keys| == |c.nodes|;
    forall k | k in c.nodes
      ensures exists i | 0 <= i < |nodeIds| :: nodeIds[i] == k && addresses[i] == c.nodes[k].address
    {
      assert k in Elements(nodeIds);
      var i :| 0 <= i < |nodeIds| && nodeIds[i] == k;
    }
  }

  /** The cluster got the request it needs, if it needs any. */
  ghost predicate Covered(ctx: Context, cid: Id, reqs: seq<Request>) {
    cid in ctx.expected && exists cr :: CoveredBy(ctx, cid, cr, reqs)
  }

  ghost predicate CoveredBy(ctx: Context, cid: Id, cr: ClusterRepair, reqs: seq<Request>) {
    && InRepair(cr, ctx.db.image.clusters, ctx.db.tick) && cr.clusterId == cid && cid in ctx.expected
    && (Decide(cr, ctx.expected[cid]).Idle? || exists req | req in reqs :: Answers(ctx, cr, req))
  }

  lemma {:induction false} AllCovered(ctx: Context, crs: seq<ClusterRepair>, restored: set<Id>, reqs: seq<Request>, i: nat)
    requires FromContext(ctx, crs) && AnswersAll(ctx, crs, restored, reqs)
    requires i < |crs| && crs[i].clusterId !in restored
    ensures CoveredBy(ctx, crs[i].clusterId, crs[i], reqs)
    decreases |crs|
  {
    hide Answers, InRepair;
    var cr, before := crs[|crs| - 1], crs[..|crs| - 1];
    if i < |crs| - 1 {
      var fewer := if cr.clusterId in restored || Decide(cr, ctx.expected[cr.clusterId]).Idle? then reqs else reqs[..|reqs| - 1];
      AllCovered(ctx, before, restored, fewer, i);
      assert forall req | req in fewer :: req in reqs;
    }
  }

  /** A whole repair round over a context: only requests the context calls for, and for every cluster
      that is not being restored the one it calls for. */
  method Round(ctx: Context, restored: set<Id>) returns (r: RoundResult)
    ensures r.Requests? ==> forall req | req in r.reqs :: Issuable(ctx, req)
    ensures r.Requests? ==>
              forall cid | cid in ctx.db.image.clusters && cid !in restored && NeedsRepair(ctx.db.image.clusters[cid], ctx.db.tick) ::
                Covered(ctx, cid, r.reqs)
  {
    hide AnswersAll, Issuable, CoveredBy, NeedsRepair;
    var crs := GetClusterForRepair(ctx.db.image.clusters, ctx.db.tick);
    var list := ToArray(ctx.db.hosts);
    r := RepairClusters(ctx, list, crs, restored);
    if r.Requests? {
      AllIssuable(ctx, crs, restored, r.reqs);
      forall i: nat | i < |crs| && crs[i].clusterId !in restored
        ensures Covered(ctx, crs[i].clusterId, r.reqs)
      {
        AllCovered(ctx, crs, restored, r.reqs, i);
        CoveredExpected(ctx, crs[i].clusterId, crs[i], r.reqs);
      }
    }
  }

  lemma CoveredExpected(ctx: Context, cid: Id, cr: ClusterRepair, reqs: seq<Request>)
    requires CoveredBy(ctx, cid, cr, reqs)
    ensures Covered(ctx, cid, reqs)
  {
  }

  // ---- where requests go ----

  /** The region a host has reported, "UNKNOWN" for a host that has not. */
  function HomeOf(ctx: Context, a: Address): string { if a in ctx.db.hosts then ctx.db.hosts[a].region else "UNKNOWN" }

  /** An ADD goes through a working member to a live host without a node of the cluster, one in the region
      of the lowest failed node whenever such a host is there. */
  lemma AddGoesWhere(ctx: Context, cr: ClusterRepair, req: Request)
    requires IssuedFor(ctx, cr, req) && req.AddNode?
    ensures req.clusterId == cr.clusterId && req.confChangeId == cr.cluster.configChangeIndex
    ensures exists k | k in NodesIn(cr.cluster, ctx.db.tick, IsOk) :: cr.cluster.nodes[k].address == req.raftAddress
    ensures exists a, k | a in ctx.db.hosts && k in cr.cluster.nodes ::
              && ctx.db.hosts[a].address == req.address && cr.clusterId !in ctx.db.hosts[a].clusters
              && Elapsed(ctx.db.hosts[a].tick, ctx.db.tick) < 60
              && IsLeast(k, NodesIn(cr.cluster, ctx.db.tick, IsFailed))
              && (ctx.db.hosts[a].region == HomeOf(ctx, cr.cluster.nodes[k].address) ||
                  forall b | b in ctx.db.hosts && Eligible(ctx.db.hosts[b], cr.clusterId, ctx.db.tick) ::
                    ctx.db.hosts[b].region != HomeOf(ctx, cr.cluster.nodes[k].address))
  {
    DecidesExactly(cr, ctx.db.tick, ctx.expected[cr.clusterId]);
    hide DeleteDue, NeedsRepair, ClusterRepair.Describes;
    var k := Decide(cr, ctx.expected[cr.clusterId]).failed;
    var a :| a in ctx.db.hosts && ctx.db.hosts[a].address == req.address && Eligible(ctx.db.hosts[a], cr.clusterId, ctx.db.tick)
      && (ctx.db.hosts[a].region == RegionOf(ctx.db.hosts, cr.cluster.nodes[k].address) ||
          forall b | b in ctx.db.hosts && Eligible(ctx.db.hosts[b], cr.clusterId, ctx.db.tick) ::
            ctx.db.hosts[b].region != RegionOf(ctx.db.hosts, cr.cluster.nodes[k].address));
  }

  /** A DELETE goes through a working member and names the lowest failed node. */
  lemma DeleteGoesWhere(ctx: Context, cr: ClusterRepair, req: Request)
    requires IssuedFor(ctx, cr, req) && req.DeleteNode?
    ensures req.clusterId == cr.clusterId && req.confChangeId == cr.cluster.configChangeIndex
    ensures exists k | k in NodesIn(cr.cluster, ctx.db.tick, IsOk) :: cr.cluster.nodes[k].address == req.raftAddress
    ensures IsLeast(req.nodeId, NodesIn(cr.cluster, ctx.db.tick, IsFailed))
    ensures DeleteDue(cr.cluster, ctx.db.tick, ctx.expected[cr.clusterId])
  {
    DecidesExactly(cr, ctx.db.tick, ctx.expected[cr.clusterId]);
    hide DeleteDue, NeedsRepair, ClusterRepair.Describes;
  }
}
