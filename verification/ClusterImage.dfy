/** Drummer's picture of the clusters it manages, built from the reports of the hosts. */
module ClusterImage {
  import opened Bits

  type Id = uint64
  type Address = string

  datatype Node = Node(address: Address, isLeader: bool, tick: uint64, firstObserved: uint64)

  datatype Cluster = Cluster(configChangeIndex: uint64, nodes: map<Id, Node>)

  /** What a host reports about one of its nodes. */
  datatype Report = Report(
    clusterId: Id, nodeId: Id, isLeader: bool, nodes: map<Id, Address>, configChangeIndex: uint64,
    incomplete: bool, pending: bool)
  {
    predicate Complete() { !pending && !incomplete }
  }

  datatype LogInfo = LogInfo(clusterId: Id, nodeId: Id)

  /** One report of a host: its nodes, the clusters it runs and, when included, the logs on its disk. */
  datatype HostReport = HostReport(
    raftAddress: Address, lastTick: uint64, reports: seq<Report>, region: string, clusterIds: seq<Id>,
    logIncluded: bool, logs: seq<LogInfo>)

  datatype NodeToKill = NodeToKill(clusterId: Id, nodeId: Id, address: Address)

  type Clusters = map<Id, Cluster>

  // ---- one cluster ----

  /** The membership of a cluster: who is in it and where. */
  function Members(c: Cluster): map<Id, Address> { map k | k in c.nodes :: c.nodes[k].address }

  function Unseen(address: Address, tick: uint64): Node { Node(address, false, 0, tick) }

  function NewCluster(r: Report, tick: uint64): Cluster {
    var nodes := map k | k in r.nodes :: Unseen(r.nodes[k], tick);
    Cluster(r.configChangeIndex,
            if r.nodeId in nodes then nodes[r.nodeId := nodes[r.nodeId].(isLeader := r.isLeader)] else nodes)
  }

  datatype SyncResult = Rejected | Panicked | Synced(c: Cluster)

  predicate SameIds(c: Cluster, r: Report) { |c.nodes| == |r.nodes| && r.nodes.Keys <= c.nodes.Keys }

  predicate SameAddresses(c: Cluster, r: Report) {
    forall k | k in c.nodes.Keys && k in r.nodes :: c.nodes[k].address == r.nodes[k]
  }

  predicate DistinctAddresses(m: map<Id, Address>) {
    forall i, j | i in m.Keys && j in m.Keys && i != j :: m[i] != m[j]
  }

  /** The nodes known before keep their records; the others are new. */
  function Merged(c: Cluster, r: Report, tick: uint64): map<Id, Node> {
    map k | k in r.nodes :: if k in c.nodes then c.nodes[k] else Unseen(r.nodes[k], tick)
  }

  function Sync(c: Cluster, r: Report, tick: uint64): SyncResult {
    if c.configChangeIndex > r.configChangeIndex then Rejected
    else if c.configChangeIndex == r.configChangeIndex && !SameIds(c, r) then Panicked
    else if !SameAddresses(c, r) || !DistinctAddresses(r.nodes) then Panicked
    else Synced(Cluster(r.configChangeIndex, Merged(c, r, tick)))
  }

  predicate KillRequired(c: Cluster, r: Report) {
    c.configChangeIndex > r.configChangeIndex && r.nodeId !in c.nodes
  }

  // ---- all clusters ----

  datatype Image = Image(clusters: Clusters, toKill: seq<NodeToKill>, panicked: bool)
  {
    function Kill(r: Report, host: Address): Image {
      this.(toKill := toKill + [NodeToKill(r.clusterId, r.nodeId, host)])
    }

    /** One report of doUpdate. */
    function Apply(r: Report, host: Address, tick: uint64): Image {
      if r.Complete() then
        if r.clusterId !in clusters then this.(clusters := clusters[r.clusterId := NewCluster(r, tick)])
        else
          match Sync(clusters[r.clusterId], r, tick)
          case Panicked => this.(panicked := true)
          case Synced(c) => this.(clusters := clusters[r.clusterId := c])
          case Rejected => if KillRequired(clusters[r.clusterId], r) then Kill(r, host) else this
      else if r.clusterId in clusters &&
              |clusters[r.clusterId].nodes| > 0 && clusters[r.clusterId].configChangeIndex > 0 &&
              KillRequired(clusters[r.clusterId], r)
      then Kill(r, host)
      else this
    }

    function ApplyAll(rs: seq<Report>, host: Address, tick: uint64): Image
      decreases |rs|
    {
      if panicked || rs == [] then this else Apply(rs[0], host, tick).ApplyAll(rs[1..], host, tick)
    }

    /** The node a report comes from is alive. */
    function Seen(r: Report, tick: uint64): Image {
      if r.clusterId in clusters && r.nodeId in clusters[r.clusterId].nodes then
        var c := clusters[r.clusterId];
        this.(clusters := clusters[r.clusterId := c.(nodes := c.nodes[r.nodeId := c.nodes[r.nodeId].(tick := tick)])])
      else this
    }

    function SeenAll(rs: seq<Report>, tick: uint64): Image
      decreases |rs|
    {
      if rs == [] then this else Seen(rs[0], tick).SeenAll(rs[1..], tick)
    }

    function Led(r: Report): Image {
      if r.clusterId in clusters && clusters[r.clusterId].configChangeIndex <= r.configChangeIndex &&
         r.nodeId in clusters[r.clusterId].nodes
      then this.(clusters := clusters[r.clusterId := LeaderSynced(clusters[r.clusterId], r)])
      else this
    }

    function LedAll(rs: seq<Report>): Image
      decreases |rs|
    {
      if rs == [] then this else Led(rs[0]).LedAll(rs[1..])
    }

    function Update(h: HostReport): Image {
      var applied := ApplyAll(h.reports, h.raftAddress, h.lastTick);
      if applied.panicked then applied else applied.SeenAll(h.reports, h.lastTick).LedAll(h.reports)
    }
  }

  const NO_CLUSTERS: Image := Image(map[], [], false)

  function Demoted(nodes: map<Id, Node>): map<Id, Node> { map k | k in nodes :: nodes[k].(isLeader := false) }

  function LeaderSynced(c: Cluster, r: Report): Cluster
    requires r.nodeId in c.nodes
  {
    var n := c.nodes[r.nodeId];
    if !r.isLeader && n.isLeader then c.(nodes := c.nodes[r.nodeId := n.(isLeader := false)])
    else if r.isLeader && !n.isLeader then
      c.(nodes := Demoted(c.nodes)[r.nodeId := n.(isLeader := true)])
    else c
  }

  // ---- the methods ----

  /** Whether two nodes of `nodes` share an address. */
  method HasDuplicate(nodes: map<Id, Node>) returns (dup: bool)
    ensures dup == exists i, j | i in nodes.Keys && j in nodes.Keys && i != j :: nodes[i].address == nodes[j].address
  {
    var todo := nodes.Keys;
    var addrs: set<Address> := {};
    while todo != {}
      invariant todo <= nodes.Keys
      invariant forall a :: a in addrs <==> exists i | i in nodes.Keys && i !in todo :: nodes[i].address == a
      invariant forall i, j | i in nodes.Keys && j in nodes.Keys && i !in todo && j !in todo && i != j ::
                  nodes[i].address != nodes[j].address
      decreases todo
    {
      var k :| k in todo;
      if nodes[k].address in addrs {
        return true;
      }
      addrs := addrs + {nodes[k].address};
      todo := todo - {k};
    }
    return false;
  }

  /** The equal-index check: the same number of nodes, and each of them known. */
  method CheckIds(c: Cluster, r: Report) returns (same: bool)
    ensures same == SameIds(c, r)
  {
    if |c.nodes| != |r.nodes| {
      return false;
    }
    var todo := r.nodes.Keys;
    while todo != {}
      invariant todo <= r.nodes.Keys && r.nodes.Keys - todo <= c.nodes.Keys
      decreases todo
    {
      var k :| k in todo;
      if k !in c.nodes {
        return false;
      }
      todo := todo - {k};
    }
    return true;
  }

  /** Removes the nodes that left and adds the ones that joined, unless a node moved. */
  method MergeNodes(c: Cluster, r: Report, tick: uint64) returns (moved: bool, nodes: map<Id, Node>)
    ensures moved == !SameAddresses(c, r)
    ensures !moved ==> nodes == Merged(c, r, tick)
  {
    nodes := c.nodes;
    var toRemove := set k | k in nodes.Keys && k !in r.nodes;
    nodes := nodes - toRemove;
    var todo := r.nodes.Keys;
    while todo != {}
      invariant todo <= r.nodes.Keys
      invariant nodes.Keys == (c.nodes.Keys * r.nodes.Keys) + (r.nodes.Keys - todo)
      invariant forall k | k in nodes :: nodes[k] == Merged(c, r, tick)[k]
      invariant forall k | k in r.nodes.Keys - todo && k in c.nodes :: c.nodes[k].address == r.nodes[k]
      decreases todo
    {
      var k :| k in todo;
      if k !in nodes {
        nodes := nodes[k := Node(r.nodes[k], false, 0, tick)];
      } else if nodes[k].address != r.nodes[k] {
        return true, nodes;
      }
      todo := todo - {k};
    }
    return false, nodes;
  }

  method SyncCluster(c: Cluster, r: Report, tick: uint64) returns (result: SyncResult)
    ensures result == Sync(c, r, tick)
  {
    hide SameIds;
    if c.configChangeIndex > r.configChangeIndex {
      return Rejected;
    }
    if c.configChangeIndex == r.configChangeIndex {
      var same := CheckIds(c, r);
      if !same {
        return Panicked;
      }
    }
    var moved, nodes := MergeNodes(c, r, tick);
    if moved {
      return Panicked;
    }
    assert forall k | k in nodes.Keys :: nodes[k].address == r.nodes[k];
    var dup := HasDuplicate(nodes);
    assert dup == !DistinctAddresses(r.nodes);
    if dup {
      return Panicked;
    }
    return Synced(Cluster(r.configChangeIndex, nodes));
  }

  class MultiCluster {
    var clusters: Clusters
    var nodesToKill: seq<NodeToKill>
    var panicked: bool

    ghost function Now(): Image
      reads this
    {
      Image(clusters, nodesToKill, panicked)
    }

    constructor ()
      ensures Now() == NO_CLUSTERS
    {
      clusters, nodesToKill, panicked := map[], [], false;
    }

    method Update(h: HostReport)
      modifies this
      ensures Now() == old(Now()).Update(h)
    {
      DoUpdate(h);
      if !panicked {
        SyncLeaderInfo(h.reports);
      }
    }

    /** The reports one by one, then the ticks of the nodes they came from. */
    method DoUpdate(h: HostReport)
      modifies this
      ensures var applied := old(Now()).ApplyAll(h.reports, h.raftAddress, h.lastTick);
              Now() == (if applied.panicked then applied else applied.SeenAll(h.reports, h.lastTick)) &&
              panicked == applied.panicked
    {
      hide Image.Apply, Image.SeenAll;
      for i := 0 to |h.reports|
        invariant Now().ApplyAll(h.reports[i..], h.raftAddress, h.lastTick) ==
                  old(Now()).ApplyAll(h.reports, h.raftAddress, h.lastTick)
      {
        assert h.reports[i..][0] == h.reports[i] && h.reports[i..][1..] == h.reports[i + 1..];
        if panicked {
          return;
        }
        ApplyReport(h.reports[i], h.raftAddress, h.lastTick);
      }
      if panicked {
        return;
      }
      UpdateNodeTick(h.reports, h.lastTick);
    }

    method ApplyReport(r: Report, host: Address, tick: uint64)
      modifies this
      ensures Now() == old(Now()).Apply(r, host, tick)
    {
      hide Sync;
      var cid := r.clusterId;
      if r.pending || r.incomplete {
        if cid in clusters {
          var ec := clusters[cid];
          if |ec.nodes| > 0 && ec.configChangeIndex > 0 && KillRequired(ec, r) {
            nodesToKill := nodesToKill + [NodeToKill(cid, r.nodeId, host)];
          }
        }
        return;
      }
      if cid !in clusters {
        clusters := clusters[cid := NewCluster(r, tick)];
      } else {
        var result := SyncCluster(clusters[cid], r, tick);
        match result
        case Panicked => panicked := true;
        case Synced(c) => clusters := clusters[cid := c];
        case Rejected =>
          if KillRequired(clusters[cid], r) {
            nodesToKill := nodesToKill + [NodeToKill(cid, r.nodeId, host)];
          }
      }
    }

    method UpdateNodeTick(rs: seq<Report>, tick: uint64)
      modifies this`clusters
      ensures Now() == old(Now()).SeenAll(rs, tick)
    {
      for i := 0 to |rs|
        invariant Now().SeenAll(rs[i..], tick) == old(Now()).SeenAll(rs, tick)
      {
        assert rs[i..][0] == rs[i] && rs[i..][1..] == rs[i + 1..];
        var cid, nid := rs[i].clusterId, rs[i].nodeId;
        if cid in clusters {
          var ec := clusters[cid];
          if nid in ec.nodes {
            clusters := clusters[cid := ec.(nodes := ec.nodes[nid := ec.nodes[nid].(tick := tick)])];
          }
        }
      }
    }

    method SyncLeaderInfo(rs: seq<Report>)
      modifies this`clusters
      ensures Now() == old(Now()).LedAll(rs)
    {
      for i := 0 to |rs|
        invariant Now().LedAll(rs[i..]) == old(Now()).LedAll(rs)
      {
        assert rs[i..][0] == rs[i] && rs[i..][1..] == rs[i + 1..];
        var r := rs[i];
        if r.clusterId !in clusters {
          continue;
        }
        var c := clusters[r.clusterId];
        if c.configChangeIndex > r.configChangeIndex {
          continue;
        }
        if r.nodeId !in c.nodes {
          continue;
        }
        var n := c.nodes[r.nodeId];
        if !r.isLeader && n.isLeader {
          c := c.(nodes := c.nodes[r.nodeId := n.(isLeader := false)]);
        } else if r.isLeader && !n.isLeader {
          c := c.(nodes := Demoted(c.nodes)[r.nodeId := n.(isLeader := true)]);
        }
        assert c == LeaderSynced(clusters[r.clusterId], r);
        clusters := clusters[r.clusterId := c];
      }
    }
  }
}
