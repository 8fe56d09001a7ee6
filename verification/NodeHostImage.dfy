/** Drummer's picture of the hosts, and the database update that keeps it in step with the clusters. */
module NodeHostImage {
  import opened Bits
  import opened ClusterImage
  import opened Sequences

  /** The set form of a host's log list, built when first asked for. */
  datatype LogCache = Unbuilt | Built(logs: set<LogInfo>)

  datatype HostSpec = HostSpec(
    address: Address, region: string, tick: uint64, persistentLog: seq<LogInfo>, clusters: set<Id>, logCache: LogCache)

  type Hosts = map<Address, HostSpec>

  function ToHostSpec(h: HostReport): HostSpec {
    HostSpec(h.raftAddress, h.region, h.lastTick, if h.logIncluded then h.logs else [], Elements(h.clusterIds), Unbuilt)
  }

  function SyncHostSpec(spec: HostSpec, h: HostReport): HostSpec {
    var synced := spec.(region := h.region, tick := h.lastTick, clusters := Elements(h.clusterIds));
    if h.logIncluded then synced.(persistentLog := h.logs, logCache := Unbuilt) else synced
  }

  function Updated(hosts: Hosts, h: HostReport): Hosts {
    hosts[h.raftAddress := if h.raftAddress in hosts then SyncHostSpec(hosts[h.raftAddress], h) else ToHostSpec(h)]
  }

  function AddressesOf(c: Cluster): set<Address> { set k | k in c.nodes :: c.nodes[k].address }

  /** The clusters among `ids` that have a node at `a`. */
  function ClustersAt(clusters: Clusters, ids: set<Id>, a: Address): set<Id> {
    set cid | cid in ids && cid in clusters && a in AddressesOf(clusters[cid])
  }

  function WithClusters(spec: HostSpec, more: set<Id>): HostSpec { spec.(clusters := spec.clusters + more) }

  /** Each known host lists the clusters that have a node on it. */
  function Listed(hosts: Hosts, clusters: Clusters): Hosts {
    map a | a in hosts :: WithClusters(hosts[a], ClustersAt(clusters, clusters.Keys, a))
  }

  /** A host is filed under its own address and its log set, once built, is its log list. */
  ghost predicate ValidHosts(hosts: Hosts) {
    forall a | a in hosts :: hosts[a].address == a && CacheAgrees(hosts[a])
  }

  predicate CacheAgrees(spec: HostSpec) { spec.logCache.Built? ==> spec.logCache.logs == Elements(spec.persistentLog) }

  class MultiNodeHost {
    var nodehosts: Hosts

    constructor ()
      ensures nodehosts == map[]
    {
      nodehosts := map[];
    }

    method Update(h: HostReport)
      modifies this
      ensures nodehosts == Updated(old(nodehosts), h)
    {
      if h.raftAddress in nodehosts {
        SyncNodeHostSpec(h);
      } else {
        var logs := [];
        if h.logIncluded {
          logs := CopyLogs(h.logs);
        }
        var ids := CollectIds(h.clusterIds);
        nodehosts := nodehosts[h.raftAddress := HostSpec(h.raftAddress, h.region, h.lastTick, logs, ids, Unbuilt)];
      }
    }

    method SyncNodeHostSpec(h: HostReport)
      requires h.raftAddress in nodehosts
      modifies this
      ensures nodehosts == old(nodehosts)[h.raftAddress := SyncHostSpec(old(nodehosts)[h.raftAddress], h)]
    {
      var spec := nodehosts[h.raftAddress].(region := h.region, tick := h.lastTick);
      if h.logIncluded {
        var logs := CopyLogs(h.logs);
        spec := spec.(persistentLog := logs, logCache := Unbuilt);
      }
      var ids := CollectIds(h.clusterIds);
      spec := spec.(clusters := ids);
      nodehosts := nodehosts[h.raftAddress := spec];
    }

    /** Whether the host has the log of a node; the answer never depends on when the set was built. */
    method HasLog(a: Address, cid: Id, nid: Id) returns (has: bool)
      requires ValidHosts(nodehosts) && a in nodehosts
      modifies this
      ensures has == (LogInfo(cid, nid) in old(nodehosts)[a].persistentLog)
      ensures ValidHosts(nodehosts) && nodehosts.Keys == old(nodehosts).Keys
      ensures forall b | b in nodehosts :: nodehosts[b] == old(nodehosts)[b].(logCache := nodehosts[b].logCache)
    {
      if nodehosts[a].logCache == Unbuilt {
        var logs: set<LogInfo> := {};
        for i := 0 to |nodehosts[a].persistentLog|
          invariant nodehosts == old(nodehosts) && logs == Elements(nodehosts[a].persistentLog[..i])
        {
          logs := logs + {nodehosts[a].persistentLog[i]};
        }
        assert nodehosts[a].persistentLog[..|nodehosts[a].persistentLog|] == nodehosts[a].persistentLog;
        nodehosts := nodehosts[a := nodehosts[a].(logCache := Built(logs))];
      }
      has := LogInfo(cid, nid) in nodehosts[a].logCache.logs;
    }

    method SyncClusterInfo(clusters: Clusters)
      modifies this
      ensures nodehosts == Listed(old(nodehosts), clusters)
    {
      hide AddressesOf, ClustersAt;
      var todo := clusters.Keys;
      forall a | a in nodehosts
        ensures nodehosts[a] == WithClusters(nodehosts[a], ClustersAt(clusters, clusters.Keys - todo, a))
      {
        NoClusterYet(clusters, clusters.Keys - todo, a);
      }
      while todo != {}
        invariant todo <= clusters.Keys
        invariant nodehosts.Keys == old(nodehosts).Keys
        invariant forall a | a in nodehosts ::
                    nodehosts[a] == WithClusters(old(nodehosts)[a], ClustersAt(clusters, clusters.Keys - todo, a))
        decreases todo
      {
        var cid :| cid in todo;
        SyncOneCluster(cid, clusters[cid]);
        forall a | a in nodehosts
          ensures nodehosts[a] ==
                  WithClusters(old(nodehosts)[a], ClustersAt(clusters, clusters.Keys - (todo - {cid}), a))
        {
          OneMoreCluster(clusters, todo, cid, a);
        }
        todo := todo - {cid};
      }
      assert clusters.Keys - todo == clusters.Keys;
    }

    method SyncOneCluster(cid: Id, c: Cluster)
      modifies this
      ensures nodehosts.Keys == old(nodehosts).Keys
      ensures forall a | a in nodehosts ::
                nodehosts[a] == WithClusters(old(nodehosts)[a], If(a in AddressesOf(c), cid))
    {
      var todo := c.nodes.Keys;
      while todo != {}
        invariant todo <= c.nodes.Keys
        invariant nodehosts.Keys == old(nodehosts).Keys
        invariant forall a | a in nodehosts ::
                    nodehosts[a] ==
                    WithClusters(old(nodehosts)[a], If(exists k | k in c.nodes.Keys - todo :: c.nodes[k].address == a, cid))
        decreases todo
      {
        var k :| k in todo;
        var a := c.nodes[k].address;
        if a in nodehosts {
          nodehosts := nodehosts[a := nodehosts[a].(clusters := nodehosts[a].clusters + {cid})];
        }
        todo := todo - {k};
      }
    }
  }

  lemma NoClusterYet(clusters: Clusters, ids: set<Id>, a: Address)
    requires ids == {}
    ensures ClustersAt(clusters, ids, a) == {}
  {
  }

  lemma OneMoreCluster(clusters: Clusters, todo: set<Id>, cid: Id, a: Address)
    requires cid in todo && todo <= clusters.Keys
    ensures ClustersAt(clusters, clusters.Keys - (todo - {cid}), a) ==
            ClustersAt(clusters, clusters.Keys - todo, a) + If(a in AddressesOf(clusters[cid]), cid)
  {
  }

  function If(present: bool, cid: Id): set<Id> { if present then {cid} else {} }

  method CopyLogs(logs: seq<LogInfo>) returns (copy: seq<LogInfo>)
    ensures copy == logs
  {
    copy := [];
    for i := 0 to |logs|
      invariant copy == logs[..i]
    {
      copy := copy + [logs[i]];
    }
  }

  method CollectIds(ids: seq<Id>) returns (s: set<Id>)
    ensures s == Elements(ids)
  {
    s := {};
    for i := 0 to |ids|
      invariant s == Elements(ids[..i])
    {
      s := s + {ids[i]};
    }
    assert ids[..|ids|] == ids;
  }

  // ---- the database ----

  /** The part of the database the scheduler works from. */
  datatype DbState = DbState(tick: uint64, image: Image, hosts: Hosts)
  {
    /** applyNodeHostInfoUpdate: the report is stamped with the tick of the database. */
    function Reported(h: HostReport): DbState {
      var stamped := h.(lastTick := tick);
      var image' := image.Update(stamped);
      DbState(tick, image', if image'.panicked then hosts else Listed(Updated(hosts, stamped), image'.clusters))
    }
  }

  const EMPTY_DB: DbState := DbState(0, NO_CLUSTERS, map[])

  /** A request for a host. */
  datatype Posted<R> = Posted(address: Address, request: R)

  /** The requests waiting for each host, and those handed to it with its last report. */
  datatype Mail<R> = Mail(requests: map<Address, seq<R>>, outgoing: map<Address, seq<R>>)
  {
    /** A report of the host at `a` collects what waits for it. */
    function Collected(a: Address): Mail<R> {
      Mail(requests - {a}, if a in requests then outgoing[a := requests[a]] else outgoing - {a})
    }

    /** A round's requests replace what waits for the hosts they go to. */
    ghost function Post(batch: seq<Posted<R>>): Mail<R> { this.(requests := requests + Grouped(batch)) }
  }

  /** The requests for `a`, in order. */
  function For<R>(batch: seq<Posted<R>>, a: Address): seq<R> {
    if batch == [] then []
    else For(batch[..|batch| - 1], a) +
         (if batch[|batch| - 1].address == a then [batch[|batch| - 1].request] else [])
  }

  ghost function Grouped<R>(batch: seq<Posted<R>>): map<Address, seq<R>> {
    map p | p in batch :: p.address := For(batch, p.address)
  }

  class DB<R> {
    var tick: uint64
    const clusterImage: MultiCluster
    const nodeHostImage: MultiNodeHost
    var requests: map<Address, seq<R>>
    var outgoing: map<Address, seq<R>>

    ghost function Now(): DbState
      reads this, clusterImage, nodeHostImage
    {
      DbState(tick, clusterImage.Now(), nodeHostImage.nodehosts)
    }

    ghost function Box(): Mail<R>
      reads this
    {
      Mail(requests, outgoing)
    }

    constructor ()
      ensures Now() == EMPTY_DB && fresh(clusterImage) && fresh(nodeHostImage)
      ensures Box() == Mail(map[], map[])
    {
      tick := 0;
      clusterImage := new MultiCluster();
      nodeHostImage := new MultiNodeHost();
      requests, outgoing := map[], map[];
    }

    method ApplyNodeHostInfo(h: HostReport) returns (count: nat)
      modifies this`requests, this`outgoing, clusterImage, nodeHostImage
      ensures Now() == old(Now()).Reported(h)
      ensures !clusterImage.panicked ==>
                && Box() == old(Box()).Collected(h.raftAddress)
                && count == if h.raftAddress in outgoing then |outgoing[h.raftAddress]| else 0
    {
      hide Image.Update, Updated, Listed;
      count := 0;
      outgoing := outgoing - {h.raftAddress};
      var stamped := h.(lastTick := tick);
      clusterImage.Update(stamped);
      if clusterImage.panicked {
        return;
      }
      nodeHostImage.Update(stamped);
      nodeHostImage.SyncClusterInfo(clusterImage.clusters);
      if h.raftAddress in requests {
        var reqs := requests[h.raftAddress];
        count := |reqs|;
        requests := requests - {h.raftAddress};
        outgoing := outgoing[h.raftAddress := reqs];
      }
    }

    /** The requests of a repair round, grouped by the host they go to. */
    method ApplyRequests(batch: seq<Posted<R>>)
      modifies this`requests
      ensures Box() == old(Box()).Post(batch)
    {
      hide Grouped;
      var grouped := GroupByAddress(batch);
      requests := requests + grouped;
    }
  }

  method GroupByAddress<R>(batch: seq<Posted<R>>) returns (grouped: map<Address, seq<R>>)
    ensures grouped == Grouped(batch)
  {
    hide For, Grouped;
    grouped := map[];
    assert forall a: Address :: For(batch[..0], a) == [] by { ForNothing(batch[..0]); }
    for i := 0 to |batch|
      invariant SoFar(batch[..i], grouped)
    {
      ForNext(batch, i);
      var p := batch[i];
      var q := if p.address in grouped then grouped[p.address] else [];
      grouped := grouped[p.address := q + [p.request]];
    }
    assert batch[..|batch|] == batch;
    forall a: Address
      ensures a in grouped <==> a in Grouped(batch)
      ensures a in grouped ==> grouped[a] == Grouped(batch)[a]
    {
      GroupedAt(batch, a);
    }
  }

  ghost predicate SoFar<R>(batch: seq<Posted<R>>, grouped: map<Address, seq<R>>) {
    forall a: Address :: (a in grouped <==> For(batch, a) != []) && (a in grouped ==> grouped[a] == For(batch, a))
  }

  lemma ForNothing<R>(batch: seq<Posted<R>>)
    requires batch == []
    ensures forall a: Address :: For(batch, a) == []
  {
  }

  /** The updates of the database that move requests. */
  datatype MailOp<R> = Posting(batch: seq<Posted<R>>) | Reporting(a: Address)

  ghost function MailRun<R>(m: Mail<R>, ops: seq<MailOp<R>>): Mail<R>
    decreases |ops|
  {
    if ops == [] then m
    else
      var before := MailRun(m, ops[..|ops| - 1]);
      match ops[|ops| - 1]
      case Posting(batch) => before.Post(batch)
      case Reporting(a) => before.Collected(a)
  }

  /** The last posting with a request for `a` after its last report, counted from the end. */
  ghost function LastPosting<R>(ops: seq<MailOp<R>>, a: Address): seq<R>
    decreases |ops|
  {
    if ops == [] then []
    else
      var rest := LastPosting(ops[..|ops| - 1], a);
      match ops[|ops| - 1]
      case Posting(batch) => if For(batch, a) != [] then For(batch, a) else rest
      case Reporting(b) => if a == b then [] else rest
  }

  lemma ForNext<R>(batch: seq<Posted<R>>, i: nat)
    requires i < |batch|
    ensures forall a: Address :: For(batch[..i + 1], a) ==
              For(batch[..i], a) + if batch[i].address == a then [batch[i].request] else []
  {
    assert batch[..i + 1][..i] == batch[..i];
  }

  lemma {:induction false} ForNonempty<R>(batch: seq<Posted<R>>, a: Address)
    ensures For(batch, a) != [] <==> exists p | p in batch :: p.address == a
    decreases |batch|
  {
    if batch != [] {
      ForNonempty(batch[..|batch| - 1], a);
      assert batch == batch[..|batch| - 1] + [batch[|batch| - 1]];
    }
  }

  lemma GroupedAt<R>(batch: seq<Posted<R>>, a: Address)
    ensures a in Grouped(batch) <==> For(batch, a) != []
    ensures a in Grouped(batch) ==> Grouped(batch)[a] == For(batch, a)
  {
    ForNonempty(batch, a);
  }

  /** Over every run a host waits for exactly the last posting to it since its last report: older
      undelivered requests are replaced, and what was handed over is never handed over again. */
  lemma {:induction false} WaitingIsLastPosting<R>(ops: seq<MailOp<R>>, a: Address)
    ensures var m := MailRun(Mail(map[], map[]), ops);
            && (a in m.requests <==> LastPosting(ops, a) != [])
            && (a in m.requests ==> m.requests[a] == LastPosting(ops, a))
    decreases |ops|
  {
    hide For, Grouped;
    if ops != [] {
      WaitingIsLastPosting(ops[..|ops| - 1], a);
      match ops[|ops| - 1]
      case Posting(batch) => GroupedAt(batch, a);
      case Reporting(_) =>
    }
  }

  /** What the host at `a` was handed with its last report: the last posting to it since the one before. */
  ghost function LastHanded<R>(ops: seq<MailOp<R>>, a: Address): seq<R>
    decreases |ops|
  {
    if ops == [] then []
    else
      var before := ops[..|ops| - 1];
      if ops[|ops| - 1] == Reporting(a) then LastPosting(before, a) else LastHanded(before, a)
  }

  /** Over every run each report hands its host exactly the last posting to it since its previous report,
      and nothing else changes what a host was handed. */
  lemma {:induction false} HandedIsLastPosting<R>(ops: seq<MailOp<R>>, a: Address)
    ensures var m := MailRun(Mail(map[], map[]), ops);
            && (a in m.outgoing <==> LastHanded(ops, a) != [])
            && (a in m.outgoing ==> m.outgoing[a] == LastHanded(ops, a))
    decreases |ops|
  {
    hide For, Grouped;
    if ops != [] {
      HandedIsLastPosting(ops[..|ops| - 1], a);
      WaitingIsLastPosting(ops[..|ops| - 1], a);
    }
  }

  /** The places of the batch that are for `a`. */
  function PlacesFor<R>(batch: seq<Posted<R>>, a: Address, n: nat): seq<nat>
    requires n <= |batch|
  {
    if n == 0 then [] else PlacesFor(batch, a, n - 1) + if batch[n - 1].address == a then [n - 1] else []
  }

  /** The requests for a host are those of the batch that name it, each once, in the batch's order. */
  lemma {:induction false} ForInOrder<R>(batch: seq<Posted<R>>, a: Address, n: nat)
    requires n <= |batch|
    ensures var places, reqs := PlacesFor(batch, a, n), For(batch[..n], a);
            && |reqs| == |places| && Ascending(places)
            && (forall i | 0 <= i < n :: i in places <==> batch[i].address == a)
            && (forall i | 0 <= i < |places| :: 0 <= places[i] < n && reqs[i] == batch[places[i]].request)
  {
    if n > 0 {
      ForInOrder(batch, a, n - 1);
      assert batch[..n][..n - 1] == batch[..n - 1];
    }
  }

  // ---- what is known of a host ----

  /** The updates of the database that concern hosts. */
  datatype HostOp = Ticks(tick: uint64) | Reports(h: HostReport)

  function HostRun(s: DbState, ops: seq<HostOp>): DbState
    decreases |ops|
  {
    if ops == [] then s
    else
      var before := HostRun(s, ops[..|ops| - 1]);
      match ops[|ops| - 1]
      case Ticks(tick) => before.(tick := tick)
      case Reports(h) => before.Reported(h)
  }

  function TickAfter(ops: seq<HostOp>): uint64 {
    if ops == [] then 0 else if ops[|ops| - 1].Ticks? then ops[|ops| - 1].tick else TickAfter(ops[..|ops| - 1])
  }

  /** The host has reported. */
  predicate HasReported(ops: seq<HostOp>, a: Address) { exists i | 0 <= i < |ops| :: ops[i].Reports? && ops[i].h.raftAddress == a }

  /** The tick and the region of its last report. */
  function LastSeen(ops: seq<HostOp>, a: Address): (uint64, string) {
    if ops == [] then (0, "")
    else
      var before, op := ops[..|ops| - 1], ops[|ops| - 1];
      if op.Reports? && op.h.raftAddress == a then (TickAfter(before), op.h.region) else LastSeen(before, a)
  }

  /** The logs of its last report that included them. */
  function LastLogs(ops: seq<HostOp>, a: Address): seq<LogInfo> {
    if ops == [] then []
    else
      var before, op := ops[..|ops| - 1], ops[|ops| - 1];
      if op.Reports? && op.h.raftAddress == a && op.h.logIncluded then op.h.logs else LastLogs(before, a)
  }

  /** The clusters of its last report. */
  function LastClusters(ops: seq<HostOp>, a: Address): set<Id> {
    if ops == [] then {}
    else
      var before, op := ops[..|ops| - 1], ops[|ops| - 1];
      if op.Reports? && op.h.raftAddress == a then Elements(op.h.clusterIds) else LastClusters(before, a)
  }

  lemma HasReportedNext(ops: seq<HostOp>, a: Address)
    requires ops != []
    ensures HasReported(ops, a) <==>
            HasReported(ops[..|ops| - 1], a) || (ops[|ops| - 1].Reports? && ops[|ops| - 1].h.raftAddress == a)
  {
    assert forall i | 0 <= i < |ops| - 1 :: ops[..|ops| - 1][i] == ops[i];
  }

  /** The panic of the image stays. */
  lemma StaysPanicked(s: DbState, op: HostOp)
    requires s.image.panicked
    ensures (match op case Ticks(tick) => s.(tick := tick) case Reports(h) => s.Reported(h)).image.panicked
  {
  }

  /**
    * Over every run of reports that does not panic: exactly the hosts that have reported are known, with
    * the tick and region of their last report, the clusters it listed among theirs, and the logs of the
    * last report that included them.
    */
  lemma {:induction false} HostsAsReported(ops: seq<HostOp>, a: Address)
    requires !HostRun(EMPTY_DB, ops).image.panicked
    ensures var s := HostRun(EMPTY_DB, ops);
            && s.tick == TickAfter(ops) && (a in s.hosts <==> HasReported(ops, a))
            && (a in s.hosts ==>
                  && s.hosts[a].address == a && s.hosts[a].persistentLog == LastLogs(ops, a)
                  && LastClusters(ops, a) <= s.hosts[a].clusters
                  && (s.hosts[a].tick, s.hosts[a].region) == LastSeen(ops, a))
            && (a !in s.hosts ==> LastLogs(ops, a) == [])
    decreases |ops|
  {
    hide Image.Update, HasReported;
    if ops == [] {
      assert !HasReported(ops, a) by { NoneReported(a); }
    } else {
      var before, op := ops[..|ops| - 1], ops[|ops| - 1];
      if HostRun(EMPTY_DB, before).image.panicked {
        StaysPanicked(HostRun(EMPTY_DB, before), op);
      }
      HasReportedNext(ops, a);
      HostsAsReported(before, a);
    }
  }

  lemma NoneReported(a: Address)
    ensures !HasReported([], a)
  {
  }

  /** Every host known to run a node of a cluster lists that cluster. */
  ghost predicate HostsListMembers(s: DbState) {
    forall cid, k | cid in s.image.clusters && k in s.image.clusters[cid].nodes ::
      var a := s.image.clusters[cid].nodes[k].address;
      a in s.hosts ==> cid in s.hosts[a].clusters
  }

  /** After every report, whatever it says, each member's known host lists its cluster. */
  lemma ReportedListsMembers(s: DbState, h: HostReport)
    requires !s.Reported(h).image.panicked
    ensures HostsListMembers(s.Reported(h))
  {
    hide Image.Update, Updated;
    var t := s.Reported(h);
    forall cid, k | cid in t.image.clusters && k in t.image.clusters[cid].nodes
      ensures var a := t.image.clusters[cid].nodes[k].address; a in t.hosts ==> cid in t.hosts[a].clusters
    {
      var a := t.image.clusters[cid].nodes[k].address;
      assert a in AddressesOf(t.image.clusters[cid]);
    }
  }

  lemma ReportedKeepsHosts(s: DbState, h: HostReport)
    requires ValidHosts(s.hosts)
    ensures ValidHosts(s.Reported(h).hosts)
  {
    hide Image.Update;
  }

  /** Right after its report a host lists the clusters it reported and those with a node on it, no other. */
  lemma JustReported(s: DbState, h: HostReport)
    requires !s.Reported(h).image.panicked
    ensures var t := s.Reported(h);
            && h.raftAddress in t.hosts
            && forall cid: Id :: cid in t.hosts[h.raftAddress].clusters <==>
                 || cid in h.clusterIds
                 || (cid in t.image.clusters &&
                     exists k | k in t.image.clusters[cid].nodes :: t.image.clusters[cid].nodes[k].address == h.raftAddress)
  {
    hide Image.Update;
  }
}
