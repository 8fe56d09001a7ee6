/** The image converges: whatever the order of the reports, it shows the newest configuration reported. */
module ImageConvergence {
  import opened Bits
  import opened ClusterImage

  /** The membership Raft gave a cluster at each of its configuration change indexes. */
  type History = map<(Id, uint64), map<Id, Address>>

  /** A node id keeps its address, and no two members share one. */
  ghost predicate Consistent(history: History) {
    && (forall c, d, k | c in history && d in history && c.0 == d.0 && k in history[c] && k in history[d] ::
          history[c][k] == history[d][k])
    && (forall c | c in history :: DistinctAddresses(history[c]))
  }

  ghost predicate Records(history: History, cid: Id, index: uint64, nodes: map<Id, Address>) {
    (cid, index) in history && history[(cid, index)] == nodes
  }

  ghost predicate Truthful(r: Report, history: History) {
    r.Complete() ==> Records(history, r.clusterId, r.configChangeIndex, r.nodes)
  }

  ghost predicate AllTruthful(rs: seq<Report>, history: History) { forall r | r in rs :: Truthful(r, history) }

  /** A report with the address of the host it came from. */
  type Heard = set<(Report, Address)>

  function HeardFrom(h: HostReport): Heard { set r | r in h.reports :: (r, h.raftAddress) }

  function HeardIn(hs: seq<HostReport>): Heard
    decreases |hs|
  {
    if hs == [] then {} else HeardIn(hs[..|hs| - 1]) + HeardFrom(hs[|hs| - 1])
  }

  /** The image after a sequence of updates. */
  function ImageOf(hs: seq<HostReport>): Image
    decreases |hs|
  {
    if hs == [] then NO_CLUSTERS else ImageOf(hs[..|hs| - 1]).Update(hs[|hs| - 1])
  }

  ghost predicate Tells(p: (Report, Address), cid: Id, index: uint64, nodes: map<Id, Address>) {
    p.0.Complete() && p.0.clusterId == cid && p.0.configChangeIndex == index && p.0.nodes == nodes
  }

  /** Some complete report shows exactly this cluster, and no report shows a newer one. */
  ghost predicate NewestReported(cid: Id, c: Cluster, heard: Heard) {
    && (exists p | p in heard :: Tells(p, cid, c.configChangeIndex, Members(c)))
    && (forall p | p in heard && p.0.Complete() && p.0.clusterId == cid :: p.0.configChangeIndex <= c.configChangeIndex)
  }

  ghost predicate OneLeader(c: Cluster) {
    forall i, j | i in c.nodes.Keys && j in c.nodes.Keys && c.nodes[i].isLeader && c.nodes[j].isLeader :: i == j
  }

  /** The killed node reported itself in a configuration older than a reported one without it. */
  ghost predicate Outdated(k: NodeToKill, p: (Report, Address), q: (Report, Address)) {
    && p.0.clusterId == k.clusterId && p.0.nodeId == k.nodeId && p.1 == k.address
    && q.0.Complete() && q.0.clusterId == k.clusterId && k.nodeId !in q.0.nodes
    && p.0.configChangeIndex < q.0.configChangeIndex
  }

  ghost predicate Justified(k: NodeToKill, heard: Heard) {
    exists p, q | p in heard && q in heard :: Outdated(k, p, q)
  }

  ghost predicate Inv(s: Image, heard: Heard) {
    && !s.panicked
    && (forall p | p in heard && p.0.Complete() :: p.0.clusterId in s.clusters)
    && (forall cid | cid in s.clusters :: NewestReported(cid, s.clusters[cid], heard) && OneLeader(s.clusters[cid]))
    && (forall k | k in s.toKill :: Justified(k, heard))
  }

  ghost predicate HeardTruth(heard: Heard, history: History) { forall p | p in heard :: Truthful(p.0, history) }

  // ---- one report ----

  lemma NewClusterMembers(r: Report, tick: uint64)
    ensures Members(NewCluster(r, tick)) == r.nodes
    ensures OneLeader(NewCluster(r, tick))
  {
  }

  /** With truthful reports the three panics of a sync cannot happen. */
  lemma SyncIsExact(c: Cluster, r: Report, tick: uint64, history: History)
    requires Consistent(history) && r.Complete() && Truthful(r, history)
    requires Records(history, r.clusterId, c.configChangeIndex, Members(c))
    ensures c.configChangeIndex > r.configChangeIndex ==> Sync(c, r, tick) == Rejected
    ensures c.configChangeIndex <= r.configChangeIndex ==>
              Sync(c, r, tick) == Synced(Cluster(r.configChangeIndex, Merged(c, r, tick))) &&
              Members(Cluster(r.configChangeIndex, Merged(c, r, tick))) == r.nodes
  {
    hide Consistent, SameIds;
    if c.configChangeIndex <= r.configChangeIndex {
      NodesStay(c, r, history);
      MergedMembers(c, r, tick);
    }
  }

  lemma NodesStay(c: Cluster, r: Report, history: History)
    requires Consistent(history) && r.Complete() && Truthful(r, history)
    requires Records(history, r.clusterId, c.configChangeIndex, Members(c))
    ensures SameAddresses(c, r) && DistinctAddresses(r.nodes)
    ensures c.configChangeIndex == r.configChangeIndex ==> SameIds(c, r)
  {
    assert Members(c).Keys == c.nodes.Keys;
    assert |c.nodes.Keys| == |c.nodes| && |r.nodes.Keys| == |r.nodes|;
    forall k | k in c.nodes.Keys && k in r.nodes
      ensures c.nodes[k].address == r.nodes[k]
    {
      assert Members(c)[k] == c.nodes[k].address;
    }
  }

  lemma MergedMembers(c: Cluster, r: Report, tick: uint64)
    requires SameAddresses(c, r)
    ensures Members(Cluster(r.configChangeIndex, Merged(c, r, tick))) == r.nodes
  {
  }

  lemma MergedOneLeader(c: Cluster, r: Report, tick: uint64)
    requires OneLeader(c)
    ensures OneLeader(Cluster(r.configChangeIndex, Merged(c, r, tick)))
  {
  }

  lemma StillNewest(cid: Id, c: Cluster, heard: Heard, p: (Report, Address))
    requires NewestReported(cid, c, heard)
    requires p.0.Complete() && p.0.clusterId == cid ==> p.0.configChangeIndex <= c.configChangeIndex
    ensures NewestReported(cid, c, heard + {p})
  {
    var q :| q in heard && Tells(q, cid, c.configChangeIndex, Members(c));
    assert q in heard + {p};
  }

  lemma NowNewest(cid: Id, c: Cluster, heard: Heard, p: (Report, Address), before: Cluster)
    requires NewestReported(cid, before, heard) && before.configChangeIndex <= c.configChangeIndex
    requires Tells(p, cid, c.configChangeIndex, Members(c))
    ensures NewestReported(cid, c, heard + {p})
  {
    assert p in heard + {p};
  }

  lemma StillJustified(k: NodeToKill, heard: Heard, more: Heard)
    requires Justified(k, heard) && heard <= more
    ensures Justified(k, more)
  {
    var p, q :| p in heard && q in heard && Outdated(k, p, q);
    assert p in more && q in more;
  }

  lemma KillJustified(c: Cluster, r: Report, host: Address, heard: Heard)
    requires NewestReported(r.clusterId, c, heard) && KillRequired(c, r)
    ensures Justified(NodeToKill(r.clusterId, r.nodeId, host), heard + {(r, host)})
  {
    var q :| q in heard && Tells(q, r.clusterId, c.configChangeIndex, Members(c));
    assert q in heard + {(r, host)} && (r, host) in heard + {(r, host)};
    assert Outdated(NodeToKill(r.clusterId, r.nodeId, host), (r, host), q);
  }

  /** What the image says of each cluster is its history at that index. */
  ghost predicate Shows(s: Image, history: History) {
    && !s.panicked
    && forall cid | cid in s.clusters ::
         Records(history, cid, s.clusters[cid].configChangeIndex, Members(s.clusters[cid]))
  }

  lemma ShowsHistory(s: Image, heard: Heard, history: History)
    requires Inv(s, heard) && HeardTruth(heard, history)
    ensures Shows(s, history)
  {
    hide OneLeader, Members;
    forall cid | cid in s.clusters
      ensures Records(history, cid, s.clusters[cid].configChangeIndex, Members(s.clusters[cid]))
    {
      assert NewestReported(cid, s.clusters[cid], heard);
      var q :| q in heard && Tells(q, cid, s.clusters[cid].configChangeIndex, Members(s.clusters[cid]));
    }
  }

  ghost predicate ApplyShape(s: Image, r: Report, host: Address, t: Image) {
    || t == s
    || (r.clusterId in s.clusters && KillRequired(s.clusters[r.clusterId], r) && t == s.Kill(r, host))
    || (r.Complete() && exists c :: SyncedTo(s, r, c, t))
  }

  /** The report replaced the record of its cluster by one that shows the report. */
  ghost predicate SyncedTo(s: Image, r: Report, c: Cluster, t: Image) {
    && t == s.(clusters := s.clusters[r.clusterId := c])
    && c.configChangeIndex == r.configChangeIndex && Members(c) == r.nodes
    && ((r.clusterId in s.clusters ==> OneLeader(s.clusters[r.clusterId])) ==> OneLeader(c))
    && (r.clusterId in s.clusters ==> s.clusters[r.clusterId].configChangeIndex <= c.configChangeIndex)
  }

  lemma ApplyShaped(s: Image, r: Report, host: Address, tick: uint64, history: History)
    requires Consistent(history) && Shows(s, history) && Truthful(r, history)
    ensures ApplyShape(s, r, host, s.Apply(r, host, tick))
    ensures r.Complete() && s.Apply(r, host, tick).clusters == s.clusters ==>
              r.clusterId in s.clusters && r.configChangeIndex <= s.clusters[r.clusterId].configChangeIndex
  {
    hide Consistent, Sync, OneLeader, Members;
    if r.Complete() && r.clusterId !in s.clusters {
      NewClusterMembers(r, tick);
      assert SyncedTo(s, r, NewCluster(r, tick), s.Apply(r, host, tick));
    } else if r.Complete() {
      var c := s.clusters[r.clusterId];
      SyncIsExact(c, r, tick, history);
      if OneLeader(c) {
        MergedOneLeader(c, r, tick);
      }
      if c.configChangeIndex <= r.configChangeIndex {
        assert SyncedTo(s, r, Cluster(r.configChangeIndex, Merged(c, r, tick)), s.Apply(r, host, tick));
      }
    }
  }

  lemma ApplyInv(s: Image, heard: Heard, r: Report, host: Address, tick: uint64, history: History)
    requires Consistent(history) && HeardTruth(heard, history) && Inv(s, heard) && Truthful(r, history)
    ensures Inv(s.Apply(r, host, tick), heard + {(r, host)})
  {
    hide Consistent, HeardTruth, Members, OneLeader, NewestReported, Justified, Image.Apply;
    var t := s.Apply(r, host, tick);
    ShowsHistory(s, heard, history);
    ApplyShaped(s, r, host, tick, history);
    forall cid | cid in t.clusters
      ensures NewestReported(cid, t.clusters[cid], heard + {(r, host)}) && OneLeader(t.clusters[cid])
    {
      if t.clusters == s.clusters || cid != r.clusterId {
        StillNewest(cid, t.clusters[cid], heard, (r, host));
      } else if cid in s.clusters {
        NowNewest(cid, t.clusters[cid], heard, (r, host), s.clusters[cid]);
      } else {
        FirstNewest(cid, t.clusters[cid], heard, (r, host));
      }
    }
    forall k | k in t.toKill
      ensures Justified(k, heard + {(r, host)})
    {
      if k in s.toKill {
        StillJustified(k, heard, heard + {(r, host)});
      } else {
        KillJustified(s.clusters[r.clusterId], r, host, heard);
      }
    }
  }

  lemma FirstNewest(cid: Id, c: Cluster, heard: Heard, p: (Report, Address))
    requires forall q | q in heard && q.0.Complete() :: q.0.clusterId != cid
    requires Tells(p, cid, c.configChangeIndex, Members(c))
    ensures NewestReported(cid, c, heard + {p})
  {
    assert p in heard + {p};
  }

  lemma {:induction false} ApplyAllInv(
      s: Image, heard: Heard, rs: seq<Report>, host: Address, tick: uint64, history: History)
    requires Consistent(history) && HeardTruth(heard, history) && Inv(s, heard) && AllTruthful(rs, history)
    ensures Inv(s.ApplyAll(rs, host, tick), heard + set r | r in rs :: (r, host))
    decreases |rs|
  {
    hide Consistent, NewestReported, OneLeader, Justified, Image.Apply;
    if rs == [] {
      assert heard + (set r | r in rs :: (r, host)) == heard;
    } else {
      ApplyInv(s, heard, rs[0], host, tick, history);
      ApplyAllInv(s.Apply(rs[0], host, tick), heard + {(rs[0], host)}, rs[1..], host, tick, history);
      assert rs == [rs[0]] + rs[1..];
      assert heard + {(rs[0], host)} + (set r | r in rs[1..] :: (r, host)) == heard + (set r | r in rs :: (r, host));
    }
  }

  // ---- ticks and leaders change neither membership nor index ----

  /** The same clusters with the same members and indexes, each with one leader at most if it was so. */
  ghost predicate SameShape(s: Image, t: Image) {
    && t.toKill == s.toKill && t.panicked == s.panicked && t.clusters.Keys == s.clusters.Keys
    && forall cid | cid in s.clusters ::
         && t.clusters[cid].configChangeIndex == s.clusters[cid].configChangeIndex
         && Members(t.clusters[cid]) == Members(s.clusters[cid])
         && (OneLeader(s.clusters[cid]) ==> OneLeader(t.clusters[cid]))
  }

  lemma SeenShape(s: Image, r: Report, tick: uint64)
    ensures SameShape(s, s.Seen(r, tick))
  {
    var t := s.Seen(r, tick);
    if r.clusterId in s.clusters {
      assert Members(t.clusters[r.clusterId]) == Members(s.clusters[r.clusterId]);
    }
  }

  lemma LedShape(s: Image, r: Report)
    ensures SameShape(s, s.Led(r))
  {
    var t := s.Led(r);
    if r.clusterId in s.clusters {
      assert Members(t.clusters[r.clusterId]) == Members(s.clusters[r.clusterId]);
    }
  }

  lemma SameShapeTrans(s: Image, t: Image, u: Image)
    requires SameShape(s, t) && SameShape(t, u)
    ensures SameShape(s, u)
  {
    hide Members, OneLeader;
  }

  lemma {:induction false} SeenAllShape(s: Image, rs: seq<Report>, tick: uint64)
    ensures SameShape(s, s.SeenAll(rs, tick))
    decreases |rs|
  {
    if rs != [] {
      SeenShape(s, rs[0], tick);
      SeenAllShape(s.Seen(rs[0], tick), rs[1..], tick);
      SameShapeTrans(s, s.Seen(rs[0], tick), s.SeenAll(rs, tick));
    }
  }

  lemma {:induction false} LedAllShape(s: Image, rs: seq<Report>)
    ensures SameShape(s, s.LedAll(rs))
    decreases |rs|
  {
    if rs != [] {
      LedShape(s, rs[0]);
      LedAllShape(s.Led(rs[0]), rs[1..]);
      SameShapeTrans(s, s.Led(rs[0]), s.LedAll(rs));
    }
  }

  lemma ShapeInv(s: Image, t: Image, heard: Heard)
    requires Inv(s, heard) && SameShape(s, t)
    ensures Inv(t, heard)
  {
    hide OneLeader, Justified;
    forall cid | cid in t.clusters
      ensures NewestReported(cid, t.clusters[cid], heard)
    {
      hide Members;
      var q :| q in heard && Tells(q, cid, s.clusters[cid].configChangeIndex, Members(s.clusters[cid]));
      assert Tells(q, cid, t.clusters[cid].configChangeIndex, Members(t.clusters[cid]));
    }
  }

  lemma UpdateInv(s: Image, heard: Heard, h: HostReport, history: History)
    requires Consistent(history) && HeardTruth(heard, history) && Inv(s, heard) && AllTruthful(h.reports, history)
    ensures Inv(s.Update(h), heard + HeardFrom(h))
  {
    hide Consistent, HeardTruth, NewestReported, SameShape, Image.ApplyAll, Image.SeenAll, Image.LedAll;
    var applied := s.ApplyAll(h.reports, h.raftAddress, h.lastTick);
    var ticked := applied.SeenAll(h.reports, h.lastTick);
    ApplyAllInv(s, heard, h.reports, h.raftAddress, h.lastTick, history);
    SeenAllShape(applied, h.reports, h.lastTick);
    LedAllShape(ticked, h.reports);
    SameShapeTrans(applied, ticked, ticked.LedAll(h.reports));
    ShapeInv(applied, ticked.LedAll(h.reports), heard + HeardFrom(h));
  }

  // ---- what an image shows, without what was heard ----

  lemma ApplyShows(s: Image, r: Report, host: Address, tick: uint64, history: History)
    requires Consistent(history) && Shows(s, history) && Truthful(r, history)
    ensures Shows(s.Apply(r, host, tick), history)
  {
    hide Consistent, OneLeader, Members, Image.Apply;
    ApplyShaped(s, r, host, tick, history);
  }

  lemma {:induction false} ApplyAllShows(s: Image, rs: seq<Report>, host: Address, tick: uint64, history: History)
    requires Consistent(history) && Shows(s, history) && AllTruthful(rs, history)
    ensures Shows(s.ApplyAll(rs, host, tick), history)
    decreases |rs|
  {
    hide Consistent, Shows, Image.Apply;
    if rs != [] && !s.panicked {
      ApplyShows(s, rs[0], host, tick, history);
      ApplyAllShows(s.Apply(rs[0], host, tick), rs[1..], host, tick, history);
    }
  }

  /** Truthful reports keep the image showing the history. */
  lemma UpdateShows(s: Image, h: HostReport, history: History)
    requires Consistent(history) && Shows(s, history) && AllTruthful(h.reports, history)
    ensures Shows(s.Update(h), history)
  {
    hide Consistent, Members, OneLeader, Image.ApplyAll, Image.SeenAll, Image.LedAll;
    var applied := s.ApplyAll(h.reports, h.raftAddress, h.lastTick);
    ApplyAllShows(s, h.reports, h.raftAddress, h.lastTick, history);
    SeenAllShape(applied, h.reports, h.lastTick);
    LedAllShape(applied.SeenAll(h.reports, h.lastTick), h.reports);
  }

  // ---- whole runs ----

  ghost predicate TruthfulRun(hs: seq<HostReport>, history: History) {
    forall h | h in hs :: AllTruthful(h.reports, history)
  }

  lemma {:induction false} HeardIsTruth(hs: seq<HostReport>, history: History)
    requires TruthfulRun(hs, history)
    ensures HeardTruth(HeardIn(hs), history)
    decreases |hs|
  {
    if hs != [] {
      HeardIsTruth(hs[..|hs| - 1], history);
    }
  }

  lemma {:induction false} RunInv(hs: seq<HostReport>, history: History)
    requires Consistent(history) && TruthfulRun(hs, history)
    ensures Inv(ImageOf(hs), HeardIn(hs))
    decreases |hs|
  {
    hide Consistent, HeardTruth, NewestReported, Image.Update;
    if hs != [] {
      RunInv(hs[..|hs| - 1], history);
      HeardIsTruth(hs[..|hs| - 1], history);
      UpdateInv(ImageOf(hs[..|hs| - 1]), HeardIn(hs[..|hs| - 1]), hs[|hs| - 1], history);
    }
  }

  /**
    * After any sequence of truthful reports in any order: no panic; a cluster is known exactly when
    * a complete report named it, and then its members and index are those of the complete report
    * with the greatest index; at most one node leads; and a node is to be killed only when it
    * reported a configuration older than a reported one without it.
    */
  lemma ImageConverges(hs: seq<HostReport>, history: History)
    requires Consistent(history) && TruthfulRun(hs, history)
    ensures var s, heard := ImageOf(hs), HeardIn(hs);
            && !s.panicked
            && (forall cid :: cid in s.clusters <==> exists p | p in heard :: p.0.Complete() && p.0.clusterId == cid)
            && (forall cid | cid in s.clusters ::
                  && NewestReported(cid, s.clusters[cid], heard)
                  && Records(history, cid, s.clusters[cid].configChangeIndex, Members(s.clusters[cid]))
                  && OneLeader(s.clusters[cid]))
            && (forall k | k in s.toKill :: Justified(k, heard))
  {
    hide Consistent, Members;
    RunInv(hs, history);
    HeardIsTruth(hs, history);
    ShowsHistory(ImageOf(hs), HeardIn(hs), history);
  }

  function CompleteIn(hs: seq<HostReport>): set<Report> {
    set p | p in HeardIn(hs) && p.0.Complete() :: p.0
  }

  lemma NewestIn(hs: seq<HostReport>, cid: Id, c: Cluster)
    requires NewestReported(cid, c, HeardIn(hs))
    ensures exists r | r in CompleteIn(hs) :: r.clusterId == cid && r.configChangeIndex == c.configChangeIndex
    ensures forall r | r in CompleteIn(hs) && r.clusterId == cid :: r.configChangeIndex <= c.configChangeIndex
  {
    var q :| q in HeardIn(hs) && Tells(q, cid, c.configChangeIndex, Members(c));
    assert q.0 in CompleteIn(hs);
  }

  /** Two runs that heard the same complete reports agree on every cluster's members and index. */
  lemma OrderIrrelevant(hs: seq<HostReport>, others: seq<HostReport>, history: History, cid: Id)
    requires Consistent(history) && TruthfulRun(hs, history) && TruthfulRun(others, history)
    requires CompleteIn(hs) == CompleteIn(others)
    ensures cid in ImageOf(hs).clusters <==> cid in ImageOf(others).clusters
    ensures cid in ImageOf(hs).clusters ==>
              var c, d := ImageOf(hs).clusters[cid], ImageOf(others).clusters[cid];
              c.configChangeIndex == d.configChangeIndex && Members(c) == Members(d)
  {
    hide Consistent, Members, TruthfulRun;
    ImageConverges(hs, history);
    ImageConverges(others, history);
    assert cid in ImageOf(hs).clusters <==> exists r | r in CompleteIn(hs) :: r.clusterId == cid;
    assert cid in ImageOf(others).clusters <==> exists r | r in CompleteIn(others) :: r.clusterId == cid;
    if cid in ImageOf(hs).clusters {
      NewestIn(hs, cid, ImageOf(hs).clusters[cid]);
      NewestIn(others, cid, ImageOf(others).clusters[cid]);
    }
  }

  /** The index of a known cluster never goes down, whatever is reported. */
  lemma IndexNeverDecreases(s: Image, h: HostReport, cid: Id)
    requires cid in s.clusters
    ensures cid in s.Update(h).clusters
    ensures s.clusters[cid].configChangeIndex <= s.Update(h).clusters[cid].configChangeIndex
  {
    hide Members, OneLeader;
    var applied := s.ApplyAll(h.reports, h.raftAddress, h.lastTick);
    ApplyAllGrows(s, h.reports, h.raftAddress, h.lastTick, cid);
    SeenAllShape(applied, h.reports, h.lastTick);
    LedAllShape(applied.SeenAll(h.reports, h.lastTick), h.reports);
  }

  lemma {:induction false} ApplyAllGrows(s: Image, rs: seq<Report>, host: Address, tick: uint64, cid: Id)
    requires cid in s.clusters
    ensures cid in s.ApplyAll(rs, host, tick).clusters
    ensures s.clusters[cid].configChangeIndex <= s.ApplyAll(rs, host, tick).clusters[cid].configChangeIndex
    decreases |rs|
  {
    if !s.panicked && rs != [] {
      ApplyAllGrows(s.Apply(rs[0], host, tick), rs[1..], host, tick, cid);
    }
  }

  // ---- every outdated node is to be killed ----

  lemma ApplyOther(s: Image, r: Report, host: Address, tick: uint64, cid: Id)
    requires r.clusterId != cid
    ensures cid in s.Apply(r, host, tick).clusters <==> cid in s.clusters
    ensures cid in s.clusters ==> s.Apply(r, host, tick).clusters[cid] == s.clusters[cid]
    ensures s.toKill <= s.Apply(r, host, tick).toKill
  {
  }

  lemma {:induction false} KillsGrow(s: Image, rs: seq<Report>, host: Address, tick: uint64)
    ensures s.toKill <= s.ApplyAll(rs, host, tick).toKill
    decreases |rs|
  {
    if rs != [] && !s.panicked {
      KillsGrow(s.Apply(rs[0], host, tick), rs[1..], host, tick);
    }
  }

  /** The report is the only one of its cluster. */
  ghost predicate OnlyOne(rs: seq<Report>, i: nat) {
    i < |rs| && forall j | 0 <= j < |rs| && j != i :: rs[j].clusterId != rs[i].clusterId
  }

  /** The report is older than what the image shows, and its node is no longer a member. */
  predicate IsOutdated(s: Image, r: Report) {
    && r.clusterId in s.clusters && |s.clusters[r.clusterId].nodes| > 0
    && r.configChangeIndex < s.clusters[r.clusterId].configChangeIndex && r.nodeId !in s.clusters[r.clusterId].nodes
  }

  lemma {:induction false} ApplyAllKills(s: Image, rs: seq<Report>, host: Address, tick: uint64, i: nat)
    requires OnlyOne(rs, i) && IsOutdated(s, rs[i]) && !s.ApplyAll(rs, host, tick).panicked
    ensures NodeToKill(rs[i].clusterId, rs[i].nodeId, host) in s.ApplyAll(rs, host, tick).toKill
    decreases |rs|
  {
    var t := s.Apply(rs[0], host, tick);
    if i == 0 {
      var k := NodeToKill(rs[0].clusterId, rs[0].nodeId, host);
      assert t == s.Kill(rs[0], host) && k == t.toKill[|t.toKill| - 1];
      KillsGrow(t, rs[1..], host, tick);
    } else {
      ApplyOther(s, rs[0], host, tick, rs[i].clusterId);
      assert rs[1..][i - 1] == rs[i];
      forall j | 0 <= j < |rs[1..]| && j != i - 1
        ensures rs[1..][j].clusterId != rs[i].clusterId
      {
        assert rs[1..][j] == rs[j + 1];
      }
      ApplyAllKills(t, rs[1..], host, tick, i - 1);
    }
  }

  /** A host's report of a node in a configuration older than the image's, which no longer has the node,
      has the node killed at that host. */
  lemma OutdatedIsKilled(s: Image, h: HostReport, i: nat)
    requires OnlyOne(h.reports, i) && IsOutdated(s, h.reports[i]) && !s.Update(h).panicked
    ensures NodeToKill(h.reports[i].clusterId, h.reports[i].nodeId, h.raftAddress) in s.Update(h).toKill
  {
    hide Image.ApplyAll, Image.SeenAll, Image.LedAll, Members, OneLeader;
    var applied := s.ApplyAll(h.reports, h.raftAddress, h.lastTick);
    ApplyAllKills(s, h.reports, h.raftAddress, h.lastTick, i);
    SeenAllShape(applied, h.reports, h.lastTick);
    LedAllShape(applied.SeenAll(h.reports, h.lastTick), h.reports);
  }

  // ---- reports that cannot be true ----

  /** An older configuration is left aside; one that is not panics exactly when it has the same index with
      other nodes, moves a node to another address, or puts two nodes at one address; otherwise it is taken. */
  lemma SyncPanicsExactly(c: Cluster, r: Report, tick: uint64)
    ensures Sync(c, r, tick).Rejected? <==> r.configChangeIndex < c.configChangeIndex
    ensures r.configChangeIndex >= c.configChangeIndex ==>
              (Sync(c, r, tick).Panicked? <==>
                 || (r.configChangeIndex == c.configChangeIndex && r.nodes.Keys != c.nodes.Keys)
                 || (exists k | k in c.nodes.Keys && k in r.nodes :: c.nodes[k].address != r.nodes[k])
                 || (exists i, j | i in r.nodes.Keys && j in r.nodes.Keys && i != j :: r.nodes[i] == r.nodes[j]))
  {
    assert |c.nodes.Keys| == |c.nodes| && |r.nodes.Keys| == |r.nodes|;
    if SameIds(c, r) {
      SameSize(r.nodes.Keys, c.nodes.Keys);
    }
  }

  lemma SameSize(a: set<Id>, b: set<Id>)
    requires a <= b && |a| == |b|
    ensures a == b
  {
    assert |b - a| == |b| - |a|;
    assert b == a + (b - a);
  }
}
