/** What the image knows of each node's life: when it was last heard of, and who leads. */
module ImageTicks {
  import opened Bits
  import opened ClusterImage
  import opened ImageConvergence
  import opened Repair

  ghost predicate Reported(rs: seq<Report>, cid: Id, k: Id) {
    exists r | r in rs :: r.clusterId == cid && r.nodeId == k
  }

  ghost predicate HasNode(s: Image, cid: Id, k: Id) { cid in s.clusters && k in s.clusters[cid].nodes }

  function NodeAt(s: Image, cid: Id, k: Id): Node
    requires HasNode(s, cid, k)
  {
    s.clusters[cid].nodes[k]
  }

  lemma ReportedFirst(rs: seq<Report>, cid: Id, k: Id)
    requires rs != []
    ensures Reported(rs, cid, k) <==> (rs[0].clusterId == cid && rs[0].nodeId == k) || Reported(rs[1..], cid, k)
  {
    assert rs == [rs[0]] + rs[1..];
    assert rs[0] in rs;
  }

  /** The nodes reported get the tick and nothing else about any node changes. */
  lemma {:induction false} TicksExact(s: Image, rs: seq<Report>, tick: uint64, cid: Id, k: Id)
    ensures HasNode(s.SeenAll(rs, tick), cid, k) <==> HasNode(s, cid, k)
    ensures HasNode(s, cid, k) ==>
              NodeAt(s.SeenAll(rs, tick), cid, k) ==
              if Reported(rs, cid, k) then NodeAt(s, cid, k).(tick := tick) else NodeAt(s, cid, k)
    decreases |rs|
  {
    hide Reported;
    if rs == [] {
      assert !Reported(rs, cid, k) by { NoneReported(cid, k); }
    } else {
      ReportedFirst(rs, cid, k);
      TicksExact(s.Seen(rs[0], tick), rs[1..], tick, cid, k);
    }
  }

  lemma NoneReported(cid: Id, k: Id)
    ensures !Reported([], cid, k)
  {
  }

  lemma LedKeepsTick(s: Image, r: Report, cid: Id, k: Id)
    ensures HasNode(s.Led(r), cid, k) <==> HasNode(s, cid, k)
    ensures HasNode(s, cid, k) ==>
              NodeAt(s.Led(r), cid, k) == NodeAt(s, cid, k).(isLeader := NodeAt(s.Led(r), cid, k).isLeader)
  {
  }

  lemma {:induction false} LedAllKeepsTicks(s: Image, rs: seq<Report>, cid: Id, k: Id)
    ensures HasNode(s.LedAll(rs), cid, k) <==> HasNode(s, cid, k)
    ensures HasNode(s, cid, k) ==>
              NodeAt(s.LedAll(rs), cid, k) == NodeAt(s, cid, k).(isLeader := NodeAt(s.LedAll(rs), cid, k).isLeader)
    decreases |rs|
  {
    hide Image.Led;
    if rs != [] {
      LedKeepsTick(s, rs[0], cid, k);
      LedAllKeepsTicks(s.Led(rs[0]), rs[1..], cid, k);
    }
  }

  /** The record of a node that was there before, or that of one first seen now. */
  ghost predicate KeptOrNew(s: Image, t: Image, cid: Id, k: Id, now: uint64)
    requires HasNode(t, cid, k)
  {
    var n := NodeAt(t, cid, k);
    || (HasNode(s, cid, k) && n.tick == NodeAt(s, cid, k).tick && n.firstObserved == NodeAt(s, cid, k).firstObserved)
    || (n.tick == 0 && n.firstObserved == now)
  }

  lemma ApplyKeepsOrAdds(s: Image, r: Report, host: Address, tick: uint64, cid: Id, k: Id)
    requires HasNode(s.Apply(r, host, tick), cid, k)
    ensures KeptOrNew(s, s.Apply(r, host, tick), cid, k, tick)
  {
  }

  lemma {:induction false} ApplyAllKeepsOrAdds(
      s: Image, rs: seq<Report>, host: Address, tick: uint64, cid: Id, k: Id)
    requires HasNode(s.ApplyAll(rs, host, tick), cid, k)
    ensures KeptOrNew(s, s.ApplyAll(rs, host, tick), cid, k, tick)
    decreases |rs|
  {
    hide Image.Apply;
    if rs != [] && !s.panicked {
      var t := s.Apply(rs[0], host, tick);
      ApplyAllKeepsOrAdds(t, rs[1..], host, tick, cid, k);
      if HasNode(t, cid, k) {
        ApplyKeepsOrAdds(s, rs[0], host, tick, cid, k);
      }
    }
  }

  /**
    * After a host's report its nodes carry the tick of the report; every other node keeps its last
    * tick and the tick it was first seen at, or is new and waits to be started.
    */
  lemma UpdateTicks(s: Image, h: HostReport, cid: Id, k: Id)
    requires !s.Update(h).panicked && HasNode(s.Update(h), cid, k)
    ensures Reported(h.reports, cid, k) ==> NodeAt(s.Update(h), cid, k).tick == h.lastTick
    ensures !Reported(h.reports, cid, k) ==> KeptOrNew(s, s.Update(h), cid, k, h.lastTick)
  {
    hide Reported, Image.ApplyAll, Image.SeenAll, Image.LedAll;
    var applied := s.ApplyAll(h.reports, h.raftAddress, h.lastTick);
    var ticked := applied.SeenAll(h.reports, h.lastTick);
    LedAllKeepsTicks(ticked, h.reports, cid, k);
    TicksExact(applied, h.reports, h.lastTick, cid, k);
    ApplyAllKeepsOrAdds(s, h.reports, h.raftAddress, h.lastTick, cid, k);
  }

  /** A node that reported works for as long as the allowed silence of a minute, and no longer. */
  lemma ReportedIsOkForTtl(s: Image, h: HostReport, cid: Id, k: Id, now: uint64)
    requires !s.Update(h).panicked && HasNode(s.Update(h), cid, k) && Reported(h.reports, cid, k)
    requires 0 < h.lastTick <= now
    ensures Ok(NodeAt(s.Update(h), cid, k), now) <==> now - h.lastTick <= 60
    ensures Failed(NodeAt(s.Update(h), cid, k), now) <==> now - h.lastTick > 60
  {
    hide Image.Update;
    UpdateTicks(s, h, cid, k);
  }

  /** The report of the leader, unless outdated, makes its node the only leader. */
  lemma LedMakesLeader(s: Image, r: Report)
    requires HasNode(s, r.clusterId, r.nodeId) && OneLeader(s.clusters[r.clusterId])
    requires s.clusters[r.clusterId].configChangeIndex <= r.configChangeIndex
    ensures HasNode(s.Led(r), r.clusterId, r.nodeId)
    ensures NodeAt(s.Led(r), r.clusterId, r.nodeId).isLeader == r.isLeader
    ensures forall k | k in s.clusters[r.clusterId].nodes && k != r.nodeId ::
              k in s.Led(r).clusters[r.clusterId].nodes &&
              NodeAt(s.Led(r), r.clusterId, k).isLeader == (!r.isLeader && NodeAt(s, r.clusterId, k).isLeader)
  {
  }

  // ---- nodes that have not been started ----

  /** The image after the reports of `hs`, in order. */
  function Updates(s: Image, hs: seq<HostReport>): Image {
    if hs == [] then s else Updates(s, hs[..|hs| - 1]).Update(hs[|hs| - 1])
  }

  /** Shown by a configuration, first seen at some tick above zero and not heard of since. */
  ghost predicate Unheard(s: Image, cid: Id, k: Id) {
    HasNode(s, cid, k) ==> NodeAt(s, cid, k).tick == 0 && NodeAt(s, cid, k).firstObserved != 0
  }

  lemma PanicStays(s: Image, h: HostReport)
    requires s.panicked
    ensures s.Update(h).panicked
  {
  }

  lemma {:induction false} StaysUnheard(s: Image, hs: seq<HostReport>, cid: Id, k: Id)
    requires Unheard(s, cid, k) && !Updates(s, hs).panicked
    requires forall h | h in hs :: h.lastTick != 0 && !Reported(h.reports, cid, k)
    ensures Unheard(Updates(s, hs), cid, k)
    decreases |hs|
  {
    hide Reported, Image.Update;
    if hs != [] {
      var before, h := hs[..|hs| - 1], hs[|hs| - 1];
      if Updates(s, before).panicked {
        PanicStays(Updates(s, before), h);
      }
      StaysUnheard(s, before, cid, k);
      if HasNode(Updates(s, hs), cid, k) {
        UpdateTicks(Updates(s, before), h, cid, k);
      }
    }
  }

  /**
    * A member that a configuration came to show while the clock ran, and that has not reported since,
    * is to be started: neither failed nor working, at every later tick.
    */
  lemma UnheardIsToBeStarted(s: Image, hs: seq<HostReport>, cid: Id, k: Id, now: uint64)
    requires !HasNode(s, cid, k) && !Updates(s, hs).panicked && HasNode(Updates(s, hs), cid, k)
    requires forall h | h in hs :: h.lastTick != 0 && !Reported(h.reports, cid, k)
    ensures var c := Updates(s, hs).clusters[cid];
            && k in NodesIn(c, now, IsToStart) && k !in NodesIn(c, now, IsFailed) && k !in NodesIn(c, now, IsOk)
  {
    StaysUnheard(s, hs, cid, k);
  }

  /** Only a node first seen at tick zero, before the clock ran, counts as failed without having reported. */
  lemma UnheardAtZeroIsFailed(s: Image, h: HostReport, cid: Id, k: Id, now: uint64)
    requires !HasNode(s, cid, k) && !s.Update(h).panicked && HasNode(s.Update(h), cid, k)
    requires h.lastTick == 0
    ensures k in NodesIn(s.Update(h).clusters[cid], now, IsFailed)
  {
    hide Image.Update, Reported;
    UpdateTicks(s, h, cid, k);
    FirstSeen(s, h, cid, k);
  }

  lemma FirstSeen(s: Image, h: HostReport, cid: Id, k: Id)
    requires !HasNode(s, cid, k) && !s.Update(h).panicked && HasNode(s.Update(h), cid, k)
    ensures NodeAt(s.Update(h), cid, k).firstObserved == h.lastTick
  {
    hide Image.ApplyAll, Image.SeenAll, Image.LedAll;
    var applied := s.ApplyAll(h.reports, h.raftAddress, h.lastTick);
    var ticked := applied.SeenAll(h.reports, h.lastTick);
    LedAllKeepsTicks(ticked, h.reports, cid, k);
    TicksExact(applied, h.reports, h.lastTick, cid, k);
    ApplyAllKeepsOrAdds(s, h.reports, h.raftAddress, h.lastTick, cid, k);
  }

  /** An outdated report says nothing about who leads. */
  lemma LedIgnoresOutdated(s: Image, r: Report)
    requires r.clusterId in s.clusters && r.configChangeIndex < s.clusters[r.clusterId].configChangeIndex
    ensures s.Led(r) == s
  {
  }
}
