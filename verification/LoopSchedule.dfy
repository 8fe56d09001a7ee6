/**
  * A schedule of the repair loop: reports of running nodes on the database's clock, rounds, and
  * acceptances, by which a cluster gets its nodes started and a silent member replaced.
  */
module LoopSchedule {
  import opened Bits
  import opened ClusterImage
  import ImageConvergence
  import opened ImageTicks
  import opened NodeHostImage
  import opened Placement
  import opened Repair
  import opened Scheduler
  import opened Sequences
  import opened ClosedLoop

  // ---- one host reports its member ----

  function FullReport(cid: Id, m: Id, raft: Raft): Report {
    Report(cid, m, false, raft.members, raft.configChangeId, false, false)
  }

  function FromMember(cid: Id, m: Id, raft: Raft): HostReport
    requires m in raft.members
  {
    HostReport(raft.members[m], 0, [FullReport(cid, m, raft)], "", [cid], false, [])
  }

  /** The image shows the cluster as it now is. */
  ghost predicate Shown(s: Image, cid: Id, raft: Raft) {
    && cid in s.clusters && s.clusters[cid].configChangeIndex == raft.configChangeId
    && Members(s.clusters[cid]) == raft.members
  }

  lemma UpdateOne(s: Image, h: HostReport, r: Report)
    requires h.reports == [r] && !s.panicked && !s.Apply(r, h.raftAddress, h.lastTick).panicked
    ensures s.Update(h) == s.Apply(r, h.raftAddress, h.lastTick).Seen(r, h.lastTick).Led(r)
  {
    assert [r][1..] == [];
    var t := s.Apply(r, h.raftAddress, h.lastTick);
    assert t.ApplyAll([], h.raftAddress, h.lastTick) == t;
    var u := t.Seen(r, h.lastTick);
    assert u.SeenAll([], h.lastTick) == u;
    assert u.Led(r).LedAll([]) == u.Led(r);
  }

  /** A complete report at an index not below the image's leaves the image at that index. */
  lemma ApplyCatchesUp(s: Image, r: Report, host: Address, tick: uint64, history: ImageConvergence.History)
    requires ImageConvergence.Consistent(history) && ImageConvergence.Shows(s, history)
    requires r.Complete() && ImageConvergence.Truthful(r, history)
    requires r.clusterId in s.clusters ==> s.clusters[r.clusterId].configChangeIndex <= r.configChangeIndex
    ensures var t := s.Apply(r, host, tick);
            && !t.panicked && r.clusterId in t.clusters
            && t.clusters[r.clusterId].configChangeIndex == r.configChangeIndex
            && Members(t.clusters[r.clusterId]) == r.nodes
    ensures forall k | HasNode(s, r.clusterId, k) && HasNode(s.Apply(r, host, tick), r.clusterId, k) ::
              NodeAt(s.Apply(r, host, tick), r.clusterId, k) == NodeAt(s, r.clusterId, k)
    ensures forall k | !HasNode(s, r.clusterId, k) && HasNode(s.Apply(r, host, tick), r.clusterId, k) ::
              NodeAt(s.Apply(r, host, tick), r.clusterId, k).tick == 0 &&
              NodeAt(s.Apply(r, host, tick), r.clusterId, k).firstObserved == tick
  {
    hide ImageConvergence.Consistent, Sync, Members;
    if r.clusterId in s.clusters {
      ImageConvergence.SyncIsExact(s.clusters[r.clusterId], r, tick, history);
    } else {
      ImageConvergence.NewClusterMembers(r, tick);
    }
  }

  lemma SeenThenLed(s: Image, r: Report, tick: uint64)
    requires HasNode(s, r.clusterId, r.nodeId)
    ensures var t := s.Seen(r, tick).Led(r);
            && t.panicked == s.panicked && r.clusterId in t.clusters
            && t.clusters[r.clusterId].configChangeIndex == s.clusters[r.clusterId].configChangeIndex
            && t.clusters[r.clusterId].nodes.Keys == s.clusters[r.clusterId].nodes.Keys
            && Members(t.clusters[r.clusterId]) == Members(s.clusters[r.clusterId])
    ensures forall k | HasNode(s, r.clusterId, k) ::
              && HasNode(s.Seen(r, tick).Led(r), r.clusterId, k)
              && NodeAt(s.Seen(r, tick).Led(r), r.clusterId, k).firstObserved == NodeAt(s, r.clusterId, k).firstObserved
              && NodeAt(s.Seen(r, tick).Led(r), r.clusterId, k).tick ==
                   if k == r.nodeId then tick else NodeAt(s, r.clusterId, k).tick
  {
    ImageConvergence.SeenShape(s, r, tick);
    ImageConvergence.LedShape(s.Seen(r, tick), r);
  }

  /** `t` shows the cluster as `raft` has it, member `m` heard of at `tick` and the others as before. */
  ghost predicate Caught(s: Image, cid: Id, m: Id, raft: Raft, tick: uint64, t: Image) {
    && Shown(t, cid, raft)
    && forall k | k in raft.members ::
         && HasNode(t, cid, k)
         && (k == m ==> NodeAt(t, cid, k).tick == tick)
         && (k != m ==> KeptElseNew(s, cid, k, tick, t))
  }

  /** The record of a node not heard of is as before or, without one, starts now. */
  ghost predicate KeptElseNew(s: Image, cid: Id, k: Id, now: uint64, t: Image)
    requires HasNode(t, cid, k)
  {
    var n := NodeAt(t, cid, k);
    if HasNode(s, cid, k) then n.tick == NodeAt(s, cid, k).tick && n.firstObserved == NodeAt(s, cid, k).firstObserved
    else n.tick == 0 && n.firstObserved == now
  }

  lemma NotAhead(w: World, cid: Id)
    requires ClosedLoop.Inv(w) && cid in w.rafts
    ensures cid in w.db.image.clusters ==>
              w.db.image.clusters[cid].configChangeIndex <= w.rafts[cid].configChangeId
    ensures ImageConvergence.Records(w.history, cid, w.rafts[cid].configChangeId, w.rafts[cid].members)
  {
    hide HostsListMembers, ValidHosts, GoodRequest, Members;
    if cid in w.db.image.clusters {
      assert ImageConvergence.Records(w.history, cid, w.db.image.clusters[cid].configChangeIndex,
                                      Members(w.db.image.clusters[cid]));
    }
  }

  lemma HearMember(w: World, cid: Id, m: Id)
    requires ClosedLoop.Inv(w) && cid in w.rafts && m in w.rafts[cid].members && (cid, m) in w.running
    ensures var step := Hear(FromMember(cid, m, w.rafts[cid]));
            && Enabled(w, step) && ClosedLoop.Inv(Next(w, step)) && Reporters(step.h) <= w.running
            && Next(w, step) == w.(db := Next(w, step).db) && Next(w, step).db.tick == w.db.tick
            && Caught(w.db.image, cid, m, w.rafts[cid], w.db.tick, Next(w, step).db.image)
  {
    hide ClosedLoop.Inv;
    var raft := w.rafts[cid];
    var h := FromMember(cid, m, raft);
    NotAhead(w, cid);
    ShowsHistory(w);
    HearInv(w, h);
    assert Reporters(h) == {(cid, m)} && w.running + Reporters(h) == w.running;
    hide Image.Update, Caught;
    ImageOfReport(w.db.image, cid, m, raft, h.(lastTick := w.db.tick), w.history);
  }

  lemma ShowsHistory(w: World)
    requires ClosedLoop.Inv(w)
    ensures ImageConvergence.Consistent(w.history) && ImageConvergence.Shows(w.db.image, w.history)
  {
    HistoryConsistent(w);
  }

  lemma ImageOfReport(s: Image, cid: Id, m: Id, raft: Raft, h: HostReport, history: ImageConvergence.History)
    requires ImageConvergence.Consistent(history) && ImageConvergence.Shows(s, history)
    requires m in raft.members && h.reports == [FullReport(cid, m, raft)]
    requires ImageConvergence.Records(history, cid, raft.configChangeId, raft.members)
    requires cid in s.clusters ==> s.clusters[cid].configChangeIndex <= raft.configChangeId
    ensures Caught(s, cid, m, raft, h.lastTick, s.Update(h))
  {
    var r := FullReport(cid, m, raft);
    hide ImageConvergence.Consistent, ImageConvergence.Shows, Image.Apply, Image.Seen, Image.Led, Image.Update;
    assert !s.panicked by { ShowsNoPanic(s, history); }
    ApplyCatchesUp(s, r, h.raftAddress, h.lastTick, history);
    UpdateOne(s, h, r);
    var applied := s.Apply(r, h.raftAddress, h.lastTick);
    MembersCount(applied.clusters[cid]);
    hide Members;
    SeenThenLed(applied, r, h.lastTick);
  }

  // ---- several hosts report their members ----

  /** Seconds by which a tick of the database moves its clock. */
  const TICK_INTERVAL: nat := 5

  /** Every tick of the run moves the clock by one interval. */
  ghost predicate OnTheClock(w: World, steps: seq<Step>)
    requires IsRun(w, steps)
    decreases |steps|
  {
    steps == [] ||
    ((steps[0].Tick? ==> steps[0].tick == w.db.tick + TICK_INTERVAL) && OnTheClock(Next(w, steps[0]), steps[1..]))
  }

  /** Only nodes known to have been started report. */
  ghost predicate OnlyRunning(w: World, steps: seq<Step>)
    requires IsRun(w, steps)
    decreases |steps|
  {
    steps == [] ||
    ((steps[0].Hear? ==> Reporters(steps[0].h) <= w.running) && OnlyRunning(Next(w, steps[0]), steps[1..]))
  }

  ghost predicate Orderly(w: World, steps: seq<Step>) {
    IsRun(w, steps) && OnTheClock(w, steps) && OnlyRunning(w, steps)
  }

  /** The step keeps to the clock, and its reports come from running nodes. */
  ghost predicate Proper(w: World, step: Step) {
    && (step.Tick? ==> step.tick == w.db.tick + TICK_INTERVAL)
    && (step.Hear? ==> Reporters(step.h) <= w.running)
  }

  lemma {:induction false} RunConcat(w: World, steps: seq<Step>, more: seq<Step>)
    requires Orderly(w, steps) && Orderly(Run(w, steps), more)
    ensures Orderly(w, steps + more) && Run(w, steps + more) == Run(Run(w, steps), more)
    decreases |steps|
  {
    hide Enabled, Next;
    if steps == [] {
      assert steps + more == more;
    } else {
      assert (steps + more)[1..] == steps[1..] + more;
      RunConcat(Next(w, steps[0]), steps[1..], more);
    }
  }

  lemma RunOne(w: World, step: Step)
    requires Enabled(w, step) && Proper(w, step)
    ensures Orderly(w, [step]) && Run(w, [step]) == Next(w, step)
  {
    hide Enabled, Next;
    assert [step][1..] == [];
    RunNone(Next(w, step));
    assert IsRun(w, [step]);
  }

  lemma RunThen(w: World, steps: seq<Step>, step: Step)
    requires Orderly(w, steps) && Enabled(Run(w, steps), step) && Proper(Run(w, steps), step)
    ensures Orderly(w, steps + [step]) && Run(w, steps + [step]) == Next(Run(w, steps), step)
  {
    hide Enabled, Next;
    RunOne(Run(w, steps), step);
    RunConcat(w, steps, [step]);
  }

  /** Nothing but `n` ticks. */
  lemma {:induction false} Wait(w: World, n: nat) returns (steps: seq<Step>)
    requires ClosedLoop.Inv(w) && w.db.tick + n * TICK_INTERVAL < TWO_64
    ensures Orderly(w, steps) && ClosedLoop.Inv(Run(w, steps))
    ensures Run(w, steps) == w.(db := w.db.(tick := w.db.tick + n * TICK_INTERVAL))
  {
    hide ClosedLoop.Inv, IsRun, Run, OnTheClock, OnlyRunning;
    if n == 0 {
      steps := [];
      RunNone(w);
    } else {
      var before := Wait(w, n - 1);
      var v := Run(w, before);
      TickInv(v, v.db.tick + TICK_INTERVAL);
      RunThen(w, before, Tick(v.db.tick + TICK_INTERVAL));
      steps := before + [Tick(v.db.tick + TICK_INTERVAL)];
    }
  }

  lemma RunNone(w: World)
    ensures Orderly(w, []) && Run(w, []) == w
  {
  }

  function Hears(cid: Id, raft: Raft, ms: seq<Id>): seq<Step>
    requires forall m | m in ms :: m in raft.members
  {
    if ms == [] then [] else Hears(cid, raft, ms[..|ms| - 1]) + [Hear(FromMember(cid, ms[|ms| - 1], raft))]
  }

  /** `v` is `w` after the members `ms` were heard of. */
  ghost predicate Surveyed(w: World, cid: Id, ms: seq<Id>, v: World)
    requires cid in w.rafts
  {
    && v == w.(db := v.db) && v.db.tick == w.db.tick
    && (ms != [] ==> Shown(v.db.image, cid, w.rafts[cid]))
    && (ms == [] ==> v == w)
    && (ms != [] ==> forall k | k in w.rafts[cid].members ::
          && HasNode(v.db.image, cid, k)
          && (if k in ms then NodeAt(v.db.image, cid, k).tick == w.db.tick
              else KeptElseNew(w.db.image, cid, k, w.db.tick, v.db.image)))
  }

  lemma {:induction false} Survey(w: World, cid: Id, ms: seq<Id>)
    requires ClosedLoop.Inv(w) && cid in w.rafts
    requires forall m | m in ms :: m in w.rafts[cid].members && (cid, m) in w.running
    ensures var steps := Hears(cid, w.rafts[cid], ms);
            Orderly(w, steps) && ClosedLoop.Inv(Run(w, steps)) && Surveyed(w, cid, ms, Run(w, steps))
    decreases |ms|
  {
    hide ClosedLoop.Inv, Enabled, Next;
    var raft := w.rafts[cid];
    if ms != [] {
      var before, m := ms[..|ms| - 1], ms[|ms| - 1];
      Survey(w, cid, before);
      var v := Run(w, Hears(cid, raft, before));
      HearMember(v, cid, m);
      RunThen(w, Hears(cid, raft, before), Hear(FromMember(cid, m, raft)));
      assert ms == before + [m];
    }
  }

  // ---- lists of members ----

  lemma Largest(s: set<Id>) returns (x: Id)
    requires s != {}
    ensures x in s && forall y | y in s :: y <= x
    decreases |s|
  {
    var z :| z in s;
    if s == {z} {
      x := z;
    } else {
      assert s - {z} != {};
      var y := Largest(s - {z});
      x := if y < z then z else y;
      assert forall u | u in s :: u == z || u in s - {z};
    }
  }

  lemma InOrder(s: set<Id>) returns (ids: seq<Id>)
    ensures Ascending(ids) && Elements(ids) == s && |ids| == |s|
    decreases |s|
  {
    if s == {} {
      ids := [];
    } else {
      var x := Largest(s);
      var rest := InOrder(s - {x});
      forall i | 0 <= i < |rest|
        ensures rest[i] < x
      {
        assert rest[i] in Elements(rest);
      }
      ids := rest + [x];
      assert Elements(ids) == Elements(rest) + {x};
    }
  }

  // ---- what a round makes of the image ----

  /** In the image the members of `failed` have failed, those of `waiting` are to be started, and the
      others work. */
  ghost predicate Judged(db: DbState, cid: Id, raft: Raft, failed: set<Id>, waiting: set<Id>) {
    && Shown(db.image, cid, raft) && failed <= raft.members.Keys && waiting <= raft.members.Keys && failed !! waiting
    && forall j | j in raft.members :: HasNode(db.image, cid, j) && HasStatus(NodeAt(db.image, cid, j), db.tick, j, failed, waiting)
  }

  predicate HasStatus(n: Node, now: uint64, j: Id, failed: set<Id>, waiting: set<Id>) {
    if j in failed then Failed(n, now) else if j in waiting then WaitingToBeStarted(n, now) else Ok(n, now)
  }

  lemma RepairOf(db: DbState, cid: Id, raft: Raft, failed: set<Id>, waiting: set<Id>) returns (cr: ClusterRepair)
    requires Judged(db, cid, raft, failed, waiting) && failed + waiting != {}
    ensures InRepair(cr, db.image.clusters, db.tick) && cr.clusterId == cid
    ensures NodesIn(cr.cluster, db.tick, IsFailed) == failed && NodesIn(cr.cluster, db.tick, IsToStart) == waiting
    ensures NodesIn(cr.cluster, db.tick, IsOk) == raft.members.Keys - failed - waiting
    ensures cr.cluster.configChangeIndex == raft.configChangeId && Members(cr.cluster) == raft.members
    ensures |cr.cluster.nodes| == |raft.members|
  {
    var c := db.image.clusters[cid];
    MembersCount(c);
    var ok := raft.members.Keys - failed - waiting;
    ByStatus(db, cid, raft, failed, waiting);
    hide NodesIn, Judged, Members;
    var failedNodes := InOrder(failed);
    var okNodes := InOrder(ok);
    var toStart := InOrder(waiting);
    cr := ClusterRepair(cid, c, failedNodes, okNodes, toStart);
  }

  lemma ByStatus(db: DbState, cid: Id, raft: Raft, failed: set<Id>, waiting: set<Id>)
    requires Judged(db, cid, raft, failed, waiting)
    ensures var c := db.image.clusters[cid];
            && NodesIn(c, db.tick, IsFailed) == failed && NodesIn(c, db.tick, IsToStart) == waiting
            && NodesIn(c, db.tick, IsOk) == raft.members.Keys - failed - waiting
            && c.configChangeIndex == raft.configChangeId && Members(c) == raft.members
  {
    var c := db.image.clusters[cid];
    MembersCount(c);
    hide Members, EntityFailed;
    forall j | j in raft.members
      ensures j in c.nodes && HasStatus(c.nodes[j], db.tick, j, failed, waiting)
    {
      assert NodeAt(db.image, cid, j) == c.nodes[j];
    }
  }

  lemma SomeWorking(cr: ClusterRepair, now: uint64) returns (a: Address)
    requires NodesIn(cr.cluster, now, IsOk) != {}
    ensures ToWorkingMember(cr, now, a)
  {
    var j :| j in NodesIn(cr.cluster, now, IsOk);
    a := cr.cluster.nodes[j].address;
  }

  /** All members but one. */
  lemma OthersCount(members: map<Id, Address>, k: Id)
    requires k in members
    ensures |members.Keys - {k} - {}| == |members| - 1
  {
    assert |members.Keys| == |members| && members.Keys - {k} - {} == members.Keys - {k};
  }

  lemma DeleteIssuable(ctx: Context, cid: Id, raft: Raft, k: Id) returns (req: Request)
    requires Judged(ctx.db, cid, raft, {k}, {}) && cid in ctx.expected
    requires |raft.members| > ctx.expected[cid] >= 2
    ensures Issuable(ctx, req) && req == DeleteNode(cid, raft.configChangeId, k, req.raftAddress)
  {
    var cr := RepairOf(ctx.db, cid, raft, {k}, {});
    OthersCount(raft.members, k);
    hide Judged, Members, NodesIn, ClusterRepair.Describes, NeedsRepair, ToWorkingMember;
    var a := SomeWorking(cr, ctx.db.tick);
    req := DeleteNode(cid, raft.configChangeId, k, a);
    DecidesExactly(cr, ctx.db.tick, ctx.expected[cid]);
    assert IssuedFor(ctx, cr, req);
  }

  /** A host that can take the place of the failed node. */
  ghost predicate Spare(db: DbState, cid: Id, failedAddress: Address, spare: Address) {
    && spare in db.hosts && db.hosts[spare].address == spare && Eligible(db.hosts[spare], cid, db.tick)
    && db.hosts[spare].region == RegionOf(db.hosts, failedAddress)
  }

  lemma AddressOf(c: Cluster, members: map<Id, Address>, k: Id)
    requires Members(c) == members && k in members
    ensures k in c.nodes && c.nodes[k].address == members[k]
  {
    assert Members(c)[k] == c.nodes[k].address;
  }

  lemma AddIssuable(ctx: Context, cid: Id, raft: Raft, k: Id, spare: Address, newId: Id) returns (req: Request)
    requires Judged(ctx.db, cid, raft, {k}, {}) && cid in ctx.expected
    requires |raft.members| == ctx.expected[cid] >= 3 && Spare(ctx.db, cid, raft.members[k], spare)
    ensures Issuable(ctx, req) && req == AddNode(cid, raft.configChangeId, newId, spare, req.raftAddress)
  {
    var cr := RepairOf(ctx.db, cid, raft, {k}, {});
    OthersCount(raft.members, k);
    AddressOf(cr.cluster, raft.members, k);
    hide Judged, Members, NodesIn, ClusterRepair.Describes, NeedsRepair, ToWorkingMember, Eligible;
    var a := SomeWorking(cr, ctx.db.tick);
    req := AddNode(cid, raft.configChangeId, newId, spare, a);
    DecidesExactly(cr, ctx.db.tick, ctx.expected[cid]);
    assert GoodHost(ctx.db.hosts, RegionOf(ctx.db.hosts, raft.members[k]), cid, ctx.db.tick, spare);
    assert IssuedFor(ctx, cr, req);
  }

  lemma Spelled(c: Cluster) returns (ids: seq<Id>, addresses: seq<Address>)
    ensures SpellsMembers(ids, addresses, c)
  {
    ids := InOrder(c.nodes.Keys);
    forall i | 0 <= i < |ids|
      ensures ids[i] in c.nodes
    {
      assert ids[i] in Elements(ids);
    }
    addresses := seq(|ids|, i requires 0 <= i < |ids| && ids[i] in c.nodes => c.nodes[ids[i]].address);
  }

  /** With a node to be started and no deletion due, the round creates the lowest. */
  lemma CreateIssuable(ctx: Context, cid: Id, raft: Raft, failed: set<Id>, waiting: set<Id>) returns (req: Request)
    requires Judged(ctx.db, cid, raft, failed, waiting) && cid in ctx.expected && waiting != {}
    requires |raft.members| <= ctx.expected[cid] + 1
    ensures Issuable(ctx, req) && req.CreateNode? && req.clusterId == cid && IsLeast(req.nodeId, waiting)
  {
    var cr := RepairOf(ctx.db, cid, raft, failed, waiting);
    FewerThanAll(raft.members.Keys, failed, waiting);
    assert |raft.members.Keys| == |raft.members| && waiting <= raft.members.Keys;
    hide Judged, Members, InRepair, NodesIn, Issuable;
    req := CreateOf(ctx, cr, waiting);
  }

  lemma CreateOf(ctx: Context, cr: ClusterRepair, waiting: set<Id>) returns (req: Request)
    requires InRepair(cr, ctx.db.image.clusters, ctx.db.tick) && cr.clusterId in ctx.expected && waiting != {}
    requires NodesIn(cr.cluster, ctx.db.tick, IsToStart) == waiting
    requires |NodesIn(cr.cluster, ctx.db.tick, IsFailed)| + |NodesIn(cr.cluster, ctx.db.tick, IsOk)| <= ctx.expected[cr.clusterId]
    ensures Issuable(ctx, req) && req.CreateNode? && req.clusterId == cr.clusterId && IsLeast(req.nodeId, waiting)
  {
    var k := DecidesCreate(cr, ctx.db.tick, ctx.expected[cr.clusterId], waiting);
    assert k in cr.cluster.nodes;
    var ids, addresses := Spelled(cr.cluster);
    hide NodesIn, ClusterRepair.Describes, NeedsRepair, SpellsMembers;
    req := CreateNode(cr.clusterId, ids, addresses, k, cr.cluster.nodes[k].address, true, false);
    assert IssuedFor(ctx, cr, req);
  }

  lemma DecidesCreate(cr: ClusterRepair, now: uint64, expected: nat, waiting: set<Id>) returns (k: Id)
    requires cr.Describes(now) && NodesIn(cr.cluster, now, IsToStart) == waiting && waiting != {}
    requires |NodesIn(cr.cluster, now, IsFailed)| + |NodesIn(cr.cluster, now, IsOk)| <= expected
    ensures Decide(cr, expected) == Create(k) && IsLeast(k, waiting)
  {
    hide NodesIn, ClusterRepair.Describes;
    DecidesExactly(cr, now, expected);
    k := Decide(cr, expected).nodeId;
  }

  lemma FewerThanAll(all: set<Id>, failed: set<Id>, waiting: set<Id>)
    requires failed <= all && waiting <= all && failed !! waiting && waiting != {}
    ensures |failed| + |all - failed - waiting| < |all|
  {
    var rest := all - failed - waiting;
    assert all == failed + rest + waiting && |failed + rest| == |failed| + |rest|;
    assert |all| == |failed + rest| + |waiting|;
  }

  /** A round from the present context, its request accepted at the next index. */
  function RoundSteps(w: World, req: Request, index: uint64): seq<Step> {
    [TakeContext, Issue(Context(w.db, w.expected), req), Accept(req, index)]
  }

  lemma RoundRuns(w: World, req: Request, index: uint64)
    requires Issuable(Context(w.db, w.expected), req) && !req.CreateNode? && req.clusterId in w.rafts
    requires req.AddNode? ==> (req.clusterId, req.nodeId) !in w.owner
    requires req.confChangeId == w.rafts[req.clusterId].configChangeId < index
    ensures var steps := RoundSteps(w, req, index);
            && Orderly(w, steps) && Run(w, steps).db == w.db && Run(w, steps).expected == w.expected
            && Run(w, steps).rafts == w.rafts[req.clusterId := Raft(index, Changed(w.rafts[req.clusterId].members, req))]
            && Run(w, steps).running == w.running
  {
    hide Issuable, IsRun, Run, OnTheClock, OnlyRunning;
    var steps := RoundSteps(w, req, index);
    RunOne(w, steps[0]);
    RunThen(w, [steps[0]], steps[1]);
    RunThen(w, [steps[0]] + [steps[1]], steps[2]);
    assert steps == [steps[0]] + [steps[1]] + [steps[2]];
  }

  lemma CreateRuns(w: World, req: Request)
    requires Issuable(Context(w.db, w.expected), req) && req.CreateNode?
    ensures var steps := [TakeContext, Issue(Context(w.db, w.expected), req)];
            && Orderly(w, steps) && Run(w, steps).db == w.db && Run(w, steps).expected == w.expected
            && Run(w, steps).rafts == w.rafts && Run(w, steps).owner == w.owner
            && Run(w, steps).running == w.running + {(req.clusterId, req.nodeId)}
  {
    hide Issuable, IsRun, Run, OnTheClock, OnlyRunning;
    var steps := [TakeContext, Issue(Context(w.db, w.expected), req)];
    RunOne(w, steps[0]);
    RunThen(w, [steps[0]], steps[1]);
    assert steps == [steps[0]] + [steps[1]];
  }

  // ---- starting what has not been started ----

  function RunningIn(w: World, cid: Id): set<Id>
    requires cid in w.rafts
  {
    set m | m in w.rafts[cid].members && (cid, m) in w.running
  }

  /** Members not known to run have not been heard of, and were not first seen before the clock ran. */
  ghost predicate Startable(w: World, cid: Id)
    requires cid in w.rafts
  {
    && RunningIn(w, cid) != {} && w.db.tick != 0
    && forall m | m in w.rafts[cid].members.Keys - RunningIn(w, cid) :: Unheard(w.db.image, cid, m)
  }

  lemma ListOf(s: set<Id>) returns (ms: seq<Id>)
    ensures (forall m :: m in ms <==> m in s) && (s != {} ==> ms != [])
  {
    ms := InOrder(s);
    forall m
      ensures m in ms <==> m in s
    {
      assert m in ms <==> m in Elements(ms);
    }
  }

  /** The running members report; the others are then to be started. */
  lemma RunningReport(w: World, cid: Id) returns (steps: seq<Step>)
    requires ClosedLoop.Inv(w) && cid in w.rafts && Startable(w, cid)
    ensures Orderly(w, steps) && ClosedLoop.Inv(Run(w, steps))
    ensures var v := Run(w, steps); v == w.(db := v.db) && v.db.tick == w.db.tick && Startable(v, cid)
    ensures var rest := w.rafts[cid].members.Keys - RunningIn(w, cid);
            Judged(Run(w, steps).db, cid, w.rafts[cid], {}, rest)
  {
    hide ClosedLoop.Inv, IsRun, Run, OnTheClock, OnlyRunning, Members;
    var ms := ListOf(RunningIn(w, cid));
    Survey(w, cid, ms);
    steps := Hears(cid, w.rafts[cid], ms);
  }

  /** Every member can be started: each gets its CREATE before it first reports. */
  lemma {:induction false} AllStarted(w: World, cid: Id) returns (steps: seq<Step>)
    requires ClosedLoop.Inv(w) && cid in w.rafts && Startable(w, cid)
    ensures Orderly(w, steps) && ClosedLoop.Inv(Run(w, steps))
    ensures var v := Run(w, steps);
            && v.rafts == w.rafts && v.owner == w.owner && v.expected == w.expected && v.db.tick == w.db.tick
            && RunningIn(v, cid) == w.rafts[cid].members.Keys
    decreases |w.rafts[cid].members.Keys - RunningIn(w, cid)|
  {
    hide ClosedLoop.Inv, IsRun, Run, OnTheClock, OnlyRunning, Judged, Startable;
    var members := w.rafts[cid].members.Keys;
    if RunningIn(w, cid) == members {
      steps := [];
      RunNone(w);
    } else {
      var report := RunningReport(w, cid);
      var w1 := Run(w, report);
      SomeMissing(members, RunningIn(w, cid));
      InvSize(w1, cid);
      var create := CreateIssuable(Context(w1.db, w1.expected), cid, w1.rafts[cid], {}, members - RunningIn(w1, cid));
      CreateRuns(w1, create);
      var issue := [TakeContext, Issue(Context(w1.db, w1.expected), create)];
      RunConcat(w, report, issue);
      var w2 := Run(w1, issue);
      RunInv(w1, issue);
      StillStartable(w1, w2, cid, create.nodeId);
      var rest := AllStarted(w2, cid);
      RunConcat(w, report + issue, rest);
      steps := report + issue + rest;
    }
  }

  lemma SomeMissing(all: set<Id>, some: set<Id>)
    requires some <= all && some != all
    ensures all - some != {}
  {
    var x :| x in all && x !in some;
    assert x in all - some;
  }

  lemma StillStartable(w: World, v: World, cid: Id, k: Id)
    requires cid in w.rafts && Startable(w, cid) && k in w.rafts[cid].members && k !in RunningIn(w, cid)
    requires v.rafts == w.rafts && v.db == w.db && v.running == w.running + {(cid, k)}
    ensures Startable(v, cid) && RunningIn(v, cid) == RunningIn(w, cid) + {k}
    ensures |w.rafts[cid].members.Keys - RunningIn(v, cid)| < |w.rafts[cid].members.Keys - RunningIn(w, cid)|
  {
    assert RunningIn(v, cid) == RunningIn(w, cid) + {k};
    var a, b := w.rafts[cid].members.Keys - RunningIn(v, cid), w.rafts[cid].members.Keys - RunningIn(w, cid);
    assert b == a + {k} && k !in a;
  }

  // ---- the schedule ----

  /** Heard of once, and then not for longer than a node may be silent. */
  ghost predicate Silent(db: DbState, cid: Id, k: Id) {
    && HasNode(db.image, cid, k) && NodeAt(db.image, cid, k).tick != 0
    && EntityFailed(NodeAt(db.image, cid, k).tick, db.tick) && db.tick != 0
  }

  /** All running members but the silent one report; members not running are then to be started. */
  lemma RollCall(w: World, cid: Id, k: Id) returns (steps: seq<Step>)
    requires ClosedLoop.Inv(w) && cid in w.rafts && k in w.rafts[cid].members && Silent(w.db, cid, k) && k in RunningIn(w, cid)
    requires RunningIn(w, cid) != {k}
    requires forall m | m in w.rafts[cid].members.Keys - RunningIn(w, cid) :: Unheard(w.db.image, cid, m)
    ensures Orderly(w, steps) && ClosedLoop.Inv(Run(w, steps))
    ensures var v := Run(w, steps); v == w.(db := v.db) && v.db.tick == w.db.tick && Silent(v.db, cid, k)
    ensures Judged(Run(w, steps).db, cid, w.rafts[cid], {k}, w.rafts[cid].members.Keys - RunningIn(w, cid))
  {
    hide ClosedLoop.Inv, IsRun, Run, OnTheClock, OnlyRunning, Members;
    assert RunningIn(w, cid) - {k} != {};
    var ms := ListOf(RunningIn(w, cid) - {k});
    Survey(w, cid, ms);
    steps := Hears(cid, w.rafts[cid], ms);
  }

  /** Member `k` reports, the clock moves on by more than a node may be silent, and the others report. */
  lemma Silence(w: World, cid: Id, k: Id) returns (steps: seq<Step>)
    requires ClosedLoop.Inv(w) && cid in w.rafts && k in w.rafts[cid].members && |w.rafts[cid].members| >= 2
    requires RunningIn(w, cid) == w.rafts[cid].members.Keys && w.db.tick + 14 * TICK_INTERVAL < TWO_64
    ensures Orderly(w, steps) && ClosedLoop.Inv(Run(w, steps))
    ensures var v := Run(w, steps); v == w.(db := v.db)
    ensures Judged(Run(w, steps).db, cid, w.rafts[cid], {k}, {}) && Silent(Run(w, steps).db, cid, k)
  {
    hide ClosedLoop.Inv, IsRun, Run, OnTheClock, OnlyRunning, Judged;
    var raft := w.rafts[cid];
    var tick := Wait(w, 1);
    var w1 := Run(w, tick);
    assert k in RunningIn(w, cid);
    Survey(w1, cid, [k]);
    var w2 := Run(w1, Hears(cid, raft, [k]));
    RunConcat(w, tick, Hears(cid, raft, [k]));
    var silence := Wait(w2, 13);
    RunConcat(w, tick + Hears(cid, raft, [k]), silence);
    var w3 := Run(w2, silence);
    NotAlone(raft.members, k);
    assert RunningIn(w3, cid) == raft.members.Keys;
    var more := RollCall(w3, cid, k);
    assert raft.members.Keys - RunningIn(w3, cid) == {};
    steps := tick + Hears(cid, raft, [k]) + silence + more;
    RunConcat(w, tick + Hears(cid, raft, [k]) + silence, more);
  }

  lemma NotAlone(members: map<Id, Address>, k: Id)
    requires |members| >= 2
    ensures members.Keys != {k}
  {
    assert |members.Keys| == |members| && |{k}| == 1;
  }

  function FromSpare(spare: Address, region: string): HostReport { HostReport(spare, 0, [], region, [], false, []) }

  lemma HearSpare(w: World, cid: Id, k: Id, spare: Address)
    requires ClosedLoop.Inv(w) && cid in w.rafts && Judged(w.db, cid, w.rafts[cid], {k}, {}) && k in w.rafts[cid].members
    requires spare !in w.rafts[cid].members.Values
    ensures var a := w.rafts[cid].members[k];
            var step := Hear(FromSpare(spare, RegionOf(w.db.hosts, a)));
            && Enabled(w, step) && Reporters(step.h) <= w.running && ClosedLoop.Inv(Next(w, step))
            && Next(w, step) == w.(db := Next(w, step).db) && Next(w, step).db.tick == w.db.tick
            && Next(w, step).db.image == w.db.image && Spare(Next(w, step).db, cid, a, spare)
  {
    hide ClosedLoop.Inv, Judged, Spare, ValidHosts, Next, DbState.Reported;
    var a := w.rafts[cid].members[k];
    var h := FromSpare(spare, RegionOf(w.db.hosts, a));
    HostsValid(w);
    EmptyReport(w, h);
    HearInv(w, h);
    SpareListed(w, cid, k, spare);
  }

  /** A report of no node changes the hosts only. */
  lemma EmptyReport(w: World, h: HostReport)
    requires h.reports == []
    ensures Enabled(w, Hear(h)) && Reporters(h) == {} && Next(w, Hear(h)) == w.(db := w.db.Reported(h))
    ensures w.db.Reported(h).tick == w.db.tick && w.db.Reported(h).image == w.db.image
  {
    NothingReported(w.db.image, h.(lastTick := w.db.tick));
    hide Image.Update, Listed, Updated;
    assert Reporters(h) == {} && w.running + {} == w.running;
  }

  lemma HostsValid(w: World)
    requires ClosedLoop.Inv(w)
    ensures !w.db.image.panicked && ValidHosts(w.db.hosts)
  {
    hide GoodHistory, GoodRequest, GoodSize, HostsListMembers, ValidHosts, Members;
  }

  lemma NothingReported(s: Image, h: HostReport)
    requires h.reports == []
    ensures s.Update(h) == s
  {
  }

  lemma SpareListed(w: World, cid: Id, k: Id, spare: Address)
    requires cid in w.rafts && Judged(w.db, cid, w.rafts[cid], {k}, {}) && k in w.rafts[cid].members
    requires spare !in w.rafts[cid].members.Values
    requires !w.db.image.panicked && ValidHosts(w.db.hosts)
    ensures var a := w.rafts[cid].members[k];
            Spare(w.db.Reported(FromSpare(spare, RegionOf(w.db.hosts, a))), cid, a, spare)
  {
    var a := w.rafts[cid].members[k];
    var h := FromSpare(spare, RegionOf(w.db.hosts, a));
    NothingReported(w.db.image, h.(lastTick := w.db.tick));
    hide Image.Update;
    assert a in w.rafts[cid].members.Values;
    var c := w.db.image.clusters[cid];
    assert spare !in AddressesOf(c) by {
      forall j | j in c.nodes
        ensures c.nodes[j].address != spare
      {
        assert Members(c)[j] in w.rafts[cid].members.Values;
      }
    }
  }

  /** With one member too many, the round removes the failed one. */
  lemma Removed(w: World, cid: Id, k: Id) returns (steps: seq<Step>, del: Request)
    requires cid in w.rafts && Judged(w.db, cid, w.rafts[cid], {k}, {}) && cid in w.expected
    requires |w.rafts[cid].members| == w.expected[cid] + 1 >= 3 && w.rafts[cid].configChangeId + 1 < TWO_64
    ensures Orderly(w, steps) && Run(w, steps).expected == w.expected && cid in Run(w, steps).rafts
    ensures Run(w, steps).rafts[cid].members == w.rafts[cid].members - {k} && Run(w, steps).running == w.running
    ensures steps != [] && steps[|steps| - 1] == Accept(del, w.rafts[cid].configChangeId + 1)
    ensures del == DeleteNode(cid, w.rafts[cid].configChangeId, k, del.raftAddress)
  {
    hide IsRun, Run, OnTheClock, OnlyRunning, Judged, Issuable;
    var raft := w.rafts[cid];
    del := DeleteIssuable(Context(w.db, w.expected), cid, raft, k);
    RoundRuns(w, del, raft.configChangeId + 1);
    steps := RoundSteps(w, del, raft.configChangeId + 1);
  }

  /** At the expected size, the round adds a node on the spare host. */
  lemma Added(w: World, cid: Id, k: Id, spare: Address, newId: Id) returns (steps: seq<Step>, add: Request)
    requires ClosedLoop.Inv(w) && cid in w.rafts && k in w.rafts[cid].members && cid in w.expected
    requires |w.rafts[cid].members| == w.expected[cid] >= 3 && RunningIn(w, cid) == w.rafts[cid].members.Keys
    requires spare !in w.rafts[cid].members.Values && (cid, newId) !in w.owner
    requires w.db.tick + 14 * TICK_INTERVAL < TWO_64 && w.rafts[cid].configChangeId + 1 < TWO_64
    ensures Orderly(w, steps) && cid in Run(w, steps).rafts
    ensures Silent(Run(w, steps).db, cid, k) && Shown(Run(w, steps).db.image, cid, w.rafts[cid])
    ensures Run(w, steps).rafts[cid] == Raft(w.rafts[cid].configChangeId + 1, w.rafts[cid].members[newId := spare])
    ensures Run(w, steps).running == w.running
    ensures Accept(add, w.rafts[cid].configChangeId + 1) in steps
    ensures add == AddNode(cid, w.rafts[cid].configChangeId, newId, spare, add.raftAddress)
  {
    hide ClosedLoop.Inv, IsRun, Run, OnTheClock, OnlyRunning, Judged, Issuable, Spare, Silent, Shown;
    var raft := w.rafts[cid];
    var quiet := Silence(w, cid, k);
    var w1 := Run(w, quiet);
    HearSpare(w1, cid, k, spare);
    var hear := Hear(FromSpare(spare, RegionOf(w1.db.hosts, raft.members[k])));
    var w2 := Next(w1, hear);
    RunThen(w, quiet, hear);
    SameImage(w1.db, w2.db, cid, raft, k);
    add := AddIssuable(Context(w2.db, w2.expected), cid, raft, k, spare, newId);
    var round := RoundSteps(w2, add, raft.configChangeId + 1);
    RoundRuns(w2, add, raft.configChangeId + 1);
    steps := quiet + [hear] + round;
    RunConcat(w, quiet + [hear], round);
    assert round[2] == Accept(add, raft.configChangeId + 1) && round[2] in round;
  }

  lemma SameImage(db: DbState, other: DbState, cid: Id, raft: Raft, k: Id)
    requires Judged(db, cid, raft, {k}, {}) && Silent(db, cid, k) && other.image == db.image && other.tick == db.tick
    ensures Judged(other, cid, raft, {k}, {}) && Silent(other, cid, k) && Shown(other.image, cid, raft)
  {
  }

  lemma NewMember(w: World, cid: Id, newId: Id, spare: Address)
    requires ClosedLoop.Inv(w) && cid in w.rafts && (cid, newId) !in w.owner
    ensures newId !in w.rafts[cid].members
    ensures |w.rafts[cid].members[newId := spare]| == |w.rafts[cid].members| + 1
  {
    hide GoodDb, GoodRequest, GoodSize;
    var members := w.rafts[cid].members;
    NotAhead(w, cid);
    NotYetMember(w, cid, newId, w.rafts[cid].configChangeId);
    var now := members[newId := spare];
    assert now.Keys == members.Keys + {newId} && |now.Keys| == |now| && |members.Keys| == |members|;
  }

  /** The others report, the added node is created, and only then does it report. */
  lemma Started(w: World, cid: Id, k: Id, newId: Id, was: Raft) returns (steps: seq<Step>)
    requires ClosedLoop.Inv(w) && cid in w.rafts && w.rafts[cid].members.Keys == was.members.Keys + {newId}
    requires k in was.members && newId !in was.members && |was.members| >= 2 && RunningIn(w, cid) >= was.members.Keys
    requires Silent(w.db, cid, k) && Shown(w.db.image, cid, was)
    ensures Orderly(w, steps) && ClosedLoop.Inv(Run(w, steps))
    ensures var v := Run(w, steps); v.rafts == w.rafts && v.expected == w.expected && v.db.tick == w.db.tick
    ensures Judged(Run(w, steps).db, cid, w.rafts[cid], {k}, {}) && RunningIn(Run(w, steps), cid) == w.rafts[cid].members.Keys
  {
    hide ClosedLoop.Inv, IsRun, Run, OnTheClock, OnlyRunning, Judged, Silent;
    NotAlone(was.members, k);
    NotSeen(w.db.image, cid, was, newId);
    assert k in RunningIn(w, cid) && RunningIn(w, cid) != {k};
    var call := RollCall(w, cid, k);
    var w1 := Run(w, call);
    if RunningIn(w, cid) == w.rafts[cid].members.Keys {
      steps := call;
      assert w.rafts[cid].members.Keys - RunningIn(w, cid) == {};
    } else {
      assert w.rafts[cid].members.Keys - RunningIn(w, cid) == {newId};
      InvSize(w1, cid);
      var create := CreateIssuable(Context(w1.db, w1.expected), cid, w1.rafts[cid], {k}, {newId});
      CreateRuns(w1, create);
      var issue := [TakeContext, Issue(Context(w1.db, w1.expected), create)];
      RunConcat(w, call, issue);
      var w2 := Run(w1, issue);
      RunInv(w1, issue);
      assert RunningIn(w2, cid) == w.rafts[cid].members.Keys;
      var more := RollCall(w2, cid, k);
      assert w2.rafts[cid].members.Keys - RunningIn(w2, cid) == {};
      RunConcat(w, call + issue, more);
      steps := call + issue + more;
    }
  }

  lemma NotSeen(s: Image, cid: Id, was: Raft, newId: Id)
    requires Shown(s, cid, was) && newId !in was.members
    ensures Unheard(s, cid, newId)
  {
    MembersCount(s.clusters[cid]);
  }

  /**
    * From every world with the cluster at its expected size, at least three, and its members running:
    * when one member falls silent and the others and a spare host go on reporting, an ADD is accepted,
    * the new node is created, and a DELETE is accepted. The cluster then has its expected size again,
    * the spare host in place of that member.
    */
  lemma Replaced(w: World, cid: Id, k: Id, spare: Address, newId: Id)
      returns (steps: seq<Step>, add: Request, del: Request)
    requires ClosedLoop.Inv(w) && cid in w.rafts && k in w.rafts[cid].members && cid in w.expected
    requires |w.rafts[cid].members| == w.expected[cid] >= 3 && RunningIn(w, cid) == w.rafts[cid].members.Keys
    requires spare !in w.rafts[cid].members.Values && (cid, newId) !in w.owner
    requires w.db.tick + 14 * TICK_INTERVAL < TWO_64 && w.rafts[cid].configChangeId + 2 < TWO_64
    ensures Orderly(w, steps) && cid in Run(w, steps).rafts
    ensures Run(w, steps).rafts[cid].members == w.rafts[cid].members[newId := spare] - {k}
    ensures |Run(w, steps).rafts[cid].members| == w.expected[cid]
    ensures RunningIn(Run(w, steps), cid) == Run(w, steps).rafts[cid].members.Keys
    ensures Accept(add, w.rafts[cid].configChangeId + 1) in steps
    ensures steps != [] && steps[|steps| - 1] == Accept(del, w.rafts[cid].configChangeId + 2)
    ensures add == AddNode(cid, w.rafts[cid].configChangeId, newId, spare, add.raftAddress)
    ensures del == DeleteNode(cid, w.rafts[cid].configChangeId + 1, k, del.raftAddress)
  {
    hide ClosedLoop.Inv, IsRun, Run, OnTheClock, OnlyRunning, Judged, Silent, Shown;
    NewMember(w, cid, newId, spare);
    var grow: seq<Step>, shrink: seq<Step>;
    grow, add := Added(w, cid, k, spare, newId);
    var w1 := Run(w, grow);
    RunInv(w, grow);
    assert RunningIn(w1, cid) >= w.rafts[cid].members.Keys by { StillRunning(w, w1, cid); }
    assert w1.rafts[cid].members.Keys == w.rafts[cid].members.Keys + {newId};
    var start := Started(w1, cid, k, newId, w.rafts[cid]);
    RunConcat(w, grow, start);
    var w2 := Run(w1, start);
    shrink, del := Removed(w2, cid, k);
    RunConcat(w, grow + start, shrink);
    steps := grow + start + shrink;
    assert steps[|steps| - 1] == shrink[|shrink| - 1];
    ChangedSize(w1.rafts[cid].members, del, w.expected[cid]);
    FewerRunning(w2, Run(w2, shrink), cid, k);
  }

  lemma StillRunning(w: World, v: World, cid: Id)
    requires cid in w.rafts && cid in v.rafts && w.rafts[cid].members.Keys <= v.rafts[cid].members.Keys
    requires v.running == w.running && RunningIn(w, cid) == w.rafts[cid].members.Keys
    ensures RunningIn(v, cid) >= w.rafts[cid].members.Keys
  {
    forall m | m in w.rafts[cid].members
      ensures m in RunningIn(v, cid)
    {
      assert m in RunningIn(w, cid);
    }
  }

  lemma FewerRunning(w: World, v: World, cid: Id, k: Id)
    requires cid in w.rafts && cid in v.rafts && v.rafts[cid].members == w.rafts[cid].members - {k}
    requires v.running == w.running && RunningIn(w, cid) == w.rafts[cid].members.Keys
    ensures RunningIn(v, cid) == v.rafts[cid].members.Keys
  {
    forall m | m in v.rafts[cid].members
      ensures (cid, m) in v.running
    {
      assert m in RunningIn(w, cid);
    }
  }

  lemma Shrunk(w: World, cid: Id, k: Id) returns (steps: seq<Step>)
    requires ClosedLoop.Inv(w) && cid in w.rafts && k in w.rafts[cid].members && cid in w.expected
    requires |w.rafts[cid].members| == w.expected[cid] + 1 >= 3 && RunningIn(w, cid) == w.rafts[cid].members.Keys
    requires w.db.tick + 14 * TICK_INTERVAL < TWO_64 && w.rafts[cid].configChangeId + 1 < TWO_64
    ensures Orderly(w, steps) && cid in Run(w, steps).rafts
    ensures Run(w, steps).rafts[cid].members == w.rafts[cid].members - {k}
    ensures |Run(w, steps).rafts[cid].members| == w.expected[cid]
    ensures RunningIn(Run(w, steps), cid) == Run(w, steps).rafts[cid].members.Keys
  {
    hide ClosedLoop.Inv, IsRun, Run, OnTheClock, OnlyRunning, Judged, Silent;
    var quiet := Silence(w, cid, k);
    var w1 := Run(w, quiet);
    assert RunningIn(w1, cid) == w1.rafts[cid].members.Keys;
    var shrink, del := Removed(w1, cid, k);
    RunConcat(w, quiet, shrink);
    steps := quiet + shrink;
    ChangedSize(w.rafts[cid].members, del, w.expected[cid]);
    FewerRunning(w1, Run(w1, shrink), cid, k);
  }

  lemma OthersStay(members: map<Id, Address>, k: Id, newId: Id, spare: Address)
    requires newId !in members && k in members
    ensures members[newId := spare] - {k} - {newId} == members - {k}
    ensures members - {k} - {newId} == members - {k}
  {
  }

  /** The cluster is at its expected size without `k`, with the other members of `before`, all running. */
  ghost predicate WithoutMember(w: World, cid: Id, before: map<Id, Address>, k: Id, newId: Id) {
    && cid in w.rafts && cid in w.expected && |w.rafts[cid].members| == w.expected[cid] && k !in w.rafts[cid].members
    && before - {k} == w.rafts[cid].members - {newId} && RunningIn(w, cid) == w.rafts[cid].members.Keys
  }

  lemma Leaves(v: World, cid: Id, k: Id, spare: Address, newId: Id) returns (steps: seq<Step>)
    requires ClosedLoop.Inv(v) && cid in v.rafts && k in v.rafts[cid].members && cid in v.expected && v.expected[cid] >= 3
    requires RunningIn(v, cid) == v.rafts[cid].members.Keys
    requires spare !in v.rafts[cid].members.Values && (cid, newId) !in v.owner
    requires v.db.tick + 14 * TICK_INTERVAL < TWO_64 && v.rafts[cid].configChangeId + 2 < TWO_64
    ensures Orderly(v, steps) && WithoutMember(Run(v, steps), cid, v.rafts[cid].members, k, newId)
  {
    hide IsRun, Run, OnTheClock, OnlyRunning, ClosedLoop.Inv;
    NewMember(v, cid, newId, spare);
    InvSize(v, cid);
    OthersStay(v.rafts[cid].members, k, newId, spare);
    if |v.rafts[cid].members| == v.expected[cid] {
      var add, del;
      steps, add, del := Replaced(v, cid, k, spare, newId);
    } else {
      steps := Shrunk(v, cid, k);
    }
    RunInv(v, steps);
  }
}
