/**
  * The repair loop gets somewhere: from every reachable world in which a cluster can lose a member, a
  * schedule of reports, rounds and acceptances brings it back to its expected size without that member.
  */
module LoopRepairs {
  import opened Bits
  import opened ClusterImage
  import ImageConvergence
  import opened ImageTicks
  import opened NodeHostImage
  import opened Placement
  import opened Repair
  import opened Scheduler
  import opened ClosedLoop
  import opened LoopSchedule

  // ---- on the clock every member can be started ----

  /** A node heard of, or first seen before the clock ran, is running; before that none has been heard of. */
  ghost predicate LiveDb(db: DbState, running: set<(Id, Id)>) {
    forall cid: Id, k: Id | HasNode(db.image, cid, k) ::
      && (NodeAt(db.image, cid, k).tick != 0 || NodeAt(db.image, cid, k).firstObserved == 0 ==> (cid, k) in running)
      && (db.tick == 0 ==> NodeAt(db.image, cid, k).tick == 0)
  }

  /** Before the clock runs there are only launched nodes and nothing to change them. */
  ghost predicate Unticked(w: World) {
    w.db.tick == 0 ==>
      && (forall c, k | c in w.history && k in w.history[c] :: (c.0, k) in w.running)
      && (forall ctx | ctx in w.contexts :: ctx.db.tick == 0)
      && (forall req | req in w.inFlight :: req.CreateNode?)
  }

  ghost predicate SomeRun(w: World) {
    forall cid | cid in w.rafts && cid in w.expected && w.expected[cid] > 0 :: RunningIn(w, cid) != {}
  }

  ghost predicate Live(w: World) {
    LiveDb(w.db, w.running) && (forall ctx | ctx in w.contexts :: LiveDb(ctx.db, w.running)) && Unticked(w) && SomeRun(w)
  }

  lemma LiveGrows(db: DbState, running: set<(Id, Id)>, more: set<(Id, Id)>)
    requires LiveDb(db, running) && running <= more
    ensures LiveDb(db, more)
  {
  }

  lemma LiveReported(w: World, h: HostReport)
    requires ClosedLoop.Inv(w) && LiveDb(w.db, w.running) && Unticked(w) && Enabled(w, Hear(h))
    ensures LiveDb(w.db.Reported(h), w.running + Reporters(h))
  {
    var stamped, t := h.(lastTick := w.db.tick), w.db.Reported(h);
    ShowsHistory(w);
    hide ClosedLoop.Inv;
    ImageConvergence.UpdateShows(w.db.image, stamped, w.history);
    hide Image.Update, Reported, LiveDb, ImageConvergence.Consistent;
    assert t.image == w.db.image.Update(stamped) && t.tick == w.db.tick;
    ShowsNoPanic(t.image, w.history);
    forall cid: Id, k: Id | HasNode(t.image, cid, k)
      ensures NodeAt(t.image, cid, k).tick != 0 || NodeAt(t.image, cid, k).firstObserved == 0 ==>
                (cid, k) in w.running + Reporters(h)
      ensures w.db.tick == 0 ==> NodeAt(t.image, cid, k).tick == 0
    {
      LiveNode(w, h, cid, k);
    }
    LiveFrom(t, w.running + Reporters(h));
  }

  lemma LiveFrom(db: DbState, running: set<(Id, Id)>)
    requires forall cid: Id, k: Id | HasNode(db.image, cid, k) ::
               && (NodeAt(db.image, cid, k).tick != 0 || NodeAt(db.image, cid, k).firstObserved == 0 ==> (cid, k) in running)
               && (db.tick == 0 ==> NodeAt(db.image, cid, k).tick == 0)
    ensures LiveDb(db, running)
  {
  }

  lemma LiveNode(w: World, h: HostReport, cid: Id, k: Id)
    requires LiveDb(w.db, w.running) && Unticked(w)
    requires var t := w.db.image.Update(h.(lastTick := w.db.tick));
             ImageConvergence.Shows(t, w.history) && HasNode(t, cid, k)
    ensures var n := NodeAt(w.db.image.Update(h.(lastTick := w.db.tick)), cid, k);
            && (n.tick != 0 || n.firstObserved == 0 ==> (cid, k) in w.running + Reporters(h))
            && (w.db.tick == 0 ==> n.tick == 0)
  {
    var stamped := h.(lastTick := w.db.tick);
    var t := w.db.image.Update(stamped);
    MembersCount(t.clusters[cid]);
    hide Image.Update, Members;
    UpdateTicks(w.db.image, stamped, cid, k);
    if Reported(h.reports, cid, k) {
      assert (cid, k) in Reporters(h);
    } else if w.db.tick == 0 {
      assert ImageConvergence.Records(w.history, cid, t.clusters[cid].configChangeIndex, Members(t.clusters[cid]));
      assert (cid, t.clusters[cid].configChangeIndex) in w.history;
    }
  }

  /** Before the clock runs no round changes a membership. */
  lemma NoChangeAtZero(w: World, ctx: Context, req: Request)
    requires ClosedLoop.Inv(w) && Live(w) && Enabled(w, Issue(ctx, req)) && w.db.tick == 0
    ensures req.CreateNode?
  {
    var cr :| IssuedFor(ctx, cr, req);
    assert ctx.db.tick == 0 && LiveDb(ctx.db, w.running);
    hide ClosedLoop.Inv, Live;
    NoneWorking(ctx.db, cr.clusterId, w.running);
    hide NodesIn, SpellsMembers, GoodHost, ToWorkingMember, NeedsRepair;
    DecidesExactly(cr, ctx.db.tick, ctx.expected[cr.clusterId]);
  }

  lemma NoneWorking(db: DbState, cid: Id, running: set<(Id, Id)>)
    requires LiveDb(db, running) && db.tick == 0 && cid in db.image.clusters
    ensures NodesIn(db.image.clusters[cid], 0, IsOk) == {}
  {
    forall k | k in db.image.clusters[cid].nodes
      ensures !Ok(db.image.clusters[cid].nodes[k], 0)
    {
      assert HasNode(db.image, cid, k);
    }
  }

  /** A deletion leaves a member that has been heard of. */
  lemma WorkingRemains(w: World, req: Request, index: uint64)
    requires ClosedLoop.Inv(w) && Live(w) && Enabled(w, Accept(req, index))
    requires req.clusterId in w.expected && w.expected[req.clusterId] > 0
    ensures RunningIn(Next(w, Accept(req, index)), req.clusterId) != {}
  {
    var cid, v := req.clusterId, Next(w, Accept(req, index));
    AcceptedNow(w, req);
    hide ClosedLoop.Inv;
    if req.DeleteNode? {
      var members := w.rafts[cid].members;
      var ctx :| ctx in w.contexts && SafeToDelete(ctx, cid, req.nodeId, members);
      var c := ctx.db.image.clusters[cid];
      assert NodesIn(c, ctx.db.tick, IsOk) != {};
      var j :| j in NodesIn(c, ctx.db.tick, IsOk);
      assert LiveDb(ctx.db, w.running) && HasNode(ctx.db.image, cid, j);
      assert j in RunningIn(v, cid);
    } else {
      assert RunningIn(w, cid) != {};
      var j :| j in RunningIn(w, cid);
      assert j in RunningIn(v, cid);
    }
  }

  lemma LiveHear(w: World, h: HostReport)
    requires ClosedLoop.Inv(w) && Live(w) && Enabled(w, Hear(h))
    ensures Live(Next(w, Hear(h)))
  {
    var v := Next(w, Hear(h));
    LiveReported(w, h);
    hide ClosedLoop.Inv, LiveDb;
    LiveGrownContexts(w, v);
    AllRunningGrow(w, v);
  }

  lemma LiveGrownContexts(w: World, v: World)
    requires (forall ctx | ctx in w.contexts :: LiveDb(ctx.db, w.running)) && w.running <= v.running && v.contexts == w.contexts
    ensures forall ctx | ctx in v.contexts :: LiveDb(ctx.db, v.running)
  {
    hide LiveDb;
    forall ctx | ctx in v.contexts
      ensures LiveDb(ctx.db, v.running)
    {
      LiveGrows(ctx.db, w.running, v.running);
    }
  }

  lemma RunningGrows(w: World, v: World, cid: Id)
    requires cid in w.rafts && cid in v.rafts && v.rafts[cid] == w.rafts[cid] && w.running <= v.running
    requires RunningIn(w, cid) != {}
    ensures RunningIn(v, cid) != {}
  {
    var m :| m in RunningIn(w, cid);
    assert m in RunningIn(v, cid);
  }

  lemma AllRunningGrow(w: World, v: World)
    requires SomeRun(w) && v.rafts == w.rafts && v.expected == w.expected && w.running <= v.running
    ensures SomeRun(v)
  {
    forall cid | cid in v.rafts && cid in v.expected && v.expected[cid] > 0
      ensures RunningIn(v, cid) != {}
    {
      RunningGrows(w, v, cid);
    }
  }

  lemma LiveTick(w: World, tick: uint64)
    requires Live(w) && tick != 0
    ensures Live(Next(w, Tick(tick)))
  {
    var v := Next(w, Tick(tick));
    assert LiveDb(v.db, v.running) by {
      forall cid: Id, k: Id | HasNode(v.db.image, cid, k)
        ensures NodeAt(v.db.image, cid, k).tick != 0 || NodeAt(v.db.image, cid, k).firstObserved == 0 ==> (cid, k) in v.running
      {
        assert HasNode(w.db.image, cid, k);
      }
    }
    hide LiveDb;
    AllRunningGrow(w, v);
  }

  lemma LiveTake(w: World)
    requires Live(w)
    ensures Live(Next(w, TakeContext))
  {
    hide LiveDb;
    var v := Next(w, TakeContext);
    AllRunningGrow(w, v);
  }

  lemma LiveIssue(w: World, ctx: Context, req: Request)
    requires ClosedLoop.Inv(w) && Live(w) && Enabled(w, Issue(ctx, req))
    ensures Live(Next(w, Issue(ctx, req)))
  {
    hide ClosedLoop.Inv, LiveDb, Issuable, SomeRun;
    var v := Next(w, Issue(ctx, req));
    if w.db.tick == 0 {
      NoChangeAtZero(w, ctx, req);
    }
    LiveGrows(w.db, w.running, v.running);
    LiveGrownContexts(w, v);
    AllRunningGrow(w, v);
  }

  lemma LiveAccept(w: World, req: Request, index: uint64)
    requires ClosedLoop.Inv(w) && Live(w) && Enabled(w, Accept(req, index))
    ensures Live(Next(w, Accept(req, index)))
  {
    hide ClosedLoop.Inv, LiveDb, SomeRun;
    SomeRunAccept(w, req, index);
  }

  lemma SomeRunAccept(w: World, req: Request, index: uint64)
    requires ClosedLoop.Inv(w) && Live(w) && Enabled(w, Accept(req, index))
    ensures SomeRun(Next(w, Accept(req, index)))
  {
    hide ClosedLoop.Inv, LiveDb, Unticked;
    var v := Next(w, Accept(req, index));
    forall cid | cid in v.rafts && cid in v.expected && v.expected[cid] > 0
      ensures RunningIn(v, cid) != {}
    {
      if cid == req.clusterId {
        WorkingRemains(w, req, index);
      } else {
        RunningGrows(w, v, cid);
      }
    }
  }

  lemma LiveStep(w: World, step: Step)
    requires ClosedLoop.Inv(w) && Live(w) && Enabled(w, step) && (step.Tick? ==> step.tick != 0)
    ensures Live(Next(w, step))
  {
    hide ClosedLoop.Inv, Live;
    match step
    case Hear(h) => LiveHear(w, h);
    case Tick(tick) => LiveTick(w, tick);
    case TakeContext => LiveTake(w);
    case Issue(ctx, req) => LiveIssue(w, ctx, req);
    case Accept(req, index) => LiveAccept(w, req, index);
  }

  lemma {:induction false} RunLive(w: World, steps: seq<Step>)
    requires ClosedLoop.Inv(w) && Live(w) && IsRun(w, steps) && OnTheClock(w, steps)
    ensures Live(Run(w, steps))
    decreases |steps|
  {
    hide ClosedLoop.Inv, Live, Enabled, Next;
    if steps != [] {
      StepInv(w, steps[0]);
      LiveStep(w, steps[0]);
      RunLive(Next(w, steps[0]), steps[1..]);
    }
  }

  lemma StartLive(w: World)
    requires Start(w)
    ensures Live(w)
  {
    forall cid | cid in w.rafts && cid in w.expected && w.expected[cid] > 0
      ensures RunningIn(w, cid) != {}
    {
      var raft := w.rafts[cid];
      assert ImageConvergence.Records(w.history, cid, raft.configChangeId, raft.members);
      assert raft.members.Keys != {} by { assert |raft.members.Keys| == |raft.members|; }
      var m :| m in raft.members;
      assert (cid, raft.configChangeId) in w.history && m in RunningIn(w, cid);
    }
  }

  lemma LiveStartable(w: World, cid: Id)
    requires Live(w) && w.db.tick != 0 && cid in w.rafts && cid in w.expected && w.expected[cid] > 0
    ensures Startable(w, cid)
  {
    forall m | m in w.rafts[cid].members.Keys - RunningIn(w, cid)
      ensures Unheard(w.db.image, cid, m)
    {
      assert (cid, m) !in w.running;
    }
  }

  /**
    * From every world reached on the database's clock, each member of a cluster of expected size three or
    * more can be got rid of: some schedule, on that clock and with reports only from nodes that were
    * launched or created, brings the cluster back to its expected size without that member and with the
    * others.
    */
  lemma FailedMemberLeaves(w: World, before: seq<Step>, cid: Id, k: Id, spare: Address, newId: Id) returns (steps: seq<Step>)
    requires Start(w) && IsRun(w, before) && OnTheClock(w, before)
    requires var v := Run(w, before);
             && cid in v.rafts && k in v.rafts[cid].members && cid in w.expected && w.expected[cid] >= 3
             && spare !in v.rafts[cid].members.Values && (cid, newId) !in v.owner
             && v.db.tick + 15 * TICK_INTERVAL < TWO_64 && v.rafts[cid].configChangeId + 2 < TWO_64
    ensures var v := Run(w, before);
            Orderly(v, steps) && WithoutMember(Run(v, steps), cid, v.rafts[cid].members, k, newId)
  {
    StartInv(w);
    StartLive(w);
    hide Start, ClosedLoop.Inv, Live, OnlyRunning;
    RunInv(w, before);
    RunLive(w, before);
    steps := LiveLeaves(Run(w, before), cid, k, spare, newId);
  }

  lemma LiveLeaves(v: World, cid: Id, k: Id, spare: Address, newId: Id) returns (steps: seq<Step>)
    requires ClosedLoop.Inv(v) && Live(v)
    requires cid in v.rafts && k in v.rafts[cid].members && cid in v.expected && v.expected[cid] >= 3
    requires spare !in v.rafts[cid].members.Values && (cid, newId) !in v.owner
    requires v.db.tick + 15 * TICK_INTERVAL < TWO_64 && v.rafts[cid].configChangeId + 2 < TWO_64
    ensures Orderly(v, steps) && WithoutMember(Run(v, steps), cid, v.rafts[cid].members, k, newId)
  {
    hide ClosedLoop.Inv, Live, IsRun, Run, OnTheClock, OnlyRunning, WithoutMember;
    var tick := Wait(v, 1);
    var w1 := Run(v, tick);
    LiveTick(v, w1.db.tick);
    LiveStartable(w1, cid);
    var start := AllStarted(w1, cid);
    RunConcat(v, tick, start);
    var w2 := Run(w1, start);
    var leave := Leaves(w2, cid, k, spare, newId);
    RunConcat(v, tick + start, leave);
    steps := tick + start + leave;
  }

  /** And below three no round ever issues an ADD: one failed member already leaves too few working. */
  lemma NoAddBelowThree(ctx: Context, cr: ClusterRepair, req: Request)
    requires IssuedFor(ctx, cr, req) && req.AddNode?
    ensures |cr.cluster.nodes| >= 3
  {
    hide Answers, NodesIn;
    assert Decide(cr, ctx.expected[cr.clusterId]).Add? by { AnswersWithAdd(ctx, cr, req); }
    StatusesPartition(cr, ctx.db.tick);
  }

  lemma AnswersWithAdd(ctx: Context, cr: ClusterRepair, req: Request)
    requires cr.clusterId in ctx.expected && Answers(ctx, cr, req) && req.AddNode?
    ensures Decide(cr, ctx.expected[cr.clusterId]).Add?
  {
  }

  const MEMBERS: map<Id, Address> := map[1 := "a1", 2 := "a2", 3 := "a3"]

  /** One cluster of three, just launched. */
  const LAUNCHED: World :=
    World(map[1 := 3], map[1 := Raft(1, MEMBERS)], map[(1, 1) := MEMBERS],
          map[(1, 1) := "a1", (1, 2) := "a2", (1, 3) := "a3"], EMPTY_DB, {}, {}, {(1, 1), (1, 2), (1, 3)})

  lemma LaunchedMembers()
    ensures |MEMBERS| == 3 && DistinctAddresses(MEMBERS) && Owned(LAUNCHED.owner, 1, MEMBERS)
    ensures forall k | k in MEMBERS :: (1, k) in LAUNCHED.running
  {
    assert MEMBERS.Keys == {1, 2, 3} && |MEMBERS.Keys| == |MEMBERS|;
  }

  lemma LaunchedStarts()
    ensures Start(LAUNCHED)
  {
    LaunchedMembers();
    hide Owned, DistinctAddresses;
    assert forall c | c in LAUNCHED.history :: c == (1, 1) && LAUNCHED.history[c] == MEMBERS;
  }

  lemma LaunchedHas()
    ensures 1 in LAUNCHED.rafts && LAUNCHED.rafts[1] == Raft(1, MEMBERS) && |MEMBERS| == 3 && 2 in MEMBERS
    ensures 1 in LAUNCHED.expected && LAUNCHED.expected[1] == 3 && RunningIn(LAUNCHED, 1) == MEMBERS.Keys
    ensures "a4" !in MEMBERS.Values && (1, 4) !in LAUNCHED.owner && LAUNCHED.db.tick == 0
  {
    assert MEMBERS.Keys == {1, 2, 3} && |MEMBERS.Keys| == |MEMBERS|;
  }

  /** A run in which an ADD and then a DELETE are accepted: the fourth host takes the second's place. */
  lemma LoopCanRepair() returns (steps: seq<Step>, add: Request, del: Request)
    ensures Start(LAUNCHED) && Orderly(LAUNCHED, steps)
    ensures add == AddNode(1, 1, 4, "a4", add.raftAddress) && del == DeleteNode(1, 2, 2, del.raftAddress)
    ensures Accept(add, 2) in steps && steps != [] && steps[|steps| - 1] == Accept(del, 3)
    ensures 1 in Run(LAUNCHED, steps).rafts
    ensures Run(LAUNCHED, steps).rafts[1].members == MEMBERS[4 := "a4"] - {2}
  {
    hide IsRun, Run, OnTheClock, OnlyRunning;
    LaunchedStarts();
    LaunchedHas();
    StartInv(LAUNCHED);
    steps, add, del := FromLaunched(LAUNCHED);
  }

  lemma FromLaunched(w: World) returns (steps: seq<Step>, add: Request, del: Request)
    requires ClosedLoop.Inv(w) && 1 in w.rafts && w.rafts[1] == Raft(1, MEMBERS) && |MEMBERS| == 3 && 2 in MEMBERS
    requires 1 in w.expected && w.expected[1] == 3 && RunningIn(w, 1) == MEMBERS.Keys
    requires "a4" !in MEMBERS.Values && (1, 4) !in w.owner && w.db.tick == 0
    ensures Orderly(w, steps)
    ensures add == AddNode(1, 1, 4, "a4", add.raftAddress) && del == DeleteNode(1, 2, 2, del.raftAddress)
    ensures Accept(add, 2) in steps && steps != [] && steps[|steps| - 1] == Accept(del, 3)
    ensures 1 in Run(w, steps).rafts && Run(w, steps).rafts[1].members == MEMBERS[4 := "a4"] - {2}
  {
    hide IsRun, Run, OnTheClock, OnlyRunning, ClosedLoop.Inv;
    steps, add, del := Replaced(w, 1, 2, "a4", 4);
  }
}
