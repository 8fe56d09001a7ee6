/**
  * Drummer and the Raft clusters it repairs, as one state machine: reports are truthful but may be
  * late, a round may work from any context ever handed out, and a request may be lost, delayed or
  * delivered again. Raft accepts a membership change only when the index it names is the current one.
  */
module ClosedLoop {
  import opened Bits
  import opened ClusterImage
  import opened ImageConvergence
  import opened NodeHostImage
  import opened Repair
  import opened Placement
  import opened Scheduler

  datatype Raft = Raft(configChangeId: uint64, members: map<Id, Address>)

  /** `running`: the nodes known to have been started, by the launch or a CREATE, or because they report. */
  datatype World = World(
    expected: map<Id, nat>, rafts: map<Id, Raft>, history: History, owner: map<(Id, Id), Address>,
    db: DbState, contexts: set<Context>, inFlight: set<Request>, running: set<(Id, Id)>)

  datatype Step =
    | Hear(h: HostReport)
    | Tick(tick: uint64)
    | TakeContext
    | Issue(ctx: Context, req: Request)
    | Accept(req: Request, index: uint64)

  ghost predicate Enabled(w: World, step: Step) {
    match step
    case Hear(h) => AllTruthful(h.reports, w.history)
    case Tick(_) => true
    case TakeContext => true
    case Issue(ctx, req) =>
      ctx in w.contexts && Issuable(ctx, req) && (req.AddNode? ==> (req.clusterId, req.nodeId) !in w.owner)
    case Accept(req, index) =>
      req in w.inFlight && !req.CreateNode? && req.clusterId in w.rafts &&
      req.confChangeId == w.rafts[req.clusterId].configChangeId < index
  }

  function Changed(members: map<Id, Address>, req: Request): map<Id, Address>
    requires !req.CreateNode?
  {
    match req
    case AddNode(_, _, k, a, _) => members[k := a]
    case DeleteNode(_, _, k, _) => members - {k}
  }

  function Reporters(h: HostReport): set<(Id, Id)> { set r | r in h.reports :: (r.clusterId, r.nodeId) }

  ghost function Next(w: World, step: Step): World
    requires Enabled(w, step)
  {
    match step
    case Hear(h) => w.(db := w.db.Reported(h), running := w.running + Reporters(h))
    case Tick(tick) => w.(db := w.db.(tick := tick))
    case TakeContext => w.(contexts := w.contexts + {Context(w.db, w.expected)})
    case Issue(ctx, req) =>
      var issued := w.(inFlight := w.inFlight + {req});
      if req.AddNode? then issued.(owner := w.owner[(req.clusterId, req.nodeId) := req.address])
      else if req.CreateNode? then issued.(running := w.running + {(req.clusterId, req.nodeId)})
      else issued
    case Accept(req, index) =>
      var cid := req.clusterId;
      var members := Changed(w.rafts[cid].members, req);
      w.(rafts := w.rafts[cid := Raft(index, members)], history := w.history[(cid, index) := members])
  }

  /** Launched clusters: each of its expected size, on different hosts, started, and nothing reported yet. */
  ghost predicate Start(w: World) {
    && (forall cid | cid in w.rafts ::
          && cid in w.expected && |w.rafts[cid].members| == w.expected[cid]
          && DistinctAddresses(w.rafts[cid].members)
          && Records(w.history, cid, w.rafts[cid].configChangeId, w.rafts[cid].members))
    && (forall c | c in w.history :: c.0 in w.rafts && c.1 == w.rafts[c.0].configChangeId)
    && (forall c | c in w.history :: Owned(w.owner, c.0, w.history[c]))
    && (forall c, k | c in w.history && k in w.history[c] :: (c.0, k) in w.running)
    && w.db == EMPTY_DB && w.contexts == {} && w.inFlight == {}
  }

  /** Every member is at the address its id was given. */
  ghost predicate Owned(owner: map<(Id, Id), Address>, cid: Id, members: map<Id, Address>) {
    forall k | k in members :: (cid, k) in owner && owner[(cid, k)] == members[k]
  }

  ghost predicate IsRun(w: World, steps: seq<Step>)
    decreases |steps|
  {
    steps == [] || (Enabled(w, steps[0]) && IsRun(Next(w, steps[0]), steps[1..]))
  }

  ghost function Run(w: World, steps: seq<Step>): World
    requires IsRun(w, steps)
    decreases |steps|
  {
    if steps == [] then w else Run(Next(w, steps[0]), steps[1..])
  }

  // ---- the invariant ----

  ghost predicate GoodDb(db: DbState, history: History) {
    Shows(db.image, history) && HostsListMembers(db) && ValidHosts(db.hosts)
  }

  ghost predicate GoodHistory(w: World) {
    && (forall c | c in w.history :: DistinctAddresses(w.history[c]) && Owned(w.owner, c.0, w.history[c]))
    && (forall c | c in w.history :: c.0 in w.rafts && c.1 <= w.rafts[c.0].configChangeId)
    && (forall cid | cid in w.rafts :: Records(w.history, cid, w.rafts[cid].configChangeId, w.rafts[cid].members))
  }

  ghost predicate GoodSize(w: World, cid: Id)
    requires cid in w.rafts
  {
    cid in w.expected && w.expected[cid] <= |w.rafts[cid].members| <= w.expected[cid] + 1
  }

  /** The request was right for the configuration it names. */
  ghost predicate GoodRequest(w: World, req: Request) {
    match req
    case AddNode(cid, index, k, a, _) =>
      && (cid, index) in w.history && cid in w.expected
      && |w.history[(cid, index)]| <= w.expected[cid]
      && k !in w.history[(cid, index)] && a !in w.history[(cid, index)].Values
      && (cid, k) in w.owner && w.owner[(cid, k)] == a
    case DeleteNode(cid, index, k, _) =>
      && (cid, index) in w.history && cid in w.expected
      && |w.history[(cid, index)]| > w.expected[cid]
      && (exists ctx | ctx in w.contexts :: SafeToDelete(ctx, cid, k, w.history[(cid, index)]))
    case CreateNode(_, _, _, _, _, _, _) => true
  }

  /**
    * In the image of `ctx` the cluster has exactly these members, `k` is a failed one, and the
    * working ones are a majority of the others.
    */
  ghost predicate SafeToDelete(ctx: Context, cid: Id, k: Id, members: map<Id, Address>) {
    && cid in ctx.db.image.clusters && Members(ctx.db.image.clusters[cid]) == members
    && k in NodesIn(ctx.db.image.clusters[cid], ctx.db.tick, IsFailed)
    && NodesIn(ctx.db.image.clusters[cid], ctx.db.tick, IsOk) <= members.Keys - {k}
    && |NodesIn(ctx.db.image.clusters[cid], ctx.db.tick, IsOk)| >= |members.Keys - {k}| / 2 + 1
  }

  ghost predicate Inv(w: World) {
    && GoodHistory(w) && (forall cid | cid in w.rafts :: GoodSize(w, cid))
    && GoodDb(w.db, w.history)
    && (forall ctx | ctx in w.contexts :: GoodDb(ctx.db, w.history) && ctx.expected == w.expected)
    && (forall req | req in w.inFlight :: GoodRequest(w, req))
  }

  lemma HistoryConsistent(w: World)
    requires GoodHistory(w)
    ensures Consistent(w.history)
  {
  }

  // ---- reports ----

  lemma HearInv(w: World, h: HostReport)
    requires Inv(w) && AllTruthful(h.reports, w.history)
    ensures Inv(Next(w, Hear(h)))
  {
    hide Image.Update, Consistent, GoodHistory, Shows, HostsListMembers, ValidHosts, GoodRequest;
    HistoryConsistent(w);
    UpdateShows(w.db.image, h.(lastTick := w.db.tick), w.history);
    assert !w.db.Reported(h).image.panicked by {
      ShowsNoPanic(w.db.Reported(h).image, w.history);
    }
    ReportedListsMembers(w.db, h);
    ReportedKeepsHosts(w.db, h);
    assert GoodHistory(Next(w, Hear(h))) by { SameHistory(w, Next(w, Hear(h))); }
    SameRequests(w, Next(w, Hear(h)));
  }

  lemma ShowsNoPanic(s: Image, history: History)
    requires Shows(s, history)
    ensures !s.panicked
  {
  }

  lemma SameHistory(w: World, v: World)
    requires GoodHistory(w) && v.history == w.history && v.rafts == w.rafts && v.owner == w.owner
    ensures GoodHistory(v)
  {
  }

  /** Requests stay right when contexts are added and the history and the owners only grow. */
  lemma SameRequests(w: World, v: World)
    requires forall req | req in w.inFlight :: GoodRequest(w, req)
    requires v.expected == w.expected && w.contexts <= v.contexts
    requires forall c | c in w.history :: c in v.history && v.history[c] == w.history[c]
    requires forall c | c in w.owner :: c in v.owner && v.owner[c] == w.owner[c]
    ensures forall req | req in w.inFlight :: GoodRequest(v, req)
  {
    hide SafeToDelete;
    forall req | req in w.inFlight
      ensures GoodRequest(v, req)
    {
      assert GoodRequest(w, req);
    }
  }

  lemma TickInv(w: World, tick: uint64)
    requires Inv(w)
    ensures Inv(Next(w, Tick(tick)))
  {
    hide GoodHistory, Shows, ValidHosts, GoodRequest;
    SameHistory(w, Next(w, Tick(tick)));
    SameRequests(w, Next(w, Tick(tick)));
  }

  lemma TakeContextInv(w: World)
    requires Inv(w)
    ensures Inv(Next(w, TakeContext))
  {
    hide GoodHistory, GoodDb, GoodRequest;
    SameHistory(w, Next(w, TakeContext));
    SameRequests(w, Next(w, TakeContext));
  }

  // ---- issuing ----

  lemma MembersCount(c: Cluster)
    ensures Members(c).Keys == c.nodes.Keys && |Members(c)| == |c.nodes|
  {
    assert Members(c).Keys == c.nodes.Keys;
    assert |Members(c).Keys| == |Members(c)| && |c.nodes.Keys| == |c.nodes|;
  }

  lemma GoodHostElsewhere(db: DbState, region: string, cid: Id, address: Address)
    requires HostsListMembers(db) && ValidHosts(db.hosts) && cid in db.image.clusters
    requires GoodHost(db.hosts, region, cid, db.tick, address)
    ensures address !in Members(db.image.clusters[cid]).Values
  {
    var a :| a in db.hosts && db.hosts[a].address == address && Eligible(db.hosts[a], cid, db.tick);
    EligibleIsElsewhere(db, a, cid, db.tick);
  }

  lemma IssuedAdd(ctx: Context, cr: ClusterRepair, req: Request, history: History)
    requires GoodDb(ctx.db, history) && IssuedFor(ctx, cr, req) && req.AddNode?
    ensures (req.clusterId, req.confChangeId) in history
    ensures |history[(req.clusterId, req.confChangeId)]| <= ctx.expected[req.clusterId]
    ensures req.address !in history[(req.clusterId, req.confChangeId)].Values
  {
    hide HostsListMembers, ValidHosts, ToWorkingMember, GoodHost, Members, ClusterRepair.Describes, NeedsRepair;
    var expected := ctx.expected[cr.clusterId];
    assert Decide(cr, expected).Add?;
    AddOnlyWhenSmall(cr, ctx.db.tick, expected);
    MembersCount(cr.cluster);
    var k := Decide(cr, expected).failed;
    GoodHostElsewhere(ctx.db, RegionOf(ctx.db.hosts, cr.cluster.nodes[k].address), cr.clusterId, req.address);
  }

  lemma IssuedDelete(ctx: Context, cr: ClusterRepair, req: Request, history: History)
    requires GoodDb(ctx.db, history) && IssuedFor(ctx, cr, req) && req.DeleteNode?
    ensures (req.clusterId, req.confChangeId) in history
    ensures |history[(req.clusterId, req.confChangeId)]| > ctx.expected[req.clusterId]
    ensures SafeToDelete(ctx, req.clusterId, req.nodeId, history[(req.clusterId, req.confChangeId)])
  {
    hide HostsListMembers, ValidHosts, ToWorkingMember, Members, ClusterRepair.Describes, NeedsRepair, NodesIn;
    var expected := ctx.expected[cr.clusterId];
    assert Decide(cr, expected).Delete?;
    DeleteKeepsQuorum(cr, ctx.db.tick, expected);
    MembersCount(cr.cluster);
    var members := Members(cr.cluster);
    assert members.Keys - {req.nodeId} == cr.cluster.nodes.Keys - {cr.failedNodes[0]};
    FailedIsMember(cr, ctx.db.tick);
    assert |members.Keys - {req.nodeId}| == |members| - 1;
  }

  lemma FailedIsMember(cr: ClusterRepair, now: uint64)
    requires cr.Describes(now) && |cr.failedNodes| > 0
    ensures cr.failedNodes[0] in cr.cluster.nodes
    ensures |cr.cluster.nodes.Keys - {cr.failedNodes[0]}| == |cr.cluster.nodes| - 1
  {
    FirstInCluster(cr, now);
    assert |cr.cluster.nodes.Keys| == |cr.cluster.nodes|;
  }

  lemma IssuedGood(w: World, ctx: Context, req: Request)
    requires Inv(w) && Enabled(w, Issue(ctx, req))
    ensures GoodRequest(Next(w, Issue(ctx, req)), req)
  {
    hide GoodDb, GoodSize, SafeToDelete, Answers, InRepair;
    var cr :| IssuedFor(ctx, cr, req);
    AnswersCluster(ctx, cr, req);
    if req.AddNode? {
      IssuedAdd(ctx, cr, req, w.history);
      NotYetMember(w, req.clusterId, req.nodeId, req.confChangeId);
    } else if req.DeleteNode? {
      IssuedDelete(ctx, cr, req, w.history);
    }
  }

  lemma NotYetMember(w: World, cid: Id, k: Id, index: uint64)
    requires GoodHistory(w) && (cid, k) !in w.owner && (cid, index) in w.history
    ensures k !in w.history[(cid, index)]
  {
    assert Owned(w.owner, cid, w.history[(cid, index)]);
  }

  lemma AnswersCluster(ctx: Context, cr: ClusterRepair, req: Request)
    requires IssuedFor(ctx, cr, req)
    ensures req.clusterId == cr.clusterId
  {
  }

  lemma IssueInv(w: World, ctx: Context, req: Request)
    requires Inv(w) && Enabled(w, Issue(ctx, req))
    ensures Inv(Next(w, Issue(ctx, req)))
  {
    hide GoodDb, GoodHistory, GoodRequest, Issuable;
    var v := Next(w, Issue(ctx, req));
    IssuedGood(w, ctx, req);
    SameRequests(w, v);
    OwnersGrow(w, v);
  }

  lemma OwnersGrow(w: World, v: World)
    requires GoodHistory(w) && v.history == w.history && v.rafts == w.rafts
    requires forall c | c in w.owner :: c in v.owner && v.owner[c] == w.owner[c]
    ensures GoodHistory(v)
  {
    hide DistinctAddresses;
  }

  // ---- acceptance ----

  lemma AcceptedHistory(w: World, req: Request, index: uint64)
    requires Inv(w) && Enabled(w, Accept(req, index))
    ensures GoodHistory(Next(w, Accept(req, index)))
  {
    hide GoodDb, GoodRequest, GoodSize, Issuable;
    var cid := req.clusterId;
    var members := w.rafts[cid].members;
    AcceptedNow(w, req);
    if req.AddNode? {
      AddedOwner(w, req);
    }
    assert DistinctAddresses(members) && Owned(w.owner, cid, members);
    hide Inv, SafeToDelete;
    ChangedDistinct(members, req);
    ChangedOwned(w.owner, members, req);
    HistoryGrows(w, cid, index, Changed(members, req));
  }

  lemma AddedOwner(w: World, req: Request)
    requires Inv(w) && req in w.inFlight && req.AddNode?
    ensures (req.clusterId, req.nodeId) in w.owner && w.owner[(req.clusterId, req.nodeId)] == req.address
  {
    hide GoodHistory, GoodDb, GoodSize;
    assert GoodRequest(w, req);
  }

  lemma ChangedOwned(owner: map<(Id, Id), Address>, members: map<Id, Address>, req: Request)
    requires !req.CreateNode? && Owned(owner, req.clusterId, members)
    requires req.AddNode? ==> (req.clusterId, req.nodeId) in owner && owner[(req.clusterId, req.nodeId)] == req.address
    ensures Owned(owner, req.clusterId, Changed(members, req))
  {
  }

  lemma HistoryGrows(w: World, cid: Id, index: uint64, members: map<Id, Address>)
    requires GoodHistory(w) && cid in w.rafts && w.rafts[cid].configChangeId < index
    requires DistinctAddresses(members) && Owned(w.owner, cid, members)
    ensures GoodHistory(w.(rafts := w.rafts[cid := Raft(index, members)], history := w.history[(cid, index) := members]))
  {
    hide DistinctAddresses, Owned;
  }

  lemma ChangedDistinct(members: map<Id, Address>, req: Request)
    requires !req.CreateNode? && DistinctAddresses(members)
    requires req.AddNode? ==> req.address !in members.Values
    ensures DistinctAddresses(Changed(members, req))
  {
    var now := Changed(members, req);
    forall i, j | i in now.Keys && j in now.Keys && i != j
      ensures now[i] != now[j]
    {
      if req.AddNode? {
        assert i != req.nodeId ==> members[i] in members.Values;
        assert j != req.nodeId ==> members[j] in members.Values;
      }
    }
  }

  lemma ChangedSize(members: map<Id, Address>, req: Request, expected: nat)
    requires !req.CreateNode? && expected <= |members| <= expected + 1
    requires req.AddNode? ==> |members| <= expected && req.nodeId !in members
    requires req.DeleteNode? ==> |members| > expected && req.nodeId in members
    ensures |Changed(members, req)| == if req.AddNode? then expected + 1 else expected
  {
    var now := Changed(members, req);
    assert |members.Keys| == |members| && |now.Keys| == |now|;
    if req.AddNode? {
      assert now.Keys == members.Keys + {req.nodeId};
    } else {
      assert now.Keys == members.Keys - {req.nodeId};
    }
  }

  lemma AcceptInv(w: World, req: Request, index: uint64)
    requires Inv(w) && Enabled(w, Accept(req, index))
    ensures Inv(Next(w, Accept(req, index)))
  {
    hide GoodDb, GoodHistory;
    var v := Next(w, Accept(req, index));
    AcceptedHistory(w, req, index);
    AcceptedNow(w, req);
    ChangedSize(w.rafts[req.clusterId].members, req, w.expected[req.clusterId]);
    NewIndex(w, req.clusterId, index);
    forall ctx | ctx in w.contexts
      ensures GoodDb(ctx.db, v.history)
    {
      GrownDb(ctx.db, w.history, v.history);
    }
    GrownDb(w.db, w.history, v.history);
    SameRequests(w, v);
  }

  lemma NewIndex(w: World, cid: Id, index: uint64)
    requires GoodHistory(w) && cid in w.rafts && w.rafts[cid].configChangeId < index
    ensures (cid, index) !in w.history
  {
  }

  lemma GrownDb(db: DbState, history: History, more: History)
    requires GoodDb(db, history)
    requires forall c | c in history :: c in more && more[c] == history[c]
    ensures GoodDb(db, more)
  {
    hide HostsListMembers, ValidHosts, Members;
  }

  /** An accepted request was right for the members the cluster has at that moment. */
  lemma AcceptedNow(w: World, req: Request)
    requires Inv(w) && req in w.inFlight && !req.CreateNode? && req.clusterId in w.rafts
    requires req.confChangeId == w.rafts[req.clusterId].configChangeId
    ensures var members := w.rafts[req.clusterId].members;
            && w.history[(req.clusterId, req.confChangeId)] == members
            && (req.AddNode? ==>
                  && |members| == w.expected[req.clusterId]
                  && req.nodeId !in members && req.address !in members.Values)
            && (req.DeleteNode? ==>
                  && |members| == w.expected[req.clusterId] + 1 && req.nodeId in members
                  && exists ctx | ctx in w.contexts :: SafeToDelete(ctx, req.clusterId, req.nodeId, members))
  {
    hide GoodDb;
    assert GoodRequest(w, req);
    assert GoodSize(w, req.clusterId);
    assert Records(w.history, req.clusterId, req.confChangeId, w.rafts[req.clusterId].members);
    if req.DeleteNode? {
      var members := w.rafts[req.clusterId].members;
      var ctx :| ctx in w.contexts && SafeToDelete(ctx, req.clusterId, req.nodeId, members);
      MembersCount(ctx.db.image.clusters[req.clusterId]);
    }
  }

  // ---- whole runs ----

  lemma StartInv(w: World)
    requires Start(w)
    ensures Inv(w)
  {
    forall c | c in w.history
      ensures DistinctAddresses(w.history[c])
    {
      assert (c.0, w.rafts[c.0].configChangeId) == c;
      assert Records(w.history, c.0, w.rafts[c.0].configChangeId, w.rafts[c.0].members);
    }
  }

  lemma StepInv(w: World, step: Step)
    requires Inv(w) && Enabled(w, step)
    ensures Inv(Next(w, step)) && Next(w, step).expected == w.expected
  {
    hide Inv;
    match step
    case Hear(h) => HearInv(w, h);
    case Tick(tick) => TickInv(w, tick);
    case TakeContext => TakeContextInv(w);
    case Issue(ctx, req) => IssueInv(w, ctx, req);
    case Accept(req, index) => AcceptInv(w, req, index);
  }

  lemma {:induction false} RunInv(w: World, steps: seq<Step>)
    requires Inv(w) && IsRun(w, steps)
    ensures Inv(Run(w, steps)) && Run(w, steps).expected == w.expected
    decreases |steps|
  {
    hide Inv, Enabled, Next;
    if steps != [] {
      StepInv(w, steps[0]);
      RunInv(Next(w, steps[0]), steps[1..]);
    }
  }

  /** In every run each cluster keeps its expected size or has one node more, on different hosts. */
  lemma SizeStaysBounded(w: World, steps: seq<Step>, cid: Id)
    requires Start(w) && IsRun(w, steps) && cid in Run(w, steps).rafts
    ensures cid in w.expected
    ensures |Run(w, steps).rafts[cid].members| in {w.expected[cid], w.expected[cid] + 1}
    ensures DistinctAddresses(Run(w, steps).rafts[cid].members)
  {
    StartInv(w);
    RunInv(w, steps);
    var v := Run(w, steps);
    assert GoodSize(v, cid);
    assert Records(v.history, cid, v.rafts[cid].configChangeId, v.rafts[cid].members);
  }

  /** In every run the database never panics, and its image is a configuration Raft had. */
  lemma DatabaseNeverPanics(w: World, steps: seq<Step>)
    requires Start(w) && IsRun(w, steps)
    ensures !Run(w, steps).db.image.panicked
    ensures Shows(Run(w, steps).db.image, Run(w, steps).history)
  {
    StartInv(w);
    RunInv(w, steps);
  }

  /**
    * In every run an accepted DELETE brings the cluster back to its expected size and names a member
    * failed in the image it was decided on, whose working nodes are a majority of those left.
    */
  lemma AcceptedDeleteIsSafe(w: World, steps: seq<Step>, req: Request, index: uint64)
    requires Start(w) && IsRun(w, steps) && req.DeleteNode? && Enabled(Run(w, steps), Accept(req, index))
    ensures var v := Run(w, steps);
            var members := v.rafts[req.clusterId].members;
            && req.nodeId in members && req.clusterId in w.expected
            && |members - {req.nodeId}| == w.expected[req.clusterId]
            && exists ctx | ctx in v.contexts :: SafeToDelete(ctx, req.clusterId, req.nodeId, members)
  {
    StartInv(w);
    RunInv(w, steps);
    hide Inv;
    var v := Run(w, steps);
    AcceptedNow(v, req);
    InvSize(v, req.clusterId);
    ChangedSize(v.rafts[req.clusterId].members, req, v.expected[req.clusterId]);
  }

  lemma InvSize(w: World, cid: Id)
    requires Inv(w) && cid in w.rafts
    ensures GoodSize(w, cid)
  {
  }

  /** In every run an accepted ADD finds the cluster at its expected size and goes to a host without a member. */
  lemma AcceptedAddIsElsewhere(w: World, steps: seq<Step>, req: Request, index: uint64)
    requires Start(w) && IsRun(w, steps) && req.AddNode? && Enabled(Run(w, steps), Accept(req, index))
    ensures var members := Run(w, steps).rafts[req.clusterId].members;
            && req.clusterId in w.expected && |members| == w.expected[req.clusterId]
            && req.nodeId !in members && req.address !in members.Values
  {
    StartInv(w);
    RunInv(w, steps);
    hide Inv;
    AcceptedNow(Run(w, steps), req);
    InvSize(Run(w, steps), req.clusterId);
  }
}
