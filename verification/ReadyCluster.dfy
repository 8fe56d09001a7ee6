/** The set of clusters with work to do, kept as two maps that producers and a worker take turns on,
    and the capacity-1 channel that wakes the worker up. */
module ReadyCluster {
  import opened Bits

  type ClusterId = uint64

  /** A map used as a set, shared by reference. */
  class IdSet {
    var ids: set<ClusterId>

    constructor ()
      ensures ids == {}
    {
      ids := {};
    }
  }

  class ReadyCluster {
    const map0: IdSet
    const map1: IdSet
    var ready: IdSet
    var index: byte

    ghost predicate Valid()
      reads this
    {
      map0 != map1 && ready == if index % 2 == 0 then map0 else map1
    }

    constructor ()
      ensures Valid() && fresh(map0) && fresh(map1) && ready.ids == {} && map1.ids == {} && index == 0
    {
      var a := new IdSet();
      var b := new IdSet();
      map0, map1, ready, index := a, b, a, 0;
    }

    /** Touches the map in use only. */
    method SetClusterReady(id: ClusterId)
      requires Valid()
      modifies ready
      ensures Valid() && ready.ids == old(ready.ids) + {id}
    {
      ready.ids := ready.ids + {id};
    }

    /** Hands out the map in use with its contents and goes on with the other one, emptied. The 8-bit
        index wraps without ever selecting the map just handed out. */
    method GetReadyClusters() returns (v: IdSet)
      requires Valid()
      modifies this`ready, this`index, map0, map1
      ensures Valid() && index == (old(index) + 1) % 256
      ensures v == old(ready) && v.ids == old(ready.ids)
      ensures ready != v && ready.ids == {}
    {
      v := ready;
      index := (index + 1) % 256;
      var nm := if index % 2 == 0 then map0 else map1;
      var todo := nm.ids;
      while todo != {}
        modifies nm
        invariant todo == nm.ids && v.ids == old(ready.ids)
        decreases todo
      {
        var k :| k in todo;
        nm.ids := nm.ids - {k};
        todo := todo - {k};
      }
      ready := nm;
    }
  }

  // ---- producers and a worker, interleaved ----

  /** A producer has set its bit but not yet sent its token, or is anywhere else. */
  datatype Producer = Idle | Sending

  /** The worker waits on the channel, has received a token but not yet swapped, or is going through
      the map it was handed. */
  datatype Worker = Waiting | Received | Holding

  datatype State = State(
    map0: set<ClusterId>, map1: set<ClusterId>, index: byte, token: bool,
    producers: map<nat, Producer>, worker: Worker,
    /** What the map was when it was handed to the worker. */
    handed: set<ClusterId>)
  {
    function Ready(): set<ClusterId> { if index % 2 == 0 then map0 else map1 }

    function Away(): set<ClusterId> { if index % 2 == 0 then map1 else map0 }

    function Producer(p: nat): Producer { if p in producers then producers[p] else Idle }
  }

  const START: State := State({}, {}, 0, false, map[], Waiting, {})

  datatype Action =
    | Set(p: nat, id: ClusterId)
    | Send(p: nat)
    | Receive
    | Swap
    | Finish
    /** The worker's ticker: a pass over all clusters that uses neither map nor channel. */
    | Tick

  predicate Enabled(s: State, a: Action) {
    match a
    case Set(p, _) => s.Producer(p).Idle?
    case Send(p) => s.Producer(p).Sending?
    case Receive => s.worker.Waiting? && s.token
    case Swap => s.worker.Received?
    case Finish => s.worker.Holding?
    case Tick => s.worker.Waiting?
  }

  function Next(s: State, a: Action): State
    requires Enabled(s, a)
  {
    match a
    case Set(p, id) =>
      var t := s.(producers := s.producers[p := Sending]);
      if s.index % 2 == 0 then t.(map0 := s.map0 + {id}) else t.(map1 := s.map1 + {id})
    case Send(p) => s.(producers := s.producers[p := Idle], token := true)
    case Receive => s.(token := false, worker := Received)
    case Swap =>
      var t := s.(index := (s.index + 1) % 256, worker := Holding, handed := s.Ready());
      if t.index % 2 == 0 then t.(map0 := {}) else t.(map1 := {})
    case Finish => s.(worker := Waiting)
    case Tick => s
  }

  ghost predicate IsRun(s: State, acts: seq<Action>)
    decreases |acts|
  {
    acts == [] || (Enabled(s, acts[0]) && IsRun(Next(s, acts[0]), acts[1..]))
  }

  ghost function Run(s: State, acts: seq<Action>): State
    requires IsRun(s, acts)
    decreases |acts|
  {
    if acts == [] then s else Run(Next(s, acts[0]), acts[1..])
  }

  /** Work that has been announced is on its way to the worker, and the map the worker holds is as it
      was handed over. */
  ghost predicate Inv(s: State) {
    && (s.Ready() != {} ==> s.token || s.worker.Received? || exists p :: s.Producer(p).Sending?)
    && (s.worker.Holding? ==> s.Away() == s.handed)
  }

  lemma StepInv(s: State, a: Action)
    requires Inv(s) && Enabled(s, a)
    ensures Inv(Next(s, a))
  {
    var t := Next(s, a);
    match a
    case Set(p, _) =>
      assert t.Producer(p).Sending?;
      assert t.Away() == s.Away();
    case Send(_) =>
    case Receive =>
    case Swap =>
      assert t.Ready() == {} && t.Away() == s.Ready();
    case Finish =>
      assert t.Ready() == s.Ready();
      if p :| s.Producer(p).Sending? { assert t.Producer(p).Sending?; }
    case Tick =>
  }

  lemma {:induction false} RunInv(s: State, acts: seq<Action>)
    requires Inv(s) && IsRun(s, acts)
    ensures Inv(Run(s, acts))
    decreases |acts|
  {
    if acts != [] {
      StepInv(s, acts[0]);
      RunInv(Next(s, acts[0]), acts[1..]);
    }
  }

  /** No lost wake-up: after any interleaving, a cluster in the ready set has a token in the channel,
      a producer about to send one, or a worker about to swap. So once producers are quiet, the
      waiting worker can receive and its next swap hands the cluster over. */
  lemma NoLostWakeUp(acts: seq<Action>, id: ClusterId)
    requires IsRun(START, acts) && id in Run(START, acts).Ready()
    ensures var s := Run(START, acts);
            || s.worker.Received?
            || (exists p :: s.Producer(p).Sending?)
            || s.token
    ensures var s := Run(START, acts);
            s.worker.Waiting? && (forall p :: s.Producer(p).Idle?) ==>
              IsRun(s, [Receive, Swap]) && id in Run(s, [Receive, Swap]).handed
  {
    RunInv(START, acts);
    var s := Run(START, acts);
    if s.worker.Waiting? && (forall p :: s.Producer(p).Idle?) {
      var a: seq<Action> := [Receive, Swap];
      var t := Next(s, a[0]);
      assert a[1..] == [Swap] && [Swap][1..] == [];
      var u := Next(t, Swap);
      assert IsRun(u, []) && Run(u, []) == u;
      assert IsRun(t, [Swap]) && Run(t, [Swap]) == u;
    }
  }

  /** While the worker goes through its map, no interleaving of producers changes it, whatever the
      value of the wrapping index. */
  lemma HandedMapUntouched(acts: seq<Action>)
    requires IsRun(START, acts) && Run(START, acts).worker.Holding?
    ensures Run(START, acts).Away() == Run(START, acts).handed
  {
    RunInv(START, acts);
  }

  /** Every cluster announced since the last swap is in the ready set, so the next swap hands over all
      of them. */
  lemma {:induction false} AnnouncedUntilSwap(s: State, acts: seq<Action>, id: ClusterId)
    requires IsRun(s, acts) && Swap !in acts
    requires id in s.Ready() || exists a | a in acts :: a.Set? && a.id == id
    ensures id in Run(s, acts).Ready()
    decreases |acts|
  {
    if acts != [] {
      var t := Next(s, acts[0]);
      assert s.Ready() <= t.Ready();
      if id !in t.Ready() {
        var a :| a in acts && a.Set? && a.id == id;
        assert a in acts[1..];
      }
      AnnouncedUntilSwap(t, acts[1..], id);
    }
  }

  /** Only clusters that were announced are ever in a map: nothing is handed over unasked. */
  lemma {:induction false} OnlyAnnounced(s: State, acts: seq<Action>, id: ClusterId)
    requires IsRun(s, acts) && id in Run(s, acts).map0 + Run(s, acts).map1 + Run(s, acts).handed
    ensures id in s.map0 + s.map1 + s.handed || exists p :: Set(p, id) in acts
    decreases |acts|
  {
    if acts != [] {
      var t := Next(s, acts[0]);
      OnlyAnnounced(t, acts[1..], id);
      if p :| Set(p, id) in acts[1..] {
        assert Set(p, id) in acts;
      } else if id !in s.map0 + s.map1 + s.handed {
        assert acts[0].Set? && acts[0].id == id && acts[0] in acts;
      }
    }
  }
}
