/** The client side of linearizable reads (section 6.4 of Ongaro's thesis "Consensus: Bridging Theory
    and Practice"): clients submit, the step worker drains and issues contexts to Raft, Raft confirms
    them, the state machine applies, ticks pass and the node closes, interleaved in any order. */
module LinearizableReads {
  import opened Bits
  import opened Clock
  import opened PendingReads

  /** Where a read is. */
  datatype Place =
    | Client       // its key is drawn, it is not yet in the queue
    | Queued
    | Drained      // in the batch the step worker holds
    | Pending
    | Notified     // its result has been delivered
    | Withdrawn    // refused with an error
    | Dropped      // in a batch drained before, and recorded after, the close

  /** The step worker between two passes, or inside handleReadIndexRequests, handleReceivedMessages and
      batchedReadIndex. `took` records whether the pass drained a batch. */
  datatype Worker =
    | Idle
    | HasBatch(batch: seq<Read>)
    | HasCtx(batch: seq<Read>, ctx: SystemCtx)
    | Recorded                 // the batch is in the table, the counter not yet increased
    | Handled(took: bool)      // handleReadIndexRequests has returned
    | MustIssue
    | Issuing(ctx: SystemCtx)

  /** `Closing` holds the table's lock between closing the queue and draining it. */
  datatype Closer = Open | Closing | Closed

  datatype State = State(
    table: Table, queue: seq<Read>, size: nat, queueStopped: bool,
    worker: Worker, readReqCount: uint64, closer: Closer, clients: map<Key, Read>, seqKey: nat,
    /** The cluster's commit index, and what the local state machine has applied. */
    commit: uint64, applied: uint64,
    place: map<Key, Place>,
    submittedAt: map<Key, uint64>,
    issuedAt: map<SystemCtx, uint64>,
    /** The tick at which each context was taken for issuing. */
    issueTick: map<SystemCtx, nat>,
    drawn: set<SystemCtx>,
    completedAt: map<Key, uint64>)

  datatype Action =
    | Submit(timeoutTick: nat)
    | Enqueue(key: Key)
    | Drain
    | Peep
    | AddPending
    | Increase
    | SwapCount
    | DrawNext(ctx: SystemCtx)
    | Issue
    | Ready(ctx: SystemCtx, index: uint64)
    | Apply(index: uint64)
    | Tick
    | CommitMoves(index: uint64)
    | StateMachineMoves(index: uint64)
    | CloseBegin
    | CloseEnd

  function Start(system: SystemCtx, size: nat, tickInMillisecond: Positive): State {
    State(NewTable(system, tickInMillisecond), [], size, false, Idle, 0, Open, map[], 0, 0, 0,
          map[], map[], map[], map[], {system}, map[])
  }

  /** A step is possible, under the contracts of the parts not modelled: contexts are never drawn
      twice, Raft confirms a context it was given at an index not below the commit index of that
      moment, and the index reported as applied has been applied. */
  predicate Enabled(s: State, a: Action) {
    match a
    case Submit(timeoutTick) => timeoutTick > 0
    case Enqueue(key) => key in s.clients
    case Drain => s.worker.Idle?
    case Peep => s.worker.HasBatch? && !s.closer.Closing?
    case AddPending => s.worker.HasCtx? && !s.closer.Closing?
    case Increase => s.worker.Recorded?
    case SwapCount => s.worker.Handled?
    case DrawNext(ctx) => s.worker.MustIssue? && !s.closer.Closing? && ctx !in s.drawn
    case Issue => s.worker.Issuing?
    case Ready(ctx, index) => !s.closer.Closing? && ctx in s.issuedAt && index >= s.issuedAt[ctx]
    case Apply(index) => !s.closer.Closing? && index <= s.applied
    case Tick => true
    case CommitMoves(index) => index >= s.commit
    case StateMachineMoves(index) => s.applied <= index
    case CloseBegin => s.closer.Open?
    case CloseEnd => s.closer.Closing?
  }

  function Moved(place: map<Key, Place>, keys: set<Key>, p: Place): map<Key, Place> {
    place + map k | k in keys :: p
  }

  function Next(s: State, a: Action): State
    requires Enabled(s, a)
  {
    match a
    case Submit(timeoutTick) =>
      var key := s.seqKey + 1;
      s.(seqKey := key, clients := s.clients[key := Read(key, s.table.tick + timeoutTick)],
         submittedAt := s.submittedAt[key := s.commit], place := s.place[key := Client])
    case Enqueue(key) =>
      if |s.queue| >= s.size || s.queueStopped
      then s.(clients := s.clients - {key}, place := s.place[key := Withdrawn])
      else s.(clients := s.clients - {key}, queue := s.queue + [s.clients[key]], place := s.place[key := Queued])
    case Drain =>
      if s.queue == [] then s.(worker := Handled(false))
      else s.(worker := HasBatch(s.queue), queue := [], place := Moved(s.place, Keys(s.queue), Drained))
    case Peep => s.(worker := HasCtx(s.worker.batch, s.table.system))
    case AddPending =>
      s.(table := s.table.AddPending(s.worker.ctx, s.worker.batch), worker := Recorded,
         place := Moved(s.place, Keys(s.worker.batch), if s.table.stopped then Dropped else Pending))
    case Increase => s.(worker := Handled(true), readReqCount := (s.readReqCount + 1) % TWO_64)
    case SwapCount => s.(worker := if s.readReqCount > 0 then MustIssue else Idle, readReqCount := 0)
    case DrawNext(ctx) =>
      s.(table := s.table.NextCtx(ctx), drawn := s.drawn + {ctx}, worker := Issuing(s.table.system),
         issueTick := s.issueTick[s.table.system := s.table.tick])
    case Issue => s.(issuedAt := s.issuedAt[s.worker.ctx := s.commit], worker := Idle)
    case Ready(ctx, index) => s.(table := s.table.AddReady(ctx, index))
    case Apply(index) => Applied(s, index)
    case Tick => s.(table := s.table.(tick := s.table.tick + 1))
    case CommitMoves(index) => s.(commit := index)
    case StateMachineMoves(index) => s.(applied := index)
    case CloseBegin => s.(closer := Closing, queueStopped := true, table := s.table.(stopped := true))
    case CloseEnd =>
      s.(closer := Closed, queue := [], table := s.table.Terminate(s.queue),
         place := Moved(s.place, Keys(s.queue) + s.table.pending.Keys, Notified))
  }

  /** Records where the state machine was when each completed read got its result. */
  function Applied(s: State, index: uint64): State {
    var t := s.table.Applied(index);
    var told := t.notified.Keys - s.table.notified.Keys;
    s.(table := t, place := Moved(s.place, told, Notified),
       completedAt := s.completedAt + map k | k in told && t.notified[k].Completed? :: s.applied)
  }

  // ---- what the table's operations do to a well-formed table ----

  ghost predicate Distinct(reqs: seq<Read>) {
    forall i, j | 0 <= i < j < |reqs| :: reqs[i].key != reqs[j].key
  }

  predicate WellFormed(t: Table) {
    !t.panicked && t.mapping.Keys == t.pending.Keys
  }

  /** `t'` is `t` with the reads `reqs` added under `ctx`. */
  ghost predicate Added(t: Table, ctx: SystemCtx, reqs: seq<Read>, t': Table) {
    && t'.pending.Keys == t.pending.Keys + Keys(reqs) && t'.mapping.Keys == t.mapping.Keys + Keys(reqs)
    && (forall k | k in Keys(reqs) :: t'.mapping[k] == ctx)
    && (forall k | k in t.mapping.Keys && k !in Keys(reqs) :: t'.mapping[k] == t.mapping[k])
    && t'.panicked == t.panicked
    && t'.batches == t.batches && t'.system == t.system && t'.notified == t.notified && t'.stopped == t.stopped
  }

  lemma KeysCons(reqs: seq<Read>)
    requires reqs != []
    ensures Keys(reqs) == {reqs[0].key} + Keys(reqs[1..])
    ensures Distinct(reqs) ==> Distinct(reqs[1..]) && reqs[0].key !in Keys(reqs[1..])
  {
    assert reqs == [reqs[0]] + reqs[1..];
  }

  lemma {:induction false} AddAllAdds(t: Table, ctx: SystemCtx, reqs: seq<Read>)
    requires Distinct(reqs) && Keys(reqs) !! t.pending.Keys
    ensures Added(t, ctx, reqs, t.AddAll(ctx, reqs))
    decreases |reqs|
  {
    if reqs == [] {
      assert Keys(reqs) == {};
    } else {
      KeysCons(reqs);
      AddAllAdds(t.AddOne(ctx, reqs[0]), ctx, reqs[1..]);
    }
  }

  /** `t'` is `t` after some pending reads were served: each got one result and left the table, and
      one that completed had a confirmed context at an applied index. */
  ghost predicate Served(t: Table, index: uint64, t': Table)
    requires t.mapping.Keys == t.pending.Keys
  {
    && t'.pending.Keys <= t.pending.Keys && t'.mapping.Keys == t'.pending.Keys
    && (forall k | k in t'.pending :: t'.mapping[k] == t.mapping[k])
    && t'.notified.Keys == t.notified.Keys + (t.pending.Keys - t'.pending.Keys)
    && (forall k | k in t.notified :: t'.notified[k] == t.notified[k])
    && (forall k | k in t.pending.Keys - t'.pending.Keys && t'.notified[k].Completed? ::
          t.mapping[k] in t.batches && t.batches[t.mapping[k]] <= index)
    && !t'.panicked
    && t'.system == t.system && t'.stopped == t.stopped && t'.tick == t.tick
    && t'.batches.Keys <= t.batches.Keys && (forall c | c in t'.batches :: t'.batches[c] == t.batches[c])
  }

  lemma ServeServes(t: Table, index: uint64)
    requires WellFormed(t) && t.pending.Keys !! t.notified.Keys
    ensures Served(t, index, t.Serve(index))
  {
    assert t.Readable(index) <= t.pending.Keys;
  }

  lemma GcServes(t: Table, index: uint64, now: nat)
    requires WellFormed(t) && t.pending.Keys !! t.notified.Keys
    ensures Served(t, index, t.Gc(now))
  {
    assert t.Late(now) <= t.pending.Keys;
  }

  lemma ServedTwice(a: Table, b: Table, c: Table, index: uint64)
    requires a.mapping.Keys == a.pending.Keys && a.pending.Keys !! a.notified.Keys
    requires Served(a, index, b) && Served(b, index, c)
    ensures Served(a, index, c)
  {
    assert a.pending.Keys - c.pending.Keys == (a.pending.Keys - b.pending.Keys) + (b.pending.Keys - c.pending.Keys);
  }

  lemma AppliedServes(t: Table, index: uint64)
    requires WellFormed(t) && t.pending.Keys !! t.notified.Keys && !t.stopped
    ensures Served(t, index, t.Applied(index))
  {
    hide Table.Serve, Table.Gc;
    if |t.pending| == 0 && |t.systemGcTime| < SYS_GC_MILLISECOND {
    } else {
      var u := t.Serve(index);
      ServeServes(t, index);
      if t.tick - t.lastGcTime >= GC_TICK {
        var v := u.(lastGcTime := t.tick);
        GcServes(v, index, t.tick);
        ServedTwice(t, v, v.Gc(t.tick), index);
      }
    }
  }

  /** The read was answered as it should be: completed if in time. */
  predicate AnsweredInTime(t: Table, k: Key, t': Table)
    requires k in t.pending
  {
    k !in t'.pending && k in t'.notified && t'.notified[k] == if t.pending[k].deadline > t.tick then Completed else Timeout
  }

  lemma ServeAnswers(t: Table, index: uint64, k: Key)
    requires k in t.Readable(index)
    ensures AnsweredInTime(t, k, t.Serve(index))
  {
  }

  lemma GcKeepsAnswer(t: Table, u: Table, now: nat, k: Key)
    requires k in t.pending && AnsweredInTime(t, k, u)
    ensures AnsweredInTime(t, k, u.Gc(now))
  {
    assert k !in u.Late(now);
  }

  /** On a running table every pending read whose context is confirmed at or below the applied index is
      answered and leaves. */
  lemma AppliedServesAll(t: Table, index: uint64, k: Key)
    requires !t.stopped && k in t.Readable(index)
    ensures AnsweredInTime(t, k, t.Applied(index))
  {
    hide Table.Serve, Table.Gc;
    assert k in t.pending;
    ServeAnswers(t, index, k);
    if t.tick - t.lastGcTime >= GC_TICK {
      GcKeepsAnswer(t, t.Serve(index).(lastGcTime := t.tick), t.tick, k);
    }
  }

  lemma {:induction false} TerminateQueuedTells(t: Table, reqs: seq<Read>)
    requires Distinct(reqs) && Keys(reqs) !! t.notified.Keys
    ensures var u := t.TerminateQueued(reqs);
            && u == t.(notified := u.notified)
            && u.notified.Keys == t.notified.Keys + Keys(reqs)
            && (forall k | k in t.notified :: u.notified[k] == t.notified[k])
            && (forall k | k in Keys(reqs) :: u.notified[k] == Terminated)
    decreases |reqs|
  {
    if reqs == [] {
      assert Keys(reqs) == {};
    } else {
      KeysCons(reqs);
      TerminateQueuedTells(t.Notify(map[reqs[0].key := Terminated]), reqs[1..]);
    }
  }

  /** Closing tells every queued and every pending read that it is terminated, once. */
  lemma TerminateTells(t: Table, queued: seq<Read>)
    requires Distinct(queued) && !t.panicked
    requires Keys(queued) !! t.notified.Keys && t.pending.Keys !! t.notified.Keys + Keys(queued)
    ensures var u := t.Terminate(queued);
            && u == t.(stopped := true, notified := u.notified)
            && u.notified.Keys == t.notified.Keys + Keys(queued) + t.pending.Keys
            && (forall k | k in t.notified :: u.notified[k] == t.notified[k])
            && (forall k | k in u.notified && k !in t.notified :: u.notified[k] == Terminated)
  {
    TerminateQueuedTells(t.(stopped := true), queued);
  }

  // ---- what every step keeps ----

  function At(place: map<Key, Place>, p: Place): set<Key> { set k | k in place.Keys && place[k] == p }

  function Batch(w: Worker): seq<Read> {
    match w
    case HasBatch(batch) => batch
    case HasCtx(batch, _) => batch
    case _ => []
  }

  /** Each read is where `place` says, and nowhere else. */
  ghost predicate Tracked(s: State) {
    && WellFormed(s.table)
    && Distinct(s.queue) && Keys(s.queue) == At(s.place, Queued)
    && Distinct(Batch(s.worker)) && Keys(Batch(s.worker)) == At(s.place, Drained)
    && s.clients.Keys == At(s.place, Client) && (forall k | k in s.clients :: s.clients[k].key == k)
    && s.table.notified.Keys == At(s.place, Notified)
    && (if s.closer.Closed?
        then s.table.pending.Keys <= At(s.place, Notified) && At(s.place, Pending) == {} && s.queue == []
        else s.table.pending.Keys == At(s.place, Pending))
    && s.table.stopped == s.queueStopped == !s.closer.Open?
    && (forall k | k in s.place :: k <= s.seqKey)
  }

  lemma MovedAt(place: map<Key, Place>, keys: set<Key>, p: Place, q: Place)
    ensures At(Moved(place, keys, p), q) == if p == q then At(place, q) + keys else At(place, q) - keys
  {
  }

  lemma MovedOne(place: map<Key, Place>, k: Key, p: Place, q: Place)
    ensures At(place[k := p], q) == if p == q then At(place, q) + {k} else At(place, q) - {k}
  {
  }

  lemma AllMoved(place: map<Key, Place>, keys: set<Key>, p: Place)
    ensures forall q :: At(Moved(place, keys, p), q) == if p == q then At(place, q) + keys else At(place, q) - keys
    ensures Moved(place, keys, p).Keys == place.Keys + keys
  {
    forall q { MovedAt(place, keys, p, q); }
  }

  lemma OneMoved(place: map<Key, Place>, k: Key, p: Place)
    ensures forall q :: At(place[k := p], q) == if p == q then At(place, q) + {k} else At(place, q) - {k}
  {
    forall q { MovedOne(place, k, p, q); }
  }

  lemma PlacesDisjoint(place: map<Key, Place>, p: Place, q: Place)
    requires p != q
    ensures At(place, p) !! At(place, q)
  {
  }

  lemma KeysSnoc(reqs: seq<Read>, r: Read)
    ensures Keys(reqs + [r]) == Keys(reqs) + {r.key}
    ensures Distinct(reqs) && r.key !in Keys(reqs) ==> Distinct(reqs + [r])
  {
  }

  lemma TrackedSubmit(s: State, timeoutTick: nat)
    requires Tracked(s) && Enabled(s, Submit(timeoutTick))
    ensures Tracked(Next(s, Submit(timeoutTick)))
  {
    hide At, Distinct, Keys;
    OneMoved(s.place, s.seqKey + 1, Client);
    NotPlaced(s.place, s.seqKey + 1);
  }

  lemma TrackedEnqueue(s: State, key: Key)
    requires Tracked(s) && Enabled(s, Enqueue(key))
    ensures Tracked(Next(s, Enqueue(key)))
  {
    hide At, Distinct, Keys;
    if |s.queue| >= s.size || s.queueStopped {
      OneMovedFrom(s.place, key, Client, Withdrawn);
    } else {
      OneMovedFrom(s.place, key, Client, Queued);
      PlacesDisjoint(s.place, Client, Queued);
      KeysSnoc(s.queue, s.clients[key]);
    }
  }

  lemma OneMovedFrom(place: map<Key, Place>, k: Key, p: Place, q: Place)
    requires k in At(place, p) && p != q
    ensures At(place[k := q], q) == At(place, q) + {k} && At(place[k := q], p) == At(place, p) - {k}
    ensures forall r | r != p && r != q :: At(place[k := q], r) == At(place, r)
    ensures place[k := q].Keys == place.Keys
  {
    OneMoved(place, k, q);
    PlaceOf(place, k, p);
  }

  lemma NotPlaced(place: map<Key, Place>, k: Key)
    requires k !in place
    ensures forall q :: k !in At(place, q)
  {
  }

  lemma PlaceOf(place: map<Key, Place>, k: Key, p: Place)
    requires k in At(place, p)
    ensures k in place && forall q | q != p :: k !in At(place, q)
  {
  }

  lemma TrackedDrain(s: State)
    requires Tracked(s) && Enabled(s, Drain)
    ensures Tracked(Next(s, Drain))
  {
    hide At, Distinct;
    if s.queue != [] {
      AllMoved(s.place, Keys(s.queue), Drained);
      PlacesSeparate(s.place);
      NoKeys();
    }
  }

  lemma NoKeys()
    ensures Keys([]) == {} && Distinct([])
  {
  }

  lemma PlacesSeparate(place: map<Key, Place>)
    ensures forall p: Place, q: Place | p != q :: At(place, p) !! At(place, q)
    ensures forall p :: At(place, p) <= place.Keys
  {
  }

  lemma TrackedAddPending(s: State)
    requires Tracked(s) && Enabled(s, AddPending)
    ensures Tracked(Next(s, AddPending))
  {
    hide At, Distinct, Keys, Moved, Table.AddAll;
    var batch := s.worker.batch;
    PlacesSeparate(s.place);
    NoKeys();
    AllMoved(s.place, Keys(batch), if s.table.stopped then Dropped else Pending);
    if !s.table.stopped {
      AddAllAdds(s.table, s.worker.ctx, batch);
    }
  }

  /** What serving does to the keys of the table. */
  lemma AppliedKeys(t: Table, index: uint64)
    requires WellFormed(t) && t.pending.Keys !! t.notified.Keys
    ensures var u := t.Applied(index);
            && WellFormed(u) && u.stopped == t.stopped
            && u.pending.Keys <= t.pending.Keys && (t.stopped ==> u == t)
            && u.notified.Keys - t.notified.Keys == t.pending.Keys - u.pending.Keys
            && t.notified.Keys <= u.notified.Keys
  {
    hide Table.Serve, Table.Gc;
    if !t.stopped {
      hide Table.Applied;
      AppliedServes(t, index);
    }
  }

  lemma TrackedApply(s: State, index: uint64)
    requires Tracked(s) && Enabled(s, Apply(index)) && !s.table.stopped
    ensures Tracked(Next(s, Apply(index)))
  {
    hide At, Distinct, Keys, Moved, Table.Applied, WellFormed;
    PlacesDisjoint(s.place, Pending, Notified);
    AppliedKeys(s.table, index);
    SomeNotified(s.place, s.table.pending.Keys - s.table.Applied(index).pending.Keys);
  }

  /** Pending reads that get their result leave every other place as it was. */
  lemma SomeNotified(place: map<Key, Place>, keys: set<Key>)
    requires keys <= At(place, Pending)
    ensures At(Moved(place, keys, Notified), Notified) == At(place, Notified) + keys
    ensures At(Moved(place, keys, Notified), Pending) == At(place, Pending) - keys
    ensures forall q | q != Notified && q != Pending :: At(Moved(place, keys, Notified), q) == At(place, q)
    ensures Moved(place, keys, Notified).Keys == place.Keys
  {
    AllMoved(place, keys, Notified);
    PlacesSeparate(place);
  }

  lemma TrackedApplyStopped(s: State, index: uint64)
    requires Tracked(s) && Enabled(s, Apply(index)) && s.table.stopped
    ensures Next(s, Apply(index)) == s
  {
    hide At, Distinct, Keys, Table.Serve, Table.Gc;
    assert s.place + map[] == s.place;
    assert s.completedAt + map[] == s.completedAt;
  }

  lemma TrackedCloseEnd(s: State)
    requires Tracked(s) && Enabled(s, CloseEnd)
    ensures Tracked(Next(s, CloseEnd))
  {
    hide At, Distinct, Keys, Moved, Table.Terminate;
    NoKeys();
    CloseMoves(s.place);
    TerminateTells(s.table, s.queue);
  }

  /** Closing leaves nothing queued or pending, and every other place as it was. */
  lemma CloseMoves(place: map<Key, Place>)
    ensures var keys := At(place, Queued) + At(place, Pending);
            && At(Moved(place, keys, Notified), Notified) == At(place, Notified) + keys
            && At(Moved(place, keys, Notified), Queued) == {} && At(Moved(place, keys, Notified), Pending) == {}
            && (forall q | q != Notified && q != Pending && q != Queued :: At(Moved(place, keys, Notified), q) == At(place, q))
            && Moved(place, keys, Notified).Keys == place.Keys
    ensures At(place, Queued) !! At(place, Pending) && At(place, Notified) !! At(place, Queued) + At(place, Pending)
  {
    AllMoved(place, At(place, Queued) + At(place, Pending), Notified);
    PlacesSeparate(place);
  }

  lemma TrackedStep(s: State, a: Action)
    requires Tracked(s) && Enabled(s, a)
    ensures Tracked(Next(s, a))
  {
    match a
    case Submit(timeoutTick) => TrackedSubmit(s, timeoutTick);
    case Enqueue(key) => TrackedEnqueue(s, key);
    case Drain => TrackedDrain(s);
    case AddPending => TrackedAddPending(s);
    case Apply(index) =>
      if s.table.stopped { TrackedApplyStopped(s, index); } else { TrackedApply(s, index); }
    case CloseEnd => TrackedCloseEnd(s);
    case _ => hide At, Distinct, Keys;
  }

  /** What a pending read waits for: a context issued when the commit index was at least what it was
      when the read was submitted, or the context the step worker is about to issue. */
  predicate Waits(s: State, k: Key)
    requires k in s.table.mapping && k in s.submittedAt
  {
    var c := s.table.mapping[k];
    || (c in s.issuedAt && s.submittedAt[k] <= s.issuedAt[c])
    || (c == s.table.system &&
        (s.worker.Recorded? || (s.worker.Handled? && s.readReqCount > 0) || s.worker.MustIssue?))
    || s.worker == Issuing(c)
  }

  /** The counter is positive exactly between the recording of a batch and its being swapped out. */
  predicate Counted(s: State) {
    if s.worker.Handled? then s.readReqCount == (if s.worker.took then 1 else 0) else s.readReqCount == 0
  }

  ghost predicate Contexts(s: State) {
    && s.table.system in s.drawn && s.table.system !in s.issuedAt && s.issuedAt.Keys <= s.drawn
    && (s.worker.HasCtx? ==> s.worker.ctx == s.table.system)
    && (s.worker.Issuing? ==> s.worker.ctx in s.drawn && s.worker.ctx !in s.issuedAt && s.worker.ctx != s.table.system)
    && (forall c | c in s.table.batches :: c in s.issuedAt && s.issuedAt[c] <= s.table.batches[c])
  }

  ghost predicate Submitted(s: State) {
    && s.submittedAt.Keys == s.place.Keys
    && (forall k | k in s.submittedAt :: s.submittedAt[k] <= s.commit)
  }

  ghost predicate Waiting(s: State) {
    forall k | k in s.table.pending :: k in s.table.mapping && k in s.submittedAt && Waits(s, k)
  }

  ghost predicate Finished(s: State) {
    forall k | k in s.table.notified && s.table.notified[k].Completed? ::
      k in s.completedAt && k in s.submittedAt && s.submittedAt[k] <= s.completedAt[k]
  }

  ghost predicate Linear(s: State) { Submitted(s) && Waiting(s) && Finished(s) }

  lemma ContextsAddPending(s: State)
    requires Tracked(s) && Contexts(s) && Enabled(s, AddPending)
    ensures Contexts(Next(s, AddPending))
  {
    hide At, Distinct, Keys, Moved, Table.AddAll;
    PlacesSeparate(s.place);
    AddAllAdds(s.table, s.worker.ctx, s.worker.batch);
  }

  lemma ContextsApply(s: State, index: uint64)
    requires Tracked(s) && Contexts(s) && Enabled(s, Apply(index)) && !s.table.stopped
    ensures Contexts(Next(s, Apply(index)))
  {
    hide At, Distinct, Keys, Moved, Table.Applied;
    PlacesSeparate(s.place);
    AppliedServes(s.table, index);
  }

  lemma ContextsCloseEnd(s: State)
    requires Tracked(s) && Contexts(s) && Enabled(s, CloseEnd)
    ensures Contexts(Next(s, CloseEnd))
  {
    hide At, Distinct, Keys, Moved, Table.Terminate;
    PlacesSeparate(s.place);
    TerminateTells(s.table, s.queue);
  }

  lemma ContextsStep(s: State, a: Action)
    requires Tracked(s) && Contexts(s) && Enabled(s, a)
    ensures Contexts(Next(s, a))
  {
    hide Contexts, Tracked;
    match a
    case AddPending => ContextsAddPending(s);
    case Apply(index) => if s.table.stopped { TrackedApplyStopped(s, index); } else { ContextsApply(s, index); }
    case CloseEnd => ContextsCloseEnd(s);
    case _ => if OfWorker(a) { ContextsWorker(s, a); } else { ContextsOthers(s, a); }
  }

  /** A step of the step worker that changes no table but its contexts. */
  predicate OfWorker(a: Action) {
    a.Drain? || a.Peep? || a.Increase? || a.SwapCount? || a.DrawNext? || a.Issue? || a.Ready?
  }

  predicate OfOthers(a: Action) { !OfWorker(a) && !a.AddPending? && !a.Apply? && !a.CloseEnd? }

  lemma ContextsDraw(s: State, ctx: SystemCtx)
    requires Contexts(s) && Enabled(s, DrawNext(ctx))
    ensures Contexts(Next(s, DrawNext(ctx)))
  {
  }

  lemma ContextsIssue(s: State)
    requires Contexts(s) && Enabled(s, Issue)
    ensures Contexts(Next(s, Issue))
  {
  }

  lemma ContextsReady(s: State, ctx: SystemCtx, index: uint64)
    requires Contexts(s) && Enabled(s, Ready(ctx, index))
    ensures Contexts(Next(s, Ready(ctx, index)))
  {
  }

  lemma ContextsPass(s: State, a: Action)
    requires Contexts(s) && Enabled(s, a) && (a.Drain? || a.Peep? || a.Increase? || a.SwapCount?)
    ensures Contexts(Next(s, a))
  {
    hide Keys, Moved;
    match a
    case Drain =>
    case Peep =>
    case Increase =>
    case _ =>
  }

  lemma ContextsWorker(s: State, a: Action)
    requires Contexts(s) && Enabled(s, a) && OfWorker(a)
    ensures Contexts(Next(s, a))
  {
    hide Contexts, Next;
    match a
    case DrawNext(ctx) => ContextsDraw(s, ctx);
    case Issue => ContextsIssue(s);
    case Ready(ctx, index) => ContextsReady(s, ctx, index);
    case _ => ContextsPass(s, a);
  }

  lemma ContextsOthers(s: State, a: Action)
    requires Contexts(s) && Enabled(s, a) && OfOthers(a)
    ensures Contexts(Next(s, a))
  {
  }

  lemma SubmittedStep(s: State, a: Action)
    requires Tracked(s) && Submitted(s) && Enabled(s, a)
    ensures Submitted(Next(s, a))
  {
    hide At, Distinct, Keys, Moved, Table.AddAll, Table.Applied, Table.Terminate;
    match a
    case Apply(index) => hide Submitted, Tracked; SubmittedApply(s, index);
    case CloseEnd => PlacesSeparate(s.place); AllMoved(s.place, Keys(s.queue) + s.table.pending.Keys, Notified);
    case _ => SubmittedOther(s, a);
  }

  lemma SubmittedSubmit(s: State, timeoutTick: nat)
    requires Submitted(s) && Enabled(s, Submit(timeoutTick))
    ensures Submitted(Next(s, Submit(timeoutTick)))
  {
  }

  lemma SubmittedEnqueue(s: State, key: Key)
    requires Tracked(s) && Submitted(s) && Enabled(s, Enqueue(key))
    ensures Submitted(Next(s, Enqueue(key)))
  {
    hide Distinct, Keys, WellFormed;
  }

  lemma SubmittedDrain(s: State)
    requires Tracked(s) && Submitted(s) && Enabled(s, Drain)
    ensures Submitted(Next(s, Drain))
  {
    hide At, Distinct, Keys, Moved, WellFormed;
    PlacesSeparate(s.place);
    AllMoved(s.place, Keys(s.queue), Drained);
  }

  lemma SubmittedAddPending(s: State)
    requires Tracked(s) && Submitted(s) && Enabled(s, AddPending)
    ensures Submitted(Next(s, AddPending))
  {
    hide At, Distinct, Keys, Moved, WellFormed, Table.AddPending;
    PlacesSeparate(s.place);
    AllMoved(s.place, Keys(s.worker.batch), if s.table.stopped then Dropped else Pending);
  }

  lemma SubmittedRest(s: State, a: Action)
    requires Submitted(s) && Enabled(s, a) && !a.Apply? && !a.CloseEnd?
    requires !a.Submit? && !a.Enqueue? && !a.Drain? && !a.AddPending?
    ensures Submitted(Next(s, a))
  {
    hide Keys, Moved, Applied, Table.AddPending, Table.Terminate;
    match a
    case Peep =>
    case Increase =>
    case SwapCount =>
    case DrawNext(_) =>
    case Issue =>
    case Ready(_, _) =>
    case _ =>
  }

  lemma SubmittedOther(s: State, a: Action)
    requires Tracked(s) && Submitted(s) && Enabled(s, a) && !a.Apply? && !a.CloseEnd?
    ensures Submitted(Next(s, a))
  {
    hide Tracked, Submitted, Next;
    match a
    case Submit(timeoutTick) => SubmittedSubmit(s, timeoutTick);
    case Enqueue(key) => SubmittedEnqueue(s, key);
    case Drain => SubmittedDrain(s);
    case AddPending => SubmittedAddPending(s);
    case _ => SubmittedRest(s, a);
  }

  lemma SubmittedApply(s: State, index: uint64)
    requires Tracked(s) && Submitted(s) && Enabled(s, Apply(index))
    ensures Submitted(Next(s, Apply(index)))
  {
    hide At, Distinct, Keys, Moved, Table.Applied;
    PlacesSeparate(s.place);
    if s.table.stopped {
      StoppedApplies(s.table, index);
      AllMoved(s.place, {}, Notified);
      assert s.table.notified.Keys - s.table.notified.Keys == {};
    } else {
      AppliedKeys(s.table, index);
      AllMoved(s.place, s.table.pending.Keys - s.table.Applied(index).pending.Keys, Notified);
    }
  }

  lemma StoppedApplies(t: Table, index: uint64)
    requires t.stopped
    ensures t.Applied(index) == t
  {
  }

  lemma WaitingAddPending(s: State)
    requires Tracked(s) && Contexts(s) && Submitted(s) && Waiting(s) && Enabled(s, AddPending)
    ensures Waiting(Next(s, AddPending))
  {
    hide At, Distinct, Keys, Moved, Table.AddAll;
    PlacesSeparate(s.place);
    AddAllAdds(s.table, s.worker.ctx, s.worker.batch);
    var t := Next(s, AddPending);
    forall k | k in t.table.pending
      ensures k in t.table.mapping && k in t.submittedAt && Waits(t, k)
    {
      if k in s.table.pending { assert Waits(s, k); }
    }
  }

  lemma WaitingApply(s: State, index: uint64)
    requires Tracked(s) && Waiting(s) && Enabled(s, Apply(index)) && !s.table.stopped
    ensures Waiting(Next(s, Apply(index)))
  {
    hide At, Distinct, Keys, Moved, Table.Applied;
    PlacesDisjoint(s.place, Pending, Notified);
    AppliedServes(s.table, index);
    var n := Next(s, Apply(index));
    forall k | k in n.table.pending
      ensures k in n.table.mapping && k in n.submittedAt && Waits(n, k)
    {
      assert Waits(s, k);
    }
  }

  lemma WaitingCloseEnd(s: State)
    requires Tracked(s) && Waiting(s) && Enabled(s, CloseEnd)
    ensures Waiting(Next(s, CloseEnd))
  {
    hide At, Distinct, Keys, Moved, Table.Terminate;
    PlacesSeparate(s.place);
    TerminateTells(s.table, s.queue);
    var t := Next(s, CloseEnd);
    forall k | k in t.table.pending
      ensures k in t.table.mapping && k in t.submittedAt && Waits(t, k)
    {
      assert Waits(s, k);
    }
  }

  lemma CountedStep(s: State, a: Action)
    requires Counted(s) && Enabled(s, a)
    ensures Counted(Next(s, a))
  {
    hide Keys, Moved, Applied, Table.AddPending, Table.Terminate;
    if a.Apply? {
      AppliedWorker(s, a.index);
    }
  }

  lemma AppliedWorker(s: State, index: uint64)
    ensures Applied(s, index).worker == s.worker && Applied(s, index).readReqCount == s.readReqCount
  {
    hide Moved, Table.Applied;
  }

  lemma WaitingWorker(s: State, a: Action)
    requires Contexts(s) && Counted(s) && Submitted(s) && Waiting(s) && Enabled(s, a) && OfWorker(a)
    ensures Waiting(Next(s, a))
  {
    hide Keys, Moved, Applied, Table.AddPending, Table.Terminate;
    var t := Next(s, a);
    forall k | k in t.table.pending
      ensures k in t.table.mapping && k in t.submittedAt && Waits(t, k)
    {
      assert Waits(s, k);
    }
  }

  lemma WaitingOthers(s: State, a: Action)
    requires Waiting(s) && Submitted(s) && Enabled(s, a) && OfOthers(a) && (a.Submit? ==> s.seqKey + 1 !in s.place)
    ensures Waiting(Next(s, a))
  {
    var t := Next(s, a);
    forall k | k in t.table.pending
      ensures k in t.table.mapping && k in t.submittedAt && Waits(t, k)
    {
      assert Waits(s, k);
    }
  }

  lemma WaitingStep(s: State, a: Action)
    requires Tracked(s) && Contexts(s) && Counted(s) && Submitted(s) && Waiting(s) && Enabled(s, a)
    ensures Waiting(Next(s, a))
  {
    assert s.seqKey + 1 !in s.place;
    hide Waiting, Contexts, Counted, Submitted, Tracked, Next;
    match a
    case AddPending => WaitingAddPending(s);
    case Apply(index) =>
      if s.table.stopped { TrackedApplyStopped(s, index); } else { WaitingApply(s, index); }
    case CloseEnd => WaitingCloseEnd(s);
    case _ => if OfWorker(a) { WaitingWorker(s, a); } else { WaitingOthers(s, a); }
  }

  lemma ServedReads(s: State, index: uint64, k: Key)
    requires Contexts(s) && Waiting(s) && index <= s.applied
    requires s.table.mapping.Keys == s.table.pending.Keys
    requires k in s.table.pending && s.table.mapping[k] in s.table.batches
    requires s.table.batches[s.table.mapping[k]] <= index
    ensures k in s.submittedAt && s.submittedAt[k] <= s.applied
  {
    assert Waits(s, k);
  }

  lemma FinishedApply(s: State, index: uint64)
    requires Tracked(s) && Contexts(s) && Waiting(s) && Finished(s) && Enabled(s, Apply(index)) && !s.table.stopped
    ensures Finished(Next(s, Apply(index)))
  {
    hide At, Distinct, Keys, Moved, Table.Applied;
    PlacesDisjoint(s.place, Pending, Notified);
    AppliedServes(s.table, index);
    var t := s.table.Applied(index);
    hide Contexts, Waiting;
    forall k | k in t.notified.Keys - s.table.notified.Keys && t.notified[k].Completed?
      ensures k in s.submittedAt && s.submittedAt[k] <= s.applied
    {
      ServedReads(s, index, k);
    }
  }

  lemma FinishedCloseEnd(s: State)
    requires Tracked(s) && Finished(s) && Enabled(s, CloseEnd)
    ensures Finished(Next(s, CloseEnd))
  {
    hide At, Distinct, Keys, Moved, Table.Terminate;
    PlacesSeparate(s.place);
    TerminateTells(s.table, s.queue);
  }

  lemma FinishedAddPending(s: State)
    requires Tracked(s) && Finished(s) && Enabled(s, AddPending)
    ensures Finished(Next(s, AddPending))
  {
    hide At, Distinct, Keys, Moved, Table.AddAll;
    PlacesSeparate(s.place);
    AddAllAdds(s.table, s.worker.ctx, s.worker.batch);
  }

  lemma FinishedOther(s: State, a: Action)
    requires Finished(s) && Enabled(s, a)
    requires !a.AddPending? && !a.Apply? && !a.CloseEnd? && (a.Submit? ==> s.seqKey + 1 !in s.table.notified)
    ensures Finished(Next(s, a))
  {
    hide Keys, Moved;
  }

  lemma FinishedStep(s: State, a: Action)
    requires Tracked(s) && Contexts(s) && Waiting(s) && Finished(s) && Enabled(s, a)
    ensures Finished(Next(s, a))
  {
    assert s.seqKey + 1 !in s.table.notified by { PlacesSeparate(s.place); }
    hide Waiting, Contexts, Finished, Tracked, Next;
    match a
    case AddPending => FinishedAddPending(s);
    case Apply(index) =>
      if s.table.stopped { TrackedApplyStopped(s, index); } else { FinishedApply(s, index); }
    case CloseEnd => FinishedCloseEnd(s);
    case _ => FinishedOther(s, a);
  }

  ghost predicate Inv(s: State) { Tracked(s) && Contexts(s) && Counted(s) && Linear(s) }

  // ---- every run ----

  ghost predicate IsRun(s: State, acts: seq<Action>)
    decreases |acts|
  {
    acts == [] || (Enabled(s, acts[0]) && IsRun(Next(s, acts[0]), acts[1..]))
  }

  ghost function Run(s: State, acts: seq<Action>): State
    requires IsRun(s, acts)
    decreases |acts|
  {
    if acts == [] then s else Run(Next(s, acts[0]), acts[1..])
  }

  lemma {:induction false} RunInv(s: State, acts: seq<Action>)
    requires Inv(s) && IsRun(s, acts)
    ensures Inv(Run(s, acts))
    decreases |acts|
  {
    hide Tracked, Contexts, Counted, Submitted, Waiting, Finished, Next;
    if acts != [] {
      TrackedStep(s, acts[0]);
      ContextsStep(s, acts[0]);
      CountedStep(s, acts[0]);
      SubmittedStep(s, acts[0]);
      WaitingStep(s, acts[0]);
      FinishedStep(s, acts[0]);
      RunInv(Next(s, acts[0]), acts[1..]);
    }
  }

  lemma StartInv(system: SystemCtx, size: nat, tickInMillisecond: Positive)
    ensures Inv(Start(system, size, tickInMillisecond))
  {
  }

  /** Linearizability: in every run, a read reported as completed was completed when the local state
      machine had applied at least everything committed when the read was submitted. */
  lemma CompletedReadsAreLinearizable(system: SystemCtx, size: nat, tickInMillisecond: Positive, acts: seq<Action>, k: Key)
    requires IsRun(Start(system, size, tickInMillisecond), acts)
    requires var t := Run(Start(system, size, tickInMillisecond), acts).table;
             k in t.notified && t.notified[k] == Completed
    ensures var s := Run(Start(system, size, tickInMillisecond), acts);
            k in s.submittedAt && k in s.completedAt && s.submittedAt[k] <= s.completedAt[k]
  {
    StartInv(system, size, tickInMillisecond);
    RunInv(Start(system, size, tickInMillisecond), acts);
  }

  /** When the step worker has finished a pass, every pending read waits for a context that has been
      issued: none is stranded on the one not issued yet. */
  lemma NoReadStranded(system: SystemCtx, size: nat, tickInMillisecond: Positive, acts: seq<Action>, k: Key)
    requires IsRun(Start(system, size, tickInMillisecond), acts)
    requires Run(Start(system, size, tickInMillisecond), acts).worker.Idle?
    requires k in Run(Start(system, size, tickInMillisecond), acts).table.pending
    ensures var s := Run(Start(system, size, tickInMillisecond), acts);
            k in s.table.mapping && s.table.mapping[k] in s.issuedAt && s.table.mapping[k] != s.table.system
  {
    StartInv(system, size, tickInMillisecond);
    RunInv(Start(system, size, tickInMillisecond), acts);
    assert Waits(Run(Start(system, size, tickInMillisecond), acts), k);
  }

  /** In every run the counter with which the pass decides whether to issue a context is positive exactly
      when the pass has drained a batch of reads and has not yet taken the counter. */
  lemma CounterExact(system: SystemCtx, size: nat, tickInMillisecond: Positive, acts: seq<Action>)
    requires IsRun(Start(system, size, tickInMillisecond), acts)
    ensures var s := Run(Start(system, size, tickInMillisecond), acts);
            s.readReqCount > 0 <==> s.worker == Handled(true)
  {
    StartInv(system, size, tickInMillisecond);
    RunInv(Start(system, size, tickInMillisecond), acts);
  }

  /** At most once, and nothing lost: in every run no panic is raised (a read notified twice would
      overfill its channel), the pending and mapping tables have the same keys, and each read that
      drew a key is in exactly the one place recorded for it. */
  lemma EachReadInOnePlace(system: SystemCtx, size: nat, tickInMillisecond: Positive, acts: seq<Action>)
    requires IsRun(Start(system, size, tickInMillisecond), acts)
    ensures var s := Run(Start(system, size, tickInMillisecond), acts);
            && !s.table.panicked && s.table.mapping.Keys == s.table.pending.Keys
            && Distinct(s.queue) && Distinct(Batch(s.worker))
            && s.clients.Keys == At(s.place, Client)
            && Keys(s.queue) == At(s.place, Queued)
            && Keys(Batch(s.worker)) == At(s.place, Drained)
            && s.table.notified.Keys == At(s.place, Notified)
            && (!s.closer.Closed? ==> s.table.pending.Keys == At(s.place, Pending))
            && (s.closer.Closed? ==> At(s.place, Pending) == {} && s.table.pending.Keys <= s.table.notified.Keys)
  {
    StartInv(system, size, tickInMillisecond);
    RunInv(Start(system, size, tickInMillisecond), acts);
  }
}
