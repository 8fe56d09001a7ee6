/** How late a pending read can be answered, over every state and every run of the read protocol, and
    runs in which reads complete and linger. */
module ReadTimeouts {
  import opened Bits
  import opened Clock
  import opened PendingReads
  import opened LinearizableReads

  /** The bound: a read still pending after index `index` is applied at tick `now` is less than
      GC_TICK ticks late. */
  predicate BoundAt(s: State, k: Key, now: nat, index: uint64)
    requires k in s.table.pending
  {
    (now >= s.table.tick && index <= s.applied && k in s.table.(tick := now).Applied(index).pending) ==>
      s.table.pending[k].deadline > now - GC_TICK
  }

  /** A read stays pending exactly when it is not readable and no collection that is due finds it late;
      one found late is told so. */
  lemma AppliedLeaves(t: Table, index: uint64, k: Key)
    requires !t.stopped && k in t.pending
    ensures k in t.Applied(index).pending <==>
            k !in t.Readable(index) && (t.tick - t.lastGcTime >= GC_TICK ==> t.pending[k].deadline >= t.tick)
    ensures k in t.Applied(index).pending ==> t.Applied(index).pending[k] == t.pending[k]
    ensures t.Applied(index).lastGcTime == if t.tick - t.lastGcTime >= GC_TICK then t.tick else t.lastGcTime
    ensures k !in t.Readable(index) && k !in t.Applied(index).pending ==>
              k in t.Applied(index).notified && t.Applied(index).notified[k] == Timeout
  {
    assert |t.pending| > 0;
  }

  /** The next application may be this one, at which no collection is due and the read is not readable. */
  predicate CanStay(s: State, k: Key, now: nat, index: uint64) {
    && now >= s.table.tick && index <= s.applied
    && k !in s.table.Readable(index) && now - s.table.lastGcTime < GC_TICK
  }

  lemma BoundWhen(s: State, k: Key, now: nat, index: uint64)
    requires !s.table.stopped && k in s.table.pending
    ensures BoundAt(s, k, now, index) <==>
            (CanStay(s, k, now, index) ==> s.table.pending[k].deadline > now - GC_TICK)
  {
    AppliedLeaves(s.table.(tick := now), index, k);
  }

  /**
    * Exactly: a pending read meets the bound at every application that can come next if and only if it
    * was not late at the last collection, or a collection is already due, or it is readable at once.
    */
  lemma ReadTimeoutExactly(s: State, k: Key)
    requires !s.table.stopped && k in s.table.pending
    ensures (forall now: nat, index: uint64 :: BoundAt(s, k, now, index)) <==>
            || s.table.pending[k].deadline >= s.table.lastGcTime
            || s.table.tick - s.table.lastGcTime >= GC_TICK
            || k in s.table.Readable(0)
  {
    hide Table.Applied, BoundAt;
    forall now: nat, index: uint64
      ensures BoundAt(s, k, now, index) <==>
              (CanStay(s, k, now, index) ==> s.table.pending[k].deadline > now - GC_TICK)
    {
      BoundWhen(s, k, now, index);
    }
    var last := s.table.lastGcTime + GC_TICK - 1;
    assert BoundAt(s, k, last, 0) <==> (CanStay(s, k, last, 0) ==> s.table.pending[k].deadline > last - GC_TICK);
    ReadableMore(s.table, k);
  }

  lemma ReadableMore(t: Table, k: Key)
    ensures k in t.Readable(0) ==> forall index: uint64 :: k in t.Readable(index)
  {
  }

  /** `acts` is a run during which `k` stays pending. */
  ghost predicate WaitsThrough(s: State, acts: seq<Action>, k: Key)
    decreases |acts|
  {
    && k in s.table.pending
    && (acts == [] || (Enabled(s, acts[0]) && WaitsThrough(Next(s, acts[0]), acts[1..], k)))
  }

  lemma {:induction false} AddAllKeepsOld(t: Table, ctx: SystemCtx, reqs: seq<Read>, k: Key)
    requires k in t.pending && k !in Keys(reqs)
    ensures var u := t.AddAll(ctx, reqs); k in u.pending && u.pending[k] == t.pending[k] && u.lastGcTime == t.lastGcTime
    decreases |reqs|
  {
    if reqs != [] {
      KeysCons(reqs);
      AddAllKeepsOld(t.AddOne(ctx, reqs[0]), ctx, reqs[1..], k);
    }
  }

  lemma OtherSteps(s: State, a: Action)
    requires Enabled(s, a) && !a.AddPending? && !a.Apply? && !a.CloseEnd?
    ensures Next(s, a).table.pending == s.table.pending && Next(s, a).table.lastGcTime == s.table.lastGcTime
  {
    hide Next;
    if OfWorker(a) { WorkerSteps(s, a); } else { ClientSteps(s, a); }
  }

  lemma WorkerSteps(s: State, a: Action)
    requires Enabled(s, a) && OfWorker(a)
    ensures Next(s, a).table.pending == s.table.pending && Next(s, a).table.lastGcTime == s.table.lastGcTime
    ensures Next(s, a).closer == s.closer
  {
    hide Keys, Moved, Applied, Table.AddPending, Table.Terminate;
    match a
    case Drain =>
    case Peep =>
    case Increase =>
    case SwapCount =>
    case DrawNext(_) =>
    case Issue =>
    case Ready(_, _) =>
    case _ =>
  }

  lemma ClientSteps(s: State, a: Action)
    requires Enabled(s, a) && OfOthers(a)
    ensures Next(s, a).table.pending == s.table.pending && Next(s, a).table.lastGcTime == s.table.lastGcTime
    ensures Next(s, a).closer.Open? ==> s.closer.Open?
  {
    hide Keys, Moved, Applied, Table.AddPending, Table.Terminate;
  }

  lemma AddPendingStep(s: State, k: Key)
    requires Tracked(s) && Enabled(s, AddPending) && k in s.table.pending && !s.table.stopped
    ensures var t := Next(s, AddPending).table;
            k in t.pending && t.pending[k] == s.table.pending[k] && t.lastGcTime == s.table.lastGcTime
  {
    hide Distinct, Keys, Moved, Table.AddAll;
    PlacesDisjoint(s.place, Pending, Drained);
    AddAllKeepsOld(s.table, s.worker.ctx, s.worker.batch, k);
  }

  /** A read that was not late at the last collection is not late at the next. */
  lemma StepKeepsDeadline(s: State, a: Action, k: Key)
    requires Tracked(s) && Enabled(s, a) && s.closer.Open?
    requires k in s.table.pending && k in Next(s, a).table.pending
    requires s.table.pending[k].deadline >= s.table.lastGcTime
    ensures Next(s, a).table.pending[k] == s.table.pending[k]
    ensures Next(s, a).table.pending[k].deadline >= Next(s, a).table.lastGcTime
  {
    assert !s.table.stopped;
    hide Tracked, Table.Applied, Table.AddAll, Keys, Moved;
    if a.Apply? {
      AppliedLeaves(s.table, a.index, k);
    } else if a.AddPending? {
      AddPendingStep(s, k);
    } else {
      OtherSteps(s, a);
    }
  }

  lemma {:induction false} DeadlineKept(s: State, acts: seq<Action>, k: Key)
    requires Tracked(s) && IsRun(s, acts) && WaitsThrough(s, acts, k) && Run(s, acts).closer.Open?
    requires s.table.pending[k].deadline >= s.table.lastGcTime
    ensures var t := Run(s, acts).table;
            !t.stopped && k in t.pending && t.pending[k] == s.table.pending[k] && t.pending[k].deadline >= t.lastGcTime
    decreases |acts|
  {
    if acts == [] {
    } else {
      hide Tracked, Next;
      TrackedStep(s, acts[0]);
      WasOpen(s, acts);
      StepKeepsDeadline(s, acts[0], k);
      DeadlineKept(Next(s, acts[0]), acts[1..], k);
    }
  }

  lemma {:induction false} WasOpen(s: State, acts: seq<Action>)
    requires IsRun(s, acts) && Run(s, acts).closer.Open?
    ensures s.closer.Open?
    decreases |acts|
  {
    hide Next;
    if acts != [] {
      WasOpen(Next(s, acts[0]), acts[1..]);
      NeverReopens(s, acts[0]);
    }
  }

  lemma NeverReopens(s: State, a: Action)
    requires Enabled(s, a) && Next(s, a).closer.Open?
    ensures s.closer.Open?
  {
    hide Keys, Moved, Table.Applied, Table.AddPending, Table.Terminate;
    if OfWorker(a) { WorkerSteps(s, a); } else if OfOthers(a) { ClientSteps(s, a); }
  }

  /**
    * In every run: a read that was recorded before a collection could find it late meets the bound at
    * every later application for as long as it stays pending.
    */
  lemma InTimeReadsMeetTheBound(system: SystemCtx, size: nat, tickInMillisecond: Positive, acts: seq<Action>,
                                more: seq<Action>, k: Key, now: nat, index: uint64)
    requires IsRun(Start(system, size, tickInMillisecond), acts)
    requires var s := Run(Start(system, size, tickInMillisecond), acts);
             && IsRun(s, more) && WaitsThrough(s, more, k) && Run(s, more).closer.Open?
             && s.table.pending[k].deadline >= s.table.lastGcTime
    ensures var t := Run(Run(Start(system, size, tickInMillisecond), acts), more);
            k in t.table.pending && BoundAt(t, k, now, index)
  {
    var s := Run(Start(system, size, tickInMillisecond), acts);
    StartInv(system, size, tickInMillisecond);
    RunInv(Start(system, size, tickInMillisecond), acts);
    hide Tracked, LinearizableReads.Contexts, Counted, Linear, IsRun, Run, Next, WaitsThrough;
    DeadlineKept(s, more, k);
    ReadTimeoutExactly(Run(s, more), k);
  }

  // ---- two runs ----

  lemma {:induction false} RunConcat(s: State, acts: seq<Action>, more: seq<Action>)
    requires IsRun(s, acts) && IsRun(Run(s, acts), more)
    ensures IsRun(s, acts + more) && Run(s, acts + more) == Run(Run(s, acts), more)
    decreases |acts|
  {
    hide Next;
    if acts == [] {
      assert acts + more == more;
    } else {
      assert (acts + more)[1..] == acts[1..] + more;
      RunConcat(Next(s, acts[0]), acts[1..], more);
    }
  }

  lemma RunNone(s: State, acts: seq<Action>)
    ensures IsRun(s, acts[..0]) && Run(s, acts[..0]) == s
  {
  }

  lemma OneMore(s: State, acts: seq<Action>, i: nat)
    requires i < |acts| && IsRun(s, acts[..i]) && Enabled(Run(s, acts[..i]), acts[i])
    ensures IsRun(s, acts[..i + 1]) && Run(s, acts[..i + 1]) == Next(Run(s, acts[..i]), acts[i])
  {
    assert acts[..i + 1] == acts[..i] + [acts[i]] && [acts[i]][1..] == [];
    RunConcat(s, acts[..i], [acts[i]]);
  }

  lemma OneAdded(t: Table, r: Read)
    requires r.key !in t.pending && !t.stopped
    ensures t.AddPending(t.system, [r]) == t.(pending := t.pending[r.key := r], mapping := t.mapping[r.key := t.system])
  {
    var u := t.AddOne(t.system, r);
    assert [r][1..] == [] && u.AddAll(t.system, []) == u;
  }

  /** The step worker's pass that takes one read from the queue: it records the read under the current
      context, draws the next and issues the first. */
  function Pass(ctx: SystemCtx): seq<Action> { TAKE + Issuing(ctx) }

  const TAKE: seq<Action> := [Drain, Peep, AddPending]

  function Issuing(ctx: SystemCtx): seq<Action> { [Increase, SwapCount, DrawNext(ctx), Issue] }

  function Taken(s: State, r: Read): State {
    s.(queue := [], worker := Recorded, place := Moved(Moved(s.place, Keys([r]), Drained), Keys([r]), Pending),
       table := s.table.(pending := s.table.pending[r.key := r], mapping := s.table.mapping[r.key := s.table.system]))
  }

  function Issued(s: State, ctx: SystemCtx): State {
    s.(readReqCount := 0, worker := Idle, table := s.table.NextCtx(ctx), drawn := s.drawn + {ctx},
       issueTick := s.issueTick[s.table.system := s.table.tick],
       issuedAt := s.issuedAt[s.table.system := s.commit])
  }

  lemma TakeRuns(s: State, r: Read)
    requires s.worker.Idle? && s.closer.Open? && !s.table.stopped && s.queue == [r] && r.key !in s.table.pending
    ensures IsRun(s, TAKE) && Run(s, TAKE) == Taken(s, r)
  {
    hide IsRun, Run, Moved, Keys, Table.AddPending;
    RunNone(s, TAKE);
    OneMore(s, TAKE, 0);
    OneMore(s, TAKE, 1);
    OneAdded(s.table, r);
    OneMore(s, TAKE, 2);
    assert TAKE[..3] == TAKE;
  }

  lemma IssueRuns(s: State, ctx: SystemCtx)
    requires s.worker.Recorded? && s.closer.Open? && s.readReqCount == 0 && ctx !in s.drawn
    ensures IsRun(s, Issuing(ctx)) && Run(s, Issuing(ctx)) == Issued(s, ctx)
  {
    hide IsRun, Run;
    var acts := Issuing(ctx);
    RunNone(s, acts);
    OneMore(s, acts, 0);
    OneMore(s, acts, 1);
    OneMore(s, acts, 2);
    OneMore(s, acts, 3);
    assert acts[..4] == acts;
  }

  lemma PassRuns(s: State, r: Read, ctx: SystemCtx)
    requires s.worker.Idle? && s.closer.Open? && !s.table.stopped && s.queue == [r] && s.readReqCount == 0
    requires r.key !in s.table.pending && ctx !in s.drawn
    ensures IsRun(s, Pass(ctx)) && Run(s, Pass(ctx)) == Issued(Taken(s, r), ctx)
  {
    hide IsRun, Run, Moved, Keys;
    TakeRuns(s, r);
    IssueRuns(Taken(s, r), ctx);
    RunConcat(s, TAKE, Issuing(ctx));
  }

  /** The first client's read is queued. */
  lemma FirstRead(timeoutTick: nat)
    requires timeoutTick > 0
    ensures var acts := [Submit(timeoutTick), Enqueue(1)]; var s := Start(CTX1, 1, 1);
            && IsRun(s, acts)
            && Run(s, acts) == s.(seqKey := 1, queue := [Read(1, timeoutTick)],
                                  submittedAt := map[1 := 0], place := map[1 := Queued])
  {
    hide IsRun, Run;
    var acts: seq<Action> := [Submit(timeoutTick), Enqueue(1)];
    var s := Start(CTX1, 1, 1);
    RunNone(s, acts);
    OneMore(s, acts, 0);
    OneMore(s, acts, 1);
    assert acts[..2] == acts;
    assert map[1 := Client][1 := Queued] == map[1 := Queued];
    assert map[1 := Read(1, timeoutTick)] - {1} == map[];
  }

  const CTX1: SystemCtx := SystemCtx(1, 1)
  const CTX2: SystemCtx := SystemCtx(2, 2)
  const CTX3: SystemCtx := SystemCtx(3, 3)

  /** A read submitted, drained, recorded, issued, confirmed and applied is completed. */
  lemma ReadCanComplete()
    ensures var acts := [Submit(5), Enqueue(1)] + Pass(CTX2) + [Ready(CTX1, 0), Apply(0)];
            var s := Start(CTX1, 1, 1);
            IsRun(s, acts) && 1 in Run(s, acts).table.notified && Run(s, acts).table.notified[1] == Completed
  {
    hide IsRun, Run, Moved, Keys, Table.Applied, Table.Serve;
    var s := Start(CTX1, 1, 1);
    var acts: seq<Action> := [Submit(5), Enqueue(1)];
    FirstRead(5);
    PassRuns(Run(s, acts), Read(1, 5), CTX2);
    RunConcat(s, acts, Pass(CTX2));
    var t := Run(s, acts + Pass(CTX2));
    var last: seq<Action> := [Ready(CTX1, 0), Apply(0)];
    RunNone(t, last);
    OneMore(t, last, 0);
    AppliedServesAll(Next(t, last[0]).table, 0, 1);
    OneMore(t, last, 1);
    assert last[..2] == last;
    RunConcat(s, acts + Pass(CTX2), last);
  }

  /** The exception is real: a client that computes its deadline and only after a collection reaches the
      queue leaves a read that an application, more than two ticks past the deadline, does not collect. */
  lemma LateReadLingers()
    ensures var acts := [Submit(10), Enqueue(1)] + Pass(CTX2) + LATE + Pass(CTX3);
            && IsRun(Start(CTX1, 1, 1), acts)
            && var s := Run(Start(CTX1, 1, 1), acts);
            && 2 in s.table.pending && !BoundAt(s, 2, 4, 0)
  {
    hide IsRun, Run, Moved, Keys, Table.Applied;
    var s := Start(CTX1, 1, 1);
    var acts: seq<Action> := [Submit(10), Enqueue(1)];
    FirstRead(10);
    PassRuns(Run(s, acts), Read(1, 10), CTX2);
    RunConcat(s, acts, Pass(CTX2));
    var t := Run(s, acts + Pass(CTX2));
    LateClient(t);
    RunConcat(s, acts + Pass(CTX2), LATE);
    var u := Run(t, LATE);
    PassRuns(u, Read(2, 1), CTX3);
    RunConcat(s, acts + Pass(CTX2) + LATE, Pass(CTX3));
    BoundWhen(Issued(Taken(u, Read(2, 1)), CTX3), 2, 4, 0);
  }

  const SLEEP: seq<Action> := [Submit(1), Tick, Tick, Tick]
  const WAKE: seq<Action> := [Apply(0), Enqueue(2)]
  const LATE: seq<Action> := SLEEP + WAKE

  lemma SleepRuns(t: State)
    requires t.table.tick == 0
    ensures IsRun(t, SLEEP) && Run(t, SLEEP) == Next(t, Submit(1)).(table := t.table.(tick := 3))
  {
    hide IsRun, Run;
    RunNone(t, SLEEP);
    OneMore(t, SLEEP, 0);
    OneMore(t, SLEEP, 1);
    OneMore(t, SLEEP, 2);
    OneMore(t, SLEEP, 3);
    assert SLEEP[..4] == SLEEP;
  }

  lemma WakeRuns(t: State)
    requires t.closer.Open? && t.clients == map[2 := Read(2, 1)] && t.table.Applied(0) == t.table.(lastGcTime := 3)
    requires t.queue == [] && t.size == 1 && !t.queueStopped
    ensures IsRun(t, WAKE)
    ensures var u := Run(t, WAKE);
            && u.queue == [Read(2, 1)] && u.worker == t.worker && u.closer.Open? && u.readReqCount == t.readReqCount
            && u.table == t.table.(lastGcTime := 3) && u.drawn == t.drawn && u.applied == t.applied
  {
    hide IsRun, Run, Moved, Table.Applied;
    RunNone(t, WAKE);
    OneMore(t, WAKE, 0);
    OneMore(t, WAKE, 1);
    assert WAKE[..2] == WAKE;
  }

  lemma LateClient(t: State)
    requires t.table.tick == 0 && t.table.lastGcTime == 0 && t.seqKey == 1 && t.queue == [] && t.size == 1 && !t.queueStopped
    requires t.closer.Open? && !t.table.stopped && t.worker.Idle? && t.clients == map[]
    requires t.table.pending == map[1 := Read(1, 10)] && t.table.batches == map[] && |t.table.systemGcTime| == 1
    requires t.table.systemGcTime[0].expireTime > 3 && 1 in t.table.mapping
    ensures IsRun(t, LATE)
    ensures var u := Run(t, LATE);
            && u.queue == [Read(2, 1)] && u.worker.Idle? && u.closer.Open? && u.readReqCount == t.readReqCount
            && u.table == t.table.(tick := 3, lastGcTime := 3) && u.drawn == t.drawn && u.applied == t.applied
  {
    hide IsRun, Run, Table.Applied;
    SleepRuns(t);
    NothingLate(t.table.(tick := 3));
    WakeRuns(Run(t, SLEEP));
    RunConcat(t, SLEEP, WAKE);
  }

  lemma NothingLate(t: Table)
    requires t.pending == map[1 := Read(1, 10)] && t.batches == map[] && !t.stopped && t.tick == 3 && t.lastGcTime == 0
    requires |t.systemGcTime| == 1 && t.systemGcTime[0].expireTime > 3
    requires t.pending.Keys <= t.mapping.Keys
    ensures t.Applied(0) == t.(lastGcTime := 3)
  {
    assert t.Readable(0) == {} && t.Late(3) == {};
    assert t.Serve(0) == t by { NoneServed(t); }
    var u := t.(lastGcTime := 3);
    assert t.systemGcTime[..0] == [] && PendingReads.Contexts([]) == {};
    assert u.Late(3) == {} && u.Gc(3) == u.(batches := u.batches - {}).Drop({});
    NoneServed(u);
  }

  lemma NoneServed(t: Table)
    ensures t.Drop({}) == t && t.Notify(map[]) == t && t.batches - {} == t.batches
  {
    assert t.pending - {} == t.pending && t.mapping - {} == t.mapping && t.notified + map[] == t.notified;
  }
}
