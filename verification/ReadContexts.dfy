/** How long a confirmed context is remembered, in ticks since it was issued, and which reads complete
    because of it. */
module ReadContexts {
  import opened Bits
  import opened Clock
  import opened PendingReads
  import opened LinearizableReads
  import opened ReadTimeouts

  /** The last tick up to which a context issued at `tick` is kept. */
  function Expiry(tick: nat, tickInMillisecond: Positive): nat { tick + 15000 / tickInMillisecond }

  function ExpiryOf(s: State, c: SystemCtx): nat
    requires c in s.issueTick
  {
    Expiry(s.issueTick[c], s.table.tickInMillisecond)
  }

  /** A collection runs: something is pending or the list of contexts is long, two ticks after the last. */
  predicate Collects(t: Table) {
    !t.stopped && !(|t.pending| == 0 && |t.systemGcTime| < 15000) && t.tick - t.lastGcTime >= GC_TICK
  }

  ghost predicate Lists(t: Table, c: SystemCtx) { exists g | g in t.systemGcTime :: g.ctx == c }

  /** The list is in order of expiry. */
  ghost predicate InOrder(gcs: seq<GcTime>) {
    forall i, j | 0 <= i < j < |gcs| :: gcs[i].expireTime <= gcs[j].expireTime
  }

  // ---- one collection ----

  lemma {:induction false} ExpiredExactly(gcs: seq<GcTime>, now: nat)
    requires InOrder(gcs)
    ensures var n := Expired(gcs, now);
            && (forall i | 0 <= i < n :: gcs[i].expireTime < now) && (forall i | n <= i < |gcs| :: gcs[i].expireTime >= now)
  {
    if gcs != [] && gcs[0].expireTime < now {
      var rest := gcs[1..];
      assert InOrder(rest) by {
        forall i, j | 0 <= i < j < |rest|
          ensures rest[i].expireTime <= rest[j].expireTime
        {
          assert rest[i] == gcs[i + 1] && rest[j] == gcs[j + 1];
        }
      }
      ExpiredExactly(rest, now);
      assert forall i | 0 < i < |gcs| :: gcs[i] == rest[i - 1];
    }
  }

  /** Exactly the listed contexts past their time are forgotten. */
  lemma GcForgets(t: Table, now: nat, c: SystemCtx)
    requires InOrder(t.systemGcTime)
    ensures var u := t.Gc(now);
            && (forall g :: g in u.systemGcTime <==> g in t.systemGcTime && g.expireTime >= now) && InOrder(u.systemGcTime)
            && (c in u.batches <==> c in t.batches && !exists g | g in t.systemGcTime :: g.ctx == c && g.expireTime < now)
            && (c in u.batches ==> u.batches[c] == t.batches[c])
            && u.system == t.system && u.lastGcTime == t.lastGcTime && u.tick == t.tick
            && u.tickInMillisecond == t.tickInMillisecond
  {
    var gcs, n := t.systemGcTime, Expired(t.systemGcTime, now);
    ExpiredExactly(gcs, now);
    assert gcs == gcs[..n] + gcs[n..];
    forall g
      ensures g in gcs[n..] <==> g in gcs && g.expireTime >= now
      ensures g in gcs[..n] <==> g in gcs && g.expireTime < now
    {
    }
  }

  lemma ServeKeepsContexts(t: Table, index: uint64)
    ensures var u := t.Serve(index);
            && u.batches == t.batches && u.systemGcTime == t.systemGcTime && u.system == t.system
            && u.lastGcTime == t.lastGcTime && u.tick == t.tick && u.tickInMillisecond == t.tickInMillisecond
  {
  }

  lemma AppliedForgets(t: Table, index: uint64, c: SystemCtx)
    requires InOrder(t.systemGcTime)
    ensures var u := t.Applied(index);
            if Collects(t) then
              && u.lastGcTime == t.tick && InOrder(u.systemGcTime)
              && (forall g :: g in u.systemGcTime <==> g in t.systemGcTime && g.expireTime >= t.tick)
              && (c in u.batches <==> c in t.batches && !exists g | g in t.systemGcTime :: g.ctx == c && g.expireTime < t.tick)
              && (c in u.batches ==> u.batches[c] == t.batches[c])
              && u.system == t.system && u.tick == t.tick && u.tickInMillisecond == t.tickInMillisecond
            else
              && u.batches == t.batches && u.systemGcTime == t.systemGcTime && u.system == t.system
              && u.lastGcTime == t.lastGcTime && u.tick == t.tick && u.tickInMillisecond == t.tickInMillisecond
  {
    hide Table.Serve, Table.Gc, InOrder;
    if !t.stopped && !(|t.pending| == 0 && |t.systemGcTime| < SYS_GC_MILLISECOND) {
      ServeKeepsContexts(t, index);
      if Collects(t) {
        GcForgets(t.Serve(index).(lastGcTime := t.tick), t.tick, c);
      }
    }
  }

  // ---- what every step keeps ----

  /** Contexts are listed with their expiry, in order, until a collection past it. */
  ghost predicate Dated(s: State) {
    && InOrder(s.table.systemGcTime) && s.table.lastGcTime <= s.table.tick
    && (forall g | g in s.table.systemGcTime :: g.ctx in s.issueTick && g.expireTime == ExpiryOf(s, g.ctx))
    && (forall c | c in s.issueTick :: s.issueTick[c] <= s.table.tick)
    && (forall c | c in s.issueTick :: Lists(s.table, c) <==> s.table.lastGcTime <= ExpiryOf(s, c))
  }

  /** The contexts issued or being issued are the dated ones. */
  ghost predicate Known(s: State) {
    && s.table.system !in s.issueTick && s.table.system in s.drawn && s.issueTick.Keys <= s.drawn
    && s.issuedAt.Keys <= s.issueTick.Keys && (s.worker.Issuing? ==> s.worker.ctx in s.issueTick)
  }

  /** The parts these say anything about are untouched. */
  predicate SameContexts(s: State, t: State) {
    && t.table.systemGcTime == s.table.systemGcTime && t.table.lastGcTime == s.table.lastGcTime
    && t.table.tickInMillisecond == s.table.tickInMillisecond && t.table.tick >= s.table.tick && t.issueTick == s.issueTick
  }

  lemma DatedSame(s: State, t: State)
    requires Dated(s) && SameContexts(s, t)
    ensures Dated(t)
  {
    forall c | c in t.issueTick
      ensures Lists(t.table, c) <==> t.table.lastGcTime <= ExpiryOf(t, c)
    {
      assert Lists(t.table, c) <==> Lists(s.table, c);
    }
  }

  lemma DatedDraw(s: State, ctx: SystemCtx)
    requires Dated(s) && s.table.system !in s.issueTick && Enabled(s, DrawNext(ctx))
    ensures Dated(Next(s, DrawNext(ctx)))
  {
    var t, c := Next(s, DrawNext(ctx)), s.table.system;
    var gcs := s.table.systemGcTime;
    var g := GcTime(c, Expiry(s.table.tick, s.table.tickInMillisecond));
    assert t.table.systemGcTime == gcs + [g];
    forall d | d in t.issueTick
      ensures Lists(t.table, d) <==> t.table.lastGcTime <= ExpiryOf(t, d)
    {
      if d == c {
        assert g in t.table.systemGcTime;
      } else {
        assert Lists(s.table, d) <==> s.table.lastGcTime <= ExpiryOf(s, d);
        assert Lists(t.table, d) <==> Lists(s.table, d);
      }
    }
    forall i | 0 <= i < |gcs|
      ensures gcs[i].expireTime <= g.expireTime
    {
      assert gcs[i] in gcs;
    }
  }

  lemma DatedApply(s: State, index: uint64)
    requires Dated(s) && Enabled(s, Apply(index))
    ensures Dated(Next(s, Apply(index)))
  {
    hide Table.Applied, Moved;
    var t := Next(s, Apply(index));
    AppliedForgets(s.table, index, s.table.system);
    if Collects(s.table) {
      forall c | c in t.issueTick
        ensures Lists(t.table, c) <==> t.table.lastGcTime <= ExpiryOf(t, c)
      {
        assert Lists(s.table, c) <==> s.table.lastGcTime <= ExpiryOf(s, c);
        if Lists(s.table, c) {
          var g :| g in s.table.systemGcTime && g.ctx == c;
        }
      }
    } else {
      DatedSame(s, t);
    }
  }

  lemma OtherSame(s: State, a: Action)
    requires Enabled(s, a) && !a.DrawNext? && !a.Apply? && !a.AddPending? && !a.CloseEnd?
    ensures SameContexts(s, Next(s, a))
  {
    hide Keys, Moved, Applied, Table.AddPending, Table.Terminate;
    match a
    case Submit(_) =>
    case Enqueue(_) =>
    case Drain =>
    case Peep =>
    case Increase =>
    case SwapCount =>
    case Issue =>
    case Ready(_, _) =>
    case Tick =>
    case CommitMoves(_) =>
    case StateMachineMoves(_) =>
    case CloseBegin =>
    case _ =>
  }

  lemma {:induction false} AddAllSame(t: Table, ctx: SystemCtx, reqs: seq<Read>)
    ensures var u := t.AddAll(ctx, reqs);
            && u.systemGcTime == t.systemGcTime && u.lastGcTime == t.lastGcTime && u.tick == t.tick
            && u.tickInMillisecond == t.tickInMillisecond && u.batches == t.batches && u.system == t.system
    decreases |reqs|
  {
    if reqs != [] {
      AddAllSame(t.AddOne(ctx, reqs[0]), ctx, reqs[1..]);
    }
  }

  lemma {:induction false} TerminateSame(t: Table, reqs: seq<Read>)
    ensures t.TerminateQueued(reqs) == t.(notified := t.TerminateQueued(reqs).notified, panicked := t.TerminateQueued(reqs).panicked)
    decreases |reqs|
  {
    if reqs != [] {
      TerminateSame(t.Notify(map[reqs[0].key := Terminated]), reqs[1..]);
    }
  }

  lemma DatedStep(s: State, a: Action)
    requires Dated(s) && s.table.system !in s.issueTick && Enabled(s, a)
    ensures Dated(Next(s, a))
  {
    hide Dated, Next;
    match a
    case DrawNext(ctx) => DatedDraw(s, ctx);
    case Apply(index) => DatedApply(s, index);
    case AddPending => AddPendingSame(s); DatedSame(s, Next(s, a));
    case CloseEnd => CloseEndSame(s); DatedSame(s, Next(s, a));
    case _ => OtherSame(s, a); DatedSame(s, Next(s, a));
  }

  lemma AddPendingSame(s: State)
    requires Enabled(s, AddPending)
    ensures SameContexts(s, Next(s, AddPending)) && Next(s, AddPending).table.batches == s.table.batches
  {
    hide Keys, Moved, Table.AddAll;
    AddAllSame(s.table, s.worker.ctx, s.worker.batch);
  }

  lemma CloseEndSame(s: State)
    requires Enabled(s, CloseEnd)
    ensures SameContexts(s, Next(s, CloseEnd)) && Next(s, CloseEnd).table.batches == s.table.batches
  {
    hide Keys, Moved, Table.TerminateQueued;
    TerminateSame(s.table.(stopped := true), s.queue);
  }

  lemma KnownStep(s: State, a: Action)
    requires Known(s) && Enabled(s, a)
    ensures Known(Next(s, a))
  {
    hide Keys, Moved, Applied;
    match a
    case DrawNext(_) =>
    case Issue =>
    case Drain =>
    case Peep =>
    case Increase =>
    case SwapCount =>
    case AddPending => AddAllSame(s.table, s.worker.ctx, s.worker.batch);
    case Apply(index) => AppliedSystem(s, index);
    case CloseEnd => TerminateSame(s.table.(stopped := true), s.queue);
    case Ready(_, _) =>
    case Submit(_) =>
    case Enqueue(_) =>
    case _ =>
  }

  lemma AppliedSystem(s: State, index: uint64)
    ensures Applied(s, index).table.system == s.table.system
    ensures Applied(s, index) ==
            s.(table := Applied(s, index).table, place := Applied(s, index).place, completedAt := Applied(s, index).completedAt)
  {
    hide Table.Serve, Table.Gc, Moved;
    var t := s.table.Serve(index);
    ServeKeepsContexts(s.table, index);
    assert t.(lastGcTime := s.table.tick).Gc(s.table.tick).system == t.system by { GcSystem(t.(lastGcTime := s.table.tick), s.table.tick); }
  }

  lemma GcSystem(t: Table, now: nat)
    ensures t.Gc(now).system == t.system
  {
  }

  ghost predicate Told(s: State) { Tracked(s) && LinearizableReads.Contexts(s) && Dated(s) && Known(s) }

  lemma {:induction false} RunTold(s: State, acts: seq<Action>)
    requires Told(s) && IsRun(s, acts)
    ensures Told(Run(s, acts))
    decreases |acts|
  {
    hide Tracked, LinearizableReads.Contexts, Dated, Next;
    if acts != [] {
      TrackedStep(s, acts[0]);
      ContextsStep(s, acts[0]);
      DatedStep(s, acts[0]);
      hide Known;
      KnownStep(s, acts[0]);
      RunTold(Next(s, acts[0]), acts[1..]);
    }
  }

  lemma StartTold(system: SystemCtx, size: nat, tickInMillisecond: Positive)
    ensures Told(Start(system, size, tickInMillisecond))
  {
  }

  // ---- contexts ----

  lemma OtherBatches(s: State, a: Action, c: SystemCtx)
    requires Enabled(s, a) && !a.Apply? && !(a.Ready? && a.ctx == c) && c in s.table.batches
    ensures c in Next(s, a).table.batches && Next(s, a).table.batches[c] == s.table.batches[c]
  {
    hide Keys, Moved, Applied, Table.AddPending, Table.Terminate;
    match a
    case AddPending => AddPendingSame(s);
    case CloseEnd => CloseEndSame(s);
    case Submit(_) =>
    case Enqueue(_) =>
    case Drain =>
    case Peep =>
    case Increase =>
    case SwapCount =>
    case DrawNext(_) =>
    case Issue =>
    case Ready(_, _) =>
    case _ =>
  }

  lemma ApplyBatches(s: State, index: uint64, c: SystemCtx)
    requires Told(s) && Enabled(s, Apply(index)) && c in s.table.batches
    ensures c in s.issueTick
    ensures var t := Next(s, Apply(index)).table;
            && (c in t.batches <==> !(Collects(s.table) && s.table.lastGcTime <= ExpiryOf(s, c) < s.table.tick))
            && (c in t.batches ==> t.batches[c] == s.table.batches[c])
  {
    hide Table.Applied, Moved, Tracked;
    AppliedForgets(s.table, index, c);
    assert Lists(s.table, c) <==> s.table.lastGcTime <= ExpiryOf(s, c);
  }

  /**
    * Over every run: a confirmed context stays confirmed at its index, whatever happens, except that a
    * collection at a tick past its issue tick plus the time contexts are kept forgets it, unless an
    * earlier one past that tick has already passed it by.
    */
  lemma ContextKeptExactly(system: SystemCtx, size: nat, tickInMillisecond: Positive, acts: seq<Action>, a: Action, c: SystemCtx)
    requires IsRun(Start(system, size, tickInMillisecond), acts)
    requires var s := Run(Start(system, size, tickInMillisecond), acts);
             Enabled(s, a) && c in s.table.batches && !(a.Ready? && a.ctx == c)
    ensures var s := Run(Start(system, size, tickInMillisecond), acts);
            && c in s.issueTick
            && var t, last := Next(s, a).table, Expiry(s.issueTick[c], s.table.tickInMillisecond);
            && (c in t.batches <==> !(a.Apply? && Collects(s.table) && s.table.lastGcTime <= last < s.table.tick))
            && (c in t.batches ==> t.batches[c] == s.table.batches[c])
  {
    var s := Run(Start(system, size, tickInMillisecond), acts);
    StartTold(system, size, tickInMillisecond);
    RunTold(Start(system, size, tickInMillisecond), acts);
    hide IsRun, Run, Next;
    if a.Apply? {
      ApplyBatches(s, a.index, c);
    } else {
      OtherBatches(s, a, c);
    }
  }

  // ---- reads ----

  /** The read waits for `c`, confirmed at `x`, and neither is late. */
  ghost predicate Ready(s: State, k: Key, deadline: nat, c: SystemCtx, x: uint64, last: nat) {
    && k in s.table.pending && s.table.pending[k].deadline == deadline
    && k in s.table.mapping && s.table.mapping[k] == c
    && c in s.table.batches && s.table.batches[c] == x
    && c in s.issueTick && ExpiryOf(s, c) == last
  }

  lemma OtherReads(s: State, a: Action, k: Key)
    requires Tracked(s) && Enabled(s, a) && !a.Apply? && !a.CloseEnd? && k in s.table.pending && !s.table.stopped
    ensures k in s.table.mapping
    ensures var t := Next(s, a).table;
            k in t.pending && t.pending[k] == s.table.pending[k] && k in t.mapping && t.mapping[k] == s.table.mapping[k]
  {
    hide At, Distinct, Keys, Moved, Applied, Table.AddAll, Table.Terminate;
    match a
    case AddPending => MappingKept(s, k); AddPendingStep(s, k);
    case Submit(_) =>
    case Enqueue(_) =>
    case Drain =>
    case Peep =>
    case Increase =>
    case SwapCount =>
    case DrawNext(_) =>
    case Issue =>
    case Ready(_, _) =>
    case _ =>
  }

  lemma MappingKept(s: State, k: Key)
    requires Tracked(s) && Enabled(s, AddPending) && k in s.table.pending && !s.table.stopped
    ensures k in s.table.mapping
    ensures var t := Next(s, AddPending).table; k in t.mapping && t.mapping[k] == s.table.mapping[k]
  {
    hide At, Distinct, Keys, Moved, Table.AddAll;
    PlacesDisjoint(s.place, Pending, Drained);
    PlacesDisjoint(s.place, Pending, Notified);
    AddAllAdds(s.table, s.worker.ctx, s.worker.batch);
  }

  lemma ApplyReads(s: State, index: uint64, k: Key)
    requires Tracked(s) && Enabled(s, Apply(index)) && k in s.table.pending && !s.table.stopped
    requires k !in s.table.Readable(index) && s.table.pending[k].deadline >= s.table.tick
    ensures k in s.table.mapping
    ensures var t := Next(s, Apply(index)).table;
            k in t.pending && t.pending[k] == s.table.pending[k] && k in t.mapping && t.mapping[k] == s.table.mapping[k]
  {
    hide At, Distinct, Keys, Moved, Table.Applied, Table.Readable;
    PlacesDisjoint(s.place, Pending, Notified);
    AppliedServes(s.table, index);
    AppliedLeaves(s.table, index, k);
  }

  lemma IssueTickKept(s: State, a: Action, c: SystemCtx)
    requires Known(s) && Enabled(s, a) && c in s.issueTick
    ensures c in Next(s, a).issueTick && ExpiryOf(Next(s, a), c) == ExpiryOf(s, c)
    ensures Next(s, a).table.tick >= s.table.tick
  {
    hide Keys, Moved, Applied, Table.AddPending, Table.Terminate;
    match a
    case DrawNext(_) =>
    case Apply(index) => ApplyTick(s, index);
    case AddPending => AddPendingSame(s);
    case CloseEnd => CloseEndSame(s);
    case _ => OtherSame(s, a);
  }

  lemma ApplyTick(s: State, index: uint64)
    ensures Applied(s, index).issueTick == s.issueTick && Applied(s, index).table.tick == s.table.tick
    ensures Applied(s, index).table.tickInMillisecond == s.table.tickInMillisecond
  {
    hide Moved;
  }

  lemma ReadyStep(s: State, a: Action, k: Key, deadline: nat, c: SystemCtx, x: uint64, last: nat)
    requires Told(s) && Ready(s, k, deadline, c, x, last) && Enabled(s, a) && s.closer.Open?
    requires !(a.Ready? && a.ctx == c) && (a.Apply? ==> a.index < x) && !a.CloseEnd?
    requires s.table.tick <= last && s.table.tick < deadline
    ensures Ready(Next(s, a), k, deadline, c, x, last) && Next(s, a).table.tick >= s.table.tick
  {
    assert !s.table.stopped;
    hide Tracked, LinearizableReads.Contexts, Dated, Next;
    IssueTickKept(s, a, c);
    hide Known;
    if a.Apply? {
      ApplyBatches(s, a.index, c);
      assert k !in s.table.Readable(a.index);
      ApplyReads(s, a.index, k);
    } else {
      OtherBatches(s, a, c);
      OtherReads(s, a, k);
    }
  }

  lemma {:induction false} TickGrows(s: State, acts: seq<Action>, c: SystemCtx)
    requires Known(s) && IsRun(s, acts) && c in s.issueTick
    ensures Run(s, acts).table.tick >= s.table.tick
    decreases |acts|
  {
    hide Next;
    if acts != [] {
      IssueTickKept(s, acts[0], c);
      hide Known;
      KnownStep(s, acts[0]);
      TickGrows(Next(s, acts[0]), acts[1..], c);
    }
  }

  /** No other confirmation of `c`, and no application as far as `x`. */
  predicate Before(acts: seq<Action>, c: SystemCtx, x: uint64) {
    forall a | a in acts :: !(a.Ready? && a.ctx == c) && (a.Apply? ==> a.index < x)
  }

  lemma {:induction false} ReadyThroughout(s: State, acts: seq<Action>, k: Key, deadline: nat, c: SystemCtx, x: uint64, last: nat)
    requires Told(s) && Ready(s, k, deadline, c, x, last) && IsRun(s, acts) && Before(acts, c, x)
    requires Run(s, acts).closer.Open? && Run(s, acts).table.tick <= last && Run(s, acts).table.tick < deadline
    ensures Ready(Run(s, acts), k, deadline, c, x, last) && Told(Run(s, acts))
    decreases |acts|
  {
    hide Tracked, LinearizableReads.Contexts, Dated, Next;
    if acts != [] {
      var a := acts[0];
      WasOpen(s, acts);
      TickGrows(s, acts, c);
      hide Known;
      assert !a.CloseEnd? by { StillOpen(s, acts); }
      ReadyStep(s, a, k, deadline, c, x, last);
      TrackedStep(s, a);
      ContextsStep(s, a);
      DatedStep(s, a);
      KnownStep(s, a);
      assert forall b | b in acts[1..] :: b in acts;
      ReadyThroughout(Next(s, a), acts[1..], k, deadline, c, x, last);
    }
  }

  lemma StillOpen(s: State, acts: seq<Action>)
    requires acts != [] && IsRun(s, acts) && s.closer.Open?
    ensures !acts[0].CloseEnd?
  {
  }

  /**
    * Over every run: a pending read whose context was confirmed at `x` is completed by the first
    * application of an index at or above `x` that comes before its deadline and no later than the tick up
    * to which the context is kept.
    */
  lemma ConfirmedReadCompletes(system: SystemCtx, size: nat, tickInMillisecond: Positive, acts: seq<Action>,
                               more: seq<Action>, k: Key, index: uint64)
    requires IsRun(Start(system, size, tickInMillisecond), acts)
    requires var s := Run(Start(system, size, tickInMillisecond), acts);
             && k in s.table.pending && k in s.table.mapping && s.table.mapping[k] in s.table.batches
             && var c := s.table.mapping[k];
             && IsRun(s, more) && Before(more, c, s.table.batches[c]) && index >= s.table.batches[c]
             && var t := Run(s, more);
             && Enabled(t, Apply(index)) && t.closer.Open? && t.table.tick < s.table.pending[k].deadline
             && c in s.issueTick && t.table.tick <= Expiry(s.issueTick[c], tickInMillisecond)
    ensures var t := Next(Run(Run(Start(system, size, tickInMillisecond), acts), more), Apply(index)).table;
            k !in t.pending && k in t.notified && t.notified[k] == Completed
  {
    var s0 := Start(system, size, tickInMillisecond);
    var s := Run(s0, acts);
    StartTold(system, size, tickInMillisecond);
    RunTold(s0, acts);
    SameTickLength(s0, acts);
    hide Told, IsRun, Run, Next, Before;
    Completes(s, more, k, s.table.mapping[k], index);
  }

  lemma Completes(s: State, more: seq<Action>, k: Key, c: SystemCtx, index: uint64)
    requires Told(s) && k in s.table.pending && k in s.table.mapping && s.table.mapping[k] == c && c in s.table.batches
    requires IsRun(s, more) && Before(more, c, s.table.batches[c]) && index >= s.table.batches[c]
    requires Enabled(Run(s, more), Apply(index)) && Run(s, more).closer.Open?
    requires Run(s, more).table.tick < s.table.pending[k].deadline
    requires c in s.issueTick && Run(s, more).table.tick <= ExpiryOf(s, c)
    ensures var t := Next(Run(s, more), Apply(index)).table;
            k !in t.pending && k in t.notified && t.notified[k] == Completed
  {
    hide Told, IsRun, Run, Before, Table.Applied, Moved;
    var t := Run(s, more);
    ReadyThroughout(s, more, k, s.table.pending[k].deadline, c, s.table.batches[c], ExpiryOf(s, c));
    NotStopped(t);
    assert k in t.table.Readable(index);
    AppliedServesAll(t.table, index, k);
  }

  lemma NotStopped(s: State)
    requires Told(s) && s.closer.Open?
    ensures !s.table.stopped
  {
  }

  lemma {:induction false} SameTickLength(s: State, acts: seq<Action>)
    requires IsRun(s, acts)
    ensures Run(s, acts).table.tickInMillisecond == s.table.tickInMillisecond
    decreases |acts|
  {
    hide Next;
    if acts != [] {
      TickLengthKept(s, acts[0]);
      SameTickLength(Next(s, acts[0]), acts[1..]);
    }
  }

  lemma TickLengthKept(s: State, a: Action)
    requires Enabled(s, a)
    ensures Next(s, a).table.tickInMillisecond == s.table.tickInMillisecond
  {
    hide Keys, Moved, Applied, Table.AddPending, Table.Terminate;
    match a
    case DrawNext(_) =>
    case Apply(index) => ApplyTick(s, index);
    case AddPending => AddPendingSame(s);
    case CloseEnd => CloseEndSame(s);
    case _ => OtherSame(s, a);
  }
}
