/** The table of linearizable reads in progress: which reads are pending, which system context each
    waits for, and the index at which a confirmed context may be read. */
module PendingReads {
  import opened Bits
  import opened Clock

  /** Milliseconds a context is remembered, which also bounds the list of contexts. */
  const SYS_GC_MILLISECOND: nat := 15000

  /** A tick lasts at least a millisecond. */
  type Positive = x: int | x > 0 witness 1

  /** A read's key comes from a counter. */
  type Key = nat

  datatype SystemCtx = SystemCtx(low: uint64, high: uint64)

  datatype Read = Read(key: Key, deadline: nat)

  datatype Code = Timeout | Completed | Terminated

  datatype GcTime = GcTime(ctx: SystemCtx, expireTime: nat)

  datatype Table = Table(
    pending: map<Key, Read>, batches: map<SystemCtx, uint64>, mapping: map<Key, SystemCtx>,
    system: SystemCtx, systemGcTime: seq<GcTime>, stopped: bool,
    tick: nat, lastGcTime: nat, tickInMillisecond: Positive,
    /** The result delivered on each read's channel of capacity one. */
    notified: map<Key, Code>,
    /** A panic has been raised. */
    panicked: bool)
  {
    /** Delivering a second result to a read panics: its channel is full. */
    function Notify(results: map<Key, Code>): Table {
      this.(notified := notified + results,
            panicked := panicked || !(results.Keys !! notified.Keys))
    }

    function Drop(keys: set<Key>): Table {
      this.(pending := pending - keys, mapping := mapping - keys)
    }

    /** Takes the current context for issuing and draws the next one. */
    function NextCtx(drawn: SystemCtx): Table {
      this.(system := drawn,
            systemGcTime := systemGcTime +
              [GcTime(system, tick + SYS_GC_MILLISECOND / tickInMillisecond)])
    }

    function AddReady(ctx: SystemCtx, index: uint64): Table { this.(batches := batches[ctx := index]) }

    function AddOne(ctx: SystemCtx, req: Read): Table {
      this.(pending := pending[req.key := req], mapping := mapping[req.key := ctx],
            panicked := panicked || req.key in pending)
    }

    function AddAll(ctx: SystemCtx, reqs: seq<Read>): Table
      decreases |reqs|
    {
      if reqs == [] then this else AddOne(ctx, reqs[0]).AddAll(ctx, reqs[1..])
    }

    function AddPending(ctx: SystemCtx, reqs: seq<Read>): Table {
      if stopped then this else AddAll(ctx, reqs)
    }

    /** The reads whose context has been confirmed at an index already applied. */
    function Readable(applied: uint64): set<Key> {
      set k | k in pending.Keys && k in mapping && mapping[k] in batches && batches[mapping[k]] <= applied
    }

    function Outcomes(keys: set<Key>): map<Key, Code>
      requires keys <= pending.Keys
    {
      map k | k in keys :: if pending[k].deadline > tick then Completed else Timeout
    }

    function Serve(applied: uint64): Table {
      var keys := Readable(applied);
      Notify(Outcomes(keys)).Drop(keys).(panicked := Notify(Outcomes(keys)).panicked || !(pending.Keys <= mapping.Keys))
    }

    function Late(now: nat): set<Key> { set k | k in pending.Keys && pending[k].deadline < now }

    function Gc(now: nat): Table {
      var n := Expired(systemGcTime, now);
      var late := Late(now);
      this.(batches := batches - Contexts(systemGcTime[..n]), systemGcTime := systemGcTime[n..])
        .Notify(map k | k in late :: Timeout).Drop(late)
    }

    function Applied(applied: uint64): Table {
      if stopped || (|pending| == 0 && |systemGcTime| < SYS_GC_MILLISECOND) then this
      else
        var t := Serve(applied);
        if tick - lastGcTime < GC_TICK then t else t.(lastGcTime := tick).Gc(tick)
    }

    function TerminateQueued(reqs: seq<Read>): Table
      decreases |reqs|
    {
      if reqs == [] then this else Notify(map[reqs[0].key := Terminated]).TerminateQueued(reqs[1..])
    }

    /** Terminates what was still queued and everything pending; pending reads stay in the table. */
    function Terminate(queued: seq<Read>): Table {
      this.(stopped := true).TerminateQueued(queued).Notify(map k | k in pending.Keys :: Terminated)
    }
  }

  function Keys(reqs: seq<Read>): set<Key> { set r | r in reqs :: r.key }

  function Contexts(gcs: seq<GcTime>): set<SystemCtx> { set g | g in gcs :: g.ctx }

  /** The number of expired contexts at the front of the list. */
  function Expired(gcs: seq<GcTime>, now: nat): (n: nat)
    ensures n <= |gcs|
  {
    if gcs == [] || gcs[0].expireTime >= now then 0 else 1 + Expired(gcs[1..], now)
  }

  function NewTable(system: SystemCtx, tickInMillisecond: Positive): Table {
    Table(map[], map[], map[], system, [], false, 0, 0, tickInMillisecond, map[], false)
  }

  class PendingReadIndex {
    const tickInMillisecond: Positive
    var pending: map<Key, Read>
    var batches: map<SystemCtx, uint64>
    var mapping: map<Key, SystemCtx>
    var system: SystemCtx
    var systemGcTime: seq<GcTime>
    var stopped: bool
    var tick: nat
    var lastGcTime: nat
    var notified: map<Key, Code>
    var panicked: bool

    ghost function Now(): Table
      reads this
    {
      Table(pending, batches, mapping, system, systemGcTime, stopped,
            tick, lastGcTime, tickInMillisecond, notified, panicked)
    }

    constructor (system: SystemCtx, tickInMillisecond: Positive)
      ensures Now() == NewTable(system, tickInMillisecond)
    {
      this.system, this.tickInMillisecond := system, tickInMillisecond;
      pending, batches, mapping, systemGcTime := map[], map[], map[], [];
      stopped, tick, lastGcTime := false, 0, 0;
      notified, panicked := map[], false;
    }

    method IncreaseTick()
      modifies this`tick
      ensures Now() == old(Now()).(tick := old(tick) + 1)
    {
      tick := tick + 1;
    }

    method Notify(key: Key, code: Code)
      modifies this`notified, this`panicked
      ensures Now() == old(Now()).Notify(map[key := code])
    {
      if key in notified {
        panicked := true;
      }
      notified := notified + map[key := code];
    }

    method NextCtx(drawn: SystemCtx) returns (v: SystemCtx)
      modifies this`system, this`systemGcTime
      ensures v == old(system) && Now() == old(Now()).NextCtx(drawn)
    {
      v := system;
      system := drawn;
      var expireTick := SYS_GC_MILLISECOND / tickInMillisecond;
      systemGcTime := systemGcTime + [GcTime(v, tick + expireTick)];
    }

    method PeepNextCtx() returns (v: SystemCtx)
      ensures v == system
    {
      v := system;
    }

    method AddReadyToRead(ctx: SystemCtx, index: uint64)
      modifies this`batches
      ensures Now() == old(Now()).AddReady(ctx, index)
    {
      batches := batches[ctx := index];
    }

    method AddPendingRead(ctx: SystemCtx, reqs: seq<Read>)
      modifies this`pending, this`mapping, this`panicked
      ensures Now() == old(Now()).AddPending(ctx, reqs)
    {
      if stopped {
        return;
      }
      for i := 0 to |reqs|
        invariant Now().AddAll(ctx, reqs[i..]) == old(Now()).AddAll(ctx, reqs)
      {
        assert reqs[i..][0] == reqs[i] && reqs[i..][1..] == reqs[i + 1..];
        var req := reqs[i];
        if req.key in pending {
          panicked := true;
        }
        pending := pending[req.key := req];
        mapping := mapping[req.key := ctx];
      }
    }

    /** Delivers each read its result, in whatever order the map is iterated. */
    method NotifyEach(results: map<Key, Code>)
      modifies this`notified, this`panicked
      ensures Now() == old(Now()).Notify(results)
    {
      hide Table.Notify;
      var todo := results.Keys;
      ghost var done: map<Key, Code> := map[];
      NotifyNone(Now());
      while todo != {}
        invariant todo <= results.Keys && done.Keys == results.Keys - todo
        invariant forall k | k in done :: done[k] == results[k]
        invariant Now() == old(Now()).Notify(done)
        decreases todo
      {
        var k :| k in todo;
        Notify(k, results[k]);
        NotifyOneMore(old(Now()), done, k, results[k]);
        todo := todo - {k};
        done := done[k := results[k]];
      }
      assert done == results;
    }

    method FindReadable(applied: uint64) returns (toDelete: set<Key>, missing: bool)
      ensures toDelete <= pending.Keys
      ensures toDelete == Now().Readable(applied) && missing == !(pending.Keys <= mapping.Keys)
    {
      var todo := pending.Keys;
      toDelete, missing := {}, false;
      while todo != {}
        invariant todo <= pending.Keys && toDelete == Now().Readable(applied) - todo
        invariant missing == !(pending.Keys - todo <= mapping.Keys)
        decreases todo
      {
        var k :| k in todo;
        if k !in mapping {
          missing := true;
        } else if mapping[k] in batches && batches[mapping[k]] <= applied {
          toDelete := toDelete + {k};
        }
        todo := todo - {k};
      }
    }

    method Serve(applied: uint64)
      modifies this`pending, this`mapping, this`notified, this`panicked
      ensures Now() == old(Now()).Serve(applied)
    {
      hide Table.Readable;
      var toDelete, missing := FindReadable(applied);
      NotifyEach(map k | k in toDelete :: if pending[k].deadline > tick then Completed else Timeout);
      panicked := panicked || missing;
      pending := pending - toDelete;
      mapping := mapping - toDelete;
    }

    method Applied(applied: uint64)
      modifies this`pending, this`mapping, this`batches, this`systemGcTime, this`lastGcTime,
               this`notified, this`panicked
      ensures Now() == old(Now()).Applied(applied)
    {
      hide Table.Gc, Table.Serve;
      if stopped {
        return;
      }
      if |pending| == 0 && |systemGcTime| < SYS_GC_MILLISECOND {
        return;
      }
      var now := tick;
      Serve(applied);
      if now - lastGcTime < GC_TICK {
        return;
      }
      lastGcTime := now;
      Gc(now);
    }

    method Gc(now: nat)
      modifies this`pending, this`mapping, this`batches, this`systemGcTime, this`notified, this`panicked
      ensures Now() == old(Now()).Gc(now)
    {
      GcContexts(now);
      var late := set k | k in pending.Keys && pending[k].deadline < now;
      NotifyEach(map k | k in late :: Timeout);
      pending := pending - late;
      mapping := mapping - late;
    }

    /** Forgets the contexts at the front of the list that have expired. */
    method GcContexts(now: nat)
      modifies this`batches, this`systemGcTime
      ensures var n := Expired(old(systemGcTime), now);
              Now() == old(Now()).(batches := old(batches) - Contexts(old(systemGcTime)[..n]),
                                   systemGcTime := old(systemGcTime)[n..])
    {
      var n := 0;
      NoContexts(systemGcTime, batches);
      while n < |systemGcTime| && systemGcTime[n].expireTime < now
        invariant systemGcTime == old(systemGcTime)
        invariant n <= |systemGcTime| && n + Expired(systemGcTime[n..], now) == Expired(systemGcTime, now)
        invariant batches == old(batches) - Contexts(systemGcTime[..n])
      {
        assert systemGcTime[n..][1..] == systemGcTime[n + 1..];
        MoreContexts(systemGcTime, n);
        batches := batches - {systemGcTime[n].ctx};
        n := n + 1;
      }
      systemGcTime := systemGcTime[n..];
    }

    method Close(queued: seq<Read>)
      modifies this`stopped, this`notified, this`panicked
      ensures Now() == old(Now()).Terminate(queued)
    {
      hide Table.Notify;
      stopped := true;
      for i := 0 to |queued|
        invariant Now().TerminateQueued(queued[i..]) == old(Now()).(stopped := true).TerminateQueued(queued)
        invariant pending == old(pending)
      {
        assert queued[i..][0] == queued[i] && queued[i..][1..] == queued[i + 1..];
        Notify(queued[i].key, Terminated);
      }
      NotifyEach(map k | k in pending.Keys :: Terminated);
    }
  }

  lemma NotifyNone(t: Table)
    ensures t.Notify(map[]) == t
  {
    assert t.notified + map[] == t.notified;
  }

  lemma NotifyOneMore(t: Table, done: map<Key, Code>, k: Key, code: Code)
    requires k !in done
    ensures t.Notify(done).Notify(map[k := code]) == t.Notify(done[k := code])
  {
    assert t.notified + done + map[k := code] == t.notified + done[k := code];
  }

  lemma NoContexts(gcs: seq<GcTime>, batches: map<SystemCtx, uint64>)
    ensures batches - Contexts(gcs[..0]) == batches && gcs[0..] == gcs
  {
  }

  lemma MoreContexts(gcs: seq<GcTime>, n: nat)
    requires n < |gcs|
    ensures Contexts(gcs[..n + 1]) == Contexts(gcs[..n]) + {gcs[n].ctx}
  {
    assert gcs[..n + 1] == gcs[..n] + [gcs[n]];
  }
}
