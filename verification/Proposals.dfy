/** One shard of the table of proposals in progress. */
module Proposals {
  import opened Bits
  import opened Clock

  type Key = uint64

  datatype Proposal = Proposal(key: Key, clientId: uint64, seriesId: uint64, deadline: nat)

  datatype Result = Timeout | Terminated | Completed(value: uint64) | Rejected(value: uint64)

  /** An entry the state machine has applied, as reported to the shard. */
  datatype Report = Report(clientId: uint64, seriesId: uint64, key: Key, value: uint64, rejected: bool)
  {
    function Result(): Result { if rejected then Rejected(value) else Completed(value) }

    predicate For(p: Proposal) { p.key == key && p.clientId == clientId && p.seriesId == seriesId }
  }

  datatype Shard = Shard(
    pending: map<Key, Proposal>, stopped: bool, tick: nat, lastGcTime: nat,
    notified: map<Key, Result>,
    /** A panic has been raised. */
    panicked: bool)
  {
    /** Delivering a second result to a proposal panics: its channel is full. */
    function Notify(results: map<Key, Result>): Shard {
      this.(notified := notified + results, panicked := panicked || !(results.Keys !! notified.Keys))
    }

    function Insert(p: Proposal): Shard { this.(pending := pending[p.key := p]) }

    function Remove(key: Key): Shard { this.(pending := pending - {key}) }

    function Close(): Shard { this.(stopped := true).Notify(map k | k in pending.Keys :: Terminated) }

    /** The proposal a report is for, if it is still waiting and in time. */
    predicate Matches(r: Report, now: nat) {
      !stopped && r.key in pending && pending[r.key].deadline >= now &&
      pending[r.key].clientId == r.clientId && pending[r.key].seriesId == r.seriesId
    }

    function Late(now: nat): set<Key> { set k | k in pending.Keys && pending[k].deadline < now }

    predicate GcDue(now: nat) { !stopped && Sub64(now, lastGcTime) >= GC_TICK }

    function GcAt(now: nat): Shard {
      if !GcDue(now) then this
      else
        var late := Late(now);
        this.(lastGcTime := now).Notify(map k | k in late :: Timeout).(pending := pending - late)
    }

    /** A report at the present tick, and a collection when this is the first report of the tick. */
    function Applied(r: Report, first: bool): Shard {
      var t := if Matches(r, tick) then Remove(r.key).Notify(map[r.key := r.Result()]) else this;
      if first then t.GcAt(tick) else t
    }
  }

  const NEW_SHARD: Shard := Shard(map[], false, 0, 0, map[], false)

  class ProposalShard {
    var pending: map<Key, Proposal>
    var stopped: bool
    var tick: nat
    var lastGcTime: nat
    var expireNotified: nat
    var notified: map<Key, Result>
    var panicked: bool

    ghost function Now(): Shard
      reads this
    {
      Shard(pending, stopped, tick, lastGcTime, notified, panicked)
    }

    constructor ()
      ensures Now() == NEW_SHARD && expireNotified == 0
    {
      pending, stopped, tick, lastGcTime, expireNotified := map[], false, 0, 0, 0;
      notified, panicked := map[], false;
    }

    method Notify(key: Key, result: Result)
      modifies this`notified, this`panicked
      ensures Now() == old(Now()).Notify(map[key := result])
    {
      if key in notified {
        panicked := true;
      }
      notified := notified + map[key := result];
    }

    /** Delivers each proposal its result, in whatever order the map is iterated. */
    method NotifyEach(results: map<Key, Result>)
      modifies this`notified, this`panicked
      ensures Now() == old(Now()).Notify(results)
    {
      hide Shard.Notify;
      var todo := results.Keys;
      ghost var done: map<Key, Result> := map[];
      NotifyNone(Now());
      while todo != {}
        invariant todo <= results.Keys && done.Keys == results.Keys - todo
        invariant forall k | k in done :: done[k] == results[k]
        invariant Now() == old(Now()).Notify(done)
        decreases todo
      {
        var k :| k in todo;
        Notify(k, results[k]);
        NotifyOneMore(old(Now()), done, k, results[k]);
        todo := todo - {k};
        done := done[k := results[k]];
      }
      assert done == results;
    }

    /** The first locked section of propose. */
    method Insert(p: Proposal)
      modifies this`pending
      ensures Now() == old(Now()).Insert(p)
    {
      pending := pending[p.key := p];
    }

    /** The second locked section of propose, when the entry was not queued. */
    method Withdraw(key: Key)
      modifies this`pending
      ensures Now() == old(Now()).Remove(key)
    {
      pending := pending - {key};
    }

    method Close()
      modifies this`stopped, this`notified, this`panicked
      ensures Now() == old(Now()).Close()
    {
      stopped := true;
      NotifyEach(map k | k in pending.Keys :: Terminated);
    }

    method GetProposal(r: Report, now: nat) returns (found: bool, p: Proposal)
      modifies this`pending
      ensures found == old(Now()).Matches(r, now)
      ensures Now() == if found then old(Now()).Remove(r.key) else old(Now())
      ensures found ==> p == old(pending)[r.key]
    {
      found, p := false, Proposal(0, 0, 0, 0);
      if stopped {
        return;
      }
      if r.key in pending && pending[r.key].deadline >= now {
        p := pending[r.key];
        if p.clientId == r.clientId && p.seriesId == r.seriesId {
          pending := pending - {r.key};
          found := true;
        }
      }
    }

    /** A whole call without interference: answer the proposal, then collect at most once per tick. */
    method Applied(r: Report)
      modifies this`pending, this`lastGcTime, this`expireNotified, this`notified, this`panicked
      ensures Now() == old(Now()).Applied(r, tick != old(expireNotified)) && expireNotified == tick
    {
      hide Shard.Notify, Shard.GcAt;
      var now := tick;
      var found, p := GetProposal(r, now);
      if found {
        Notify(r.key, r.Result());
      }
      if tick != expireNotified {
        GcAt(now);
        expireNotified := tick;
      }
    }

    method GcAt(now: nat)
      modifies this`pending, this`lastGcTime, this`notified, this`panicked
      ensures Now() == old(Now()).GcAt(now)
    {
      if stopped {
        return;
      }
      if Sub64(now, lastGcTime) < GC_TICK {
        return;
      }
      lastGcTime := now;
      var late := set k | k in pending.Keys && pending[k].deadline < now;
      NotifyEach(map k | k in late :: Timeout);
      pending := pending - late;
    }
  }

  lemma NotifyNone(t: Shard)
    ensures t.Notify(map[]) == t
  {
    assert t.notified + map[] == t.notified;
  }

  lemma NotifyOneMore(t: Shard, done: map<Key, Result>, k: Key, result: Result)
    requires k !in done
    ensures t.Notify(done).Notify(map[k := result]) == t.Notify(done[k := result])
  {
    assert t.notified + done + map[k := result] == t.notified + done[k := result];
  }

  /** The report is for the proposal: same key, client and series. */
  predicate IsFor(r: Report, k: Key, p: Proposal) { r.key == k && r.clientId == p.clientId && r.seriesId == p.seriesId }

  /** A collection runs with this report: the first of its tick, two ticks after the last. */
  predicate Collects(s: Shard, first: bool) { first && Sub64(s.tick, s.lastGcTime) >= GC_TICK }

  /**
    * What a report does to every proposal of a running shard: the one it is for, if in time, gets its
    * value as completed or rejected and leaves; a late one times out and leaves when a collection runs;
    * every other stays.
    */
  lemma ReportAnswers(s: Shard, r: Report, first: bool, k: Key)
    requires !s.stopped && k in s.pending && k !in s.notified
    ensures var t, p := s.Applied(r, first), s.pending[k];
            if IsFor(r, k, p) && p.deadline >= s.tick then
              k !in t.pending && k in t.notified && t.notified[k] == (if r.rejected then Rejected(r.value) else Completed(r.value))
            else if p.deadline < s.tick && Collects(s, first) then
              k !in t.pending && k in t.notified && t.notified[k] == Timeout
            else
              k in t.pending && t.pending[k] == p && k !in t.notified
  {
  }

  /** Nothing else changes: no result is delivered to, or taken from, a proposal that does not wait. */
  lemma ReportAnswersNoOther(s: Shard, r: Report, first: bool, k: Key)
    requires k !in s.pending || s.stopped
    ensures var t := s.Applied(r, first);
            && (k in t.pending <==> k in s.pending) && (k in t.notified <==> k in s.notified)
            && (k in s.notified ==> t.notified[k] == s.notified[k])
  {
    assert s.Late(s.tick) <= s.pending.Keys;
  }
}
