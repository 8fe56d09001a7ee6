/** Proposals over whole runs: clients propose, entries are applied, ticks pass, collections run with
    a tick read earlier, and the shard closes, interleaved at the granularity of the shard's lock. */
module ProposalRuns {
  import opened Bits
  import opened Clock
  import opened Proposals

  /** How far a client's call to propose has come. */
  datatype Caller =
    | Prepared   // deadline computed, not yet in the table
    | Inserted   // in the table, the entry not yet queued
    | Failing    // the queue refused the entry
    | Accepted
    | Withdrawn  // the call returned an error

  /** The commit worker between taking a proposal out of the table and answering it. */
  datatype Applier = Free | Telling(p: Proposal, report: Report)

  datatype State = State(
    shard: Shard, queueStopped: bool, applier: Applier,
    callers: map<Key, Caller>,
    requests: map<Key, Proposal>,
    /** The report each completed or rejected proposal was answered from. */
    answers: map<Key, Report>,
    /** Proposals that reached the table with a deadline before the last collection. */
    overdue: set<Key>)

  const START: State := State(NEW_SHARD, false, Free, map[], map[], map[], {})

  datatype Action =
    | Prepare(key: Key, clientId: uint64, seriesId: uint64, timeoutTick: nat)
    | Insert(key: Key)
    /** The queue takes the entry or, full or closed, refuses it. */
    | Queue(key: Key, added: bool)
    | Withdraw(key: Key)
    | Take(report: Report, now: nat)
    | Tell
    | Gc(now: nat)
    | Tick
    | CloseQueue
    | Close

  /** Keys are never drawn twice, and a tick read earlier is not ahead of the clock. */
  predicate Enabled(s: State, a: Action) {
    match a
    case Prepare(key, _, _, timeoutTick) => key !in s.callers && timeoutTick > 0
    case Insert(key) => key in s.callers && s.callers[key].Prepared?
    case Queue(key, added) => key in s.callers && s.callers[key].Inserted? && (s.queueStopped ==> !added)
    case Withdraw(key) => key in s.callers && s.callers[key].Failing?
    case Take(_, now) => s.applier.Free? && now <= s.shard.tick
    case Tell => s.applier.Telling?
    case Gc(now) => now <= s.shard.tick
    case Tick => s.shard.tick + 1 < TWO_64
    case CloseQueue => true
    case Close => !s.shard.stopped
  }

  function Next(s: State, a: Action): State
    requires Enabled(s, a)
  {
    match a
    case Prepare(key, clientId, seriesId, timeoutTick) =>
      s.(callers := s.callers[key := Prepared],
         requests := s.requests[key := Proposal(key, clientId, seriesId, s.shard.tick + timeoutTick)])
    case Insert(key) =>
      if key !in s.requests then s
      else
        var p := s.requests[key];
        s.(callers := s.callers[key := Inserted], shard := s.shard.Insert(p),
           overdue := if p.deadline < s.shard.lastGcTime then s.overdue + {key} else s.overdue)
    case Queue(key, added) => s.(callers := s.callers[key := if added then Accepted else Failing])
    case Withdraw(key) => s.(callers := s.callers[key := Withdrawn], shard := s.shard.Remove(key))
    case Take(report, now) =>
      if s.shard.Matches(report, now)
      then s.(shard := s.shard.Remove(report.key), applier := Telling(s.shard.pending[report.key], report))
      else s
    case Tell =>
      var key := s.applier.p.key;
      s.(shard := s.shard.Notify(map[key := s.applier.report.Result()]), applier := Free,
         answers := s.answers[key := s.applier.report])
    case Gc(now) =>
      s.(shard := s.shard.GcAt(now), overdue := if s.shard.GcDue(now) then {} else s.overdue)
    case Tick => s.(shard := s.shard.(tick := s.shard.tick + 1))
    case CloseQueue => s.(queueStopped := true)
    case Close => s.(shard := s.shard.Close(), queueStopped := true)
  }

  // ---- what every step keeps ----

  function Held(s: State): set<Key> { if s.applier.Telling? then {s.applier.p.key} else {} }

  /** No proposal is both waiting and answered, in the table and in the worker's hands, or answered
      twice; one that reached the table is in one of these places until its call is withdrawn. */
  ghost predicate OnePlace(s: State) {
    && !s.shard.panicked
    && (!s.shard.stopped ==> s.shard.pending.Keys !! s.shard.notified.Keys)
    && Held(s) !! s.shard.pending.Keys + s.shard.notified.Keys
    && (forall k | k in s.shard.pending.Keys + s.shard.notified.Keys + Held(s) ::
          k in s.callers && !s.callers[k].Prepared?)
    && (forall k | k in s.callers && (s.callers[k].Inserted? || s.callers[k].Failing? || s.callers[k].Accepted?) ::
          k in s.shard.pending.Keys + s.shard.notified.Keys + Held(s))
    && (forall k | k in s.callers && s.callers[k].Withdrawn? :: k !in s.shard.pending)
    && (s.shard.stopped ==> s.queueStopped)
    && (s.shard.stopped ==> forall k | k in s.callers && s.callers[k].Accepted? :: k in s.shard.notified.Keys + Held(s))
  }

  /** Each proposal carries its own identity, and answers are for it. */
  ghost predicate OwnAnswers(s: State) {
    && s.requests.Keys == s.callers.Keys && (forall k | k in s.requests :: s.requests[k].key == k)
    && (forall k | k in s.shard.pending :: k in s.requests && s.shard.pending[k] == s.requests[k])
    && (s.applier.Telling? ==>
          && s.applier.p.key in s.requests && s.requests[s.applier.p.key] == s.applier.p
          && s.applier.report.For(s.applier.p))
    && (forall k | k in s.shard.notified && (s.shard.notified[k].Completed? || s.shard.notified[k].Rejected?) ::
          && k in s.answers && k in s.requests
          && s.answers[k].For(s.requests[k]) && s.answers[k].Result() == s.shard.notified[k])
  }

  /** Collections keep up: unless it was overdue on arrival, no waiting proposal is older than the
      last collection. */
  ghost predicate Collected(s: State) {
    && s.shard.lastGcTime <= s.shard.tick < TWO_64
    && (forall k | k in s.shard.pending && k !in s.overdue :: s.shard.pending[k].deadline >= s.shard.lastGcTime)
  }

  /** A step of a client's call, as opposed to one of the shard's own. */
  predicate OfCaller(a: Action) { a.Prepare? || a.Insert? || a.Queue? || a.Withdraw? }

  lemma OnePlaceCaller(s: State, a: Action)
    requires OnePlace(s) && OwnAnswers(s) && Enabled(s, a) && OfCaller(a)
    ensures OnePlace(Next(s, a))
  {
  }

  lemma OnePlaceShard(s: State, a: Action)
    requires OnePlace(s) && OwnAnswers(s) && Enabled(s, a) && !OfCaller(a)
    ensures OnePlace(Next(s, a))
  {
    if a.Take? && s.shard.Matches(a.report, a.now) {
      assert s.shard.pending[a.report.key].key == a.report.key;
    }
    if a.Gc? {
      assert s.shard.Late(a.now) <= s.shard.pending.Keys;
    }
  }

  lemma OnePlaceStep(s: State, a: Action)
    requires OnePlace(s) && OwnAnswers(s) && Enabled(s, a)
    ensures OnePlace(Next(s, a))
  {
    hide OnePlace, OwnAnswers, Next;
    if OfCaller(a) { OnePlaceCaller(s, a); } else { OnePlaceShard(s, a); }
  }

  lemma OwnAnswersCaller(s: State, a: Action)
    requires OnePlace(s) && OwnAnswers(s) && Enabled(s, a) && OfCaller(a)
    ensures OwnAnswers(Next(s, a))
  {
  }

  lemma OwnAnswersShard(s: State, a: Action)
    requires OnePlace(s) && OwnAnswers(s) && Enabled(s, a) && !OfCaller(a)
    ensures OwnAnswers(Next(s, a))
  {
    if a.Take? && s.shard.Matches(a.report, a.now) {
      assert s.shard.pending[a.report.key].key == a.report.key;
    }
  }

  lemma OwnAnswersStep(s: State, a: Action)
    requires OnePlace(s) && OwnAnswers(s) && Enabled(s, a)
    ensures OwnAnswers(Next(s, a))
  {
    hide OnePlace, OwnAnswers, Next;
    if OfCaller(a) { OwnAnswersCaller(s, a); } else { OwnAnswersShard(s, a); }
  }

  lemma CollectedStep(s: State, a: Action)
    requires OnePlace(s) && OwnAnswers(s) && Collected(s) && Enabled(s, a)
    ensures Collected(Next(s, a))
  {
  }

  ghost predicate Inv(s: State) { OnePlace(s) && OwnAnswers(s) && Collected(s) }

  ghost predicate IsRun(s: State, acts: seq<Action>)
    decreases |acts|
  {
    acts == [] || (Enabled(s, acts[0]) && IsRun(Next(s, acts[0]), acts[1..]))
  }

  ghost function Run(s: State, acts: seq<Action>): State
    requires IsRun(s, acts)
    decreases |acts|
  {
    if acts == [] then s else Run(Next(s, acts[0]), acts[1..])
  }

  lemma {:induction false} RunInv(s: State, acts: seq<Action>)
    requires Inv(s) && IsRun(s, acts)
    ensures Inv(Run(s, acts))
    decreases |acts|
  {
    hide OnePlace, OwnAnswers, Collected, Next;
    if acts != [] {
      OnePlaceStep(s, acts[0]);
      OwnAnswersStep(s, acts[0]);
      CollectedStep(s, acts[0]);
      RunInv(Next(s, acts[0]), acts[1..]);
    }
  }

  lemma StartInv()
    ensures Inv(START)
  {
  }

  /** At most one result per proposal, over every run; an accepted one is waiting, being answered or
      answered, and once the shard is closed none is left waiting; one whose call failed does not wait. */
  lemma ProposalsAnsweredOnce(acts: seq<Action>)
    requires IsRun(START, acts)
    ensures var s := Run(START, acts);
            && !s.shard.panicked
            && (forall k | k in s.callers && s.callers[k].Accepted? ::
                  || (k in s.shard.pending && k !in s.shard.notified && k !in Held(s) && !s.shard.stopped)
                  || (k !in s.shard.notified && k in Held(s))
                  || (k in s.shard.notified && k !in Held(s)))
            && (forall k | k in s.callers && s.callers[k].Withdrawn? :: k !in s.shard.pending)
  {
    StartInv();
    RunInv(START, acts);
  }

  /** A proposal is reported completed only from a report of its own key, client and series that was not
      rejected, and rejected only from one that was, with that report's value. */
  lemma CompletedForItself(acts: seq<Action>, k: Key)
    requires IsRun(START, acts) && k in Run(START, acts).shard.notified
    requires var r := Run(START, acts).shard.notified[k]; r.Completed? || r.Rejected?
    ensures var s := Run(START, acts);
            && k in s.requests && k in s.answers && s.requests[k].key == k
            && IsFor(s.answers[k], k, s.requests[k])
            && (forall v :: s.shard.notified[k] == Completed(v) ==> !s.answers[k].rejected && s.answers[k].value == v)
            && (forall v :: s.shard.notified[k] == Rejected(v) ==> s.answers[k].rejected && s.answers[k].value == v)
  {
    StartInv();
    RunInv(START, acts);
  }

  /** And it is answered: in every run, a report of a waiting proposal's key, client and series, read in
      time on a running shard, takes it out, and telling it delivers the report's verdict and value. */
  lemma WaitingIsAnswered(acts: seq<Action>, k: Key, r: Report, now: nat)
    requires IsRun(START, acts) && Enabled(Run(START, acts), Take(r, now))
    requires var s := Run(START, acts).shard;
             !s.stopped && k in s.pending && IsFor(r, k, s.pending[k]) && s.pending[k].deadline >= now
    ensures var s := Next(Run(START, acts), Take(r, now));
            && k !in s.shard.pending && Enabled(s, Tell)
            && var t := Next(s, Tell).shard;
            && !t.panicked && k in t.notified
            && t.notified[k] == (if r.rejected then Rejected(r.value) else Completed(r.value))
  {
    StartInv();
    RunInv(START, acts);
  }

  /** The close terminates every waiting proposal. */
  lemma CloseTerminates(acts: seq<Action>, k: Key)
    requires IsRun(START, acts) && Enabled(Run(START, acts), Close) && k in Run(START, acts).shard.pending
    ensures var t := Next(Run(START, acts), Close).shard;
            !t.panicked && t.stopped && k in t.notified && t.notified[k] == Terminated
  {
    StartInv();
    RunInv(START, acts);
  }

  /** No other report touches it: it stays in the table, not answered. */
  lemma OtherReportsLeaveIt(acts: seq<Action>, k: Key, r: Report, now: nat)
    requires IsRun(START, acts) && Enabled(Run(START, acts), Take(r, now)) && k in Run(START, acts).shard.pending
    requires var s := Run(START, acts).shard; s.stopped || !IsFor(r, k, s.pending[k]) || s.pending[k].deadline < now
    ensures var s := Run(START, acts); var t := Next(s, Take(r, now));
            k in t.shard.pending && t.shard.pending[k] == s.shard.pending[k] && t.shard.notified == s.shard.notified
  {
  }

  /** Timeout bound: after a collection at `now` on a running shard, a proposal still waiting has a
      deadline above `now - GC_TICK`, unless it was put in the table already overdue and no
      collection has been due since. */
  lemma TimeoutBound(acts: seq<Action>, now: nat, k: Key)
    requires IsRun(START, acts) && Enabled(Run(START, acts), Gc(now)) && !Run(START, acts).shard.stopped
    requires var s := Next(Run(START, acts), Gc(now)); k in s.shard.pending && k !in s.overdue
    ensures Next(Run(START, acts), Gc(now)).shard.pending[k].deadline > now - GC_TICK
  {
    StartInv();
    RunInv(START, acts);
    var s := Run(START, acts);
    if !s.shard.GcDue(now) {
      assert Sub64(now, s.shard.lastGcTime) < GC_TICK;
      SmallDifference(now, s.shard.lastGcTime);
    }
  }

  // ---- exactly when the bound holds ----

  /** Marked proposals came too late for the last collection, and will not come again. */
  ghost predicate Marked(s: State) {
    && (forall k | k in s.overdue && k in s.shard.pending :: s.shard.pending[k].deadline < s.shard.lastGcTime)
    && (forall k | k in s.overdue :: k in s.callers && !s.callers[k].Prepared?)
  }

  lemma MarkedStep(s: State, a: Action)
    requires OnePlace(s) && OwnAnswers(s) && Marked(s) && Enabled(s, a)
    ensures Marked(Next(s, a))
  {
  }

  lemma {:induction false} RunMarked(s: State, acts: seq<Action>)
    requires Inv(s) && Marked(s) && IsRun(s, acts)
    ensures Marked(Run(s, acts))
    decreases |acts|
  {
    hide OnePlace, OwnAnswers, Collected, Marked, Next;
    if acts != [] {
      OnePlaceStep(s, acts[0]);
      OwnAnswersStep(s, acts[0]);
      CollectedStep(s, acts[0]);
      MarkedStep(s, acts[0]);
      RunMarked(Next(s, acts[0]), acts[1..]);
    }
  }

  /** In every run the waiting proposals that arrived overdue and were not seen by a collection since
      are exactly those with a deadline before the last collection. */
  lemma OverdueExactly(acts: seq<Action>, k: Key)
    requires IsRun(START, acts) && k in Run(START, acts).shard.pending
    ensures var s := Run(START, acts); k in s.overdue <==> s.shard.pending[k].deadline < s.shard.lastGcTime
  {
    StartInv();
    RunInv(START, acts);
    RunMarked(START, acts);
  }

  /** A collection at `now`, if it can come next, does not leave `k` waiting past the bound. */
  ghost predicate BoundAt(s: State, k: Key, now: nat) {
    Enabled(s, Gc(now)) && k in Next(s, Gc(now)).shard.pending ==>
      Next(s, Gc(now)).shard.pending[k].deadline > now - GC_TICK
  }

  /** The tick at which a waiting proposal can stay unseen longest: no collection is due at the last
      collection's tick or the one after. */
  function LastUnseen(s: State): int {
    if s.shard.lastGcTime < s.shard.tick then s.shard.lastGcTime + 1 else s.shard.tick
  }

  lemma BoundWhenDue(s: State, k: Key, now: nat)
    requires Collected(s) && !s.shard.stopped && k in s.shard.pending && now <= s.shard.tick
    ensures s.shard.GcDue(now) ==> BoundAt(s, k, now)
    ensures now == s.shard.lastGcTime || now == s.shard.lastGcTime + 1 ==> !s.shard.GcDue(now)
    ensures !s.shard.GcDue(now) ==> now == 0 || now == s.shard.lastGcTime || now == s.shard.lastGcTime + 1
    ensures !s.shard.GcDue(now) ==> (BoundAt(s, k, now) <==> s.shard.pending[k].deadline > now - GC_TICK)
  {
    if now < s.shard.lastGcTime {
      assert Sub64(now, s.shard.lastGcTime) == now - s.shard.lastGcTime + TWO_64;
    } else {
      assert Sub64(now, s.shard.lastGcTime) == now - s.shard.lastGcTime;
    }
  }

  /**
    * Exactly: in every reachable state of a running shard, a waiting proposal meets the bound at every
    * collection that can come next if and only if its deadline is not more than one tick before the
    * last tick at which no collection would be due.
    */
  lemma TimeoutExactly(acts: seq<Action>, k: Key)
    requires IsRun(START, acts) && !Run(START, acts).shard.stopped && k in Run(START, acts).shard.pending
    ensures var s := Run(START, acts);
            (forall now :: BoundAt(s, k, now)) <==> s.shard.pending[k].deadline >= LastUnseen(s) - 1
  {
    StartInv();
    RunInv(START, acts);
    var s := Run(START, acts);
    hide OnePlace, OwnAnswers, Shard.GcDue, BoundAt;
    forall now: nat
      ensures now > s.shard.tick ==> BoundAt(s, k, now)
      ensures now <= s.shard.tick && s.shard.pending[k].deadline >= LastUnseen(s) - 1 ==> BoundAt(s, k, now)
    {
      if now <= s.shard.tick {
        BoundWhenDue(s, k, now);
      } else {
        NotYet(s, k, now);
      }
    }
    BoundWhenDue(s, k, LastUnseen(s));
  }

  lemma NotYet(s: State, k: Key, now: nat)
    requires now > s.shard.tick
    ensures BoundAt(s, k, now)
  {
  }

  /** Once the clock has moved on since the last collection, the proposals that keep the bound are those
      that did not arrive overdue. */
  lemma TimeoutUnlessOverdue(acts: seq<Action>, k: Key)
    requires IsRun(START, acts) && !Run(START, acts).shard.stopped && k in Run(START, acts).shard.pending
    requires Run(START, acts).shard.lastGcTime < Run(START, acts).shard.tick
    ensures var s := Run(START, acts); (forall now :: BoundAt(s, k, now)) <==> k !in s.overdue
  {
    hide BoundAt, IsRun, Run;
    TimeoutExactly(acts, k);
    OverdueExactly(acts, k);
  }

  /** The exception is real: a client that computes its deadline, sleeps through a collection and only
      then reaches the table leaves a proposal that the next collection, not yet due, does not see. */
  lemma OverdueLingers()
    ensures var acts := [Prepare(1, 0, 0, 1), Tick, Tick, Tick, Gc(3), Insert(1)];
            IsRun(START, acts) && Enabled(Run(START, acts), Gc(3)) &&
            var s := Next(Run(START, acts), Gc(3));
            1 in s.shard.pending && s.shard.pending[1].deadline <= 3 - GC_TICK
  {
    hide IsRun, Run, Shard.GcAt, Shard.GcDue;
    var p := Proposal(1, 0, 0, 1);
    var late := State(NEW_SHARD.(tick := 3, lastGcTime := 3, pending := map[1 := p]), false, Free,
                      map[1 := Inserted], map[1 := p], map[], {1});
    var acts: seq<Action> := [Prepare(1, 0, 0, 1), Tick, Tick, Tick, Gc(3), Insert(1)];
    var s4 := late.(shard := NEW_SHARD.(tick := 3), callers := map[1 := Prepared], overdue := {});
    var s5 := s4.(shard := NEW_SHARD.(tick := 3, lastGcTime := 3));
    RunEnds(late, acts);
    RunFrom(s5, acts, 5, late);
    NothingLate(s4, s5);
    RunFrom(s4, acts, 4, s5);
    RunFrom(s4.(shard := NEW_SHARD.(tick := 2)), acts, 3, s4);
    RunFrom(s4.(shard := NEW_SHARD.(tick := 1)), acts, 2, s4.(shard := NEW_SHARD.(tick := 2)));
    RunFrom(s4.(shard := NEW_SHARD), acts, 1, s4.(shard := NEW_SHARD.(tick := 1)));
    RunFrom(START, acts, 0, s4.(shard := NEW_SHARD));
    assert acts[0..] == acts;
    NotDueAgain(late.shard);
  }

  lemma NotDueAgain(s: Shard)
    requires s.lastGcTime == 3
    ensures s.GcAt(3) == s
  {
  }

  lemma NothingLate(s: State, t: State)
    requires s.shard == NEW_SHARD.(tick := 3) && s.overdue == {}
    requires t == s.(shard := NEW_SHARD.(tick := 3, lastGcTime := 3))
    ensures Next(s, Gc(3)) == t
  {
    assert s.shard.Late(3) == {};
    assert s.shard.pending - {} == s.shard.pending;
  }

  lemma RunEnds(s: State, acts: seq<Action>)
    ensures IsRun(s, acts[|acts|..]) && Run(s, acts[|acts|..]) == s
  {
  }

  lemma RunFrom(s: State, acts: seq<Action>, k: nat, t: State)
    requires k < |acts| && Enabled(s, acts[k]) && Next(s, acts[k]) == t && IsRun(t, acts[k + 1..])
    ensures IsRun(s, acts[k..]) && Run(s, acts[k..]) == Run(t, acts[k + 1..])
  {
    assert acts[k..][0] == acts[k] && acts[k..][1..] == acts[k + 1..];
  }

  lemma SmallDifference(a: nat, b: nat)
    requires a < TWO_64 && b < TWO_64 && Sub64(a, b) < GC_TICK
    ensures 0 <= a - b < GC_TICK || a - b <= GC_TICK - TWO_64
  {
  }

  /** Propose as one step: a proposal reaches the table right after its deadline is computed. */
  predicate AtomicPropose(acts: seq<Action>) {
    forall i | 0 <= i < |acts| && acts[i].Insert? :: i > 0 && acts[i - 1].Prepare? && acts[i - 1].key == acts[i].key
  }

  /** The same, for the rest of a run whose first step may insert a proposal that is not late. */
  ghost predicate AtomicRest(s: State, acts: seq<Action>) {
    && (acts != [] && acts[0].Insert? ==> acts[0].key in s.requests && s.requests[acts[0].key].deadline > s.shard.tick)
    && (forall i | 0 < i < |acts| && acts[i].Insert? :: acts[i - 1].Prepare? && acts[i - 1].key == acts[i].key)
  }

  lemma AtomicStep(s: State, acts: seq<Action>)
    requires acts != [] && s.overdue == {} && Collected(s) && Enabled(s, acts[0]) && AtomicRest(s, acts)
    ensures Next(s, acts[0]).overdue == {} && AtomicRest(Next(s, acts[0]), acts[1..])
  {
    var rest := acts[1..];
    assert forall i | 0 <= i < |rest| :: rest[i] == acts[i + 1];
  }

  lemma {:induction false} AtomicNeverOverdue(s: State, acts: seq<Action>)
    requires Inv(s) && s.overdue == {} && IsRun(s, acts) && AtomicRest(s, acts)
    ensures Run(s, acts).overdue == {}
    decreases |acts|
  {
    hide OnePlace, OwnAnswers, Collected, Next;
    if acts != [] {
      AtomicStep(s, acts);
      OnePlaceStep(s, acts[0]);
      OwnAnswersStep(s, acts[0]);
      CollectedStep(s, acts[0]);
      AtomicNeverOverdue(Next(s, acts[0]), acts[1..]);
    }
  }

  /** With propose as one step, every proposal still waiting after a collection at `now` on a running
      shard has a deadline above `now - GC_TICK`. */
  lemma AtomicTimeoutBound(acts: seq<Action>, now: nat, k: Key)
    requires IsRun(START, acts) && AtomicPropose(acts)
    requires Enabled(Run(START, acts), Gc(now)) && !Run(START, acts).shard.stopped
    requires k in Next(Run(START, acts), Gc(now)).shard.pending
    ensures Next(Run(START, acts), Gc(now)).shard.pending[k].deadline > now - GC_TICK
  {
    StartInv();
    AtomicNeverOverdue(START, acts);
    TimeoutBound(acts, now, k);
  }
}
