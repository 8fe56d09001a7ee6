/** The hand-off of a node between its commit worker and its snapshot worker: a paused flag, three
    one-slot records, and the steps the two workers take on them in any order. */
module SnapshotHandoff {
  import opened Bits

  /** The snapshot part of a commit record. */
  datatype Commit = Commit(available: bool, requested: bool, initial: bool, index: uint64)

  /** A one-slot record. */
  datatype Slot = Empty | Full(rec: Commit)

  class SnapshotRecord {
    var record: Commit
    var hasRecord: bool

    constructor ()
      ensures Contents() == Empty
    {
      record, hasRecord := Commit(false, false, false, 0), false;
    }

    ghost function Contents(): Slot
      reads this
    {
      if hasRecord then Full(record) else Empty
    }

    /** Panics, leaving the record alone, when one is already there. */
    method SetRecord(rec: Commit) returns (panicked: bool)
      modifies this
      ensures panicked == old(Contents()).Full?
      ensures Contents() == if panicked then old(Contents()) else Full(rec)
    {
      if hasRecord {
        return true;
      }
      hasRecord, record := true, rec;
      return false;
    }

    method GetRecord() returns (rec: Commit, ok: bool)
      modifies this
      ensures Contents() == Empty && ok == old(Contents()).Full?
      ensures ok ==> rec == old(Contents()).rec
    {
      ok := hasRecord;
      hasRecord := false;
      rec := record;
    }
  }

  // ---- the steps of the two workers ----

  /** Where the commit worker is in its pass over the node. */
  datatype CommitWorker =
    | Begin
    /** It has seen the node paused. */
    | SawPaused
    /** It holds the record of a completed snapshot. */
    | Took(rec: Commit)
    | Unpausing
    /** The node is not paused; initialization is checked next. */
    | Unpaused
    /** Inside handleCommit. */
    | Handling
    /** It is about to pause the node for the snapshot in `rec`. */
    | Pausing(rec: Commit)
    /** The node is paused; it is about to publish `rec`. */
    | Reporting(rec: Commit)

  datatype SnapshotWorker =
    | Free
    | Recovering(rec: Commit)
    | Recovered(index: uint64)
    | Saving
    | Saved

  datatype State = State(
    paused: bool, initialized: bool,
    snapshotReady: Slot, reqSnapshotReady: Slot, completed: Slot,
    commit: CommitWorker, snapshot: SnapshotWorker,
    /** A recovery was aborted by a stop; the node stays paused for good. */
    aborted: bool,
    panicked: bool)

  const START: State := State(false, false, Empty, Empty, Empty, Begin, Free, false, false)

  const INITIAL_CHECK: Commit := Commit(true, false, true, 0)

  datatype Action =
    | LookAtPaused
    | TakeCompleted
    | ActOnCompleted
    | ClearPaused
    | CheckInitialized
    /** handleCommit returns, with a snapshot record when one was in the commit channel. */
    | CommitsHandled(found: Slot)
    | SetPaused
    | Report
    | TakeAvailable
    | TakeRequested
    /** The recovery ends at `index`, or is aborted by a stop. */
    | EndRecovery(index: uint64, stopped: bool)
    | EndSave
    | NotifyCompleted

  /** What handleCommit may find: entries only, an available snapshot, or a request to take one. */
  predicate Published(found: Slot) {
    found.Full? ==> (found.rec.available || found.rec.requested) && !found.rec.initial
  }

  predicate Enabled(s: State, a: Action) {
    !s.panicked &&
    match a
    case LookAtPaused => s.commit.Begin?
    case TakeCompleted => s.commit.SawPaused?
    case ActOnCompleted => s.commit.Took?
    case ClearPaused => s.commit.Unpausing?
    case CheckInitialized => s.commit.Unpaused?
    case CommitsHandled(found) => s.commit.Handling? && Published(found)
    case SetPaused => s.commit.Pausing?
    case Report => s.commit.Reporting?
    case TakeAvailable => s.snapshot.Free?
    case TakeRequested => s.snapshot.Free?
    case EndRecovery(_, _) => s.snapshot.Recovering?
    case EndSave => s.snapshot.Saving?
    case NotifyCompleted => s.snapshot.Recovered? || s.snapshot.Saved?
  }

  function CommitStep(s: State, a: Action): State
    requires Enabled(s, a) && (a.LookAtPaused? || a.TakeCompleted? || a.ActOnCompleted? || a.ClearPaused? ||
                               a.CheckInitialized? || a.CommitsHandled? || a.SetPaused? || a.Report?)
  {
    match a
    case LookAtPaused => s.(commit := if s.paused then SawPaused else Unpaused)
    case TakeCompleted =>
      if s.completed.Empty? then s.(commit := Begin)
      else s.(commit := Took(s.completed.rec), completed := Empty)
    case ActOnCompleted =>
      var rec := s.commit.rec;
      if (rec.requested && !s.initialized) || (rec.initial && s.initialized) then s.(panicked := true)
      else s.(commit := Unpausing, initialized := s.initialized || rec.initial)
    case ClearPaused => s.(paused := false, commit := Unpaused)
    case CheckInitialized => s.(commit := if s.initialized then Handling else Pausing(INITIAL_CHECK))
    case CommitsHandled(found) => s.(commit := if found.Full? then Pausing(found.rec) else Begin)
    case SetPaused => s.(paused := true, commit := Reporting(s.commit.rec))
    case Report =>
      var rec := s.commit.rec;
      if rec.available then
        if s.snapshotReady.Full? then s.(panicked := true)
        else s.(snapshotReady := Full(rec), commit := Begin)
      else if rec.requested then
        if s.reqSnapshotReady.Full? then s.(panicked := true)
        else s.(reqSnapshotReady := Full(rec), commit := Begin)
      else s.(panicked := true)
  }

  /** The record the snapshot worker leaves for the commit worker. */
  function Completion(s: State): Commit
    requires s.snapshot.Recovered? || s.snapshot.Saved?
  {
    if s.snapshot.Saved? then Commit(false, true, false, 0)
    else if !s.initialized then Commit(false, false, true, s.snapshot.index)
    else Commit(false, false, false, 0)
  }

  function SnapshotStep(s: State, a: Action): State
    requires Enabled(s, a) && (a.TakeAvailable? || a.TakeRequested? || a.EndRecovery? || a.EndSave? || a.NotifyCompleted?)
  {
    match a
    case TakeAvailable =>
      if s.snapshotReady.Empty? then s
      else s.(snapshotReady := Empty, snapshot := Recovering(s.snapshotReady.rec))
    case TakeRequested =>
      if s.reqSnapshotReady.Empty? then s
      else s.(reqSnapshotReady := Empty, snapshot := Saving)
    case EndRecovery(index, stopped) =>
      if stopped then s.(snapshot := Free, aborted := true) else s.(snapshot := Recovered(index))
    case EndSave => s.(snapshot := Saved)
    case NotifyCompleted =>
      if s.completed.Full? then s.(panicked := true)
      else s.(completed := Full(Completion(s)), snapshot := Free)
  }

  function Next(s: State, a: Action): State
    requires Enabled(s, a)
  {
    if a.TakeAvailable? || a.TakeRequested? || a.EndRecovery? || a.EndSave? || a.NotifyCompleted?
    then SnapshotStep(s, a) else CommitStep(s, a)
  }

  ghost predicate IsRun(s: State, acts: seq<Action>)
    decreases |acts|
  {
    acts == [] || (Enabled(s, acts[0]) && IsRun(Next(s, acts[0]), acts[1..]))
  }

  ghost function Run(s: State, acts: seq<Action>): State
    requires IsRun(s, acts)
    decreases |acts|
  {
    if acts == [] then s else Run(Next(s, acts[0]), acts[1..])
  }

  // ---- what every step keeps ----

  function One(b: bool): nat { if b then 1 else 0 }

  /** The snapshot tasks in existence: in one of the three slots, with either worker, or aborted. */
  function Tasks(s: State): nat {
    One(s.snapshotReady.Full?) + One(s.reqSnapshotReady.Full?) + One(s.completed.Full?) +
    One(!s.snapshot.Free?) + One(s.aborted) +
    One(s.commit.Reporting? || s.commit.Took? || s.commit.Unpausing?)
  }

  /** The commit worker's position agrees with the flag it has read or set. */
  predicate FlagSeen(s: State) {
    match s.commit
    case Begin => true
    case SawPaused => s.paused
    case Took(_) => s.paused
    case Unpausing => s.paused
    case Unpaused => !s.paused
    case Handling => !s.paused
    case Pausing(_) => !s.paused
    case Reporting(_) => s.paused
  }

  /** A record of the snapshot in hand: the initial check as long as the node is not initialized. */
  predicate Asked(s: State, rec: Commit) {
    rec.initial == !s.initialized && (rec.available || rec.requested) && (!s.initialized ==> rec.available)
  }

  predicate Answered(s: State, rec: Commit) {
    rec.initial == !s.initialized && (!s.initialized ==> !rec.requested)
  }

  /** Before initialization the only task is the initial check. */
  predicate Ordered(s: State) {
    && (s.snapshotReady.Full? ==> Asked(s, s.snapshotReady.rec))
    && (s.completed.Full? ==> Answered(s, s.completed.rec))
    && (s.reqSnapshotReady.Full? || s.snapshot.Saving? || s.snapshot.Saved? ==> s.initialized)
    && match s.commit
       case Took(rec) => Answered(s, rec)
       case Handling => s.initialized
       case Unpausing => s.initialized
       case Pausing(rec) => Asked(s, rec)
       case Reporting(rec) => Asked(s, rec)
       case _ => true
  }

  predicate Inv(s: State) {
    !s.panicked && Tasks(s) == One(s.paused) && FlagSeen(s) && Ordered(s)
  }

  lemma StepInv(s: State, a: Action)
    requires Inv(s) && Enabled(s, a)
    ensures Inv(Next(s, a))
  {
  }

  lemma {:induction false} RunInv(s: State, acts: seq<Action>)
    requires Inv(s) && IsRun(s, acts)
    ensures Inv(Run(s, acts))
    decreases |acts|
  {
    if acts != [] {
      StepInv(s, acts[0]);
      RunInv(Next(s, acts[0]), acts[1..]);
    }
  }

  /** After any interleaving of the two workers: no panic has been reached, a paused node has exactly
      one snapshot task and any other node none, and commits are not applied while a snapshot is
      being saved or recovered. */
  lemma HandoffSafe(acts: seq<Action>)
    requires IsRun(START, acts)
    ensures var s := Run(START, acts);
            && !s.panicked
            && Tasks(s) == (if s.paused then 1 else 0)
            && (s.commit.Handling? ==> s.snapshot.Free? && s.initialized)
  {
    RunInv(START, acts);
  }

  // ---- nobody is forgotten ----

  /** A step that moves the pending snapshot task of a paused node forward. */
  function Helpful(s: State): Action {
    if s.commit.Reporting? then Report
    else if s.commit.Took? then ActOnCompleted
    else if s.commit.Unpausing? then ClearPaused
    else if s.snapshotReady.Full? then TakeAvailable
    else if s.reqSnapshotReady.Full? then TakeRequested
    else if s.snapshot.Recovering? then EndRecovery(0, false)
    else if s.snapshot.Saving? then EndSave
    else if !s.snapshot.Free? then NotifyCompleted
    else if s.commit.Begin? then LookAtPaused
    else TakeCompleted
  }

  /** How many such steps remain. */
  function Remaining(s: State): nat {
    if s.commit.Reporting? then 9
    else if s.commit.Took? then 2
    else if s.commit.Unpausing? then 1
    else if s.snapshotReady.Full? || s.reqSnapshotReady.Full? then 8
    else if s.snapshot.Recovering? || s.snapshot.Saving? then 7
    else if !s.snapshot.Free? then 6
    else if s.commit.Begin? then 4
    else 3
  }

  lemma HelpfulHelps(s: State)
    requires Inv(s) && s.paused && !s.aborted
    ensures Enabled(s, Helpful(s))
    ensures var t := Next(s, Helpful(s));
            !t.aborted && (t.paused ==> Remaining(t) < Remaining(s))
  {
  }

  ghost function HelpfulRun(s: State): (acts: seq<Action>)
    requires Inv(s) && !s.aborted
    ensures IsRun(s, acts) && !Run(s, acts).paused && |acts| <= if s.paused then Remaining(s) else 0
    decreases s.paused, Remaining(s)
  {
    if !s.paused then []
    else
      HelpfulHelps(s);
      StepInv(s, Helpful(s));
      var rest := HelpfulRun(Next(s, Helpful(s)));
      var acts := [Helpful(s)] + rest;
      assert acts[1..] == rest;
      acts
  }

  /** Whatever has happened so far, unless a recovery was aborted by a stop, at most nine worker steps
      resume the node: no pause is left without a worker to end it. */
  lemma PauseEnds(acts: seq<Action>)
    requires IsRun(START, acts) && !Run(START, acts).aborted
    ensures exists more :: IsRun(Run(START, acts), more) && |more| <= 9 && !Run(Run(START, acts), more).paused
  {
    RunInv(START, acts);
    var more := HelpfulRun(Run(START, acts));
  }

  // ---- each pause does what it was asked for ----

  /** The snapshot part that made the commit worker pause last: what handleCommit found, or the initial
      check of a node that is not initialized. */
  ghost function Asking(s: State, acts: seq<Action>, asked: Slot): Slot
    requires IsRun(s, acts)
    decreases |acts|
  {
    if acts == [] then asked
    else Asking(Next(s, acts[0]), acts[1..], AskedBy(s, acts[0], asked))
  }

  function AskedBy(s: State, a: Action, asked: Slot): Slot {
    if a.CommitsHandled? && a.found.Full? then a.found
    else if a.CheckInitialized? && !s.initialized then Full(INITIAL_CHECK)
    else asked
  }

  /** Where the last recovery that was not aborted ended. */
  function RecoveredAt(acts: seq<Action>, index: uint64): uint64
    decreases |acts|
  {
    if acts == [] then index else RecoveredAt(acts[1..], RecoveredBy(acts[0], index))
  }

  function RecoveredBy(a: Action, index: uint64): uint64 { if a.EndRecovery? && !a.stopped then a.index else index }

  /** The index a node is initialized with is where its initial recovery ended. */
  predicate StartsAt(s: State, index: uint64) {
    && (s.snapshot.Recovered? ==> s.snapshot.index == index)
    && (s.completed.Full? && s.completed.rec.initial ==> s.completed.rec.index == index)
    && (s.commit.Took? && s.commit.rec.initial ==> s.commit.rec.index == index)
  }

  /** Whether that has not been dealt with: the commit worker has not acted on its completion yet. */
  ghost function Unanswered(s: State, acts: seq<Action>, open: bool): bool
    requires IsRun(s, acts)
    decreases |acts|
  {
    if acts == [] then open
    else Unanswered(Next(s, acts[0]), acts[1..], OpenBy(s, acts[0], open))
  }

  predicate OpenBy(s: State, a: Action, open: bool) {
    (a.CommitsHandled? && a.found.Full?) || (a.CheckInitialized? && !s.initialized) || (open && !a.ActOnCompleted?)
  }

  /** Somebody has the snapshot in hand, or a stop has aborted it. */
  predicate InHand(s: State) {
    || s.commit.Pausing? || s.commit.Reporting? || s.commit.Took? || !s.snapshot.Free? || s.aborted
    || s.snapshotReady.Full? || s.reqSnapshotReady.Full? || s.completed.Full?
  }

  /** An available snapshot is recovered; a request without one is saved. */
  predicate Recovers(rec: Commit) { rec.available }

  predicate Saves(rec: Commit) { !rec.available && rec.requested }

  /** Every task in existence is the one asked for, and its record says which it was. */
  predicate DoesAsAsked(s: State, asked: Slot) {
    && (s.commit.Pausing? || s.commit.Reporting? ==> asked == Full(s.commit.rec))
    && (s.snapshotReady.Full? ==> asked == s.snapshotReady && Recovers(asked.rec))
    && (s.reqSnapshotReady.Full? ==> asked == s.reqSnapshotReady && Saves(asked.rec))
    && (s.snapshot.Recovering? ==> asked == Full(s.snapshot.rec))
    && (s.snapshot.Recovering? || s.snapshot.Recovered? ==>
          asked.Full? && Recovers(asked.rec) && asked.rec.initial == !s.initialized)
    && (s.snapshot.Saving? || s.snapshot.Saved? || s.reqSnapshotReady.Full? ==>
          asked.Full? && Saves(asked.rec) && !asked.rec.initial)
    && (s.completed.Full? ==> Reports(s.completed.rec, asked))
    && (s.commit.Took? ==> Reports(s.commit.rec, asked))
  }

  predicate Reports(rec: Commit, asked: Slot) {
    asked.Full? && rec.requested == Saves(asked.rec) && rec.initial == asked.rec.initial && !rec.available
  }

  lemma AskedStep(s: State, a: Action, asked: Slot)
    requires Inv(s) && DoesAsAsked(s, asked) && Enabled(s, a)
    ensures DoesAsAsked(Next(s, a), AskedBy(s, a, asked))
  {
  }

  lemma StartsStep(s: State, a: Action, index: uint64)
    requires Inv(s) && StartsAt(s, index) && Enabled(s, a)
    ensures StartsAt(Next(s, a), RecoveredBy(a, index))
  {
  }

  lemma {:induction false} RunStarts(s: State, acts: seq<Action>, index: uint64)
    requires Inv(s) && StartsAt(s, index) && IsRun(s, acts)
    ensures StartsAt(Run(s, acts), RecoveredAt(acts, index))
    decreases |acts|
  {
    hide Inv, StartsAt, Next, RecoveredBy;
    if acts != [] {
      StepInv(s, acts[0]);
      StartsStep(s, acts[0], index);
      RunStarts(Next(s, acts[0]), acts[1..], RecoveredBy(acts[0], index));
    }
  }

  lemma OpenStep(s: State, a: Action)
    requires Inv(s) && Enabled(s, a)
    ensures InHand(Next(s, a)) <==> OpenBy(s, a, InHand(s))
  {
  }

  lemma {:induction false} RunAsked(s: State, acts: seq<Action>, asked: Slot)
    requires Inv(s) && DoesAsAsked(s, asked) && IsRun(s, acts)
    ensures DoesAsAsked(Run(s, acts), Asking(s, acts, asked))
    ensures InHand(Run(s, acts)) <==> Unanswered(s, acts, InHand(s))
    decreases |acts|
  {
    hide Inv, DoesAsAsked, Next, AskedBy, InHand, OpenBy;
    if acts != [] {
      StepInv(s, acts[0]);
      AskedStep(s, acts[0], asked);
      OpenStep(s, acts[0]);
      RunAsked(Next(s, acts[0]), acts[1..], AskedBy(s, acts[0], asked));
    }
  }

  /** Over every run: what the snapshot worker recovers is the available snapshot the node was last
      paused for, what it saves answers a request without one, and the record it leaves says which; and
      from the moment it is asked for until its completion is acted on, the snapshot is in somebody's hands.
      The index handed back for a new node is where its recovery ended. */
  lemma SnapshotsAsAsked(acts: seq<Action>)
    requires IsRun(START, acts)
    ensures DoesAsAsked(Run(START, acts), Asking(START, acts, Empty))
    ensures InHand(Run(START, acts)) <==> Unanswered(START, acts, false)
    ensures StartsAt(Run(START, acts), RecoveredAt(acts, 0))
  {
    RunAsked(START, acts, Empty);
    RunStarts(START, acts, 0);
  }
}
