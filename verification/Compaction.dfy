/** Snapshot records, the log behind them, and their compaction: the snapshot worker saves snapshots
    while the step worker compacts, receives snapshots and appends entries. */
module Compaction {
  import opened Sequences

  const SNAPSHOTS_TO_KEEP: nat := 3

  function Without(s: seq<nat>, x: nat): (r: seq<nat>)
    ensures forall y :: y in r <==> y in s && y != x
  {
    if s == [] then [] else (if s[0] == x then [] else [s[0]]) + Without(s[1..], x)
  }

  /** What compaction up to `to` leaves of the listed snapshots: the last three, and those not below
      `to`. */
  function Kept(s: seq<nat>, to: nat): set<nat> {
    set i | 0 <= i < |s| && (i + SNAPSHOTS_TO_KEEP >= |s| || s[i] >= to) :: s[i]
  }

  function Range(first: nat, end: nat): (r: set<nat>)
    ensures forall i :: i in r <==> first <= i < end
    decreases end
  {
    if first >= end then {} else Range(first, end - 1) + {end - 1}
  }

  datatype MostRecent = NoSnapshot | Snapshot(index: nat)

  class LogDB {
    /** The indexes of the recorded snapshots, ascending. */
    var snapshots: seq<nat>

    ghost predicate Valid()
      reads this
    {
      Ascending(snapshots)
    }

    method DeleteSnapshot(index: nat)
      requires Valid()
      modifies this
      ensures Valid() && Elements(snapshots) == Elements(old(snapshots)) - {index}
    {
      WithoutAscends(snapshots, index);
      snapshots := Without(snapshots, index);
    }

    method GetMostRecentSnapshot() returns (r: MostRecent)
      requires Valid()
      ensures r.NoSnapshot? <==> Elements(snapshots) == {}
      ensures r.Snapshot? ==> r.index in Elements(snapshots) && forall x | x in Elements(snapshots) :: x <= r.index
    {
      if |snapshots| > 0 {
        assert snapshots[|snapshots| - 1] in Elements(snapshots);
        return Snapshot(snapshots[|snapshots| - 1]);
      }
      return NoSnapshot;
    }

    /** Deletes all but the most recent three of the snapshots below `removeUpTo`. */
    method Compaction(removeUpTo: nat)
      requires Valid()
      modifies this
      ensures Valid() && Elements(snapshots) == Kept(old(snapshots), removeUpTo)
    {
      var listed := snapshots;
      if |listed| <= SNAPSHOTS_TO_KEEP {
        assert Elements(snapshots) == Kept(listed, removeUpTo);
        return;
      }
      var shortListed := listed[..|listed| - SNAPSHOTS_TO_KEEP];
      for i := 0 to |shortListed|
        invariant Valid() && Elements(snapshots) == KeptSoFar(listed, i, removeUpTo)
      {
        KeptStep(listed, i, removeUpTo);
        if shortListed[i] < removeUpTo {
          DeleteSnapshot(shortListed[i]);
        }
      }
      assert Elements(snapshots) == Kept(listed, removeUpTo);
    }
  }

  ghost function KeptSoFar(s: seq<nat>, n: nat, to: nat): set<nat> {
    set i | 0 <= i < |s| && (i >= n || s[i] >= to) :: s[i]
  }

  lemma KeptStep(s: seq<nat>, n: nat, to: nat)
    requires Ascending(s) && n < |s|
    ensures KeptSoFar(s, n + 1, to) == if s[n] < to then KeptSoFar(s, n, to) - {s[n]} else KeptSoFar(s, n, to)
  {
    var a, b := KeptSoFar(s, n, to), KeptSoFar(s, n + 1, to);
    assert b <= a;
    forall x | x in a && x !in b
      ensures x == s[n] && s[n] < to
    {
      var i :| 0 <= i < |s| && (i >= n || s[i] >= to) && s[i] == x;
    }
  }

  lemma {:induction false} WithoutAscends(s: seq<nat>, x: nat)
    requires Ascending(s)
    ensures Elements(Without(s, x)) == Elements(s) - {x} && Ascending(Without(s, x))
    decreases |s|
  {
    if s != [] {
      WithoutAscends(s[1..], x);
      forall y | y in Without(s[1..], x)
        ensures s[0] < y
      {
        var i :| 0 <= i < |s[1..]| && s[1..][i] == y;
        assert s[i + 1] == y;
      }
      var r := Without(s[1..], x);
      assert Ascending([s[0]] + r) by {
        assert forall j | 0 <= j < |r| :: r[j] in r;
      }
      assert Without(s, x) == r || Without(s, x) == [s[0]] + r;
    }
  }

  /** The most recent snapshot survives every compaction, with the two before it; of the others exactly
      those below the target go. */
  lemma CompactionKeepsMostRecent(s: seq<nat>, to: nat)
    requires Ascending(s)
    ensures Elements(s[if |s| < 3 then 0 else |s| - 3..]) <= Kept(s, to) <= Elements(s)
    ensures forall x | x in Elements(s) - Kept(s, to) :: x < to
    ensures forall i | 0 <= i < |s| - 3 && s[i] < to :: s[i] !in Kept(s, to)
  {
    var d := if |s| < 3 then 0 else |s| - 3;
    forall x | x in Elements(s[d..])
      ensures x in Kept(s, to)
    {
      var i :| 0 <= i < |s[d..]| && s[d..][i] == x;
      assert s[d + i] == x;
    }
  }

  // ---- interleavings ----

  /** The snapshot worker inside saveSnapshot. */
  datatype Saver =
    | Idle
    | Taken(index: nat)      // the state machine has been saved at `index`
    | Recorded(index: nat)   // and the record is in the log database
    | Created(index: nat)    // and known to the log reader
    | Asked(index: nat)      // and the compaction asked for

  /** The step worker inside compactLog. */
  datatype Compactor =
    | Resting
    | Locked(to: nat)
    | Deleting(to: nat, todo: set<nat>)
    | Removing(to: nat)

  datatype State = State(
    snapshots: set<nat>, log: set<nat>, last: nat, committed: nat,
    compactLogTo: nat, snapshotIndex: nat, saver: Saver, compactor: Compactor,
    /** The highest index entries were removed up to. */
    removedTo: nat)
  {
    /** The most recent snapshot recorded, 0 when there is none. */
    ghost function Most(): (m: nat)
      ensures snapshots == {} ==> m == 0
      ensures snapshots != {} ==> m in snapshots && forall x | x in snapshots :: x <= m
    {
      Max(snapshots)
    }
  }

  ghost function Max(s: set<nat>): (m: nat)
    ensures s == {} ==> m == 0
    ensures s != {} ==> m in s && forall x | x in s :: x <= m
  {
    if s == {} then 0
    else
      var x :| x in s;
      var rest := Max(s - {x});
      assert s == (s - {x}) + {x};
      if x < rest then rest else x
  }

  const START: State := State({}, {}, 0, 0, 0, 0, Idle, Resting, 0)

  datatype Action =
    | Append(first: nat, end: nat)      // entries first .. end - 1, overwriting from first on
    | Commit(index: nat)
    | Receive(index: nat)               // a snapshot from the leader, saved with the Raft state
    | Take(index: nat)
    | Record
    | GiveUp                            // out of date, stopped, or refused by the log reader
    | Create
    | AskCompaction(overhead: nat)
    | FinishSave
    | Published(index: nat)             // a received snapshot goes to the state machine
    | Swap(locked: bool)                // take compactLogTo; the lock may be held by a recovery
    | ListSnapshots(todo: set<nat>)
    | DeleteOne(index: nat)
    | DeletesDone
    | RemoveEntries

  /** The contracts of Raft: committed entries are not overwritten, a received snapshot is ahead of
      what is committed, and a saved one is not. A short list leaves out the most recent snapshot. */
  ghost predicate Enabled(s: State, a: Action) {
    match a
    case Append(first, end) => s.committed < first <= s.last + 1 && first < end
    case Commit(index) => s.committed <= index <= s.last
    case Receive(index) => s.committed < index
    case Take(index) => s.saver.Idle? && s.snapshotIndex < index <= s.committed
    case Record => s.saver.Taken?
    case GiveUp => !s.saver.Idle?
    case Create => s.saver.Recorded?
    case AskCompaction(_) => s.saver.Created?
    case FinishSave => s.saver.Asked?
    case Published(index) => index <= s.committed
    case Swap(_) => s.compactor.Resting?
    case ListSnapshots(todo) =>
      s.compactor.Locked? && todo <= s.snapshots && s.Most() !in todo && forall x | x in todo :: x < s.compactor.to
    case DeleteOne(index) => s.compactor.Deleting? && index in s.compactor.todo
    case DeletesDone => s.compactor.Deleting? && s.compactor.todo == {}
    case RemoveEntries => s.compactor.Removing?
  }

  ghost function Next(s: State, a: Action): State
    requires Enabled(s, a)
  {
    match a
    case Append(first, end) =>
      s.(last := end - 1, log := (set i | i in s.log && i < first) + Range(first, end))
    case Commit(index) => s.(committed := index)
    case Receive(index) =>
      s.(snapshots := s.snapshots + {index}, last := index, committed := index)
    case Take(index) => s.(saver := Taken(index))
    case Record => s.(saver := Recorded(s.saver.index), snapshots := s.snapshots + {s.saver.index})
    case GiveUp => s.(saver := Idle)
    case Create => s.(saver := Created(s.saver.index))
    case AskCompaction(overhead) =>
      var t := s.(saver := Asked(s.saver.index));
      if s.saver.index > overhead then t.(compactLogTo := s.saver.index - overhead) else t
    case FinishSave => s.(saver := Idle, snapshotIndex := s.saver.index)
    case Published(index) => s.(snapshotIndex := index)
    case Swap(locked) =>
      s.(compactLogTo := 0, compactor := if s.compactLogTo != 0 && locked then Locked(s.compactLogTo) else Resting)
    case ListSnapshots(todo) => s.(compactor := Deleting(s.compactor.to, todo))
    case DeleteOne(index) =>
      s.(snapshots := s.snapshots - {index}, compactor := Deleting(s.compactor.to, s.compactor.todo - {index}))
    case DeletesDone => s.(compactor := Removing(s.compactor.to))
    case RemoveEntries =>
      var to := s.compactor.to;
      s.(log := (set i | i in s.log && i > to), compactor := Resting,
         removedTo := if to > s.removedTo then to else s.removedTo)
  }

  /** The most recent snapshot and the log after it have no hole up to the last entry. */
  ghost predicate Replayable(s: State) {
    forall i | s.Most() < i <= s.last :: i in s.log
  }

  /** Compaction targets are behind the most recent snapshot, and it is on no short list. */
  ghost predicate Behind(s: State) {
    && s.removedTo <= s.Most() && s.compactLogTo <= s.Most()
    && s.Most() <= s.committed <= s.last
    && (s.saver.Taken? ==> s.saver.index <= s.committed)
    && (s.saver.Recorded? || s.saver.Created? || s.saver.Asked? ==> s.saver.index <= s.Most())
    && (!s.compactor.Resting? ==> s.compactor.to <= s.Most())
    && (s.compactor.Deleting? ==> forall x | x in s.compactor.todo :: x < s.Most())
  }

  lemma MostAdd(s: set<nat>, x: nat)
    ensures Max(s + {x}) == if s == {} || Max(s) < x then x else Max(s)
  {
    assert x in s + {x};
    if s != {} { assert Max(s) in s + {x}; }
  }

  lemma MostRemove(s: set<nat>, x: nat)
    requires x < Max(s)
    ensures Max(s - {x}) == Max(s)
  {
    assert Max(s) in s - {x};
  }

  lemma StepMost(s: State, a: Action)
    requires Behind(s) && Enabled(s, a)
    ensures s.Most() <= Next(s, a).Most()
  {
    match a
    case Receive(index) => MostAdd(s.snapshots, index);
    case Record => MostAdd(s.snapshots, s.saver.index);
    case DeleteOne(index) => MostRemove(s.snapshots, index);
    case _ =>
  }

  lemma StepBehind(s: State, a: Action)
    requires Behind(s) && Enabled(s, a)
    ensures Behind(Next(s, a))
  {
    StepMost(s, a);
    match a
    case Receive(index) => MostAdd(s.snapshots, index);
    case Record => MostAdd(s.snapshots, s.saver.index);
    case ListSnapshots(todo) => assert forall x | x in todo :: x <= s.Most() && x != s.Most();
    case _ =>
  }

  lemma StepReplayable(s: State, a: Action)
    requires Behind(s) && Replayable(s) && Enabled(s, a)
    ensures Replayable(Next(s, a))
  {
    StepMost(s, a);
    if a.Receive? { MostAdd(s.snapshots, a.index); }
  }

  ghost predicate IsRun(s: State, acts: seq<Action>)
    decreases |acts|
  {
    acts == [] || (Enabled(s, acts[0]) && IsRun(Next(s, acts[0]), acts[1..]))
  }

  ghost function Run(s: State, acts: seq<Action>): State
    requires IsRun(s, acts)
    decreases |acts|
  {
    if acts == [] then s else Run(Next(s, acts[0]), acts[1..])
  }

  lemma {:induction false} RunSafe(s: State, acts: seq<Action>)
    requires Behind(s) && Replayable(s) && IsRun(s, acts)
    ensures Behind(Run(s, acts)) && Replayable(Run(s, acts)) && s.Most() <= Run(s, acts).Most()
    decreases |acts|
  {
    hide Behind, Replayable, Next, Enabled;
    if acts != [] {
      StepMost(s, acts[0]);
      StepBehind(s, acts[0]);
      StepReplayable(s, acts[0]);
      RunSafe(Next(s, acts[0]), acts[1..]);
    }
  }

  /** After any interleaving of saving, receiving, appending and compacting: entries have been removed
      only up to the most recent snapshot, and that snapshot with the log after it has no hole. */
  lemma AlwaysReplayable(acts: seq<Action>)
    requires IsRun(START, acts)
    ensures var s := Run(START, acts);
            s.removedTo <= s.Most() && forall i | s.Most() < i <= s.last :: i in s.log
  {
    RunSafe(START, acts);
  }

  /** The most recent snapshot is never deleted, nor overtaken by an older one: from any reachable
      state on, it only moves forward. */
  lemma MostRecentAdvances(before: seq<Action>, after: seq<Action>)
    requires IsRun(START, before) && IsRun(Run(START, before), after)
    ensures Run(START, before).Most() <= Run(Run(START, before), after).Most()
  {
    RunSafe(START, before);
    RunSafe(Run(START, before), after);
  }

  /** The list the source makes is one the machine allows: below the target, in the database, and
      without the most recent snapshot. */
  lemma ShortListAllowed(s: State, listed: seq<nat>, x: nat)
    requires Ascending(listed) && Elements(listed) == s.snapshots && |listed| > SNAPSHOTS_TO_KEEP
    requires x in listed[..|listed| - SNAPSHOTS_TO_KEEP]
    ensures x in s.snapshots && x != s.Most()
  {
    var top := listed[|listed| - 1];
    assert top in Elements(listed);
    var i :| 0 <= i < |listed| - SNAPSHOTS_TO_KEEP && listed[i] == x;
    assert x in Elements(listed) && x < top;
  }

  lemma RunFour(s: State, a: Action, b: Action, c: Action, d: Action)
    requires Enabled(s, a) && Enabled(Next(s, a), b) && Enabled(Next(Next(s, a), b), c)
    requires Enabled(Next(Next(Next(s, a), b), c), d)
    ensures IsRun(s, [a, b, c, d]) && Run(s, [a, b, c, d]) == Next(Next(Next(Next(s, a), b), c), d)
  {
    hide Next, Enabled;
    assert [a, b, c, d][1..] == [b, c, d] && [b, c, d][1..] == [c, d] && [c, d][1..] == [d] && [d][1..] == [];
    var t := Next(Next(Next(s, a), b), c);
    assert IsRun(t, [d]) && Run(t, [d]) == Next(t, d);
    assert IsRun(Next(Next(s, a), b), [c, d]) && Run(Next(Next(s, a), b), [c, d]) == Next(t, d);
    assert IsRun(Next(s, a), [b, c, d]) && Run(Next(s, a), [b, c, d]) == Next(t, d);
  }

  /** A compaction pass removes exactly what was asked for: with a snapshot at `index` and an overhead
      below it, the entries up to the difference. */
  lemma CompactsExactly(s: State, overhead: nat)
    requires s.saver.Created? && s.compactor.Resting? && overhead < s.saver.index
    ensures var to, asked := s.saver.index - overhead, Next(s, AskCompaction(overhead));
            && Enabled(asked, Swap(true)) && var pass := [Swap(true), ListSnapshots({}), DeletesDone, RemoveEntries];
            && IsRun(asked, pass)
            && (forall i :: i in Run(asked, pass).log <==> i in s.log && i > to)
            && Run(asked, pass).snapshots == s.snapshots && Run(asked, pass).compactLogTo == 0
  {
    RunFour(Next(s, AskCompaction(overhead)), Swap(true), ListSnapshots({}), DeletesDone, RemoveEntries);
  }

  /** Without that much log nothing is asked for. */
  lemma NothingToCompact(s: State, overhead: nat)
    requires s.saver.Created? && overhead >= s.saver.index
    ensures Next(s, AskCompaction(overhead)) == s.(saver := Asked(s.saver.index))
  {
  }

  /** Appending overwrites: entries before the first one stay, those appended are there, none is after. */
  lemma AppendOverwrites(s: State, first: nat, end: nat)
    requires Enabled(s, Append(first, end))
    ensures var t := Next(s, Append(first, end));
            t.last == end - 1 && forall i :: i in t.log <==> (i in s.log && i < first) || first <= i < end
  {
  }
}
