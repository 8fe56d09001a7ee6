/** What a node publishes to its state machine: committed entries not published before, and jumps to
    received snapshots. */
module PublishedStream {
  import opened Bits

  datatype Entry = Entry(index: uint64, payload: nat)

  /** A record in the commit channel. */
  datatype Record = Entries(es: seq<Entry>) | Snapshot(index: uint64)

  /** What the Raft side hands over: a snapshot when its index is not 0, then committed entries. */
  datatype Update = Update(snapshot: uint64, lastApplied: uint64, committed: seq<Entry>)

  /** A batch as Raft delivers it: consecutive indexes. */
  ghost predicate Consecutive(es: seq<Entry>) {
    |es| <= MAX_INT && forall i | 0 <= i < |es| :: es[i].index == es[0].index + i
  }

  /** The entries of `es` above `p`. */
  function Newer(es: seq<Entry>, p: uint64): seq<Entry> {
    if es == [] then []
    else (if es[0].index > p then [es[0]] else []) + Newer(es[1..], p)
  }

  datatype State = State(
    publishedIndex: uint64, snapshotIndex: uint64, stopped: bool, panicked: bool, stream: seq<Record>)
  {
    /** The two guards on a batch; the sum is on 64 bits. */
    predicate Accepts(es: seq<Entry>) {
      es == [] || (publishedIndex <= es[|es| - 1].index && es[0].index <= (publishedIndex + 1) % TWO_64)
    }

    function Sent(rec: Record): State { this.(stream := stream + [rec]) }

    function Publish(es: seq<Entry>): State {
      var news := Newer(es, publishedIndex);
      if news == [] then this
      else Sent(Entries(news)).(publishedIndex := news[|news| - 1].index)
    }

    predicate Stale(u: Update) {
      u.snapshot < publishedIndex || u.snapshot < snapshotIndex || u.snapshot < u.lastApplied
    }

    function Jump(index: uint64): State {
      Sent(Snapshot(index)).(publishedIndex := index, snapshotIndex := index)
    }

    /** An update on a node that is not stopped while it is handled. */
    function Handle(u: Update): State {
      if u.snapshot != 0 && Stale(u) then this.(panicked := true)
      else
        var t := if u.snapshot != 0 then Jump(u.snapshot) else this;
        if t.Accepts(u.committed) then t.Publish(u.committed) else t.(panicked := true)
    }
  }

  lemma {:induction false} NewerIsSuffix(es: seq<Entry>, p: uint64, k: nat)
    requires Consecutive(es) && k <= |es| && (k > 0 ==> es[k - 1].index <= p) && (k < |es| ==> es[k].index > p)
    ensures Newer(es, p) == es[k..]
    decreases |es|
  {
    if es != [] {
      var rest := es[1..];
      assert forall i | 0 <= i < |rest| :: rest[i] == es[i + 1];
      NewerIsSuffix(rest, p, if k == 0 then 0 else k - 1);
    }
  }

  class Node {
    var publishedIndex: uint64
    var snapshotIndex: uint64
    var stopped: bool
    var panicked: bool
    var stream: seq<Record>

    ghost function Now(): State
      reads this
    {
      State(publishedIndex, snapshotIndex, stopped, panicked, stream)
    }

    /** setInitialStatus. */
    constructor (index: uint64)
      ensures Now() == State(index, index, false, false, [])
    {
      publishedIndex, snapshotIndex, stopped, panicked, stream := index, index, false, false, [];
    }

    /** A look at the stop channel, which once closed stays closed. */
    method Stopped(closed: bool) returns (b: bool)
      modifies this`stopped
      ensures stopped == (old(stopped) || closed) && b == stopped
    {
      stopped := stopped || closed;
      b := stopped;
    }

    /** Drops the entries published before, by the unsigned 64-bit subtraction of the source. */
    method EntriesToApply(es: seq<Entry>, closed: bool) returns (news: seq<Entry>)
      requires Consecutive(es)
      modifies this`stopped, this`panicked
      ensures stopped == (old(stopped) || (es != [] && closed))
      ensures panicked == (old(panicked) || (!stopped && !old(Now()).Accepts(es)))
      ensures news == if es != [] && !stopped && old(Now()).Accepts(es) then Newer(es, publishedIndex) else []
    {
      news := [];
      if |es| == 0 {
        return;
      }
      var b := Stopped(closed);
      if b {
        return;
      }
      var lastIdx := es[|es| - 1].index;
      if lastIdx < publishedIndex {
        panicked := true;
        return;
      }
      var firstIdx := es[0].index;
      if firstIdx > (publishedIndex + 1) % TWO_64 {
        panicked := true;
        return;
      }
      var skip := ((publishedIndex - firstIdx) % TWO_64 + 1) % TWO_64;
      SkipCount(publishedIndex, firstIdx, |es|);
      if skip < |es| {
        news := es[skip..];
        NewerIsSuffix(es, publishedIndex, skip);
      } else {
        NewerIsSuffix(es, publishedIndex, |es|);
      }
    }

    /** Sends a record unless the stop channel is closed, seen before the send or instead of it. */
    method PublishCommitRec(rec: Record, closed: bool, lost: bool) returns (ok: bool)
      modifies this`stopped, this`stream
      ensures stopped == (old(stopped) || closed || lost) && ok == !stopped
      ensures stream == if ok then old(stream) + [rec] else old(stream)
    {
      var b := Stopped(closed);
      if b {
        stopped := stopped || lost;
        return false;
      }
      if lost {
        stopped := true;
        return false;
      }
      stream := stream + [rec];
      return true;
    }

    method PublishEntries(es: seq<Entry>, closed: bool, lost: bool) returns (ok: bool)
      modifies this`stopped, this`stream, this`publishedIndex
      ensures ok == (es == [] || !stopped) && stopped == (old(stopped) || (es != [] && (closed || lost)))
      ensures stream == if ok && es != [] then old(stream) + [Entries(es)] else old(stream)
      ensures publishedIndex == if ok && es != [] then es[|es| - 1].index else old(publishedIndex)
    {
      if |es| == 0 {
        return true;
      }
      ok := PublishCommitRec(Entries(es), closed, lost);
      if ok {
        publishedIndex := es[|es| - 1].index;
      }
    }

    method PublishSnapshot(u: Update, closed: bool, lost: bool) returns (ok: bool)
      requires u.snapshot != 0
      modifies this`stopped, this`stream, this`publishedIndex, this`snapshotIndex, this`panicked
      ensures panicked == (old(panicked) || old(Now()).Stale(u))
      ensures old(Now()).Stale(u) ==> Now() == old(Now()).(panicked := true) && !ok
      ensures !old(Now()).Stale(u) ==>
                && stopped == (old(stopped) || closed || lost) && ok == !stopped
                && Now() == if ok then old(Now()).Jump(u.snapshot) else old(Now()).(stopped := true)
    {
      if u.snapshot < publishedIndex || u.snapshot < snapshotIndex || u.snapshot < u.lastApplied {
        panicked := true;
        return false;
      }
      ok := PublishCommitRec(Snapshot(u.snapshot), closed, lost);
      if ok {
        snapshotIndex := u.snapshot;
        publishedIndex := u.snapshot;
      }
    }

    /** processSnapshot then applyRaftUpdates. `stops` says where the stop channel was found closed:
        before the snapshot, at its send, before the entries, at their send. When it never was, the
        node ends as `Handle` says; when it was, nothing was published after. */
    method Handle(u: Update, stops: seq<bool>)
      requires Consecutive(u.committed) && |stops| == 6 && !panicked
      modifies this
      ensures !stopped ==> Now() == old(Now()).Handle(u)
      ensures stopped ==>
                || Now() == old(Now()).(stopped := true)
                || (u.snapshot != 0 && !old(Now()).Stale(u) && Now() == old(Now()).Jump(u.snapshot).(stopped := true))
    {
      hide Newer, Consecutive;
      if u.snapshot != 0 {
        var b := Stopped(stops[0]);
        if b {
          return;
        }
        var ok := PublishSnapshot(u, stops[1], stops[2]);
        if !ok {
          return;
        }
      }
      ghost var mid := Now();
      var es := EntriesToApply(u.committed, stops[3]);
      if panicked {
        return;
      }
      NewerEmpty(u.committed, publishedIndex);
      var done := PublishEntries(es, stops[4], stops[5]);
      assert !stopped ==> Now() == mid.Publish(u.committed);
    }

    /** The snapshot worker records a snapshot it has saved. */
    method SetSnapshotIndex(index: uint64)
      modifies this`snapshotIndex
      ensures Now() == old(Now()).(snapshotIndex := index)
    {
      snapshotIndex := index;
    }
  }

  lemma NewerEmpty(es: seq<Entry>, p: uint64)
    ensures es == [] ==> Newer(es, p) == []
  {
  }

  /** The subtraction wraps to `2^64 - 1` and back to 0 when the batch starts right after what was
      published. */
  lemma SkipCount(published: uint64, first: uint64, n: nat)
    requires 0 < n <= MAX_INT && first <= (published + 1) % TWO_64
    requires first + n - 1 < TWO_64 && published <= first + n - 1
    ensures ((published - first) % TWO_64 + 1) % TWO_64 == published - first + 1
    ensures 0 <= published - first + 1 <= n
  {
    NotLast(published, first, n);
    if published - first == -1 {
      assert (-1) % TWO_64 == TWO_64 - 1;
    }
  }

  lemma NotLast(published: uint64, first: uint64, n: nat)
    requires 0 < n <= MAX_INT && published <= first + n - 1
    ensures first <= (published + 1) % TWO_64 <==> first <= published + 1 && published + 1 < TWO_64
  {
  }

  /** The guards in plain arithmetic: the batch overlaps or continues what was published. Only at the
      last 64-bit index do they refuse a batch that does. */
  lemma AcceptsExactly(s: State, es: seq<Entry>)
    requires Consecutive(es) && es != []
    ensures s.Accepts(es) <==>
            es[0].index <= s.publishedIndex + 1 && s.publishedIndex <= es[|es| - 1].index && s.publishedIndex != TWO_64 - 1
  {
    if s.publishedIndex <= es[|es| - 1].index {
      NotLast(s.publishedIndex, es[0].index, |es|);
    }
  }

  /** There the guards panic on a batch that only repeats the entry published last. */
  lemma RefusedAtLastIndex()
    ensures var s, es := State(TWO_64 - 1, 0, false, false, []), [Entry(TWO_64 - 1, 0)];
            Consecutive(es) && es[0].index <= s.publishedIndex <= es[0].index && !s.Accepts(es)
  {
    AcceptsExactly(State(TWO_64 - 1, 0, false, false, []), [Entry(TWO_64 - 1, 0)]);
  }

  // ---- the whole stream ----

  /** Replaying a stream from `cur`: the index reached, or -1 at a gap, duplicate or regression. */
  function Follow(cur: int, stream: seq<Record>): int
    decreases |stream|
  {
    if stream == [] || cur < 0 then cur
    else Follow(FollowOne(cur, stream[0]), stream[1..])
  }

  function FollowOne(cur: int, rec: Record): int
    requires cur >= 0
  {
    match rec
    case Snapshot(index) => if cur <= index then index else -1
    case Entries(es) => FollowEntries(cur, es)
  }

  function FollowEntries(cur: int, es: seq<Entry>): int
    decreases |es|
  {
    if es == [] || cur < 0 then cur
    else FollowEntries(if es[0].index == cur + 1 then cur + 1 else -1, es[1..])
  }

  lemma {:induction false} FollowAppend(cur: int, stream: seq<Record>, rec: Record)
    requires Follow(cur, stream) >= 0 && cur >= 0
    ensures Follow(cur, stream + [rec]) == FollowOne(Follow(cur, stream), rec)
    decreases |stream|
  {
    if stream == [] {
      assert stream + [rec] == [rec] && [rec][1..] == [];
    } else {
      assert (stream + [rec])[1..] == stream[1..] + [rec];
      FollowBad(FollowOne(cur, stream[0]), stream[1..]);
      FollowAppend(FollowOne(cur, stream[0]), stream[1..], rec);
    }
  }

  lemma FollowBad(cur: int, stream: seq<Record>)
    ensures cur < 0 ==> Follow(cur, stream) == cur
  {
  }

  lemma {:induction false} FollowConsecutive(cur: int, es: seq<Entry>)
    requires cur >= 0 && forall i | 0 <= i < |es| :: es[i].index == cur + 1 + i
    ensures FollowEntries(cur, es) == cur + |es|
    decreases |es|
  {
    if es != [] {
      var rest := es[1..];
      assert forall i | 0 <= i < |rest| :: rest[i] == es[i + 1];
      FollowConsecutive(cur + 1, rest);
    }
  }

  lemma PublishFollows(s: State, es: seq<Entry>, start: nat)
    requires Consecutive(es) && s.Accepts(es) && Follow(start, s.stream) == s.publishedIndex
    ensures Follow(start, s.Publish(es).stream) == s.Publish(es).publishedIndex
  {
    if es != [] {
      AcceptsExactly(s, es);
      var p := s.publishedIndex;
      var k := p - es[0].index + 1;
      NewerIsSuffix(es, p, k);
      var f := es[k..];
      assert forall i | 0 <= i < |f| :: f[i] == es[i + k] && f[i].index == p + 1 + i;
      if f != [] {
        FollowConsecutive(p, f);
        FollowAppend(start, s.stream, Entries(f));
      }
    }
  }

  lemma JumpFollows(s: State, index: uint64, start: nat)
    requires s.publishedIndex <= index && Follow(start, s.stream) == s.publishedIndex
    ensures Follow(start, s.Jump(index).stream) == index
  {
    FollowAppend(start, s.stream, Snapshot(index));
  }

  datatype Action =
    | Handles(u: Update)
    | Saves(index: uint64)
    /** The node is stopped after the snapshot of `u` was published, or before. */
    | Stops(u: Update, jumped: bool)

  predicate Enabled(s: State, a: Action) {
    !s.panicked && !s.stopped && (a.Stops? && a.jumped ==> a.u.snapshot != 0 && !s.Stale(a.u))
  }

  function Next(s: State, a: Action): State {
    match a
    case Handles(u) => s.Handle(u)
    case Saves(index) => s.(snapshotIndex := index)
    case Stops(u, jumped) => if jumped then s.Jump(u.snapshot).(stopped := true) else s.(stopped := true)
  }

  ghost predicate IsRun(s: State, acts: seq<Action>)
    decreases |acts|
  {
    acts == [] ||
    (Enabled(s, acts[0]) && (acts[0].Handles? ==> Consecutive(acts[0].u.committed)) &&
     IsRun(Next(s, acts[0]), acts[1..]))
  }

  function Run(s: State, acts: seq<Action>): State
    decreases |acts|
  {
    if acts == [] then s else Run(Next(s, acts[0]), acts[1..])
  }

  lemma StepFollows(s: State, a: Action, start: nat)
    requires Enabled(s, a) && (a.Handles? ==> Consecutive(a.u.committed))
    requires Follow(start, s.stream) == s.publishedIndex
    ensures Follow(start, Next(s, a).stream) == Next(s, a).publishedIndex
  {
    match a
    case Saves(_) =>
    case Stops(u, jumped) => if jumped { JumpFollows(s, u.snapshot, start); }
    case Handles(u) =>
      if u.snapshot != 0 && s.Stale(u) {
      } else {
        if u.snapshot != 0 { JumpFollows(s, u.snapshot, start); }
        var t := if u.snapshot != 0 then s.Jump(u.snapshot) else s;
        if t.Accepts(u.committed) { PublishFollows(t, u.committed, start); }
      }
  }

  lemma {:induction false} RunFollows(s: State, acts: seq<Action>, start: nat)
    requires IsRun(s, acts) && Follow(start, s.stream) == s.publishedIndex
    ensures Follow(start, Run(s, acts).stream) == Run(s, acts).publishedIndex
    decreases |acts|
  {
    hide Follow;
    if acts != [] {
      StepFollows(s, acts[0], start);
      RunFollows(Next(s, acts[0]), acts[1..], start);
    }
  }

  /** How often index `i` is delivered when the stream is replayed from `cur`: by entries with that
      index and by snapshots jumping over it. */
  function Times(cur: int, stream: seq<Record>, i: int): nat
    decreases |stream|
  {
    if stream == [] || cur < 0 then 0
    else TimesOne(cur, stream[0], i) + Times(FollowOne(cur, stream[0]), stream[1..], i)
  }

  function TimesOne(cur: int, rec: Record, i: int): nat {
    match rec
    case Snapshot(index) => if cur < i <= index then 1 else 0
    case Entries(es) => TimesEntries(es, i)
  }

  function TimesEntries(es: seq<Entry>, i: int): nat {
    if es == [] then 0 else (if es[0].index == i then 1 else 0) + TimesEntries(es[1..], i)
  }

  lemma {:induction false} EntriesOnce(cur: int, es: seq<Entry>, i: int)
    requires FollowEntries(cur, es) >= 0 && cur >= 0
    ensures cur <= FollowEntries(cur, es)
    ensures TimesEntries(es, i) == if cur < i <= FollowEntries(cur, es) then 1 else 0
    decreases |es|
  {
    if es != [] {
      assert es[0].index == cur + 1;
      EntriesOnce(cur + 1, es[1..], i);
    }
  }

  lemma {:induction false} FollowOnce(cur: int, stream: seq<Record>, i: int)
    requires Follow(cur, stream) >= 0 && cur >= 0
    ensures cur <= Follow(cur, stream)
    ensures Times(cur, stream, i) == if cur < i <= Follow(cur, stream) then 1 else 0
    decreases |stream|
  {
    if stream != [] {
      var mid := FollowOne(cur, stream[0]);
      FollowBad(mid, stream[1..]);
      if stream[0].Entries? { EntriesOnce(cur, stream[0].es, i); }
      FollowOnce(mid, stream[1..], i);
    }
  }

  /** Over every run from initial index `start`, each index above it and up to the published index is
      delivered exactly once, by its entry or by a snapshot, and no other index is: the stream has no
      gap, duplicate or regression. */
  lemma StreamExact(start: uint64, acts: seq<Action>, i: int)
    requires IsRun(State(start, start, false, false, []), acts)
    ensures var s := Run(State(start, start, false, false, []), acts);
            && Follow(start, s.stream) == s.publishedIndex && start <= s.publishedIndex
            && Times(start, s.stream, i) == if start < i <= s.publishedIndex then 1 else 0
  {
    var s0 := State(start, start, false, false, []);
    RunFollows(s0, acts, start);
    FollowOnce(start, Run(s0, acts).stream, i);
  }

  /** The part of a batch that is published: its entries above what was published before. */
  lemma {:induction false} NewerKeepsAll(es: seq<Entry>, p: uint64, e: Entry)
    ensures e in Newer(es, p) <==> e in es && e.index > p
    decreases |es|
  {
    if es != [] {
      NewerKeepsAll(es[1..], p, e);
      assert es == [es[0]] + es[1..];
    }
  }

  /** Where the entries of an update start counting: after its snapshot or, without one, after what was
      published. */
  function Base(published: uint64, u: Update): uint64 { if u.snapshot != 0 then u.snapshot else published }

  /** The snapshot an update sends, as records. */
  function SnapshotRecords(u: Update): seq<Record> { if u.snapshot != 0 then [Snapshot(u.snapshot)] else [] }

  function EntryRecords(es: seq<Entry>): seq<Record> { if es == [] then [] else [Entries(es)] }

  /** `stream` gained the snapshot of the update and then exactly the committed entries above `base`. */
  ghost predicate Gained(before: seq<Record>, u: Update, base: uint64, stream: seq<Record>) {
    exists k | 0 <= k <= |u.committed| :: SplitAt(u.committed, base, k) &&
      stream == before + SnapshotRecords(u) + EntryRecords(u.committed[k..])
  }

  ghost predicate SplitAt(es: seq<Entry>, base: uint64, k: nat) {
    k <= |es| && (forall i | 0 <= i < k :: es[i].index <= base) && (forall i | k <= i < |es| :: es[i].index > base)
  }

  lemma PublishSplits(t: State, es: seq<Entry>) returns (k: nat)
    requires Consecutive(es) && t.Accepts(es)
    ensures SplitAt(es, t.publishedIndex, k)
    ensures t.Publish(es) == t.(stream := t.stream + EntryRecords(es[k..]),
                                publishedIndex := if es == [] then t.publishedIndex else es[|es| - 1].index)
  {
    if es == [] {
      k := 0;
      assert t.stream + [] == t.stream;
    } else {
      AcceptsExactly(t, es);
      k := t.publishedIndex - es[0].index + 1;
      NewerIsSuffix(es, t.publishedIndex, k);
      assert t.stream + [] == t.stream;
    }
  }

  /** An update that does not panic leaves the published index at the last committed entry or, without
      one, at the snapshot or where it was, and the stream with the snapshot and the new entries. */
  lemma HandledExactly(s: State, u: Update)
    requires Consecutive(u.committed) && !s.panicked && !s.Handle(u).panicked
    ensures var t, base := s.Handle(u), Base(s.publishedIndex, u);
            && t.publishedIndex == (if u.committed == [] then base else u.committed[|u.committed| - 1].index)
            && t.snapshotIndex == (if u.snapshot != 0 then u.snapshot else s.snapshotIndex)
            && t.stopped == s.stopped && Gained(s.stream, u, base, t.stream)
  {
    hide State.Publish, Consecutive, SplitAt;
    var t := if u.snapshot != 0 then s.Jump(u.snapshot) else s;
    assert t.stream == s.stream + SnapshotRecords(u);
    var k := PublishSplits(t, u.committed);
  }

  /** And it panics exactly when the snapshot is stale or the entries neither overlap nor continue what
      is published by then, or that is the last 64-bit index. */
  lemma PanicsExactly(s: State, u: Update)
    requires Consecutive(u.committed) && !s.panicked
    ensures var es, base := u.committed, Base(s.publishedIndex, u);
            s.Handle(u).panicked <==>
              || (u.snapshot != 0 && (u.snapshot < s.publishedIndex || u.snapshot < s.snapshotIndex || u.snapshot < u.lastApplied))
              || (es != [] && !(es[0].index <= base + 1 && base <= es[|es| - 1].index && base != TWO_64 - 1))
  {
    var t := if u.snapshot != 0 then s.Jump(u.snapshot) else s;
    if u.committed != [] {
      AcceptsExactly(t, u.committed);
    }
  }

  /** The greatest index handed over, by a snapshot or a committed entry, or the one to start with. */
  function Greatest(start: int, acts: seq<Action>): int
    decreases |acts|
  {
    if acts == [] then start
    else
      var before := Greatest(start, acts[..|acts| - 1]);
      match acts[|acts| - 1]
      case Handles(u) => Max(Max(before, u.snapshot), LastOf(u.committed))
      case Stops(u, jumped) => if jumped then Max(before, u.snapshot) else before
      case Saves(_) => before
  }

  function Max(a: int, b: int): int { if a < b then b else a }

  function LastOf(es: seq<Entry>): int { if es == [] then 0 else es[|es| - 1].index }

  lemma {:induction false} RunSnoc(s: State, acts: seq<Action>)
    requires acts != [] && IsRun(s, acts)
    ensures var before, a := acts[..|acts| - 1], acts[|acts| - 1];
            && IsRun(s, before) && Enabled(Run(s, before), a) && (a.Handles? ==> Consecutive(a.u.committed))
            && Run(s, acts) == Next(Run(s, before), a)
    decreases |acts|
  {
    hide Next, Enabled;
    if |acts| == 1 {
      assert Run(Next(s, acts[0]), acts[1..]) == Next(s, acts[0]);
    } else {
      RunSnoc(Next(s, acts[0]), acts[1..]);
      assert acts[1..][..|acts| - 2] == acts[..|acts| - 1][1..];
    }
  }

  /** Over every run that has not panicked, everything handed over has been published: the published
      index is the greatest index handed over. */
  lemma {:induction false} PublishesGreatest(start: uint64, acts: seq<Action>)
    requires IsRun(State(start, start, false, false, []), acts) && !Run(State(start, start, false, false, []), acts).panicked
    ensures Run(State(start, start, false, false, []), acts).publishedIndex == Greatest(start, acts)
    decreases |acts|
  {
    var s0 := State(start, start, false, false, []);
    if acts != [] {
      RunSnoc(s0, acts);
      var before, a := acts[..|acts| - 1], acts[|acts| - 1];
      var s := Run(s0, before);
      PublishesGreatest(start, before);
      hide Run, IsRun;
      if a.Handles? {
        HandledExactly(s, a.u);
        PanicsExactly(s, a.u);
      }
    }
  }
}
