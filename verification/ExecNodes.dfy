/** One pass of a step worker over the updates of its nodes: what is sent, saved, published and
    committed, in which order. Production builds only: the test knobs that return early are constant
    false there. */
module ExecNodes {
  import opened Bits

  /** Replicate and Ping may be sent before the state is saved. */
  datatype Kind = Replicate | Ping | Other(code: nat)

  datatype Message = Message(kind: Kind, to: uint64, clusterId: uint64, body: nat)
  {
    predicate FreeOrder() { kind.Replicate? || kind.Ping? }
  }

  /** `snapshotDue`: saveSnapshotRequired says so when the update is processed. */
  datatype Update = Update(
    clusterId: uint64, snapshotIndex: uint64, messages: seq<Message>, snapshotDue: bool, moreCommitted: bool)
  {
    predicate HasSnapshot() { snapshotIndex != 0 }

    /** A message as it is sent, stamped with the cluster it belongs to. */
    function Stamped(j: nat): Message
      requires j < |messages|
    {
      messages[j].(clusterId := clusterId)
    }
  }

  datatype Event =
    | Publish(u: nat)                    // processSnapshot and applyRaftUpdates
    | Send(u: nat, j: nat, m: Message)
    | ReadyToRead(u: nat)
    | SaveRaftState
    | FlagRemoved(u: nat)                // the flag file of a snapshot now in the log database
    | LogAppended(u: nat)
    | Compacted(u: nat)
    | SnapshotRequested(u: nat)          // the take-snapshot record
    | LocalMessage(u: nat)               // so that the remaining committed entries are stepped again
    | CommitUpdate(u: nat)

  // ---- the passes ----

  /** The messages of update `u` up to `n` that are free-order or not. */
  function Sends(u: nat, ud: Update, n: nat, free: bool): seq<Event>
    requires n <= |ud.messages|
  {
    if n == 0 then []
    else Sends(u, ud, n - 1, free) +
         (if ud.messages[n - 1].FreeOrder() == free then [Send(u, n - 1, ud.Stamped(n - 1))] else [])
  }

  function AllSends(u: nat, ud: Update, free: bool): seq<Event> { Sends(u, ud, |ud.messages|, free) }

  function PublishPass(n: nat): seq<Event> {
    if n == 0 then [] else PublishPass(n - 1) + [Publish(n - 1)]
  }

  function EarlyPass(uds: seq<Update>, n: nat): seq<Event>
    requires n <= |uds|
  {
    if n == 0 then [] else EarlyPass(uds, n - 1) + EarlyOf(n - 1, uds[n - 1])
  }

  function EarlyOf(u: nat, ud: Update): seq<Event> { AllSends(u, ud, true) + [ReadyToRead(u)] }

  function FlagPass(uds: seq<Update>, n: nat): seq<Event>
    requires n <= |uds|
  {
    if n == 0 then []
    else FlagPass(uds, n - 1) + if uds[n - 1].HasSnapshot() then [FlagRemoved(n - 1)] else []
  }

  function LatePass(uds: seq<Update>, n: nat): seq<Event>
    requires n <= |uds|
  {
    if n == 0 then [] else LatePass(uds, n - 1) + LateOf(n - 1, uds[n - 1])
  }

  function LateOf(u: nat, ud: Update): seq<Event> {
    Appended(u, ud) + [Compacted(u)] + LastOf(u, ud)
  }

  function Appended(u: nat, ud: Update): seq<Event> { [LogAppended(u)] + AllSends(u, ud, false) }

  function LastOf(u: nat, ud: Update): seq<Event> {
    (if ud.snapshotDue then [SnapshotRequested(u)] else []) + (if ud.moreCommitted then [LocalMessage(u)] else []) +
    [CommitUpdate(u)]
  }

  predicate AnySnapshot(uds: seq<Update>) { exists u | 0 <= u < |uds| :: uds[u].HasSnapshot() }

  function Before(uds: seq<Update>): seq<Event> {
    (if AnySnapshot(uds) then [] else PublishPass(|uds|)) + EarlyPass(uds, |uds|)
  }

  function After(uds: seq<Update>): seq<Event> {
    (if AnySnapshot(uds) then FlagPass(uds, |uds|) + PublishPass(|uds|) else []) + LatePass(uds, |uds|)
  }

  function Trace(uds: seq<Update>): seq<Event> { Before(uds) + [SaveRaftState] + After(uds) }

  // ---- failures ----

  /** The steps that can fail, and do: saving, removing a flag file, giving a snapshot to the log reader
      and compacting the log. */
  predicate Fails(e: Event, uds: seq<Update>, faulty: set<Event>) {
    && (e.SaveRaftState? || e.FlagRemoved? || e.Compacted? || (e.Publish? && e.u < |uds| && uds[e.u].HasSnapshot()))
    && e in faulty
  }

  predicate NoneFails(s: seq<Event>, uds: seq<Update>, faulty: set<Event>) {
    forall i | 0 <= i < |s| :: !Fails(s[i], uds, faulty)
  }

  /** `r` is `s`, or as much of it as comes before the first step that fails. */
  predicate CutShort(r: seq<Event>, s: seq<Event>, uds: seq<Update>, faulty: set<Event>) {
    r <= s && NoneFails(r, uds, faulty) && (r == s || Fails(s[|r|], uds, faulty))
  }

  /** `pass` was added to `trace`, or as much of it as comes before the first step that fails. */
  ghost predicate Emitted(
      trace: seq<Event>, pass: seq<Event>, uds: seq<Update>, faulty: set<Event>, r: seq<Event>, failed: bool)
  {
    trace <= r && CutShort(r[|trace|..], pass, uds, faulty) && failed == (r[|trace|..] != pass)
  }

  lemma {:induction false} CutAt(trace: seq<Event>, done: seq<Event>, e: Event, pass: seq<Event>, uds: seq<Update>, faulty: set<Event>)
    requires NoneFails(done, uds, faulty) && done + [e] <= pass && Fails(e, uds, faulty)
    ensures Emitted(trace, pass, uds, faulty, trace + done, true)
  {
    hide Fails;
    assert (trace + done)[|trace|..] == done;
    assert pass[|done|] == (done + [e])[|done|];
  }

  /** What is cut from a later pass is cut from the whole. */
  lemma {:induction false} CutLater(before: seq<Event>, pass: seq<Event>, s: seq<Event>, uds: seq<Update>, faulty: set<Event>, r: seq<Event>)
    requires before + pass <= s && NoneFails(before, uds, faulty)
    requires before <= r && CutShort(r[|before|..], pass, uds, faulty) && (r[|before|..] == pass ==> before + pass == s)
    ensures CutShort(r, s, uds, faulty) && (r == s <==> r[|before|..] == pass)
  {
    hide Fails;
    var rest := r[|before|..];
    assert r == before + rest;
    if rest != pass {
      assert s[|r|] == (before + pass)[|r|] == pass[|rest|];
    }
  }

  lemma {:induction false} PublishesGrow(u: nat, n: nat)
    requires u < n
    ensures PublishPass(u) + [Publish(u)] <= PublishPass(n)
  {
    if u < n - 1 {
      PublishesGrow(u, n - 1);
    }
  }

  lemma {:induction false} FlagsGrow(uds: seq<Update>, u: nat, n: nat)
    requires u < n <= |uds|
    ensures FlagPass(uds, u + 1) <= FlagPass(uds, n)
  {
    if u + 1 < n {
      FlagsGrow(uds, u, n - 1);
    }
  }

  lemma {:induction false} LateGrows(uds: seq<Update>, u: nat, n: nat)
    requires u < n <= |uds|
    ensures LatePass(uds, u + 1) <= LatePass(uds, n)
  {
    hide LateOf;
    if u + 1 < n {
      LateGrows(uds, u, n - 1);
    }
  }

  lemma {:induction false} SendsSafe(u: nat, ud: Update, n: nat, free: bool, uds: seq<Update>, faulty: set<Event>)
    requires n <= |ud.messages|
    ensures NoneFails(Sends(u, ud, n, free), uds, faulty)
  {
    if n > 0 {
      SendsSafe(u, ud, n - 1, free, uds, faulty);
    }
  }

  lemma {:induction false} LateFails(uds: seq<Update>, u: nat, faulty: set<Event>)
    requires u < |uds| && NoneFails(LatePass(uds, u), uds, faulty)
    ensures LatePass(uds, u + 1) == LatePass(uds, u) + Appended(u, uds[u]) + [Compacted(u)] + LastOf(u, uds[u])
    ensures NoneFails(LatePass(uds, u) + Appended(u, uds[u]), uds, faulty)
    ensures !Fails(Compacted(u), uds, faulty) ==> NoneFails(LatePass(uds, u + 1), uds, faulty)
  {
    AppendedSafe(u, uds, faulty);
    LastSafe(u, uds, faulty);
    LateSplits(uds, u);
    hide LatePass, Appended, LastOf;
    ConcatFails(LatePass(uds, u), Appended(u, uds[u]), uds, faulty);
    ConcatFails(LatePass(uds, u) + Appended(u, uds[u]), [Compacted(u)], uds, faulty);
    ConcatFails(LatePass(uds, u) + Appended(u, uds[u]) + [Compacted(u)], LastOf(u, uds[u]), uds, faulty);
  }

  lemma {:induction false} LateSplits(uds: seq<Update>, u: nat)
    requires u < |uds|
    ensures LatePass(uds, u + 1) == LatePass(uds, u) + Appended(u, uds[u]) + [Compacted(u)] + LastOf(u, uds[u])
  {
    hide Appended, LastOf;
    var a, b, c, d := LatePass(uds, u), Appended(u, uds[u]), [Compacted(u)], LastOf(u, uds[u]);
    assert a + (b + c + d) == a + b + c + d;
  }

  lemma {:induction false} AppendedSafe(u: nat, uds: seq<Update>, faulty: set<Event>)
    requires u < |uds|
    ensures NoneFails(Appended(u, uds[u]), uds, faulty)
  {
    SendsSafe(u, uds[u], |uds[u].messages|, false, uds, faulty);
    hide Sends;
  }

  lemma {:induction false} LastSafe(u: nat, uds: seq<Update>, faulty: set<Event>)
    requires u < |uds|
    ensures NoneFails(LastOf(u, uds[u]), uds, faulty)
  {
  }

  lemma {:induction false} ConcatFails(a: seq<Event>, b: seq<Event>, uds: seq<Update>, faulty: set<Event>)
    ensures NoneFails(a + b, uds, faulty) <==> NoneFails(a, uds, faulty) && NoneFails(b, uds, faulty)
  {
    hide Fails;
    assert forall i | 0 <= i < |b| :: b[i] == (a + b)[|a| + i];
    assert forall i | 0 <= i < |a| :: a[i] == (a + b)[i];
  }

  lemma {:induction false} NoneEmitted(trace: seq<Event>, uds: seq<Update>, faulty: set<Event>)
    ensures LatePass(uds, 0) == [] && NoneFails([], uds, faulty) && trace + [] == trace
  {
  }

  lemma {:induction false} AllEmitted(trace: seq<Event>, pass: seq<Event>, uds: seq<Update>, faulty: set<Event>)
    requires NoneFails(pass, uds, faulty)
    ensures Emitted(trace, pass, uds, faulty, trace + pass, false)
  {
    assert (trace + pass)[|trace|..] == pass;
  }

  lemma {:induction false} PublishesSafe(uds: seq<Update>, faulty: set<Event>, n: nat)
    requires !AnySnapshot(uds) && n <= |uds|
    ensures NoneFails(PublishPass(n), uds, faulty)
  {
    if n > 0 {
      PublishesSafe(uds, faulty, n - 1);
    }
  }

  lemma {:induction false} EarlyPassSafe(uds: seq<Update>, faulty: set<Event>, n: nat)
    requires n <= |uds|
    ensures NoneFails(EarlyPass(uds, n), uds, faulty)
  {
    if n > 0 {
      EarlyPassSafe(uds, faulty, n - 1);
      SendsSafe(n - 1, uds[n - 1], |uds[n - 1].messages|, true, uds, faulty);
    }
  }

  lemma {:induction false} EarlySafe(uds: seq<Update>, faulty: set<Event>)
    ensures NoneFails(Before(uds), uds, faulty)
  {
    hide PublishPass, EarlyPass, Fails;
    EarlyPassSafe(uds, faulty, |uds|);
    if !AnySnapshot(uds) {
      PublishesSafe(uds, faulty, |uds|);
    }
  }

  // ---- the methods ----

  method EmitSends(trace: seq<Event>, u: nat, ud: Update, free: bool) returns (r: seq<Event>)
    ensures r == trace + AllSends(u, ud, free)
  {
    r := trace;
    for j := 0 to |ud.messages|
      invariant r == trace + Sends(u, ud, j, free)
    {
      if ud.messages[j].FreeOrder() == free {
        r := r + [Send(u, j, ud.messages[j].(clusterId := ud.clusterId))];
      }
    }
  }

  method EmitPublishes(trace: seq<Event>, uds: seq<Update>, faulty: set<Event>) returns (r: seq<Event>, failed: bool)
    ensures Emitted(trace, PublishPass(|uds|), uds, faulty, r, failed)
  {
    hide Fails;
    r, failed := trace, false;
    for u := 0 to |uds|
      invariant r == trace + PublishPass(u) && NoneFails(PublishPass(u), uds, faulty)
    {
      PublishesGrow(u, |uds|);
      if Fails(Publish(u), uds, faulty) {
        CutAt(trace, PublishPass(u), Publish(u), PublishPass(|uds|), uds, faulty);
        return r, true;
      }
      r := r + [Publish(u)];
    }
  }

  method FindSnapshot(uds: seq<Update>) returns (hasSnapshot: bool)
    ensures hasSnapshot == AnySnapshot(uds)
  {
    hasSnapshot := false;
    for u := 0 to |uds|
      invariant hasSnapshot <==> exists v | 0 <= v < u :: uds[v].HasSnapshot()
    {
      if uds[u].snapshotIndex != 0 {
        assert uds[u].HasSnapshot();
        hasSnapshot := true;
      }
    }
  }

  method EmitEarly(trace: seq<Event>, uds: seq<Update>) returns (r: seq<Event>)
    ensures r == trace + EarlyPass(uds, |uds|)
  {
    hide AllSends;
    r := trace;
    for u := 0 to |uds|
      invariant r == trace + EarlyPass(uds, u)
    {
      r := EmitSends(r, u, uds[u], true);
      r := r + [ReadyToRead(u)];
    }
  }

  /** processRaftUpdate and commitRaftUpdate of one node. */
  method EmitLateOf(trace: seq<Event>, u: nat, ud: Update, fails: bool) returns (r: seq<Event>)
    ensures r == trace + Appended(u, ud) + if fails then [] else [Compacted(u)] + LastOf(u, ud)
  {
    hide AllSends;
    r := trace + [LogAppended(u)];
    r := EmitSends(r, u, ud, false);
    if fails {
      return;
    }
    ghost var compacted := r + [Compacted(u)];
    r := r + [Compacted(u)];
    if ud.snapshotDue {
      r := r + [SnapshotRequested(u)];
    }
    if ud.moreCommitted {
      r := r + [LocalMessage(u)];
    }
    r := r + [CommitUpdate(u)];
    assert r == compacted + LastOf(u, ud);
  }

  method EmitLate(trace: seq<Event>, uds: seq<Update>, faulty: set<Event>) returns (r: seq<Event>, failed: bool)
    ensures Emitted(trace, LatePass(uds, |uds|), uds, faulty, r, failed)
  {
    hide Appended, LastOf, Fails, LatePass, NoneFails, Emitted;
    r, failed := trace, false;
    NoneEmitted(trace, uds, faulty);
    for u := 0 to |uds|
      invariant r == trace + LatePass(uds, u) && NoneFails(LatePass(uds, u), uds, faulty)
    {
      LateGrows(uds, u, |uds|);
      LateFails(uds, u, faulty);
      failed := Fails(Compacted(u), uds, faulty);
      r := EmitLateOf(r, u, uds[u], failed);
      if failed {
        assert r == trace + (LatePass(uds, u) + Appended(u, uds[u]));
        CutAt(trace, LatePass(uds, u) + Appended(u, uds[u]), Compacted(u), LatePass(uds, |uds|), uds, faulty);
        return;
      }
      assert r == trace + LatePass(uds, u + 1);
    }
    AllEmitted(trace, LatePass(uds, |uds|), uds, faulty);
  }

  /** onSnapshotSaved. */
  method EmitFlags(trace: seq<Event>, uds: seq<Update>, faulty: set<Event>) returns (r: seq<Event>, failed: bool)
    ensures Emitted(trace, FlagPass(uds, |uds|), uds, faulty, r, failed)
  {
    hide Fails;
    r, failed := trace, false;
    for u := 0 to |uds|
      invariant r == trace + FlagPass(uds, u) && NoneFails(FlagPass(uds, u), uds, faulty)
    {
      FlagsGrow(uds, u, |uds|);
      if uds[u].snapshotIndex != 0 {
        if Fails(FlagRemoved(u), uds, faulty) {
          CutAt(trace, FlagPass(uds, u), FlagRemoved(u), FlagPass(uds, |uds|), uds, faulty);
          return r, true;
        }
        r := r + [FlagRemoved(u)];
      }
    }
  }

  /** The pass over all updates: the trace, cut short by a panic where the first of its steps fails. */
  method ExecNodes(uds: seq<Update>, faulty: set<Event>) returns (trace: seq<Event>, panicked: bool)
    ensures CutShort(trace, Trace(uds), uds, faulty) && panicked == (trace != Trace(uds))
  {
    hide PublishPass, EarlyPass, LatePass, FlagPass, Fails;
    trace, panicked := [], false;
    var hasSnapshot := FindSnapshot(uds);
    if !hasSnapshot {
      PublishesSafe(uds, faulty, |uds|);
      trace, panicked := EmitPublishes(trace, uds, faulty);
    }
    trace := EmitEarly(trace, uds);
    assert trace == Before(uds);
    EarlySafe(uds, faulty);
    if Fails(SaveRaftState, uds, faulty) {
      CutAt([], Before(uds), SaveRaftState, Trace(uds), uds, faulty);
      return trace, true;
    }
    trace := trace + [SaveRaftState];
    ghost var saved := trace;
    if hasSnapshot {
      trace, panicked := EmitFlags(trace, uds, faulty);
      if panicked {
        CutLater(saved, FlagPass(uds, |uds|), Trace(uds), uds, faulty, trace);
        return;
      }
      ghost var flagged := trace;
      trace, panicked := EmitPublishes(trace, uds, faulty);
      if panicked {
        CutLater(flagged, PublishPass(|uds|), Trace(uds), uds, faulty, trace);
        return;
      }
    }
    ghost var published := trace;
    trace, panicked := EmitLate(trace, uds, faulty);
    assert published + LatePass(uds, |uds|) == Trace(uds);
    CutLater(published, LatePass(uds, |uds|), Trace(uds), uds, faulty, trace);
  }

  // ---- what the order guarantees ----

  function Count(s: seq<Event>, e: Event): nat { multiset(s)[e] }

  lemma {:induction false} CountConcat(a: seq<Event>, b: seq<Event>, e: Event)
    ensures Count(a + b, e) == Count(a, e) + Count(b, e)
  {
  }

  lemma {:induction false} EmptyCount(e: Event)
    ensures Count([], e) == 0
  {
  }

  lemma {:induction false} CountOne(d: Event, e: Event)
    ensures Count([d], e) == if d == e then 1 else 0
  {
  }

  predicate One(b: bool, n: nat) { n == if b then 1 else 0 }

  /** `e` is the sending of message `j` of update `u`, stamped. */
  predicate IsSendOf(e: Event, u: nat, ud: Update)
    ensures IsSendOf(e, u, ud) ==> e.Send? && e.u == u
  {
    e.Send? && e.u == u && e.j < |ud.messages| && e.m == ud.messages[e.j].(clusterId := ud.clusterId)
  }

  /** An event of the last pass, other than a sending. */
  predicate OfLastPass(e: Event) { e.LogAppended? || e.Compacted? || e.SnapshotRequested? || e.LocalMessage? || e.CommitUpdate? }

  /** The update calls for the event. */
  predicate Happens(e: Event, ud: Update) {
    (e.SnapshotRequested? ==> ud.snapshotDue) && (e.LocalMessage? ==> ud.moreCommitted)
  }

  lemma {:induction false} CountSends(u: nat, ud: Update, n: nat, free: bool, e: Event)
    requires n <= |ud.messages|
    ensures One(IsSendOf(e, u, ud) && e.j < n && e.m.FreeOrder() == free, Count(Sends(u, ud, n, free), e))
  {
    hide Count;
    EmptyCount(e);
    if n > 0 {
      CountSends(u, ud, n - 1, free, e);
      var send := Send(u, n - 1, ud.Stamped(n - 1));
      assert ud.messages[n - 1].FreeOrder() != free ==> Sends(u, ud, n, free) == Sends(u, ud, n - 1, free);
      CountConcat(Sends(u, ud, n - 1, free), [send], e);
      CountOne(send, e);
    }
  }

  lemma {:induction false} CountPublishes(n: nat, e: Event)
    ensures One(e.Publish? && e.u < n, Count(PublishPass(n), e))
  {
    if n > 0 {
      CountPublishes(n - 1, e);
    }
  }

  lemma {:induction false} CountEarlyOf(u: nat, ud: Update, e: Event)
    ensures e.Send? ==> One(IsSendOf(e, u, ud) && e.m.FreeOrder(), Count(EarlyOf(u, ud), e))
    ensures e.ReadyToRead? ==> One(e.u == u, Count(EarlyOf(u, ud), e))
    ensures e.Publish? || e.SaveRaftState? || e.FlagRemoved? || OfLastPass(e) ==> Count(EarlyOf(u, ud), e) == 0
  {
    hide Sends;
    CountSends(u, ud, |ud.messages|, true, e);
    CountConcat(AllSends(u, ud, true), [ReadyToRead(u)], e);
  }

  lemma {:induction false} CountEarly(uds: seq<Update>, n: nat, e: Event)
    requires n <= |uds|
    ensures e.Send? ==> One(e.u < n && IsSendOf(e, e.u, uds[e.u]) && e.m.FreeOrder(), Count(EarlyPass(uds, n), e))
    ensures e.ReadyToRead? ==> One(e.u < n, Count(EarlyPass(uds, n), e))
    ensures e.Publish? || e.SaveRaftState? || e.FlagRemoved? || OfLastPass(e) ==> Count(EarlyPass(uds, n), e) == 0
  {
    hide EarlyOf, Count, IsSendOf;
    EmptyCount(e);
    if n > 0 {
      CountEarly(uds, n - 1, e);
      CountEarlyOf(n - 1, uds[n - 1], e);
      CountConcat(EarlyPass(uds, n - 1), EarlyOf(n - 1, uds[n - 1]), e);
    }
  }

  lemma {:induction false} CountFlags(uds: seq<Update>, n: nat, e: Event)
    requires n <= |uds|
    ensures One(e.FlagRemoved? && e.u < n && uds[e.u].HasSnapshot(), Count(FlagPass(uds, n), e))
  {
    hide Count;
    EmptyCount(e);
    if n > 0 {
      CountFlags(uds, n - 1, e);
      assert !uds[n - 1].HasSnapshot() ==> FlagPass(uds, n) == FlagPass(uds, n - 1);
      CountConcat(FlagPass(uds, n - 1), [FlagRemoved(n - 1)], e);
      CountOne(FlagRemoved(n - 1), e);
    }
  }

  lemma {:induction false} CountLateOf(u: nat, ud: Update, e: Event)
    ensures e.Send? ==> One(IsSendOf(e, u, ud) && !e.m.FreeOrder(), Count(LateOf(u, ud), e))
    ensures OfLastPass(e) ==> One(e.u == u && Happens(e, ud), Count(LateOf(u, ud), e))
    ensures e.Publish? || e.SaveRaftState? || e.FlagRemoved? || e.ReadyToRead? ==> Count(LateOf(u, ud), e) == 0
  {
    hide Sends;
    CountSends(u, ud, |ud.messages|, false, e);
    CountConcat([LogAppended(u)], AllSends(u, ud, false), e);
    CountConcat([LogAppended(u)] + AllSends(u, ud, false), [Compacted(u)], e);
    CountConcat([LogAppended(u)] + AllSends(u, ud, false) + [Compacted(u)], LastOf(u, ud), e);
    CountLast(u, ud, e);
  }

  lemma {:induction false} CountLast(u: nat, ud: Update, e: Event)
    ensures One(
              (e.CommitUpdate? || (e.SnapshotRequested? && ud.snapshotDue) || (e.LocalMessage? && ud.moreCommitted)) && e.u == u,
              Count(LastOf(u, ud), e))
  {
    var a := if ud.snapshotDue then [SnapshotRequested(u)] else [];
    var b := if ud.moreCommitted then [LocalMessage(u)] else [];
    CountConcat(a, b, e);
    CountConcat(a + b, [CommitUpdate(u)], e);
  }

  lemma {:induction false} CountLate(uds: seq<Update>, n: nat, e: Event)
    requires n <= |uds|
    ensures e.Send? ==> One(e.u < n && IsSendOf(e, e.u, uds[e.u]) && !e.m.FreeOrder(), Count(LatePass(uds, n), e))
    ensures OfLastPass(e) ==> One(e.u < n && Happens(e, uds[e.u]), Count(LatePass(uds, n), e))
    ensures e.Publish? || e.SaveRaftState? || e.FlagRemoved? || e.ReadyToRead? ==> Count(LatePass(uds, n), e) == 0
  {
    hide LateOf, Count, IsSendOf;
    EmptyCount(e);
    if n > 0 {
      CountLate(uds, n - 1, e);
      CountLateOf(n - 1, uds[n - 1], e);
      CountConcat(LatePass(uds, n - 1), LateOf(n - 1, uds[n - 1]), e);
    }
  }

  lemma {:induction false} CountBefore(uds: seq<Update>, e: Event)
    ensures e.Send? ==> One(e.u < |uds| && IsSendOf(e, e.u, uds[e.u]) && e.m.FreeOrder(), Count(Before(uds), e))
    ensures e.Publish? ==> One(!AnySnapshot(uds) && e.u < |uds|, Count(Before(uds), e))
    ensures e.ReadyToRead? ==> One(e.u < |uds|, Count(Before(uds), e))
    ensures e.SaveRaftState? || e.FlagRemoved? || OfLastPass(e) ==> Count(Before(uds), e) == 0
  {
    hide PublishPass, EarlyPass;
    CountPublishes(|uds|, e);
    CountEarly(uds, |uds|, e);
    CountConcat(PublishPass(|uds|), EarlyPass(uds, |uds|), e);
  }

  lemma {:induction false} CountAfter(uds: seq<Update>, e: Event)
    ensures e.Send? ==> One(e.u < |uds| && IsSendOf(e, e.u, uds[e.u]) && !e.m.FreeOrder(), Count(After(uds), e))
    ensures e.Publish? ==> One(AnySnapshot(uds) && e.u < |uds|, Count(After(uds), e))
    ensures OfLastPass(e) ==> One(e.u < |uds| && Happens(e, uds[e.u]), Count(After(uds), e))
    ensures e.FlagRemoved? ==> One(e.u < |uds| && uds[e.u].HasSnapshot(), Count(After(uds), e))
    ensures e.SaveRaftState? || e.ReadyToRead? ==> Count(After(uds), e) == 0
  {
    hide PublishPass, LatePass, FlagPass;
    CountPublishes(|uds|, e);
    CountFlags(uds, |uds|, e);
    CountLate(uds, |uds|, e);
    CountConcat(FlagPass(uds, |uds|), PublishPass(|uds|), e);
    CountConcat(FlagPass(uds, |uds|) + PublishPass(|uds|), LatePass(uds, |uds|), e);
  }

  /** Exactly once: every message of every update is sent, stamped with its cluster, and nothing else
      is; every update is published, has its confirmed reads passed on, is appended and committed; the
      state is saved; and a flag file is removed, a snapshot requested or a local message sent just for
      the updates that call for it. */
  lemma {:induction false} EachExactlyOnce(uds: seq<Update>, e: Event)
    ensures e.Send? ==> One(e.u < |uds| && IsSendOf(e, e.u, uds[e.u]), Count(Trace(uds), e))
    ensures e.Publish? ==> One(e.u < |uds|, Count(Trace(uds), e))
    ensures e.ReadyToRead? ==> One(e.u < |uds|, Count(Trace(uds), e))
    ensures e.FlagRemoved? ==> One(e.u < |uds| && uds[e.u].HasSnapshot(), Count(Trace(uds), e))
    ensures OfLastPass(e) ==> One(e.u < |uds| && Happens(e, uds[e.u]), Count(Trace(uds), e))
    ensures e.SaveRaftState? ==> Count(Trace(uds), e) == 1
  {
    hide Before, After;
    CountBefore(uds, e);
    CountAfter(uds, e);
    CountConcat(Before(uds), [SaveRaftState], e);
    CountConcat(Before(uds) + [SaveRaftState], After(uds), e);
  }

  /** Persist before send: of two events of the pass, one of them the saving of the state, a message
      is sent before it just when it is free-order; and an update is published before it just when no
      update of the pass carries a snapshot. */
  lemma {:induction false} PersistBeforeSend(uds: seq<Update>, saved: nat, i: nat)
    requires saved < |Trace(uds)| && i < |Trace(uds)| && Trace(uds)[saved].SaveRaftState?
    ensures Trace(uds)[i].Send? ==> (i < saved <==> Trace(uds)[i].m.kind.Replicate? || Trace(uds)[i].m.kind.Ping?)
    ensures Trace(uds)[i].Publish? ==> (i < saved <==> !AnySnapshot(uds))
    ensures Trace(uds)[i].FlagRemoved? || OfLastPass(Trace(uds)[i]) ==> saved < i
  {
    hide Before, After;
    var a, b, e := Before(uds), After(uds), Trace(uds)[i];
    SavedAt(uds, saved);
    CountBefore(uds, e);
    CountAfter(uds, e);
    NotCounted(a, e);
    NotCounted(b, e);
    assert i < saved ==> e in a;
    assert i > saved ==> e in b by { if i > saved { assert e == b[i - |a| - 1]; } }
  }

  /** The same of a pass that panics: whatever it has sent that is not free-order, and whatever it has
      published when an update carries a snapshot, comes after the saving. */
  lemma {:induction false} PersistBeforeSendAlways(uds: seq<Update>, faulty: set<Event>, trace: seq<Event>, i: nat)
    requires CutShort(trace, Trace(uds), uds, faulty) && i < |trace|
    requires (trace[i].Send? && trace[i].m.kind.Other?) || (trace[i].Publish? && AnySnapshot(uds))
    ensures |Before(uds)| < i && trace[|Before(uds)|].SaveRaftState?
  {
    hide Before, After, Fails;
    PersistBeforeSend(uds, |Before(uds)|, i);
  }

  lemma {:induction false} NotCounted(s: seq<Event>, e: Event)
    ensures Count(s, e) == 0 <==> e !in s
  {
    assert e in multiset(s) <==> e in s;
  }

  lemma {:induction false} SavedAt(uds: seq<Update>, saved: nat)
    requires saved < |Trace(uds)| && Trace(uds)[saved].SaveRaftState?
    ensures saved == |Before(uds)|
  {
    hide Before, After;
    var a, b := Before(uds), After(uds);
    CountBefore(uds, SaveRaftState);
    CountAfter(uds, SaveRaftState);
    NotCounted(a, SaveRaftState);
    NotCounted(b, SaveRaftState);
    assert forall k | 0 <= k < |a| :: Trace(uds)[k] == a[k];
    assert forall k | |a| < k < |Trace(uds)| :: Trace(uds)[k] == b[k - |a| - 1];
  }

  /** In a pass with a snapshot every flag file is gone, hence every snapshot in the log database,
      before anything is published. */
  lemma {:induction false} FlagsBeforePublish(uds: seq<Update>)
    requires AnySnapshot(uds)
    ensures Trace(uds) == Before(uds) + [SaveRaftState] + FlagPass(uds, |uds|) + PublishPass(|uds|) + LatePass(uds, |uds|)
    ensures forall e: Event | e.Publish? :: e !in Before(uds) + [SaveRaftState] + FlagPass(uds, |uds|)
    ensures forall u | 0 <= u < |uds| && uds[u].HasSnapshot() :: FlagRemoved(u) in FlagPass(uds, |uds|)
  {
    hide PublishPass, LatePass, FlagPass, EarlyPass, Before;
    var f := FlagPass(uds, |uds|);
    forall e: Event | e.Publish?
      ensures e !in Before(uds) + [SaveRaftState] + f
    {
      CountBefore(uds, e);
      NotCounted(Before(uds), e);
      CountFlags(uds, |uds|, e);
      NotCounted(f, e);
    }
    forall u | 0 <= u < |uds| && uds[u].HasSnapshot()
      ensures FlagRemoved(u) in f
    {
      CountFlags(uds, |uds|, FlagRemoved(u));
      NotCounted(f, FlagRemoved(u));
    }
  }

  // ---- the order of the last pass ----

  /** An event of the last pass: everything about an update that is not free to come before the saving. */
  predicate Late(e: Event) { OfLastPass(e) || (e.Send? && !e.m.FreeOrder()) }

  /** The steps of one update in their order. */
  function Rank(e: Event): nat {
    match e
    case LogAppended(_) => 0
    case Send(_, _, _) => 1
    case Compacted(_) => 2
    case SnapshotRequested(_) => 3
    case LocalMessage(_) => 4
    case _ => 5
  }

  /** Updates in turn, the steps of each in their order, its messages in theirs. */
  predicate Precedes(d: Event, e: Event) {
    Late(d) && Late(e) &&
    (d.u < e.u || (d.u == e.u && (Rank(d) < Rank(e) || (d.Send? && e.Send? && d.j < e.j))))
  }

  predicate InOrder(s: seq<Event>) { forall i, j | 0 <= i < j < |s| :: Precedes(s[i], s[j]) }

  lemma {:induction false} OrderConcat(s: seq<Event>, t: seq<Event>)
    requires InOrder(s) && InOrder(t) && forall d, e | d in s && e in t :: Precedes(d, e)
    ensures InOrder(s + t)
  {
    hide Precedes;
    var c := s + t;
    forall i, j | 0 <= i < j < |c|
      ensures Precedes(c[i], c[j])
    {
      if j < |s| {
        assert c[i] == s[i] && c[j] == s[j];
      } else if i < |s| {
        assert c[i] == s[i] && c[j] == t[j - |s|];
      } else {
        assert c[i] == t[i - |s|] && c[j] == t[j - |s|];
      }
    }
  }

  lemma {:induction false} SendsInOrder(u: nat, ud: Update, n: nat)
    requires n <= |ud.messages|
    ensures InOrder(Sends(u, ud, n, false))
    ensures forall e | e in Sends(u, ud, n, false) :: Late(e) && e.Send? && e.u == u && e.j < n
  {
    if n > 0 {
      SendsInOrder(u, ud, n - 1);
      var last: seq<Event> := if ud.messages[n - 1].FreeOrder() then [] else [Send(u, n - 1, ud.Stamped(n - 1))];
      assert Sends(u, ud, n, false) == Sends(u, ud, n - 1, false) + last;
      OrderConcat(Sends(u, ud, n - 1, false), last);
    }
  }

  lemma {:induction false} LastInOrder(u: nat, ud: Update)
    ensures InOrder([Compacted(u)] + LastOf(u, ud))
    ensures forall e | e in [Compacted(u)] + LastOf(u, ud) :: Late(e) && e.u == u && Rank(e) >= 2
  {
  }

  lemma {:induction false} UpdateInOrder(u: nat, ud: Update)
    ensures InOrder(LateOf(u, ud)) && forall e | e in LateOf(u, ud) :: Late(e) && e.u == u
  {
    hide LastOf, Sends;
    SendsInOrder(u, ud, |ud.messages|);
    LastInOrder(u, ud);
    var tail := [Compacted(u)] + LastOf(u, ud);
    OrderConcat([LogAppended(u)], AllSends(u, ud, false));
    OrderConcat(Appended(u, ud), tail);
    assert LateOf(u, ud) == Appended(u, ud) + tail;
  }

  lemma {:induction false} LateInOrder(uds: seq<Update>, n: nat)
    requires n <= |uds|
    ensures InOrder(LatePass(uds, n)) && forall e | e in LatePass(uds, n) :: Late(e) && e.u < n
  {
    hide LateOf;
    if n > 0 {
      LateInOrder(uds, n - 1);
      UpdateInOrder(n - 1, uds[n - 1]);
      OrderConcat(LatePass(uds, n - 1), LateOf(n - 1, uds[n - 1]));
    }
  }

  /** Everything before the last pass. */
  function Published(uds: seq<Update>): seq<Event> {
    Before(uds) + [SaveRaftState] + if AnySnapshot(uds) then FlagPass(uds, |uds|) + PublishPass(|uds|) else []
  }

  /**
    * In the trace what may not precede the saving goes update by update, and within each its log is
    * appended, its messages are sent in their order, the log is compacted, a snapshot is requested and the
    * local message sent if called for, and the update is committed; all of it after everything published.
    */
  lemma {:induction false} StepsInOrder(uds: seq<Update>, i: nat, j: nat)
    requires i < j < |Trace(uds)| && Late(Trace(uds)[i])
    ensures Precedes(Trace(uds)[i], Trace(uds)[j]) && !Trace(uds)[j].Publish?
  {
    hide Trace, LatePass, Published, Precedes, Late;
    var before, late := Published(uds), LatePass(uds, |uds|);
    LateInOrder(uds, |uds|);
    TraceSplits(uds);
    assert i >= |before| by {
      if i < |before| {
        assert Trace(uds)[i] == before[i];
        NoneLate(uds, before[i]);
      }
    }
    assert Trace(uds)[i] == late[i - |before|] && Trace(uds)[j] == late[j - |before|];
    NotPublished(late[j - |before|]);
  }

  lemma {:induction false} TraceSplits(uds: seq<Update>)
    ensures Trace(uds) == Published(uds) + LatePass(uds, |uds|)
  {
    hide LatePass, Before, FlagPass, PublishPass;
  }

  lemma {:induction false} NotPublished(e: Event)
    requires Late(e)
    ensures !e.Publish?
  {
  }

  lemma {:induction false} NoneLate(uds: seq<Update>, e: Event)
    requires e in Published(uds)
    ensures !Late(e)
  {
    hide Before, FlagPass, PublishPass;
    CountBefore(uds, e);
    CountFlags(uds, |uds|, e);
    CountPublishes(|uds|, e);
    NotCounted(Before(uds), e);
    NotCounted(FlagPass(uds, |uds|), e);
    NotCounted(PublishPass(|uds|), e);
  }

  // ---- the order of the first pass ----

  /** A message that may be sent early, and the confirmed reads, which follow an update's messages. */
  predicate EarlyEvent(e: Event) { e.ReadyToRead? || (e.Send? && e.m.FreeOrder()) }

  predicate Earlier(d: Event, e: Event) {
    EarlyEvent(d) && EarlyEvent(e) &&
    (d.u < e.u || (d.u == e.u && d.Send? && (e.ReadyToRead? || (e.Send? && d.j < e.j))))
  }

  predicate EarlyOrder(s: seq<Event>) { forall i, j | 0 <= i < j < |s| :: Earlier(s[i], s[j]) }

  lemma {:induction false} EarlyConcat(s: seq<Event>, t: seq<Event>)
    requires EarlyOrder(s) && EarlyOrder(t) && forall d, e | d in s && e in t :: Earlier(d, e)
    ensures EarlyOrder(s + t)
  {
    hide Earlier;
    var c := s + t;
    forall i, j | 0 <= i < j < |c|
      ensures Earlier(c[i], c[j])
    {
      if j < |s| {
        assert c[i] == s[i] && c[j] == s[j];
      } else if i < |s| {
        assert c[i] == s[i] && c[j] == t[j - |s|];
      } else {
        assert c[i] == t[i - |s|] && c[j] == t[j - |s|];
      }
    }
  }

  lemma {:induction false} FreeSendsInOrder(u: nat, ud: Update, n: nat)
    requires n <= |ud.messages|
    ensures EarlyOrder(Sends(u, ud, n, true))
    ensures forall e | e in Sends(u, ud, n, true) :: EarlyEvent(e) && e.Send? && e.u == u && e.j < n
  {
    if n > 0 {
      FreeSendsInOrder(u, ud, n - 1);
      var last: seq<Event> := if ud.messages[n - 1].FreeOrder() then [Send(u, n - 1, ud.Stamped(n - 1))] else [];
      assert Sends(u, ud, n, true) == Sends(u, ud, n - 1, true) + last;
      EarlyConcat(Sends(u, ud, n - 1, true), last);
    }
  }

  lemma {:induction false} EarlyPassInOrder(uds: seq<Update>, n: nat)
    requires n <= |uds|
    ensures EarlyOrder(EarlyPass(uds, n)) && forall e | e in EarlyPass(uds, n) :: EarlyEvent(e) && e.u < n
  {
    hide Sends;
    if n > 0 {
      var u, ud := n - 1, uds[n - 1];
      EarlyPassInOrder(uds, u);
      FreeSendsInOrder(u, ud, |ud.messages|);
      EarlyConcat(AllSends(u, ud, true), [ReadyToRead(u)]);
      EarlyConcat(EarlyPass(uds, u), EarlyOf(u, ud));
    }
  }

  /**
    * In the trace what comes before the saving is everything published, when no update carries a snapshot,
    * and then, update by update, its early messages in their order and its confirmed reads.
    */
  lemma {:induction false} EarlyInOrder(uds: seq<Update>, i: nat, j: nat)
    requires i < j < |Before(uds)| && EarlyEvent(Trace(uds)[i])
    ensures Earlier(Trace(uds)[i], Trace(uds)[j]) && !Trace(uds)[j].Publish?
  {
    hide EarlyPass, PublishPass, After, Earlier, EarlyEvent;
    var early := EarlyPass(uds, |uds|);
    var first: seq<Event> := if AnySnapshot(uds) then [] else PublishPass(|uds|);
    EarlyPassInOrder(uds, |uds|);
    assert Trace(uds)[i] == Before(uds)[i] && Trace(uds)[j] == Before(uds)[j];
    assert i >= |first| by {
      if i < |first| {
        NotEarly(|uds|, first[i]);
      }
    }
    assert Before(uds)[i] == early[i - |first|] && Before(uds)[j] == early[j - |first|];
    NotPublishedEarly(early[j - |first|]);
  }

  lemma {:induction false} NotEarly(n: nat, e: Event)
    requires e in PublishPass(n)
    ensures !EarlyEvent(e)
  {
    CountPublishes(n, e);
    NotCounted(PublishPass(n), e);
  }

  lemma {:induction false} NotPublishedEarly(e: Event)
    requires EarlyEvent(e)
    ensures !e.Publish?
  {
  }

  /** Updates are published, and flag files removed, in the order of the updates. */
  lemma {:induction false} PublishedInTurn(uds: seq<Update>, n: nat)
    requires n <= |uds|
    ensures |PublishPass(n)| == n && forall i | 0 <= i < n :: PublishPass(n)[i] == Publish(i)
    ensures forall e | e in FlagPass(uds, n) :: e.FlagRemoved? && e.u < n
    ensures forall i, j | 0 <= i < j < |FlagPass(uds, n)| :: FlagPass(uds, n)[i].u < FlagPass(uds, n)[j].u
  {
    if n > 0 {
      PublishedInTurn(uds, n - 1);
      var flags := FlagPass(uds, n - 1);
      assert forall i | 0 <= i < |flags| :: flags[i] in flags;
    }
  }
}
