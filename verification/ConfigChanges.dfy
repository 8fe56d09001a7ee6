/** The tracker of membership change requests: one at a time, through a channel of capacity one. */
module ConfigChanges {
  import opened Bits
  import opened Clock

  type Key = uint64

  datatype Request = Request(key: Key, deadline: nat)

  datatype Slot = Empty | Holds(req: Request)

  datatype Result = Terminated | Timeout | Completed | Rejected

  datatype Reply = TimeoutTooSmall | PendingConfigChangeExist | ClusterClosed | SystemBusy | Accepted

  /** `panicked` stands for the full result channel of a request notified twice. */
  datatype Tracker = Tracker(
    pending: Slot, open: bool, channel: seq<Request>, tick: nat, lastGcTime: nat,
    notified: map<Key, Result>, panicked: bool)
  {
    function Notify(key: Key, r: Result): Tracker {
      this.(notified := notified[key := r], panicked := panicked || key in notified, pending := Empty)
    }

    function Close(): Tracker {
      var told := if open && pending.Holds? then Notify(pending.req.key, Terminated) else this;
      told.(open := false)
    }

    function ReplyTo(timeoutTick: nat): Reply {
      if timeoutTick == 0 then TimeoutTooSmall
      else if pending.Holds? then PendingConfigChangeExist
      else if !open then ClusterClosed
      else if |channel| == 0 then Accepted
      else SystemBusy
    }

    function Ask(key: Key, timeoutTick: nat): Tracker {
      if ReplyTo(timeoutTick) != Accepted then this
      else
        var req := Request(key, tick + timeoutTick);
        this.(pending := Holds(req), channel := channel + [req])
    }

    predicate GcDue() { Sub64(tick, lastGcTime) >= GC_TICK }

    function Gc(): Tracker {
      if pending.Empty? || !GcDue() then this
      else
        var t := this.(lastGcTime := tick);
        if pending.req.deadline < tick then t.Notify(pending.req.key, Timeout) else t
    }

    function Apply(key: Key, rejected: bool): Tracker {
      if pending.Holds? && pending.req.key == key then Notify(key, if rejected then Rejected else Completed) else this
    }

    /** The step worker takes the request from the channel, also once it is closed. */
    function Receive(): Tracker { if channel == [] then this else this.(channel := channel[1..]) }
  }

  const NEW_TRACKER: Tracker := Tracker(Empty, true, [], 0, 0, map[], false)

  class PendingConfigChange {
    var pending: Slot
    var open: bool
    var channel: seq<Request>
    var tick: nat
    var lastGcTime: nat
    var notified: map<Key, Result>
    var panicked: bool

    ghost function Now(): Tracker
      reads this
    {
      Tracker(pending, open, channel, tick, lastGcTime, notified, panicked)
    }

    constructor ()
      ensures Now() == NEW_TRACKER
    {
      pending, open, channel, tick, lastGcTime, notified, panicked := Empty, true, [], 0, 0, map[], false;
    }

    method Notify(key: Key, r: Result)
      modifies this`notified, this`panicked, this`pending
      ensures Now() == old(Now()).Notify(key, r)
    {
      if key in notified {
        panicked := true;
      }
      notified := notified[key := r];
      pending := Empty;
    }

    method Close()
      modifies this
      ensures Now() == old(Now()).Close()
    {
      if open {
        if pending != Empty {
          Notify(pending.req.key, Terminated);
        }
        open := false;
      }
    }

    method Ask(key: Key, timeoutTick: nat) returns (reply: Reply)
      modifies this`pending, this`channel
      ensures Now() == old(Now()).Ask(key, timeoutTick) && reply == old(Now()).ReplyTo(timeoutTick)
    {
      if timeoutTick == 0 {
        return TimeoutTooSmall;
      }
      if pending != Empty {
        return PendingConfigChangeExist;
      }
      if !open {
        return ClusterClosed;
      }
      if |channel| < 1 {
        var req := Request(key, tick + timeoutTick);
        channel := channel + [req];
        pending := Holds(req);
        return Accepted;
      }
      return SystemBusy;
    }

    method Gc()
      modifies this
      ensures Now() == old(Now()).Gc()
    {
      if pending == Empty {
        return;
      }
      if Sub64(tick, lastGcTime) < GC_TICK {
        return;
      }
      lastGcTime := tick;
      if pending.req.deadline < tick {
        Notify(pending.req.key, Timeout);
      }
    }

    method Apply(key: Key, rejected: bool)
      modifies this
      ensures Now() == old(Now()).Apply(key, rejected)
    {
      if pending == Empty {
        return;
      }
      var v := if rejected then Rejected else Completed;
      if pending.req.key == key {
        Notify(key, v);
      }
    }
  }

  // ---- runs ----

  /** `accepted` and `applied` record the calls made so far. */
  datatype State = State(t: Tracker, drawn: set<Key>, accepted: map<Key, nat>, applied: set<(Key, bool)>)

  const START: State := State(NEW_TRACKER, {}, map[], {})

  datatype Action =
    | Ask(key: Key, timeoutTick: nat)
    | Receive
    | Gc
    | Apply(key: Key, rejected: bool)
    | Tick
    | Close

  /** Keys are never drawn twice. */
  predicate Enabled(s: State, a: Action) {
    match a
    case Ask(key, _) => key !in s.drawn
    case Tick => s.t.tick + 1 < TWO_64
    case _ => true
  }

  function Next(s: State, a: Action): State {
    match a
    case Ask(key, timeoutTick) =>
      var asked := s.(t := s.t.Ask(key, timeoutTick), drawn := s.drawn + {key});
      if s.t.ReplyTo(timeoutTick) == Accepted
      then asked.(accepted := s.accepted[key := s.t.tick + timeoutTick]) else asked
    case Receive => s.(t := s.t.Receive())
    case Gc => s.(t := s.t.Gc())
    case Apply(key, rejected) => s.(t := s.t.Apply(key, rejected), applied := s.applied + {(key, rejected)})
    case Tick => s.(t := s.t.(tick := s.t.tick + 1))
    case Close => s.(t := s.t.Close())
  }

  ghost predicate IsRun(s: State, acts: seq<Action>)
    decreases |acts|
  {
    acts == [] || (Enabled(s, acts[0]) && IsRun(Next(s, acts[0]), acts[1..]))
  }

  ghost function Run(s: State, acts: seq<Action>): State
    decreases |acts|
  {
    if acts == [] then s else Run(Next(s, acts[0]), acts[1..])
  }

  /** The key of the request that is waiting, if there is one. */
  function Waiting(t: Tracker): set<Key> { if t.pending.Holds? then {t.pending.req.key} else {} }

  /** The result fits what happened to the request. */
  predicate Earned(s: State, key: Key) {
    key in s.t.notified && key in s.accepted &&
    match s.t.notified[key]
    case Completed => (key, false) in s.applied
    case Rejected => (key, true) in s.applied
    case Timeout => s.accepted[key] < s.t.tick
    case Terminated => !s.t.open
  }

  ghost predicate Inv(s: State) {
    && !s.t.panicked && s.t.lastGcTime <= s.t.tick < TWO_64 && |s.t.channel| <= 1
    && s.accepted.Keys <= s.drawn
    && s.accepted.Keys == Waiting(s.t) + s.t.notified.Keys && Waiting(s.t) !! s.t.notified.Keys
    && (s.t.pending.Holds? ==> s.t.open && s.t.pending.req.deadline == s.accepted[s.t.pending.req.key])
    && (forall k | k in s.t.notified :: Earned(s, k))
  }

  lemma StepInv(s: State, a: Action)
    requires Inv(s) && Enabled(s, a)
    ensures Inv(Next(s, a))
    ensures forall k | k in s.t.notified :: k in Next(s, a).t.notified && Next(s, a).t.notified[k] == s.t.notified[k]
  {
    var n := Next(s, a);
    forall k | k in n.t.notified
      ensures Earned(n, k)
    {
      if k in s.t.notified {
        assert Earned(s, k);
      }
    }
  }

  lemma {:induction false} RunInv(s: State, acts: seq<Action>)
    requires Inv(s) && IsRun(s, acts)
    ensures Inv(Run(s, acts))
    ensures forall k | k in s.t.notified :: k in Run(s, acts).t.notified && Run(s, acts).t.notified[k] == s.t.notified[k]
    decreases |acts|
  {
    hide Inv, Enabled, Next;
    if acts != [] {
      StepInv(s, acts[0]);
      RunInv(Next(s, acts[0]), acts[1..]);
    }
  }

  /**
    * In every run an accepted change is waiting or has been answered, never both and never twice; none
    * waits once the tracker is closed; and a result is completed or rejected only if the change was
    * applied so, timed out only past its deadline, terminated only by the close.
    */
  lemma ChangesAnsweredOnce(acts: seq<Action>)
    requires IsRun(START, acts)
    ensures var s := Run(START, acts);
            && !s.t.panicked
            && (forall k | k in s.accepted :: (k in Waiting(s.t)) != (k in s.t.notified))
            && (!s.t.open ==> forall k | k in s.accepted :: k in s.t.notified)
            && (forall k | k in s.t.notified :: Earned(s, k))
  {
    RunInv(START, acts);
  }

  // ---- and it is answered ----

  /** A change is taken exactly when its timeout is not zero, none is waiting, the tracker is open and the
      channel is free; each refusal names the first of these that fails. */
  lemma AskedExactly(t: Tracker, timeoutTick: nat)
    ensures t.ReplyTo(timeoutTick) == Accepted <==> timeoutTick > 0 && t.pending.Empty? && t.open && t.channel == []
    ensures t.ReplyTo(timeoutTick) == TimeoutTooSmall <==> timeoutTick == 0
    ensures t.ReplyTo(timeoutTick) == PendingConfigChangeExist <==> timeoutTick > 0 && t.pending.Holds?
    ensures t.ReplyTo(timeoutTick) == ClusterClosed <==> timeoutTick > 0 && t.pending.Empty? && !t.open
    ensures t.ReplyTo(timeoutTick) == SystemBusy <==> timeoutTick > 0 && t.pending.Empty? && t.open && t.channel != []
  {
  }

  /** An accepted change waits with its deadline, is in the channel, and is what the step worker receives. */
  lemma AcceptedIsSent(acts: seq<Action>, key: Key, timeoutTick: nat)
    requires IsRun(START, acts) && Enabled(Run(START, acts), Ask(key, timeoutTick))
    requires Run(START, acts).t.ReplyTo(timeoutTick) == Accepted
    ensures var s := Next(Run(START, acts), Ask(key, timeoutTick)).t;
            && s.pending == Holds(Request(key, Run(START, acts).t.tick + timeoutTick))
            && s.channel == [Request(key, Run(START, acts).t.tick + timeoutTick)] && s.Receive().channel == []
  {
  }

  /**
    * In every run the waiting change is answered by the next of these that concerns it: applied, with the
    * verdict; a collection two ticks after the last one and past its deadline, as timed out; the close.
    * Anything else leaves it waiting.
    */
  lemma WaitingChangeIsAnswered(acts: seq<Action>, a: Action)
    requires IsRun(START, acts) && Enabled(Run(START, acts), a) && Run(START, acts).t.pending.Holds?
    ensures var s := Run(START, acts).t; var t, k := Next(Run(START, acts), a).t, s.pending.req.key;
            && (a == Apply(k, false) ==> t.pending == Empty && k in t.notified && t.notified[k] == Completed)
            && (a == Apply(k, true) ==> t.pending == Empty && k in t.notified && t.notified[k] == Rejected)
            && (a == Close ==> t.pending == Empty && k in t.notified && t.notified[k] == Terminated)
            && (a == Gc && Sub64(s.tick, s.lastGcTime) >= GC_TICK && s.pending.req.deadline < s.tick ==>
                  t.pending == Empty && k in t.notified && t.notified[k] == Timeout)
            && (a != Close && (a.Apply? ==> a.key != k) &&
                (a == Gc ==> Sub64(s.tick, s.lastGcTime) < GC_TICK || s.pending.req.deadline >= s.tick) ==>
                  t.pending == s.pending && t.notified == s.notified)
  {
    RunInv(START, acts);
    var s := Run(START, acts);
    if a.Ask? {
      AskedExactly(s.t, a.timeoutTick);
    }
  }
}
