/** The double-buffered queue of incoming proposals, which also frees the payload of entries the consumer
    has left behind. */
module EntryQueue {
  import opened Bits
  import opened DoubleBuffer
  import opened EntryFormat

  datatype State = State(buffers: Buffers<Entry>, oldIdx: nat, cycle: uint64, lazyFreeCycle: nat)
  {
    predicate Valid() { buffers.Valid() && oldIdx <= buffers.size }

    /** The payload of the first `n` entries dropped. */
    static function Freed(es: seq<Entry>, n: nat): (r: seq<Entry>)
      requires n <= |es|
      ensures |r| == |es|
    {
      seq(|es|, i requires 0 <= i < |es| => if i < n then es[i].(cmd := []) else es[i])
    }

    function Add(e: Entry): State
      requires Valid()
    {
      this.(buffers := buffers.Add(e))
    }

    function FreeTarget(n: nat): State
      requires Valid() && n <= buffers.size
    {
      this.(buffers := buffers.WithTarget(Freed(buffers.Target(), n)))
    }

    function Gc(): State
      requires Valid()
    {
      if lazyFreeCycle == 0 then this
      else if lazyFreeCycle == 1 then FreeTarget(oldIdx)
      else if cycle % lazyFreeCycle == 0 then FreeTarget(buffers.size)
      else this
    }

    function Get(): State
      requires Valid()
    {
      this.(cycle := (cycle + 1) % TWO_64, buffers := buffers.Get()).Gc().(oldIdx := buffers.idx)
    }

    function Close(): State { this.(buffers := buffers.Close()) }
  }

  function NewState(size: nat, lazyFreeCycle: nat): State {
    var blank := seq(size, i => EMPTY_ENTRY);
    State(Buffers(size, blank, blank, false, false, 0), 0, 0, lazyFreeCycle)
  }

  class EntryQueue {
    const size: nat
    const lazyFreeCycle: nat
    const left: array<Entry>
    const right: array<Entry>
    var leftInWrite: bool
    var stopped: bool
    var idx: nat
    var oldIdx: nat
    var cycle: uint64

    ghost predicate Valid()
      reads this
    {
      left != right && left.Length == size && right.Length == size && idx <= size && oldIdx <= size
    }

    ghost function Now(): (s: State)
      requires Valid()
      reads this, left, right
      ensures s.Valid()
    {
      State(Buffers(size, left[..], right[..], leftInWrite, stopped, idx), oldIdx, cycle, lazyFreeCycle)
    }

    function TargetQueue(): array<Entry>
      reads this
    {
      if leftInWrite then left else right
    }

    constructor (size: nat, lazyFreeCycle: nat)
      ensures Valid() && fresh(left) && fresh(right) && Now() == NewState(size, lazyFreeCycle)
    {
      this.size, this.lazyFreeCycle := size, lazyFreeCycle;
      left := new Entry[size](i => EMPTY_ENTRY);
      right := new Entry[size](i => EMPTY_ENTRY);
      leftInWrite, stopped := false, false;
      idx, oldIdx, cycle := 0, 0, 0;
    }

    method Close()
      requires Valid()
      modifies this`stopped
      ensures Valid() && Now() == old(Now().Close())
    {
      stopped := true;
    }

    /** Only the buffer in write may change: a slice handed out earlier is not in the frame. */
    method Add(e: Entry) returns (added: bool, closed: bool)
      requires Valid()
      modifies this`idx, TargetQueue()
      ensures Valid() && Now() == old(Now().Add(e))
      ensures added == (old(idx) < size && !stopped) && closed == (stopped && !added)
    {
      if idx >= size {
        return false, stopped;
      }
      if stopped {
        return false, true;
      }
      var w := TargetQueue();
      ghost var was := w[..];
      w[idx] := e;
      assert w[..] == was[idx := e];
      idx := idx + 1;
      return true, false;
    }

    method Gc()
      requires Valid()
      modifies TargetQueue()
      ensures Valid() && Now() == old(Now().Gc())
    {
      if lazyFreeCycle > 0 {
        var oldq := TargetQueue();
        if lazyFreeCycle == 1 {
          Free(oldq, oldIdx);
        } else if cycle % lazyFreeCycle == 0 {
          Free(oldq, size);
        }
      }
    }

    static method Free(q: array<Entry>, n: nat)
      requires n <= q.Length
      modifies q
      ensures q[..] == State.Freed(old(q[..]), n)
    {
      for i := 0 to n
        invariant q[..] == State.Freed(old(q[..]), i)
      {
        q[i] := q[i].(cmd := []);
      }
    }

    /** Hands out the filled buffer and its length, and switches producers to the other one. */
    method Get() returns (t: array<Entry>, n: nat)
      requires Valid()
      modifies this`cycle, this`idx, this`leftInWrite, this`oldIdx, left, right
      ensures Valid() && Now() == old(Now().Get())
      ensures t == old(TargetQueue()) != TargetQueue() && n == old(idx) <= t.Length
      ensures t[..n] == old(Now().buffers.Pending()) == Now().buffers.Other()[..n]
    {
      cycle := (cycle + 1) % TWO_64;
      n := idx;
      idx := 0;
      t := TargetQueue();
      leftInWrite := !leftInWrite;
      Gc();
      oldIdx := n;
    }
  }

  // ---- every run ----

  function Next(s: State, op: Op<Entry>): (r: State)
    requires s.Valid()
    ensures r.Valid() && r.lazyFreeCycle == s.lazyFreeCycle && r.buffers.size == s.buffers.size
  {
    match op
    case Add(e) => s.Add(e)
    case Get => s.Get()
    case Close => s.Close()
  }

  function RunOf(s: State, ops: seq<Op<Entry>>): (r: State)
    requires s.Valid()
    ensures r.Valid() && r.lazyFreeCycle == s.lazyFreeCycle && r.buffers.size == s.buffers.size
    decreases |ops|
  {
    if ops == [] then s else RunOf(Next(s, ops[0]), ops[1..])
  }

  function Answers(s: State, ops: seq<Op<Entry>>): seq<Reply<Entry>>
    requires s.Valid()
    decreases |ops|
  {
    if ops == [] then [] else [Step(s.buffers, ops[0]).1] + Answers(Next(s, ops[0]), ops[1..])
  }

  /** Freeing payloads touches nothing that is pending. */
  lemma NextRefines(s: State, op: Op<Entry>)
    requires s.Valid()
    ensures FifoStep(Abstract(s.buffers), op) == (Abstract(Next(s, op).buffers), Step(s.buffers, op).1)
  {
    StepRefines(s.buffers, op);
  }

  /** Over every run the queue answers exactly as the bounded FIFO. */
  lemma {:induction false} QueueRefinesFifo(s: State, ops: seq<Op<Entry>>)
    requires s.Valid()
    ensures Answers(s, ops) == FifoReplies(Abstract(s.buffers), ops)
    decreases |ops|
  {
    if ops != [] {
      NextRefines(s, ops[0]);
      QueueRefinesFifo(Next(s, ops[0]), ops[1..]);
    }
  }

  /** A drained slice keeps its contents through any number of additions, until the next drain. */
  lemma {:induction false} SliceStable(s: State, ops: seq<Op<Entry>>)
    requires s.Valid() && forall op | op in ops :: !op.Get?
    ensures RunOf(s, ops).buffers.Other() == s.buffers.Other()
    decreases |ops|
  {
    if ops != [] {
      assert Next(s, ops[0]).buffers.Other() == s.buffers.Other();
      SliceStable(Next(s, ops[0]), ops[1..]);
    }
  }

  lemma DrainedSliceStable(s: State, ops: seq<Op<Entry>>)
    requires s.Valid() && forall op | op in ops :: !op.Get?
    ensures var n := s.buffers.idx;
            n <= s.buffers.size && RunOf(s.Get(), ops).buffers.Other()[..n] == s.buffers.Pending()
  {
    SliceStable(s.Get(), ops);
  }

  /** No payload outside the two live prefixes: what is pending and what was last drained. */
  ghost predicate NoRetention(s: State)
    requires s.Valid()
  {
    && (forall i | s.buffers.idx <= i < s.buffers.size :: s.buffers.Target()[i].cmd == [])
    && (forall i | s.oldIdx <= i < s.buffers.size :: s.buffers.Other()[i].cmd == [])
  }

  lemma StepNoRetention(s: State, op: Op<Entry>)
    requires s.Valid() && s.lazyFreeCycle == 1 && NoRetention(s)
    ensures NoRetention(Next(s, op))
  {
    if op.Add? && s.buffers.idx < s.buffers.size && !s.buffers.stopped {
      assert Next(s, op).buffers.Target() == s.buffers.Target()[s.buffers.idx := op.x];
      assert Next(s, op).buffers.Other() == s.buffers.Other();
    } else if op.Get? {
      assert s.Get().buffers.Other() == s.buffers.Target();
      assert s.Get().buffers.Target() == State.Freed(s.buffers.Other(), s.oldIdx);
    } else {
      assert Next(s, op).buffers.Target() == s.buffers.Target() && Next(s, op).buffers.Other() == s.buffers.Other();
    }
  }

  /** Freeing on every cycle, no run leaves a payload outside the two live prefixes. */
  lemma {:induction false} RunNoRetention(s: State, ops: seq<Op<Entry>>)
    requires s.Valid() && s.lazyFreeCycle == 1 && NoRetention(s)
    ensures NoRetention(RunOf(s, ops))
    decreases |ops|
  {
    if ops != [] {
      StepNoRetention(s, ops[0]);
      RunNoRetention(Next(s, ops[0]), ops[1..]);
    }
  }

  /** From an empty queue on: FIFO answers always, and no retained payload when freeing each cycle. */
  lemma QueueFromNew(size: nat, lazyFreeCycle: nat, ops: seq<Op<Entry>>)
    ensures var s := NewState(size, lazyFreeCycle);
            && s.Valid() && Answers(s, ops) == FifoReplies(Fifo(size, [], false), ops)
            && (lazyFreeCycle == 1 ==> NoRetention(RunOf(s, ops)))
  {
    var s := NewState(size, lazyFreeCycle);
    QueueRefinesFifo(s, ops);
    if lazyFreeCycle == 1 { RunNoRetention(s, ops); }
  }

  /** The number of drains in a run. */
  function Drains(ops: seq<Op<Entry>>): nat
    decreases |ops|
  {
    if ops == [] then 0 else (if ops[0].Get? then 1 else 0) + Drains(ops[1..])
  }

  lemma CycleStep(s: State, op: Op<Entry>)
    requires s.Valid()
    ensures Next(s, op).cycle == (s.cycle + if op.Get? then 1 else 0) % TWO_64
  {
    hide State.Freed;
  }

  lemma {:induction false} CyclesAreDrains(s: State, ops: seq<Op<Entry>>)
    requires s.Valid()
    ensures RunOf(s, ops).cycle == (s.cycle + Drains(ops)) % TWO_64
    decreases |ops|
  {
    if ops != [] {
      CyclesAreDrains(Next(s, ops[0]), ops[1..]);
      CycleStep(s, ops[0]);
      hide Next, RunOf;
    }
  }

  /** Freeing every `n` cycles, each drain that is a multiple of `n` leaves no payload at all in the buffer
      producers go on with; freeing never, no drain changes a payload. */
  lemma FreedEveryNth(size: nat, n: nat, ops: seq<Op<Entry>>)
    ensures var s := RunOf(NewState(size, n), ops); var t := s.Get().buffers;
            && (n > 1 && (Drains(ops) + 1) % TWO_64 % n == 0 ==> forall i | 0 <= i < size :: t.Target()[i].cmd == [])
            && (n == 0 || (n > 1 && (Drains(ops) + 1) % TWO_64 % n != 0) ==> t.Target() == s.buffers.Other())
  {
    CyclesAreDrains(NewState(size, n), ops);
    hide RunOf, NewState;
    var s := RunOf(NewState(size, n), ops);
    assert (s.cycle + 1) % TWO_64 == (Drains(ops) + 1) % TWO_64;
    FreedByGet(s);
  }

  lemma {:induction false} FreedByGet(s: State)
    requires s.Valid()
    ensures var t, n, c := s.Get().buffers, s.lazyFreeCycle, (s.cycle + 1) % TWO_64;
            && (n > 1 && c % n == 0 ==> forall i | 0 <= i < s.buffers.size :: t.Target()[i].cmd == [])
            && (n == 0 || (n > 1 && c % n != 0) ==> t.Target() == s.buffers.Other())
  {
  }
}
