/** The double-buffered queue of reads, and its place in the read machine. */
module ReadQueue {
  import opened DoubleBuffer
  import opened PendingReads
  import LinearizableReads

  class ReadIndexQueue {
    const size: nat
    const left: array<Read>
    const right: array<Read>
    var leftInWrite: bool
    var stopped: bool
    var idx: nat

    ghost predicate Valid()
      reads this
    {
      left != right && left.Length == size && right.Length == size && idx <= size
    }

    ghost function Now(): (s: Buffers<Read>)
      requires Valid()
      reads this, left, right
      ensures s.Valid()
    {
      Buffers(size, left[..], right[..], leftInWrite, stopped, idx)
    }

    function TargetQueue(): array<Read>
      reads this
    {
      if leftInWrite then left else right
    }

    constructor (size: nat, blank: Read)
      ensures Valid() && fresh(left) && fresh(right)
      ensures Abstract(Now()) == Fifo(size, [], false)
    {
      this.size := size;
      left := new Read[size](_ => blank);
      right := new Read[size](_ => blank);
      leftInWrite, stopped, idx := false, false, 0;
    }

    method Close()
      requires Valid()
      modifies this`stopped
      ensures Valid() && Abstract(Now()) == FifoStep(old(Abstract(Now())), Op.Close).0
    {
      stopped := true;
    }

    /** Only the buffer in write may change: a batch handed out earlier is not in the frame. */
    method Add(r: Read) returns (added: bool, closed: bool)
      requires Valid()
      modifies this`idx, TargetQueue()
      ensures Valid() && Now() == old(Now().Add(r))
      ensures Added(added, stopped) == FifoStep(old(Abstract(Now())), Op.Add(r)).1 && closed == (stopped && !added)
    {
      if idx >= size {
        return false, stopped;
      }
      if stopped {
        return false, true;
      }
      var w := TargetQueue();
      ghost var was := w[..];
      w[idx] := r;
      assert w[..] == was[idx := r];
      idx := idx + 1;
      return true, false;
    }

    method Get() returns (t: array<Read>, n: nat)
      requires Valid()
      modifies this`idx, this`leftInWrite
      ensures Valid() && Now() == old(Now().Get())
      ensures t == old(TargetQueue()) != TargetQueue() && n <= t.Length
      ensures Handed(t[..n]) == FifoStep(old(Abstract(Now())), Op.Get).1
    {
      n := idx;
      idx := 0;
      t := TargetQueue();
      leftInWrite := !leftInWrite;
    }
  }

  // ---- the read machine ----

  /** The queue of the read machine as a FIFO. */
  function QueueOf(s: LinearizableReads.State): Fifo<Read> { Fifo(s.size, s.queue, s.queueStopped) }

  /** The steps of the read machine use its queue as that FIFO: a read is queued exactly when the FIFO
      takes it, the step worker gets what the FIFO hands over, and so does the close. */
  lemma MachineUsesFifo(s: LinearizableReads.State, a: LinearizableReads.Action)
    requires LinearizableReads.Enabled(s, a)
    ensures match a
            case Enqueue(key) =>
              var step := FifoStep(QueueOf(s), Op.Add(s.clients[key]));
              && QueueOf(LinearizableReads.Next(s, a)) == step.0
              && LinearizableReads.Next(s, a).place == s.place[key := if step.1.ok then LinearizableReads.Queued else LinearizableReads.Withdrawn]
            case Drain =>
              var step := FifoStep(QueueOf(s), Op.Get);
              && QueueOf(LinearizableReads.Next(s, a)) == step.0
              && (step.1.batch != [] ==> LinearizableReads.Next(s, a).worker == LinearizableReads.HasBatch(step.1.batch))
              && (step.1.batch == [] ==> LinearizableReads.Next(s, a) == s.(worker := LinearizableReads.Handled(false)))
            case CloseBegin => QueueOf(LinearizableReads.Next(s, a)) == FifoStep(QueueOf(s), Op.Close).0
            case CloseEnd =>
              var step := FifoStep(QueueOf(s), Op.Get);
              QueueOf(LinearizableReads.Next(s, a)) == step.0 && LinearizableReads.Next(s, a).table == s.table.Terminate(step.1.batch)
            case _ => QueueOf(LinearizableReads.Next(s, a)) == QueueOf(s)
  {
    hide Table.Applied, Table.AddPending, Table.Terminate, LinearizableReads.Moved;
  }
}
