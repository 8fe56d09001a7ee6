/** Two buffers of one size, one filled by producers while the consumer holds the other, and the bounded
    FIFO they stand for. */
module DoubleBuffer {

  datatype Buffers<T> = Buffers(
    size: nat, left: seq<T>, right: seq<T>, leftInWrite: bool, stopped: bool, idx: nat)
  {
    predicate Valid() { |left| == size && |right| == size && idx <= size }

    /** The buffer producers write to. */
    function Target(): seq<T> { if leftInWrite then left else right }

    /** The buffer last handed to the consumer. */
    function Other(): seq<T> { if leftInWrite then right else left }

    function WithTarget(t: seq<T>): Buffers<T> { if leftInWrite then this.(left := t) else this.(right := t) }

    function Pending(): seq<T>
      requires Valid()
    {
      Target()[..idx]
    }

    function Add(x: T): Buffers<T>
      requires Valid()
    {
      if idx >= size || stopped then this else WithTarget(Target()[idx := x]).(idx := idx + 1)
    }

    function Get(): Buffers<T> { this.(idx := 0, leftInWrite := !leftInWrite) }

    function Close(): Buffers<T> { this.(stopped := true) }
  }

  // ---- the reference: a bounded FIFO that is drained whole and refuses additions once closed ----

  datatype Op<T> = Add(x: T) | Get | Close

  datatype Reply<T> = Added(ok: bool, closed: bool) | Handed(batch: seq<T>) | Stopped

  datatype Fifo<T> = Fifo(size: nat, queue: seq<T>, stopped: bool)

  function FifoStep<T>(q: Fifo<T>, op: Op<T>): (Fifo<T>, Reply<T>) {
    match op
    case Add(x) =>
      if |q.queue| < q.size && !q.stopped then (q.(queue := q.queue + [x]), Added(true, q.stopped))
      else (q, Added(false, q.stopped))
    case Get => (q.(queue := []), Handed(q.queue))
    case Close => (q.(stopped := true), Stopped)
  }

  function FifoReplies<T>(q: Fifo<T>, ops: seq<Op<T>>): seq<Reply<T>>
    decreases |ops|
  {
    if ops == [] then [] else [FifoStep(q, ops[0]).1] + FifoReplies(FifoStep(q, ops[0]).0, ops[1..])
  }

  // ---- the buffers stand for it ----

  function Abstract<T>(s: Buffers<T>): Fifo<T>
    requires s.Valid()
  {
    Fifo(s.size, s.Pending(), s.stopped)
  }

  function Step<T>(s: Buffers<T>, op: Op<T>): (r: (Buffers<T>, Reply<T>))
    requires s.Valid()
    ensures r.0.Valid()
  {
    match op
    case Add(x) => (s.Add(x), Added(s.idx < s.size && !s.stopped, s.stopped))
    case Get => (s.Get(), Handed(s.Pending()))
    case Close => (s.Close(), Stopped)
  }

  function Run<T>(s: Buffers<T>, ops: seq<Op<T>>): (r: Buffers<T>)
    requires s.Valid()
    ensures r.Valid()
    decreases |ops|
  {
    if ops == [] then s else Run(Step(s, ops[0]).0, ops[1..])
  }

  function Replies<T>(s: Buffers<T>, ops: seq<Op<T>>): seq<Reply<T>>
    requires s.Valid()
    decreases |ops|
  {
    if ops == [] then [] else [Step(s, ops[0]).1] + Replies(Step(s, ops[0]).0, ops[1..])
  }

  lemma StepRefines<T>(s: Buffers<T>, op: Op<T>)
    requires s.Valid()
    ensures FifoStep(Abstract(s), op) == (Abstract(Step(s, op).0), Step(s, op).1)
  {
    if op.Add? && s.idx < s.size && !s.stopped {
      assert s.Add(op.x).Pending() == s.Pending() + [op.x];
    }
  }

  /** Over every run the buffers answer exactly as the bounded FIFO. */
  lemma {:induction false} RefinesFifo<T>(s: Buffers<T>, ops: seq<Op<T>>)
    requires s.Valid()
    ensures Replies(s, ops) == FifoReplies(Abstract(s), ops)
    decreases |ops|
  {
    if ops != [] {
      StepRefines(s, ops[0]);
      RefinesFifo(Step(s, ops[0]).0, ops[1..]);
    }
  }

  lemma {:induction false} OtherStable<T>(s: Buffers<T>, ops: seq<Op<T>>)
    requires s.Valid() && forall op | op in ops :: !op.Get?
    ensures Run(s, ops).Other() == s.Other()
    decreases |ops|
  {
    if ops != [] {
      assert Step(s, ops[0]).0.Other() == s.Other();
      OtherStable(Step(s, ops[0]).0, ops[1..]);
    }
  }

  /** A drained batch keeps its elements through any additions, until the next drain. */
  lemma DrainedBatchStable<T>(s: Buffers<T>, ops: seq<Op<T>>)
    requires s.Valid() && forall op | op in ops :: !op.Get?
    ensures var n := s.idx; n <= |Run(s.Get(), ops).Other()| && Run(s.Get(), ops).Other()[..n] == s.Pending()
  {
    OtherStable(s.Get(), ops);
  }
}
