/** The Protocol Buffers records around entries: `EntryBatch` and `Message`, following "Base 128
    Varints" and "Length-Delimited Records" of the Protocol Buffers Encoding guide. A nested
    snapshot is carried as the bytes of its own record. */
module Framing {
  import opened Bits
  import opened EntryFormat

  datatype Message = Message(
    kind: int32, to: uint64, from: uint64, clusterId: uint64, term: uint64, logTerm: uint64,
    logIndex: uint64, commit: uint64, reject: bool, hint: uint64,
    entries: seq<Entry>, snapshot: seq<byte>, hintHigh: uint64)

  const EMPTY_MESSAGE: Message := Message(0, 0, 0, 0, 0, 0, 0, 0, false, 0, [], [], 0)

  const ENTRIES: nat := 11
  const SNAPSHOT: nat := 12
  /** The fields of a message are numbered from 1 to 13. */
  const FIRST_FIELD: nat := 1
  const END_FIELD: nat := 14

  predicate IsScalar(f: nat) { 1 <= f <= 10 || f == 13 }

  /** The integer a scalar field is marshalled as; the message type is sign-extended. */
  function Scalar(m: Message, f: nat): uint64
    requires IsScalar(f)
  {
    match f
    case 1 => m.kind % TWO_64
    case 2 => m.to
    case 3 => m.from
    case 4 => m.clusterId
    case 5 => m.term
    case 6 => m.logTerm
    case 7 => m.logIndex
    case 8 => m.commit
    case 9 => if m.reject then 1 else 0
    case 10 => m.hint
    case _ => m.hintHigh
  }

  function SetScalar(m: Message, f: nat, x: uint64): Message
    requires IsScalar(f)
  {
    match f
    case 1 => m.(kind := AsInt32(x % TWO_32))
    case 2 => m.(to := x)
    case 3 => m.(from := x)
    case 4 => m.(clusterId := x)
    case 5 => m.(term := x)
    case 6 => m.(logTerm := x)
    case 7 => m.(logIndex := x)
    case 8 => m.(commit := x)
    case 9 => m.(reject := x != 0)
    case 10 => m.(hint := x)
    case _ => m.(hintHigh := x)
  }

  // ---- writing ----

  /** A length-delimited record of field `f`. */
  function PutRecord(f: nat, s: seq<byte>): seq<byte>
    requires f < 16
  {
    [8 * f + 2] + Uvarint(|s|) + s
  }

  function PutEntries(f: nat, es: seq<Entry>): seq<byte>
    requires f < 16
  {
    if es == [] then [] else PutRecord(f, Encode(es[0])) + PutEntries(f, es[1..])
  }

  function PutMessageField(m: Message, f: nat): seq<byte>
    requires FIRST_FIELD <= f < END_FIELD
  {
    if f == ENTRIES then PutEntries(ENTRIES, m.entries)
    else if f == SNAPSHOT then PutRecord(SNAPSHOT, m.snapshot)
    else [8 * f] + Uvarint(Scalar(m, f))
  }

  /** What is written from field `f` on. */
  function EncodeMessageFrom(m: Message, f: nat): seq<byte>
    requires FIRST_FIELD <= f <= END_FIELD
    decreases END_FIELD - f
  {
    if f == END_FIELD then [] else PutMessageField(m, f) + EncodeMessageFrom(m, f + 1)
  }

  function EncodeMessage(m: Message): seq<byte> { EncodeMessageFrom(m, FIRST_FIELD) }

  /** An entry batch is a run of records of field 1. */
  function EncodeBatch(es: seq<Entry>): seq<byte> { PutEntries(1, es) }

  // ---- reading ----

  datatype FrameError =
    | IntOverflow | UnexpectedEof | InvalidLength | WrongWireType | EndGroup | IllegalTag
    | BadEntry(why: Decoded) | IllegalWireType
    /** The pre-scan indexes outside the input, which panics, or never ends. */
    | CountPanic | CountEndless
    /** An end position wrapped past the largest int, on which the next slice or index panics. */
    | LengthPanic

  /** How positions are added: without bound, as the format means them, or in a machine int that wraps. */
  datatype Ints = Exact | Machine

  predicate FromCount(e: FrameError) { e.CountPanic? || e.CountEndless? }

  datatype Scan = Scanned(x: nat, next: nat) | ScanFailed(error: FrameError)

  function PrependScan(group: nat, rest: Scan): Scan {
    match rest
    case Scanned(x, next) => Scanned(group + 0x80 * x, next)
    case ScanFailed(_) => rest
  }

  /** A varint from group `k` on; an eleventh group is refused. */
  function ReadGroups(data: seq<byte>, i: nat, k: nat): (r: Scan)
    requires i <= |data|
    ensures r.Scanned? ==> i < r.next <= |data|
    ensures r.ScanFailed? ==> !FromCount(r.error)
    decreases |data| - i
  {
    if k >= 10 then ScanFailed(IntOverflow)
    else if i >= |data| then ScanFailed(UnexpectedEof)
    else if data[i] < 0x80 then Scanned(data[i], i + 1)
    else PrependScan(data[i] % 0x80, ReadGroups(data, i + 1, k + 1))
  }

  datatype Tag = Tag(field: int, wire: nat, next: nat) | NoTag(error: FrameError)

  function ReadTag(data: seq<byte>, i: nat): (r: Tag)
    requires i <= |data|
    ensures r.Tag? ==> i < r.next <= |data| && r.field > 0
    ensures r.NoTag? ==> !FromCount(r.error)
  {
    match ReadGroups(data, i, 0)
    case ScanFailed(e) => NoTag(e)
    case Scanned(v, next) =>
      var wire := v % TWO_64;
      var field := AsInt32((wire / 8) % TWO_32);
      if wire % 8 == 4 then NoTag(EndGroup)
      else if field <= 0 then NoTag(IllegalTag)
      else Tag(field, wire % 8, next)
  }

  datatype Span = Span(start: nat, end: nat) | NoSpan(error: FrameError)

  /** The extent of a length-delimited record whose length starts at `i`. */
  function ReadSpan(data: seq<byte>, i: nat, ints: Ints): (r: Span)
    requires i <= |data|
    ensures r.Span? ==> i < r.start <= r.end <= |data|
    ensures r.NoSpan? ==> !FromCount(r.error)
  {
    match ReadGroups(data, i, 0)
    case ScanFailed(e) => NoSpan(e)
    case Scanned(v, next) =>
      var len := v % TWO_64;
      if len > MAX_INT then NoSpan(InvalidLength)
      else if ints.Machine? && next + len > MAX_INT then NoSpan(LengthPanic)
      else if next + len > |data| then NoSpan(UnexpectedEof)
      else Span(next, next + len)
  }

  // ---- undeclared fields ----

  /** The position after a skipped field, which may lie beyond the input. */
  datatype Skipping = SkipTo(end: nat) | NoSkip(error: FrameError)

  /** Skips the field whose tag starts at `i`; a group is skipped field by field, to its end tag. */
  function Skip(data: seq<byte>, i: nat, ints: Ints): (r: Skipping)
    requires i < |data|
    ensures r.SkipTo? ==> r.end > i
    ensures r.NoSkip? ==> !FromCount(r.error)
    decreases |data| - i, 0
  {
    match ReadGroups(data, i, 0)
    case ScanFailed(e) => NoSkip(e)
    case Scanned(tag, j) =>
      match tag % 8
      case 0 => (match ReadGroups(data, j, 0) case ScanFailed(e) => NoSkip(e) case Scanned(_, k) => SkipTo(k))
      case 1 => SkipTo(j + 8)
      case 2 => SkipLength(data, j)
      case 3 => SkipGroup(data, i, j, ints)
      case 4 => SkipTo(j)
      case 5 => SkipTo(j + 4)
      case _ => NoSkip(IllegalWireType)
  }

  function SkipLength(data: seq<byte>, j: nat): (r: Skipping)
    requires j <= |data|
    ensures r.SkipTo? ==> r.end > j
    ensures r.NoSkip? ==> !FromCount(r.error)
  {
    match ReadGroups(data, j, 0)
    case ScanFailed(e) => NoSkip(e)
    case Scanned(v, k) => if v % TWO_64 > MAX_INT then NoSkip(InvalidLength) else SkipTo(k + v % TWO_64)
  }

  /** The fields of a group that began at `base`, from `j` on. */
  function SkipGroup(data: seq<byte>, base: nat, j: nat, ints: Ints): (r: Skipping)
    requires base < j <= |data|
    ensures r.SkipTo? ==> r.end > j
    ensures r.NoSkip? ==> !FromCount(r.error)
    decreases |data| - j, 1
  {
    match ReadGroups(data, j, 0)
    case ScanFailed(e) => NoSkip(e)
    case Scanned(tag, k) =>
      if tag % 8 == 4 then SkipTo(k)
      else
        match Skip(data, j, ints)
        case NoSkip(e) => NoSkip(e)
        case SkipTo(end) =>
          if ints.Machine? && end - base > MAX_INT then NoSkip(LengthPanic)
          else if end > |data| then NoSkip(UnexpectedEof)
          else SkipGroup(data, base, end, ints)
  }

  datatype Next = Continue(at: nat) | Stop(error: FrameError)

  /** Where decoding goes on after the undeclared field at `i`. */
  function AfterSkip(data: seq<byte>, i: nat, ints: Ints): (r: Next)
    requires i < |data|
    ensures r.Continue? ==> i < r.at <= |data|
    ensures r.Stop? ==> !FromCount(r.error)
  {
    match Skip(data, i, ints)
    case NoSkip(e) => Stop(e)
    case SkipTo(end) =>
      if ints.Machine? && end - i > MAX_INT then Stop(InvalidLength)
      else if ints.Machine? && end > MAX_INT then Stop(LengthPanic)
      else if end > |data| then Stop(UnexpectedEof)
      else Continue(end)
  }

  datatype Result<T> = Done(value: T) | Failed(error: FrameError)

  /** One field of a message: what it holds and where the next one starts. */
  datatype MessageField =
    | EntryField(start: nat, end: nat)
    | SnapshotField(start: nat, end: nat)
    | ScalarField(f: nat, x: uint64, end: nat)
    | Undeclared(end: nat)
    | BadField(error: FrameError)

  function ReadField(data: seq<byte>, i: nat, ints: Ints): (r: MessageField)
    requires i < |data|
    ensures r.ScalarField? ==> IsScalar(r.f)
    ensures r.EntryField? || r.SnapshotField? ==> r.start <= r.end
    ensures !r.BadField? ==> i < r.end <= |data|
    ensures r.BadField? ==> !FromCount(r.error)
  {
    match ReadTag(data, i)
    case NoTag(e) => BadField(e)
    case Tag(field, wire, j) =>
      if field == ENTRIES || field == SNAPSHOT then
        if wire != 2 then BadField(WrongWireType)
        else
          match ReadSpan(data, j, ints)
          case NoSpan(e) => BadField(e)
          case Span(start, end) => if field == ENTRIES then EntryField(start, end) else SnapshotField(start, end)
      else if IsScalar(field) then
        if wire != 0 then BadField(WrongWireType)
        else
          match ReadGroups(data, j, 0)
          case ScanFailed(e) => BadField(e)
          case Scanned(v, next) => ScalarField(field, v % TWO_64, next)
      else
        match AfterSkip(data, i, ints)
        case Stop(e) => BadField(e)
        case Continue(next) => Undeclared(next)
  }

  /** The message the bytes from `i` on stand for, added to `m`. */
  function DecodeMessageFrom(data: seq<byte>, i: nat, m: Message): Result<Message>
    requires i <= |data|
    decreases |data| - i
  {
    if i == |data| then Done(m)
    else
      match ReadField(data, i, Exact)
      case BadField(e) => Failed(e)
      case EntryField(start, end) =>
        (match Decode(data[start..end], EMPTY_ENTRY)
         case Ok(_, e) => DecodeMessageFrom(data, end, m.(entries := m.entries + [e]))
         case why => Failed(BadEntry(why)))
      case SnapshotField(start, end) => DecodeMessageFrom(data, end, m.(snapshot := data[start..end]))
      case ScalarField(f, x, end) => DecodeMessageFrom(data, end, SetScalar(m, f, x))
      case Undeclared(end) => DecodeMessageFrom(data, end, m)
  }

  function DecodeMessage(data: seq<byte>): Result<Message> { DecodeMessageFrom(data, 0, EMPTY_MESSAGE) }

  /** One field of an entry batch. */
  datatype BatchField = MemberField(start: nat, end: nat) | Foreign(end: nat) | BadMember(error: FrameError)

  function ReadBatchField(data: seq<byte>, i: nat, ints: Ints): (r: BatchField)
    requires i < |data|
    ensures r.MemberField? ==> r.start <= r.end
    ensures !r.BadMember? ==> i < r.end <= |data|
  {
    match ReadTag(data, i)
    case NoTag(e) => BadMember(e)
    case Tag(field, wire, j) =>
      if field == 1 then
        if wire != 2 then BadMember(WrongWireType)
        else
          match ReadSpan(data, j, ints)
          case NoSpan(e) => BadMember(e)
          case Span(start, end) => MemberField(start, end)
      else
        match AfterSkip(data, i, ints)
        case Stop(e) => BadMember(e)
        case Continue(next) => Foreign(next)
  }

  /** The entries the bytes from `i` on stand for, after `es`. */
  function BatchFrom(data: seq<byte>, i: nat, es: seq<Entry>, ints: Ints): Result<seq<Entry>>
    requires i <= |data|
    decreases |data| - i
  {
    if i == |data| then Done(es)
    else
      match ReadBatchField(data, i, ints)
      case BadMember(e) => Failed(e)
      case MemberField(start, end) =>
        (match Decode(data[start..end], EMPTY_ENTRY)
         case Ok(_, e) => BatchFrom(data, end, es + [e], ints)
         case why => Failed(BadEntry(why)))
      case Foreign(end) => BatchFrom(data, end, es, ints)
  }

  function DecodeBatch(data: seq<byte>): Result<seq<Entry>> { BatchFrom(data, 0, [], Exact) }

  /** As the decoder runs. */
  function UnmarshalledBatch(data: seq<byte>): Result<seq<Entry>> { BatchFrom(data, 0, [], Machine) }

  // ---- the pre-scans ----

  function AsInt64(x: uint64): int { if x <= MAX_INT then x else x - TWO_64 }

  /** What one round of a pre-scan at position `i` does: it ends, it indexes outside the slice, or it
      counts a record and goes on at `next`, which a negative length puts before the record. */
  datatype Jump = End | Crash | To(next: int)

  /** The varints of a pre-scan are not bounded: only the end of the slice stops them. */
  function JumpFrom(data: seq<byte>, i: int, f: nat): Jump {
    if i >= |data| then End
    else if i < 0 then Crash
    else
      match ReadLength(data, i)
      case Short(_) => Crash
      case Value(w, j) =>
        if AsInt32((w % TWO_64 / 8) % TWO_32) != f then End
        else
          match ReadLength(data, j)
          case Short(_) => Crash
          case Value(len, k) =>
            var next := k + AsInt64(len % TWO_64);
            To(if next > MAX_INT then next - TWO_64 else next)
  }

  datatype Count = Count(n: nat) | OutOfRange | Endless

  function OneMore(c: Count): Count { if c.Count? then Count(c.n + 1) else c }

  /** How many records of field `f` a pre-scan counts from `i` on, given up after `rounds` jumps. */
  function CountFrom(data: seq<byte>, i: int, f: nat, rounds: nat): Count
    decreases rounds
  {
    match JumpFrom(data, i, f)
    case End => Count(0)
    case Crash => OutOfRange
    case To(next) => if rounds == 0 then Endless else OneMore(CountFrom(data, next, f, rounds - 1))
  }

  /** The pre-scan of a slice: after as many jumps as it has positions it is going round in circles. */
  function CountRun(data: seq<byte>, f: nat): Count { CountFrom(data, 0, f, |data|) }

  // ---- the decoder with its pre-scan ----

  /** As the decoder runs: before it takes the first entry it sizes the list by a pre-scan of what
      follows that entry. */
  function UnmarshalFrom(data: seq<byte>, i: nat, m: Message, sized: bool): Result<Message>
    requires i <= |data|
    decreases |data| - i
  {
    if i == |data| then Done(m)
    else
      match ReadField(data, i, Machine)
      case BadField(e) => Failed(e)
      case EntryField(start, end) =>
        if !sized && CountRun(data[end..], ENTRIES).OutOfRange? then Failed(CountPanic)
        else if !sized && CountRun(data[end..], ENTRIES).Endless? then Failed(CountEndless)
        else
          (match Decode(data[start..end], EMPTY_ENTRY)
           case Ok(_, e) => UnmarshalFrom(data, end, m.(entries := m.entries + [e]), true)
           case why => Failed(BadEntry(why)))
      case SnapshotField(start, end) => UnmarshalFrom(data, end, m.(snapshot := data[start..end]), sized)
      case ScalarField(f, x, end) => UnmarshalFrom(data, end, SetScalar(m, f, x), sized)
      case Undeclared(end) => UnmarshalFrom(data, end, m, sized)
  }

  function Unmarshalled(data: seq<byte>): Result<Message> { UnmarshalFrom(data, 0, EMPTY_MESSAGE, false) }
}
