/** The batch of messages a host sends to another: its decoder, which pre-scans the messages as the
    decoder of a message pre-scans entries, and its round trip. */
module FramingEnvelope {
  import opened Bits
  import opened EntryFormat
  import opened EntryRoundTrip
  import opened Framing
  import opened FramingRecords
  import opened FramingRoundTrip
  import opened FramingCodec

  const NO_MESSAGES: MessageBatch := MessageBatch([], 0, [], 0)

  datatype EnvelopeField =
    | RequestField(start: nat, end: nat)
    | DeploymentField(x: uint64, end: nat)
    | AddressField(start: nat, end: nat)
    | VersionField(x: uint64, end: nat)
    | Passed(end: nat)
    | BadEnvelope(error: FrameError)

  function ReadEnvelope(data: seq<byte>, i: nat): (r: EnvelopeField)
    requires i < |data|
    ensures r.RequestField? || r.AddressField? ==> r.start <= r.end
    ensures !r.BadEnvelope? ==> i < r.end <= |data|
  {
    match ReadTag(data, i)
    case NoTag(e) => BadEnvelope(e)
    case Tag(field, wire, j) =>
      if field == 1 || field == 3 then
        if wire != 2 then BadEnvelope(WrongWireType)
        else
          match ReadSpan(data, j, Machine)
          case NoSpan(e) => BadEnvelope(e)
          case Span(start, end) => if field == 1 then RequestField(start, end) else AddressField(start, end)
      else if field == 2 || field == 4 then
        if wire != 0 then BadEnvelope(WrongWireType)
        else
          match ReadGroups(data, j, 0)
          case ScanFailed(e) => BadEnvelope(e)
          case Scanned(v, next) =>
            if field == 2 then DeploymentField(v % TWO_64, next) else VersionField(v % TWO_64, next)
      else
        match AfterSkip(data, i, Machine)
        case Stop(e) => BadEnvelope(e)
        case Continue(next) => Passed(next)
  }

  /** As the decoder runs, from `i` on with `b` decoded so far. */
  function EnvelopeFrom(data: seq<byte>, i: nat, b: MessageBatch): Result<MessageBatch>
    requires i <= |data|
    decreases |data| - i
  {
    if i == |data| then Done(b)
    else
      match ReadEnvelope(data, i)
      case BadEnvelope(e) => Failed(e)
      case RequestField(start, end) =>
        if b.requests == [] && CountRun(data[end..], 1).OutOfRange? then Failed(CountPanic)
        else if b.requests == [] && CountRun(data[end..], 1).Endless? then Failed(CountEndless)
        else
          (match Unmarshalled(data[start..end])
           case Done(m) => EnvelopeFrom(data, end, b.(requests := b.requests + [m]))
           case Failed(e) => Failed(e))
      case DeploymentField(x, end) => EnvelopeFrom(data, end, b.(deploymentId := x))
      case AddressField(start, end) => EnvelopeFrom(data, end, b.(sourceAddress := data[start..end]))
      case VersionField(x, end) => EnvelopeFrom(data, end, b.(binVer := x % TWO_32))
      case Passed(end) => EnvelopeFrom(data, end, b)
  }

  function UnmarshalledMessageBatch(data: seq<byte>): Result<MessageBatch> { EnvelopeFrom(data, 0, NO_MESSAGES) }

  // ---- the loop ----

  method ScanEnvelope(data: seq<byte>, i: nat) returns (r: EnvelopeField)
    requires i < |data|
    ensures r == ReadEnvelope(data, i)
  {
    hide ReadTag, ReadSpan, ReadGroups, AfterSkip;
    var tag := ScanTag(data, i);
    if tag.NoTag? {
      return BadEnvelope(tag.error);
    }
    if tag.field == 1 || tag.field == 3 {
      if tag.wire != 2 {
        return BadEnvelope(WrongWireType);
      }
      var span := ScanSpan(data, tag.next);
      if span.NoSpan? {
        return BadEnvelope(span.error);
      }
      return if tag.field == 1 then RequestField(span.start, span.end) else AddressField(span.start, span.end);
    }
    if tag.field == 2 || tag.field == 4 {
      if tag.wire != 0 {
        return BadEnvelope(WrongWireType);
      }
      var s := ScanGroups(data, tag.next);
      if s.ScanFailed? {
        return BadEnvelope(s.error);
      }
      return if tag.field == 2 then DeploymentField(s.x, s.next) else VersionField(s.x, s.next);
    }
    var next := StepOver(data, i);
    return if next.Stop? then BadEnvelope(next.error) else Passed(next.at);
  }

  method UnmarshalMessageBatch(data: seq<byte>) returns (r: Result<MessageBatch>)
    ensures r == UnmarshalledMessageBatch(data)
  {
    hide ReadEnvelope, Unmarshalled, CountRun;
    var i := 0;
    var b := NO_MESSAGES;
    while i < |data|
      invariant i <= |data| && EnvelopeFrom(data, i, b) == UnmarshalledMessageBatch(data)
    {
      var field := ScanEnvelope(data, i);
      match field {
        case BadEnvelope(e) => return Failed(e);
        case RequestField(start, end) =>
          if |b.requests| == 0 {
            var count := CountRecords(data[end..], 1);
            if !count.Count? {
              return Failed(if count.OutOfRange? then CountPanic else CountEndless);
            }
          }
          var m := UnmarshalMessage(data[start..end]);
          if m.Failed? {
            return Failed(m.error);
          }
          b := b.(requests := b.requests + [m.value]);
        case DeploymentField(x, _) => b := b.(deploymentId := x);
        case AddressField(start, end) => b := b.(sourceAddress := data[start..end]);
        case VersionField(x, _) => b := b.(binVer := x % TWO_32);
        case Passed(_) =>
      }
      i := field.end;
    }
    r := Done(b);
  }

  // ---- the round trip ----

  /** What follows the messages. */
  function PutTrailer(b: MessageBatch): seq<byte> {
    [0x10] + Uvarint(b.deploymentId) + PutRecord(3, b.sourceAddress) + [0x20] + Uvarint(b.binVer)
  }

  lemma EnvelopeSplits(b: MessageBatch)
    ensures EncodeMessageBatch(b) == PutMessages(b.requests) + PutTrailer(b)
  {
    hide PutMessages, PutRecord, Uvarint;
  }

  ghost predicate Sendable(m: Message) { Encodable(m.entries) && |EncodeMessage(m)| <= MAX_INT }

  /** A record of the messages or of the address is read as the span of its contents. */
  lemma RecordField(data: seq<byte>, p: nat, f: nat, s: seq<byte>)
    requires (f == 1 || f == 3) && Holds(data, p, PutRecord(f, s)) && |data| <= MAX_INT
    ensures p < |data| && var end := p + |PutRecord(f, s)|;
            && p <= end - |s| && end <= |data| && data[end - |s|..end] == s
            && ReadEnvelope(data, p) == if f == 1 then RequestField(end - |s|, end) else AddressField(end - |s|, end)
  {
    hide PutRecord, ReadTag, ReadSpan;
    FramingRecords.RecordReads(data, p, f, s, Machine);
  }

  lemma RequestReads(data: seq<byte>, p: nat, b: MessageBatch, m: Message)
    requires Sendable(m) && Holds(data, p, PutRecord(1, EncodeMessage(m))) && |data| <= MAX_INT
    requires b.requests == [] ==> CountRun(data[p + |PutRecord(1, EncodeMessage(m))|..], 1).Count?
    ensures EnvelopeFrom(data, p, b) ==
            EnvelopeFrom(data, p + |PutRecord(1, EncodeMessage(m))|, b.(requests := b.requests + [m]))
  {
    hide EnvelopeFrom, PutRecord, EncodeMessage, ReadEnvelope, Unmarshalled, CountRun;
    RecordField(data, p, 1, EncodeMessage(m));
    MessageRoundTrip(m);
    var end := p + |PutRecord(1, EncodeMessage(m))|;
    AfterRequest(data, p, b, end - |EncodeMessage(m)|, end, m);
  }

  lemma AfterRequest(data: seq<byte>, p: nat, b: MessageBatch, start: nat, end: nat, m: Message)
    requires p < |data| && ReadEnvelope(data, p) == RequestField(start, end)
    requires Unmarshalled(data[start..end]) == Done(m) && (b.requests == [] ==> CountRun(data[end..], 1).Count?)
    ensures EnvelopeFrom(data, p, b) == EnvelopeFrom(data, end, b.(requests := b.requests + [m]))
  {
    hide ReadEnvelope, Unmarshalled, CountRun;
  }

  lemma TrailerCount(ms: seq<Message>, b: MessageBatch)
    requires |PutMessages(ms) + PutTrailer(b)| <= MAX_INT
    ensures CountRun(PutMessages(ms) + PutTrailer(b), 1) == Count(|ms|)
  {
    hide PutMessages, PutRecord, Uvarint, CountRun;
    MessagesAreRecords(ms);
    assert PutTrailer(b)[0] == 0x10;
    CountsWhole(1, MessageBytes(ms), PutTrailer(b));
  }

  lemma {:induction false} RequestsRead(data: seq<byte>, p: nat, b: MessageBatch, done: seq<Message>, ms: seq<Message>)
    requires (forall m | m in ms :: Sendable(m)) && |data| <= MAX_INT
    requires p <= |data| && data[p..] == PutMessages(ms) + PutTrailer(b)
    ensures var q := p + |PutMessages(ms)|;
            && q <= |data| && data[q..] == PutTrailer(b)
            && EnvelopeFrom(data, p, NO_MESSAGES.(requests := done)) ==
               EnvelopeFrom(data, q, NO_MESSAGES.(requests := done + ms))
    decreases |ms|
  {
    hide EnvelopeFrom, PutTrailer, PutRecord, EncodeMessage, CountRun;
    if ms == [] {
      assert done + ms == done;
      assert PutMessages(ms) + PutTrailer(b) == PutTrailer(b);
    } else {
      var first := PutRecord(1, EncodeMessage(ms[0]));
      var rest := PutMessages(ms[1..]) + PutTrailer(b);
      assert data[p..] == first + rest;
      assert data[p..p + |first|] == data[p..][..|first|] == first;
      assert data[p + |first|..] == data[p..][|first|..] == rest;
      TrailerCount(ms[1..], b);
      RequestReads(data, p, NO_MESSAGES.(requests := done), ms[0]);
      RequestsRead(data, p + |first|, b, done + [ms[0]], ms[1..]);
      assert done + [ms[0]] + ms[1..] == done + ms;
    }
  }

  lemma NumberReads(data: seq<byte>, p: nat, f: nat, v: uint64, b: MessageBatch)
    requires (f == 2 || f == 4) && Holds(data, p, [8 * f] + Uvarint(v))
    ensures var end := p + 1 + |Uvarint(v)|;
            EnvelopeFrom(data, p, b) ==
            EnvelopeFrom(data, end, if f == 2 then b.(deploymentId := v) else b.(binVer := v % TWO_32))
  {
    hide ReadTag, ReadGroups, Uvarint, AfterSkip, ReadSpan, CountRun, Unmarshalled;
    HoldsTail(data, p, [8 * f], Uvarint(v));
    assert data[p] == data[p..p + 1][0];
    TagReads(data, p, f, 0);
    ScalarReads(data, p + 1, v);
    hide Holds;
  }

  lemma AddressReads(data: seq<byte>, p: nat, s: seq<byte>, b: MessageBatch)
    requires Holds(data, p, PutRecord(3, s)) && |data| <= MAX_INT
    ensures EnvelopeFrom(data, p, b) == EnvelopeFrom(data, p + |PutRecord(3, s)|, b.(sourceAddress := s))
  {
    hide ReadEnvelope, PutRecord, CountRun;
    RecordField(data, p, 3, s);
  }

  lemma EnvelopeEnds(data: seq<byte>, b: MessageBatch)
    ensures EnvelopeFrom(data, |data|, b) == Done(b)
  {
  }

  lemma TrailerReads(data: seq<byte>, p: nat, b: MessageBatch)
    requires p <= |data| <= MAX_INT && data[p..] == PutTrailer(b)
    ensures EnvelopeFrom(data, p, NO_MESSAGES.(requests := b.requests)) == Done(b)
  {
    hide EnvelopeFrom, PutRecord, Uvarint;
    var a, c, d := [0x10] + Uvarint(b.deploymentId), PutRecord(3, b.sourceAddress), [0x20] + Uvarint(b.binVer);
    assert PutTrailer(b) == a + (c + d);
    assert data[p..p + |a + (c + d)|] == data[p..];
    HoldsTail(data, p, a, c + d);
    HoldsTail(data, p + |a|, c, d);
    var b0 := NO_MESSAGES.(requests := b.requests);
    var b1 := b0.(deploymentId := b.deploymentId);
    NumberReads(data, p, 2, b.deploymentId, b0);
    AddressReads(data, p + |a|, b.sourceAddress, b1);
    NumberReads(data, p + |a| + |c|, 4, b.binVer, b1.(sourceAddress := b.sourceAddress));
    EnvelopeEnds(data, b);
  }

  /** Round trip of a message batch, messages and their entries in order, through both pre-scans. */
  lemma MessageBatchRoundTrip(b: MessageBatch)
    requires (forall m | m in b.requests :: Sendable(m)) && |EncodeMessageBatch(b)| <= MAX_INT
    ensures UnmarshalledMessageBatch(EncodeMessageBatch(b)) == Done(b)
  {
    hide EnvelopeFrom, PutMessages, PutTrailer;
    var data := EncodeMessageBatch(b);
    EnvelopeSplits(b);
    assert data[0..] == data;
    RequestsRead(data, 0, b, [], b.requests);
    assert [] + b.requests == b.requests;
    TrailerReads(data, |PutMessages(b.requests)|, b);
  }
}
