/** Records read back where they were written; the pre-scans that size lists count right; and no record
    exceeds its declared upper limit. */
module FramingRecords {
  import opened Bits
  import opened EntryFormat
  import opened EntryRoundTrip
  import opened Framing

  lemma UvarintTenGroups(v: nat)
    requires v < TWO_64
    ensures |Uvarint(v)| <= 10
  {
    var v1 := v / 0x80; var v2 := v1 / 0x80; var v3 := v2 / 0x80;
    UvarintSevenGroups(v3);
    assert |Uvarint(v2)| <= 1 + |Uvarint(v3)|;
    assert |Uvarint(v1)| <= 1 + |Uvarint(v2)|;
    assert |Uvarint(v)| <= 1 + |Uvarint(v1)|;
  }

  lemma {:induction false} GroupsRead(data: seq<byte>, i: nat, k: nat, v: nat)
    requires Holds(data, i, Uvarint(v)) && k + |Uvarint(v)| <= 10
    ensures ReadGroups(data, i, k) == Scanned(v, i + |Uvarint(v)|)
    decreases v
  {
    assert data[i] == Uvarint(v)[0];
    if v >= 0x80 {
      HoldsTail(data, i, [data[i]], Uvarint(v / 0x80));
      GroupsRead(data, i + 1, k + 1, v / 0x80);
    }
  }

  lemma ScalarReads(data: seq<byte>, i: nat, v: uint64)
    requires Holds(data, i, Uvarint(v))
    ensures ReadGroups(data, i, 0) == Scanned(v, i + |Uvarint(v)|)
  {
    UvarintTenGroups(v);
    GroupsRead(data, i, 0, v);
  }

  lemma TagReads(data: seq<byte>, i: nat, f: nat, wire: nat)
    requires i < |data| && 1 <= f < 16 && (wire == 0 || wire == 2) && data[i] == 8 * f + wire
    ensures ReadTag(data, i) == Tag(f, wire, i + 1)
  {
    assert ReadGroups(data, i, 0) == Scanned(8 * f + wire, i + 1);
  }

  lemma SpanReads(data: seq<byte>, i: nat, s: seq<byte>, ints: Ints)
    requires Holds(data, i, Uvarint(|s|) + s) && |data| <= MAX_INT
    ensures var start := i + |Uvarint(|s|)|;
            ReadSpan(data, i, ints) == Span(start, start + |s|) && data[start..start + |s|] == s
  {
    hide Uvarint;
    HoldsTail(data, i, Uvarint(|s|), s);
    ScalarReads(data, i, |s|);
  }

  /** A length-delimited record reads as its tag and its content. */
  lemma RecordReads(data: seq<byte>, p: nat, f: nat, s: seq<byte>, ints: Ints)
    requires 1 <= f < 16 && Holds(data, p, PutRecord(f, s)) && |data| <= MAX_INT
    ensures p < |data| && ReadTag(data, p) == Tag(f, 2, p + 1)
    ensures var end := p + |PutRecord(f, s)|;
            ReadSpan(data, p + 1, ints) == Span(end - |s|, end) && data[end - |s|..end] == s
  {
    hide Uvarint, ReadSpan, ReadTag;
    var tag: seq<byte> := [8 * f + 2];
    assert PutRecord(f, s) == tag + (Uvarint(|s|) + s);
    HoldsTail(data, p, tag, Uvarint(|s|) + s);
    assert data[p] == data[p..p + 1][0];
    TagReads(data, p, f, 2);
    SpanReads(data, p + 1, s, ints);
  }

  predicate Encodable(es: seq<Entry>) {
    forall e | e in es :: |Encode(e)| < SIZE_MAX
  }

  lemma EntryReads(e: Entry)
    requires |Encode(e)| < SIZE_MAX
    ensures Decode(Encode(e), EMPTY_ENTRY) == Ok(|Encode(e)|, e)
  {
    DecodeEncode(e, []);
    assert Encode(e) + [] == Encode(e);
  }

  // ---- the pre-scan ----

  /** A run of records of field `f`. */
  function PutRecords(f: nat, contents: seq<seq<byte>>): seq<byte>
    requires f < 16
  {
    if contents == [] then [] else PutRecord(f, contents[0]) + PutRecords(f, contents[1..])
  }

  function EntryBytes(es: seq<Entry>): (r: seq<seq<byte>>)
    ensures |r| == |es|
  {
    if es == [] then [] else [Encode(es[0])] + EntryBytes(es[1..])
  }

  lemma {:induction false} EntriesAreRecords(f: nat, es: seq<Entry>)
    requires f < 16
    ensures PutEntries(f, es) == PutRecords(f, EntryBytes(es))
    decreases |es|
  {
    hide PutRecord, Encode;
    if es != [] {
      EntriesAreRecords(f, es[1..]);
      assert EntryBytes(es)[1..] == EntryBytes(es[1..]);
    }
  }

  /** A record sends the pre-scan of its field to its end. */
  lemma RecordJumps(data: seq<byte>, p: nat, f: nat, s: seq<byte>)
    requires 1 <= f < 16 && Holds(data, p, PutRecord(f, s)) && |data| <= MAX_INT
    ensures JumpFrom(data, p, f) == To(p + |PutRecord(f, s)|)
  {
    hide Uvarint, ReadLength, AsInt32;
    var tag: seq<byte> := [8 * f + 2];
    assert PutRecord(f, s) == tag + (Uvarint(|s|) + s);
    HoldsTail(data, p, tag, Uvarint(|s|) + s);
    HoldsTail(data, p + 1, Uvarint(|s|), s);
    assert data[p] == data[p..p + 1][0];
    OneByteLength(data, p);
    FieldOfTag(f);
    LengthReads(data, p + 1, |s|);
  }

  lemma OneByteLength(data: seq<byte>, p: nat)
    requires p < |data| && data[p] < 0x80
    ensures ReadLength(data, p) == Value(data[p], p + 1)
  {
  }

  lemma FieldOfTag(f: nat)
    requires f < 16
    ensures AsInt32((8 * f + 2) % TWO_64 / 8 % TWO_32) == f
  {
  }

  /** A run of records of field `f` after which the pre-scan ends is counted exactly. */
  lemma {:induction false} CountsRun(data: seq<byte>, p: nat, f: nat, contents: seq<seq<byte>>, rounds: nat)
    requires 1 <= f < 16 && Holds(data, p, PutRecords(f, contents)) && |data| <= MAX_INT && |contents| <= rounds
    requires JumpFrom(data, p + |PutRecords(f, contents)|, f) == End
    ensures CountFrom(data, p, f, rounds) == Count(|contents|)
    decreases |contents|
  {
    hide PutRecord, JumpFrom;
    if contents != [] {
      HoldsTail(data, p, PutRecord(f, contents[0]), PutRecords(f, contents[1..]));
      RecordJumps(data, p, f, contents[0]);
      CountsRun(data, p + |PutRecord(f, contents[0])|, f, contents[1..], rounds - 1);
    }
  }

  lemma {:induction false} RecordsLength(f: nat, contents: seq<seq<byte>>)
    requires f < 16
    ensures |contents| <= |PutRecords(f, contents)|
    decreases |contents|
  {
    if contents != [] {
      RecordsLength(f, contents[1..]);
    }
  }

  lemma OtherFieldEnds(data: seq<byte>, p: nat, f: nat)
    requires p < |data| && data[p] < 0x80 && data[p] / 8 != f
    ensures JumpFrom(data, p, f) == End
  {
    OneByteLength(data, p);
  }

  /** A slice that is a run of records followed by a record of another field. */
  lemma CountsWhole(f: nat, contents: seq<seq<byte>>, rest: seq<byte>)
    requires 1 <= f < 16 && |PutRecords(f, contents) + rest| <= MAX_INT
    requires rest != [] && rest[0] < 0x80 && rest[0] / 8 != f
    ensures CountRun(PutRecords(f, contents) + rest, f) == Count(|contents|)
  {
    hide PutRecords;
    var data := PutRecords(f, contents) + rest;
    RecordsLength(f, contents);
    assert data[0..0 + |data|] == data;
    HoldsTail(data, 0, PutRecords(f, contents), rest);
    OtherFieldEnds(data, |PutRecords(f, contents)|, f);
    CountsRun(data, 0, f, contents, |data|);
  }

  /** Where field `f` of a marshalled message starts. */
  function FieldStart(m: Message, f: nat): int
    requires FIRST_FIELD <= f <= END_FIELD
  {
    |EncodeMessage(m)| - |EncodeMessageFrom(m, f)|
  }

  lemma {:induction false} FieldSuffix(m: Message, f: nat)
    requires FIRST_FIELD <= f <= END_FIELD
    ensures 0 <= FieldStart(m, f) && EncodeMessage(m)[FieldStart(m, f)..] == EncodeMessageFrom(m, f)
    decreases f
  {
    hide PutMessageField;
    if f > FIRST_FIELD {
      FieldSuffix(m, f - 1);
      var s, k := EncodeMessage(m), FieldStart(m, f - 1);
      assert s[k..] == PutMessageField(m, f - 1) + EncodeMessageFrom(m, f);
      assert s[FieldStart(m, f)..] == s[k..][|PutMessageField(m, f - 1)|..];
    }
  }

  /** When the decoder of a marshalled message has found the first entry, the pre-scan of what
      follows it, plus one, is the number of entries the message holds. */
  lemma EntryCountExact(m: Message)
    requires m.entries != [] && |EncodeMessage(m)| <= MAX_INT
    ensures var end := FieldStart(m, ENTRIES) + |PutRecord(ENTRIES, Encode(m.entries[0]))|;
            0 <= end <= |EncodeMessage(m)| &&
            CountRun(EncodeMessage(m)[end..], ENTRIES) == Count(|m.entries| - 1)
  {
    hide CountRun, EncodeMessage, EncodeMessageFrom, PutRecord, Encode, PutMessageField;
    FieldSuffix(m, ENTRIES);
    EntriesThenSnapshot(m);
    var first, more := PutRecord(ENTRIES, Encode(m.entries[0])), PutEntries(ENTRIES, m.entries[1..]);
    var tail := EncodeMessageFrom(m, SNAPSHOT);
    var s, k := EncodeMessage(m), FieldStart(m, ENTRIES);
    var rest := s[k + |first|..];
    assert s[k..] == (first + more) + tail;
    assert rest == s[k..][|first|..] == more + tail;
    SnapshotTag(m);
    EntriesAreRecords(ENTRIES, m.entries[1..]);
    CountsWhole(ENTRIES, EntryBytes(m.entries[1..]), tail);
  }

  lemma EntriesThenSnapshot(m: Message)
    ensures EncodeMessageFrom(m, ENTRIES) == PutEntries(ENTRIES, m.entries) + EncodeMessageFrom(m, SNAPSHOT)
  {
  }

  lemma SnapshotTag(m: Message)
    ensures EncodeMessageFrom(m, SNAPSHOT) != []
    ensures EncodeMessageFrom(m, SNAPSHOT)[0] == 8 * SNAPSHOT + 2
  {
  }

  // ---- size bounds ----

  function EntryUpperLimit(e: Entry): nat { 16 * 7 + 16 + |e.cmd| }

  function EntriesUpperLimit(es: seq<Entry>): nat {
    if es == [] then 0 else 16 + EntryUpperLimit(es[0]) + EntriesUpperLimit(es[1..])
  }

  function BatchUpperLimit(es: seq<Entry>): nat { 16 + EntriesUpperLimit(es) }

  function MessageUpperLimit(m: Message): nat { 16 * 12 + |m.snapshot| + EntriesUpperLimit(m.entries) }

  lemma {:induction false} FieldUpperLimit(e: Entry, k: nat)
    requires k < 8 && |e.cmd| <= MAX_INT
    ensures |PutField(e, k)| <= if k == 7 then 16 + |e.cmd| else 15
  {
    if k == 2 {
      UvarintTenGroups(AsUint32(e.kind));
      UvarintTenGroups(Negate32(AsUint32(e.kind)));
    } else if k == 7 {
      UvarintTenGroups(|e.cmd|);
    } else {
      UvarintTenGroups(Uint64At(e, k));
    }
  }

  lemma {:induction false} EntryWithinLimit(e: Entry, k: nat)
    requires k <= 8 && |e.cmd| <= MAX_INT
    ensures |EncodeFrom(e, k)| <= if k == 8 then 1 else 15 * (7 - k) + 16 + |e.cmd| + 1
    decreases 8 - k
  {
    hide PutField;
    if k < 8 {
      FieldUpperLimit(e, k);
      EntryWithinLimit(e, k + 1);
    }
  }

  lemma EntryBound(e: Entry)
    requires |e.cmd| <= MAX_INT
    ensures |Encode(e)| <= EntryUpperLimit(e)
  {
    EntryWithinLimit(e, FIRST);
  }

  lemma {:induction false} EntriesBound(f: nat, es: seq<Entry>)
    requires f < 16 && forall e | e in es :: |e.cmd| <= MAX_INT
    ensures |PutEntries(f, es)| <= EntriesUpperLimit(es)
    decreases |es|
  {
    hide Encode, Uvarint;
    if es != [] {
      EntryBound(es[0]);
      UvarintTenGroups(|Encode(es[0])|);
      EntriesBound(f, es[1..]);
    }
  }

  /** The declared upper limit of an entry batch holds for every list of entries. */
  lemma BatchBound(es: seq<Entry>)
    requires forall e | e in es :: |e.cmd| <= MAX_INT
    ensures |EncodeBatch(es)| <= BatchUpperLimit(es)
  {
    EntriesBound(1, es);
  }

  lemma ScalarBound(m: Message, f: nat)
    requires IsScalar(f)
    ensures |PutMessageField(m, f)| <= 11
  {
    UvarintTenGroups(Scalar(m, f));
  }

  lemma SnapshotBound(m: Message)
    requires |m.snapshot| <= MAX_INT
    ensures |PutMessageField(m, SNAPSHOT)| <= 11 + |m.snapshot|
  {
    UvarintTenGroups(|m.snapshot|);
  }

  lemma {:induction false} MessageFromBound(m: Message, f: nat)
    requires FIRST_FIELD <= f <= END_FIELD && |m.snapshot| <= MAX_INT
    requires forall e | e in m.entries :: |e.cmd| <= MAX_INT
    ensures |EncodeMessageFrom(m, f)| <=
            11 * (END_FIELD - f) + (if f <= SNAPSHOT then |m.snapshot| else 0) +
            (if f <= ENTRIES then EntriesUpperLimit(m.entries) else 0)
    decreases END_FIELD - f
  {
    hide PutMessageField, Encode, EntriesUpperLimit;
    if f < END_FIELD {
      MessageFromBound(m, f + 1);
      if f == ENTRIES {
        EntriesBound(ENTRIES, m.entries);
        EntriesField(m);
      } else if f == SNAPSHOT {
        SnapshotBound(m);
      } else {
        ScalarBound(m, f);
      }
    }
  }

  lemma EntriesField(m: Message)
    ensures PutMessageField(m, ENTRIES) == PutEntries(ENTRIES, m.entries)
  {
  }

  /** The declared upper limit of a message holds for every message. */
  lemma MessageBound(m: Message)
    requires |m.snapshot| <= MAX_INT
    requires forall e | e in m.entries :: |e.cmd| <= MAX_INT
    ensures |EncodeMessage(m)| <= MessageUpperLimit(m)
  {
    hide EncodeMessageFrom, Encode, EntriesUpperLimit;
    MessageFromBound(m, FIRST_FIELD);
  }

  // ---- MessageBatch ----

  datatype MessageBatch = MessageBatch(
    requests: seq<Message>, deploymentId: uint64, sourceAddress: seq<byte>, binVer: uint32)

  function PutMessages(ms: seq<Message>): seq<byte> {
    if ms == [] then [] else PutRecord(1, EncodeMessage(ms[0])) + PutMessages(ms[1..])
  }

  function MessageBytes(ms: seq<Message>): (r: seq<seq<byte>>)
    ensures |r| == |ms|
  {
    if ms == [] then [] else [EncodeMessage(ms[0])] + MessageBytes(ms[1..])
  }

  lemma {:induction false} MessagesAreRecords(ms: seq<Message>)
    ensures PutMessages(ms) == PutRecords(1, MessageBytes(ms))
    decreases |ms|
  {
    hide PutRecord, EncodeMessage;
    if ms != [] {
      MessagesAreRecords(ms[1..]);
      assert MessageBytes(ms)[1..] == MessageBytes(ms[1..]);
    }
  }

  /** In a marshalled batch the pre-scan of what follows the first message, plus one, is the number of
      messages. */
  lemma MessageCountExact(b: MessageBatch)
    requires b.requests != [] && |EncodeMessageBatch(b)| <= MAX_INT
    ensures var end := |PutRecord(1, EncodeMessage(b.requests[0]))|;
            end <= |EncodeMessageBatch(b)| &&
            CountRun(EncodeMessageBatch(b)[end..], 1) == Count(|b.requests| - 1)
  {
    hide CountRun, EncodeMessage, PutRecord, Uvarint;
    var first, more := PutRecord(1, EncodeMessage(b.requests[0])), PutMessages(b.requests[1..]);
    var tail := [0x10] + Uvarint(b.deploymentId) + PutRecord(3, b.sourceAddress) + [0x20] + Uvarint(b.binVer);
    assert EncodeMessageBatch(b) == first + (more + tail);
    assert EncodeMessageBatch(b)[|first|..] == more + tail;
    MessagesAreRecords(b.requests[1..]);
    CountsWhole(1, MessageBytes(b.requests[1..]), tail);
  }

  function EncodeMessageBatch(b: MessageBatch): seq<byte> {
    PutMessages(b.requests) + [0x10] + Uvarint(b.deploymentId) + PutRecord(3, b.sourceAddress) +
    [0x20] + Uvarint(b.binVer)
  }

  function MessagesUpperLimit(ms: seq<Message>): nat {
    if ms == [] then 0 else 16 + MessageUpperLimit(ms[0]) + MessagesUpperLimit(ms[1..])
  }

  function MessageBatchUpperLimit(b: MessageBatch): nat {
    16 * 3 + |b.sourceAddress| + MessagesUpperLimit(b.requests)
  }

  /** The lengths the machine can represent. */
  ghost predicate Representable(m: Message) {
    && |m.snapshot| <= MAX_INT && |EncodeMessage(m)| <= MAX_INT
    && forall e | e in m.entries :: |e.cmd| <= MAX_INT
  }

  lemma {:induction false} MessagesBound(ms: seq<Message>)
    requires forall m | m in ms :: Representable(m)
    ensures |PutMessages(ms)| <= MessagesUpperLimit(ms)
    decreases |ms|
  {
    hide EncodeMessage, Uvarint, MessageUpperLimit;
    if ms != [] {
      assert Representable(ms[0]);
      MessageBound(ms[0]);
      UvarintTenGroups(|EncodeMessage(ms[0])|);
      MessagesBound(ms[1..]);
    }
  }

  lemma MessageBatchBound(b: MessageBatch)
    requires |b.sourceAddress| <= MAX_INT && forall m | m in b.requests :: Representable(m)
    ensures |EncodeMessageBatch(b)| <= MessageBatchUpperLimit(b)
  {
    hide PutMessages, MessagesUpperLimit, Uvarint;
    MessagesBound(b.requests);
    UvarintTenGroups(b.deploymentId);
    UvarintTenGroups(|b.sourceAddress|);
    UvarintTenGroups(b.binVer);
  }
}
