/** Messages and entry batches decode to what was encoded, in order, whatever undeclared fields lie among
    their own; the decoder's pre-scan never gets in the way. */
module FramingRoundTrip {
  import opened Bits
  import opened EntryFormat
  import opened EntryRoundTrip
  import opened Framing
  import opened FramingRecords
  import opened FramingPrescan
  import opened FramingSkip
  import opened FramingWraps

  // ---- messages with undeclared fields anywhere ----

  /** A declared field of a message; each entry is a field of its own. */
  datatype Piece = ScalarPiece(f: nat, v: uint64) | EntryPiece(e: Entry) | SnapshotPiece(s: seq<byte>)

  datatype Item = Known(piece: Piece) | Unknown(field: FramingSkip.Field)

  predicate GoodItem(x: Item) {
    match x
    case Known(ScalarPiece(f, _)) => IsScalar(f)
    case Known(EntryPiece(e)) => |Encode(e)| < SIZE_MAX
    case Known(SnapshotPiece(_)) => true
    case Unknown(field) => WellFormed(field) && field.number > 13
  }

  function PutItem(x: Item): (s: seq<byte>)
    requires GoodItem(x)
    ensures |s| >= 1
  {
    match x
    case Known(ScalarPiece(f, v)) => [8 * f] + Uvarint(v)
    case Known(EntryPiece(e)) => PutRecord(ENTRIES, Encode(e))
    case Known(SnapshotPiece(s)) => PutRecord(SNAPSHOT, s)
    case Unknown(field) => Put(field)
  }

  predicate GoodItems(xs: seq<Item>) { forall x | x in xs :: GoodItem(x) }

  function PutItems(xs: seq<Item>): (s: seq<byte>)
    requires GoodItems(xs)
    ensures |s| >= |xs|
  {
    if xs == [] then [] else PutItem(xs[0]) + PutItems(xs[1..])
  }

  function ApplyPiece(m: Message, x: Piece): Message {
    match x
    case ScalarPiece(f, v) => if IsScalar(f) then SetScalar(m, f, v) else m
    case EntryPiece(e) => m.(entries := m.entries + [e])
    case SnapshotPiece(s) => m.(snapshot := s)
  }

  function ApplyItem(m: Message, x: Item): Message { if x.Known? then ApplyPiece(m, x.piece) else m }

  function ApplyItems(m: Message, xs: seq<Item>): Message
    decreases |xs|
  {
    if xs == [] then m else ApplyItems(ApplyItem(m, xs[0]), xs[1..])
  }

  /** What the decoder reads where an item was written. */
  ghost predicate ReadsAs(data: seq<byte>, p: nat, end: nat, x: Item, ints: Ints)
    requires p < |data| && end <= |data|
  {
    var r := ReadField(data, p, ints);
    match x
    case Known(ScalarPiece(f, v)) => r == ScalarField(f, v, end)
    case Known(EntryPiece(e)) => r.EntryField? && r.end == end && data[r.start..end] == Encode(e)
    case Known(SnapshotPiece(s)) => r.SnapshotField? && r.end == end && data[r.start..end] == s
    case Unknown(_) => r == Undeclared(end)
  }

  lemma ItemReads(data: seq<byte>, p: nat, x: Item, ints: Ints)
    requires GoodItem(x) && Holds(data, p, PutItem(x)) && |data| <= MAX_INT
    ensures p < |data| && ReadsAs(data, p, p + |PutItem(x)|, x, ints)
  {
    hide ReadTag, ReadSpan, ReadGroups, Uvarint, PutRecord, Put, Encode, AfterSkip;
    match x
    case Known(ScalarPiece(f, v)) =>
      HoldsTail(data, p, [8 * f], Uvarint(v));
      assert data[p] == data[p..p + 1][0];
      TagReads(data, p, f, 0);
      ScalarReads(data, p + 1, v);
    case Known(EntryPiece(e)) => FramingRecords.RecordReads(data, p, ENTRIES, Encode(e), ints);
    case Known(SnapshotPiece(s)) => FramingRecords.RecordReads(data, p, SNAPSHOT, s, ints);
    case Unknown(field) =>
      FieldTag(data, p, field);
      FieldContinues(data, p, field, ints);
  }

  // ---- the pre-scan over such bytes ----

  function LeadingEntries(xs: seq<Item>): nat {
    if xs != [] && xs[0].Known? && xs[0].piece.EntryPiece? then 1 + LeadingEntries(xs[1..]) else 0
  }

  lemma ItemEndsCount(data: seq<byte>, p: nat, x: Item)
    requires GoodItem(x) && Holds(data, p, PutItem(x)) && |data| <= MAX_INT
    requires !(x.Known? && x.piece.EntryPiece?)
    ensures JumpFrom(data, p, ENTRIES) == End
  {
    hide Uvarint, JumpFrom, PutBody;
    match x
    case Known(ScalarPiece(f, v)) =>
      HoldsTail(data, p, [8 * f], Uvarint(v));
      assert data[p] == data[p..p + 1][0];
      OtherFieldEnds(data, p, ENTRIES);
    case Known(SnapshotPiece(s)) =>
      assert PutRecord(SNAPSHOT, s) == [8 * SNAPSHOT + 2] + (Uvarint(|s|) + s);
      HoldsTail(data, p, [8 * SNAPSHOT + 2], Uvarint(|s|) + s);
      assert data[p] == data[p..p + 1][0];
      OtherFieldEnds(data, p, ENTRIES);
    case Unknown(field) =>
      var tag := 8 * field.number + WireType(field.body);
      HoldsTail(data, p, Uvarint(tag), PutBody(field));
      LengthReads(data, p, tag);
      NumberOfTag(field.number, WireType(field.body));
      TagEndsCount(data, p, tag);
  }

  lemma TagEndsCount(data: seq<byte>, p: nat, tag: nat)
    requires Holds(data, p, Uvarint(tag)) && ReadLength(data, p) == Value(tag, p + |Uvarint(tag)|)
    requires AsInt32((tag % TWO_64 / 8) % TWO_32) != ENTRIES
    ensures JumpFrom(data, p, ENTRIES) == End
  {
  }

  lemma {:induction false} CountsItems(data: seq<byte>, p: nat, xs: seq<Item>, rounds: nat)
    requires GoodItems(xs) && Holds(data, p, PutItems(xs)) && p + |PutItems(xs)| == |data| <= MAX_INT
    requires |xs| <= rounds
    ensures CountFrom(data, p, ENTRIES, rounds) == Count(LeadingEntries(xs))
    decreases |xs|
  {
    hide PutItem, GoodItem, PutRecord, Encode, JumpFrom;
    if xs == [] {
      assert JumpFrom(data, p, ENTRIES) == End by { EndOfData(data); }
    } else {
      HoldsTail(data, p, PutItem(xs[0]), PutItems(xs[1..]));
      if xs[0].Known? && xs[0].piece.EntryPiece? {
        EntryItem(xs[0]);
        assert GoodItem(xs[0]);
        RecordJumps(data, p, ENTRIES, Encode(xs[0].piece.e));
        CountsItems(data, p + |PutItem(xs[0])|, xs[1..], rounds - 1);
      } else {
        ItemEndsCount(data, p, xs[0]);
      }
    }
  }

  lemma EndOfData(data: seq<byte>)
    ensures JumpFrom(data, |data|, ENTRIES) == End
  {
  }

  lemma EntryItem(x: Item)
    requires GoodItem(x) && x.Known? && x.piece.EntryPiece?
    ensures PutItem(x) == PutRecord(ENTRIES, Encode(x.piece.e))
  {
  }

  /** The pre-scan of any such bytes ends, having counted the entries at their start. */
  lemma CountOfItems(xs: seq<Item>)
    requires GoodItems(xs) && |PutItems(xs)| <= MAX_INT
    ensures CountRun(PutItems(xs), ENTRIES) == Count(LeadingEntries(xs))
  {
    hide PutItems, CountFrom;
    var data := PutItems(xs);
    assert data[0..0 + |data|] == data;
    CountsItems(data, 0, xs, |data|);
  }

  lemma {:induction false} ItemsUnmarshal(data: seq<byte>, p: nat, m: Message, sized: bool, xs: seq<Item>)
    requires GoodItems(xs) && Holds(data, p, PutItems(xs)) && p + |PutItems(xs)| == |data| <= MAX_INT
    ensures UnmarshalFrom(data, p, m, sized) == DecodeMessageFrom(data, p, m) == Done(ApplyItems(m, xs))
    decreases |xs|
  {
    hide PutItem, ReadField, Decode, Encode, CountRun, SetScalar;
    if xs != [] {
      HoldsTail(data, p, PutItem(xs[0]), PutItems(xs[1..]));
      ItemReads(data, p, xs[0], Exact);
      ItemReads(data, p, xs[0], Machine);
      var end := p + |PutItem(xs[0])|;
      assert data[end..] == PutItems(xs[1..]);
      var isEntry := xs[0].Known? && xs[0].piece.EntryPiece?;
      ItemsUnmarshal(data, end, ApplyItem(m, xs[0]), sized || isEntry, xs[1..]);
      if isEntry {
        EntryReads(xs[0].piece.e);
        CountOfItems(xs[1..]);
      }
    }
  }

  /** Declared fields in any order, repeated or missing, with undeclared ones anywhere among them,
      decode to the declared ones alone; neither the pre-scan nor the machine's ints get in the way. */
  lemma ItemsDecode(xs: seq<Item>)
    requires GoodItems(xs) && |PutItems(xs)| <= MAX_INT
    ensures Unmarshalled(PutItems(xs)) == DecodeMessage(PutItems(xs)) == Done(ApplyItems(EMPTY_MESSAGE, xs))
    ensures CountReturns(PutItems(xs), 0) && !ReachesWrap(PutItems(xs), 0)
  {
    hide PutItems, UnmarshalFrom, DecodeMessageFrom, CountReturns, ReachesWrap;
    var data := PutItems(xs);
    assert data[0..0 + |data|] == data;
    ItemsUnmarshal(data, 0, EMPTY_MESSAGE, false, xs);
    ReturnsExactly(data);
  }

  // ---- the fields of one message ----

  /** The message `m` with the fields from `f` on still at their zero values. */
  function PrefixMessage(m: Message, f: nat): Message {
    Message(
      if f > 1 then m.kind else 0, if f > 2 then m.to else 0, if f > 3 then m.from else 0,
      if f > 4 then m.clusterId else 0, if f > 5 then m.term else 0, if f > 6 then m.logTerm else 0,
      if f > 7 then m.logIndex else 0, if f > 8 then m.commit else 0, if f > 9 then m.reject else false,
      if f > 10 then m.hint else 0, if f > 11 then m.entries else [], if f > 12 then m.snapshot else [],
      if f > 13 then m.hintHigh else 0)
  }

  lemma KindSurvives(v: int32)
    ensures AsInt32((v % TWO_64) % TWO_32) == v
  {
    if v < 0 {
      assert v % TWO_64 == v + TWO_64;
    }
  }

  lemma PrefixSetScalar(m: Message, f: nat)
    requires IsScalar(f)
    ensures SetScalar(PrefixMessage(m, f), f, Scalar(m, f)) == PrefixMessage(m, f + 1)
  {
    KindSurvives(m.kind);
  }

  function EntryItems(es: seq<Entry>): seq<Item> {
    if es == [] then [] else [Known(EntryPiece(es[0]))] + EntryItems(es[1..])
  }

  function FieldItems(m: Message, f: nat): seq<Item>
    requires FIRST_FIELD <= f < END_FIELD
  {
    if f == ENTRIES then EntryItems(m.entries)
    else if f == SNAPSHOT then [Known(SnapshotPiece(m.snapshot))]
    else [Known(ScalarPiece(f, Scalar(m, f)))]
  }

  /** The fields of `m` from `f` on, as it is marshalled. */
  function ItemsFrom(m: Message, f: nat): seq<Item>
    requires FIRST_FIELD <= f <= END_FIELD
    decreases END_FIELD - f
  {
    if f == END_FIELD then [] else FieldItems(m, f) + ItemsFrom(m, f + 1)
  }

  /** The declared fields, in order. */
  function Declared(xs: seq<Item>): seq<Item> {
    if xs == [] then [] else (if xs[0].Known? then [xs[0]] else []) + Declared(xs[1..])
  }

  lemma ApplyFirst(m: Message, x: Item, xs: seq<Item>)
    ensures ApplyItems(m, [x] + xs) == ApplyItems(ApplyItem(m, x), xs)
  {
    hide ApplyItem;
    assert ([x] + xs)[1..] == xs;
  }

  lemma {:induction false} ApplyDeclared(m: Message, xs: seq<Item>)
    ensures ApplyItems(m, Declared(xs)) == ApplyItems(m, xs)
    decreases |xs|
  {
    hide ApplyPiece;
    if xs != [] {
      ApplyDeclared(ApplyItem(m, xs[0]), xs[1..]);
      if xs[0].Known? {
        ApplyFirst(m, xs[0], Declared(xs[1..]));
      } else {
        assert Declared(xs) == Declared(xs[1..]);
      }
    }
  }

  lemma {:induction false} ApplyConcat(m: Message, a: seq<Item>, b: seq<Item>)
    ensures ApplyItems(m, a + b) == ApplyItems(ApplyItems(m, a), b)
    decreases |a|
  {
    hide ApplyItem;
    if a == [] {
      assert a + b == b;
    } else {
      assert (a + b)[1..] == a[1..] + b;
      ApplyConcat(ApplyItem(m, a[0]), a[1..], b);
    }
  }

  lemma {:induction false} ApplyEntries(m: Message, es: seq<Entry>)
    ensures ApplyItems(m, EntryItems(es)) == m.(entries := m.entries + es)
    decreases |es|
  {
    hide SetScalar, IsScalar;
    if es == [] {
      assert m.entries + es == m.entries;
    } else {
      ApplyFirst(m, Known(EntryPiece(es[0])), EntryItems(es[1..]));
      ApplyEntries(m.(entries := m.entries + [es[0]]), es[1..]);
      hide ApplyItems;
      assert m.entries + [es[0]] + es[1..] == m.entries + es;
    }
  }

  lemma FieldApplies(m: Message, f: nat)
    requires FIRST_FIELD <= f < END_FIELD
    ensures ApplyItems(PrefixMessage(m, f), FieldItems(m, f)) == PrefixMessage(m, f + 1)
  {
    hide Scalar, SetScalar, EntryItems;
    if f == ENTRIES {
      ApplyEntries(PrefixMessage(m, f), m.entries);
      assert [] + m.entries == m.entries;
    } else {
      var x := FieldItems(m, f)[0];
      assert ApplyItems(PrefixMessage(m, f), [x]) == ApplyItem(PrefixMessage(m, f), x);
      if f != SNAPSHOT { PrefixSetScalar(m, f); }
    }
  }

  lemma {:induction false} ItemsApply(m: Message, f: nat)
    requires FIRST_FIELD <= f <= END_FIELD
    ensures ApplyItems(PrefixMessage(m, f), ItemsFrom(m, f)) == m
    decreases END_FIELD - f
  {
    hide FieldItems, ApplyItem;
    if f == END_FIELD {
      assert PrefixMessage(m, f) == m;
    } else {
      hide PrefixMessage, ApplyItems;
      ApplyConcat(PrefixMessage(m, f), FieldItems(m, f), ItemsFrom(m, f + 1));
      FieldApplies(m, f);
      ItemsApply(m, f + 1);
    }
  }

  /** A message decodes the same with any undeclared fields before, between and after its own. */
  lemma UndeclaredFieldsIgnored(m: Message, xs: seq<Item>)
    requires GoodItems(xs) && |PutItems(xs)| <= MAX_INT && Declared(xs) == ItemsFrom(m, FIRST_FIELD)
    ensures Unmarshalled(PutItems(xs)) == DecodeMessage(PutItems(xs)) == Done(m)
  {
    hide PutItems, ItemsFrom, ApplyItems, Declared;
    ItemsDecode(xs);
    assert PrefixMessage(m, FIRST_FIELD) == EMPTY_MESSAGE;
    ItemsApply(m, FIRST_FIELD);
    ApplyDeclared(EMPTY_MESSAGE, xs);
  }

  // ---- marshalled messages ----

  lemma {:induction false} PutConcat(a: seq<Item>, b: seq<Item>)
    requires GoodItems(a) && GoodItems(b)
    ensures GoodItems(a + b) && PutItems(a + b) == PutItems(a) + PutItems(b)
    decreases |a|
  {
    hide PutItem, GoodItem;
    if a == [] {
      assert a + b == b;
    } else {
      assert (a + b)[1..] == a[1..] + b;
      PutConcat(a[1..], b);
    }
  }

  lemma {:induction false} EntryItemsBytes(es: seq<Entry>)
    requires Encodable(es)
    ensures GoodItems(EntryItems(es)) && PutItems(EntryItems(es)) == PutEntries(ENTRIES, es)
    decreases |es|
  {
    hide Encode, PutRecord;
    if es != [] {
      EntryItemsBytes(es[1..]);
      assert EntryItems(es)[1..] == EntryItems(es[1..]);
    }
  }

  lemma FieldItemsBytes(m: Message, f: nat)
    requires FIRST_FIELD <= f < END_FIELD && Encodable(m.entries)
    ensures GoodItems(FieldItems(m, f)) && PutItems(FieldItems(m, f)) == PutMessageField(m, f)
  {
    hide PutEntries, PutRecord, Uvarint, Scalar, Encode;
    if f == ENTRIES {
      EntryItemsBytes(m.entries);
    } else {
      var x := FieldItems(m, f)[0];
      assert GoodItem(x);
      assert PutItems([x]) == PutItem(x);
    }
  }

  lemma {:induction false} MarshalledItems(m: Message, f: nat)
    requires FIRST_FIELD <= f <= END_FIELD && Encodable(m.entries)
    ensures GoodItems(ItemsFrom(m, f)) && PutItems(ItemsFrom(m, f)) == EncodeMessageFrom(m, f)
    decreases END_FIELD - f
  {
    hide FieldItems, PutMessageField, GoodItem, PutItem;
    if f < END_FIELD {
      FieldItemsBytes(m, f);
      MarshalledItems(m, f + 1);
      PutConcat(FieldItems(m, f), ItemsFrom(m, f + 1));
    }
  }

  lemma {:induction false} AllDeclared(xs: seq<Item>)
    requires forall x | x in xs :: x.Known?
    ensures Declared(xs) == xs
    decreases |xs|
  {
    if xs != [] {
      AllDeclared(xs[1..]);
    }
  }

  lemma {:induction false} ItemsAreDeclared(m: Message, f: nat)
    requires FIRST_FIELD <= f <= END_FIELD
    ensures forall x | x in ItemsFrom(m, f) :: x.Known?
    decreases END_FIELD - f
  {
    if f < END_FIELD {
      ItemsAreDeclared(m, f + 1);
      EntriesAreDeclared(m.entries);
    }
  }

  lemma {:induction false} EntriesAreDeclared(es: seq<Entry>)
    ensures forall x | x in EntryItems(es) :: x.Known?
    decreases |es|
  {
    if es != [] {
      EntriesAreDeclared(es[1..]);
    }
  }

  /** Round trip of a message, entries in order; the call gets past its pre-scan and returns it. */
  lemma MessageRoundTrip(m: Message)
    requires Encodable(m.entries) && |EncodeMessage(m)| <= MAX_INT
    ensures Unmarshalled(EncodeMessage(m)) == DecodeMessage(EncodeMessage(m)) == Done(m)
    ensures CountReturns(EncodeMessage(m), 0) && !ReachesWrap(EncodeMessage(m), 0)
  {
    hide ItemsFrom, PutItems, Declared, CountReturns, ReachesWrap, UnmarshalFrom, DecodeMessageFrom, ApplyItems;
    var xs := ItemsFrom(m, FIRST_FIELD);
    MarshalledItems(m, FIRST_FIELD);
    ItemsAreDeclared(m, FIRST_FIELD);
    AllDeclared(xs);
    UndeclaredFieldsIgnored(m, xs);
    ItemsDecode(xs);
  }

  // ---- entry batches ----

  datatype BatchItem = Member(e: Entry) | Outside(field: FramingSkip.Field)

  predicate GoodBatchItem(x: BatchItem) {
    match x
    case Member(e) => |Encode(e)| < SIZE_MAX
    case Outside(field) => WellFormed(field) && field.number > 1
  }

  function PutBatchItem(x: BatchItem): seq<byte> {
    match x
    case Member(e) => PutRecord(1, Encode(e))
    case Outside(field) => Put(field)
  }

  function PutBatchItems(xs: seq<BatchItem>): seq<byte> {
    if xs == [] then [] else PutBatchItem(xs[0]) + PutBatchItems(xs[1..])
  }

  function EntriesOf(xs: seq<BatchItem>): seq<Entry> {
    if xs == [] then [] else (if xs[0].Member? then [xs[0].e] else []) + EntriesOf(xs[1..])
  }

  lemma MemberReads(data: seq<byte>, p: nat, es: seq<Entry>, e: Entry, ints: Ints)
    requires |Encode(e)| < SIZE_MAX && Holds(data, p, PutRecord(1, Encode(e))) && |data| <= MAX_INT
    ensures BatchFrom(data, p, es, ints) == BatchFrom(data, p + |PutRecord(1, Encode(e))|, es + [e], ints)
  {
    hide PutRecord, ReadTag, ReadSpan, AfterSkip, Decode, Encode;
    FramingRecords.RecordReads(data, p, 1, Encode(e), ints);
    EntryReads(e);
  }

  lemma ForeignReads(data: seq<byte>, p: nat, es: seq<Entry>, x: FramingSkip.Field, ints: Ints)
    requires WellFormed(x) && x.number > 1 && Holds(data, p, Put(x)) && |data| <= MAX_INT
    ensures BatchFrom(data, p, es, ints) == BatchFrom(data, p + |Put(x)|, es, ints)
  {
    hide Put, ReadTag, ReadSpan, AfterSkip, Decode;
    FieldTag(data, p, x);
    FieldContinues(data, p, x, ints);
  }

  /** One item adds its entry, if it is one. */
  lemma BatchItemReads(data: seq<byte>, p: nat, es: seq<Entry>, x: BatchItem, ints: Ints)
    requires GoodBatchItem(x) && Holds(data, p, PutBatchItem(x)) && |data| <= MAX_INT
    ensures BatchFrom(data, p, es, ints) ==
            BatchFrom(data, p + |PutBatchItem(x)|, if x.Member? then es + [x.e] else es, ints)
  {
    hide Put, PutRecord, Encode, WellFormed, BatchFrom;
    match x
    case Member(e) => MemberReads(data, p, es, e, ints);
    case Outside(field) => ForeignReads(data, p, es, field, ints);
  }

  lemma BatchEnds(data: seq<byte>, es: seq<Entry>, ints: Ints)
    ensures BatchFrom(data, |data|, es, ints) == Done(es)
  {
  }

  lemma {:induction false} BatchItemsDecode(
      data: seq<byte>, p: nat, es: seq<Entry>, xs: seq<BatchItem>, ints: Ints)
    requires forall x | x in xs :: GoodBatchItem(x)
    requires Holds(data, p, PutBatchItems(xs)) && p + |PutBatchItems(xs)| == |data| <= MAX_INT
    ensures BatchFrom(data, p, es, ints) == Done(es + EntriesOf(xs))
    decreases |xs|
  {
    hide PutBatchItem, GoodBatchItem, BatchFrom;
    if xs == [] {
      BatchEnds(data, es, ints);
      assert es + [] == es;
    } else {
      HoldsTail(data, p, PutBatchItem(xs[0]), PutBatchItems(xs[1..]));
      BatchItemReads(data, p, es, xs[0], ints);
      var next := if xs[0].Member? then es + [xs[0].e] else es;
      BatchItemsDecode(data, p + |PutBatchItem(xs[0])|, next, xs[1..], ints);
      if xs[0].Member? {
        Regroup(es, xs[0].e, EntriesOf(xs[1..]));
      } else {
        assert EntriesOf(xs) == EntriesOf(xs[1..]);
      }
    }
  }

  lemma Regroup(a: seq<Entry>, e: Entry, b: seq<Entry>)
    ensures a + [e] + b == a + ([e] + b)
  {
  }

  /** An entry batch decodes the same with any undeclared fields before, between and after its entries. */
  lemma UndeclaredFieldsIgnoredInBatch(xs: seq<BatchItem>)
    requires (forall x | x in xs :: GoodBatchItem(x)) && |PutBatchItems(xs)| <= MAX_INT
    ensures UnmarshalledBatch(PutBatchItems(xs)) == DecodeBatch(PutBatchItems(xs)) == Done(EntriesOf(xs))
  {
    hide PutBatchItems, BatchFrom;
    var data := PutBatchItems(xs);
    assert data[0..0 + |data|] == data;
    BatchItemsDecode(data, 0, [], xs, Exact);
    BatchItemsDecode(data, 0, [], xs, Machine);
    assert [] + EntriesOf(xs) == EntriesOf(xs);
  }

  lemma {:induction false} MembersOnly(es: seq<Entry>)
    requires Encodable(es)
    ensures PutBatchItems(Members(es)) == PutEntries(1, es) && EntriesOf(Members(es)) == es
    ensures forall x | x in Members(es) :: GoodBatchItem(x)
    decreases |es|
  {
    hide PutRecord, Encode;
    if es != [] {
      MembersOnly(es[1..]);
    }
  }

  function Members(es: seq<Entry>): seq<BatchItem> { if es == [] then [] else [Member(es[0])] + Members(es[1..]) }

  /** Round trip of an entry batch, in order. */
  lemma BatchRoundTrip(es: seq<Entry>)
    requires Encodable(es) && |EncodeBatch(es)| <= MAX_INT
    ensures UnmarshalledBatch(EncodeBatch(es)) == DecodeBatch(EncodeBatch(es)) == Done(es)
  {
    hide PutBatchItems, PutEntries, BatchFrom;
    MembersOnly(es);
    UndeclaredFieldsIgnoredInBatch(Members(es));
  }
}
