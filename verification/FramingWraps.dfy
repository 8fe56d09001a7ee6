/** Where a machine int changes what the decoders do: a length that takes an end past the largest int. */
module FramingWraps {
  import opened Bits
  import opened EntryFormat
  import opened Framing

  /** The record whose length is at `j` ends past the largest int. */
  predicate SpanWraps(data: seq<byte>, j: nat)
    requires j <= |data|
  {
    var s := ReadGroups(data, j, 0);
    s.Scanned? && s.x % TWO_64 <= MAX_INT < s.next + s.x % TWO_64
  }

  /** Skipping the field at `i` meets, inside a group, a field that ends past the largest int counted
      from where the group begins. */
  predicate SkipWraps(data: seq<byte>, i: nat)
    requires i < |data|
    decreases |data| - i, 0
  {
    var s := ReadGroups(data, i, 0);
    s.Scanned? && s.x % 8 == 3 && GroupWraps(data, i, s.next)
  }

  predicate GroupWraps(data: seq<byte>, base: nat, j: nat)
    requires base < j <= |data|
    decreases |data| - j, 1
  {
    var s := ReadGroups(data, j, 0);
    s.Scanned? && s.x % 8 != 4 &&
    (SkipWraps(data, j) ||
     var skip := Skip(data, j, Exact);
     skip.SkipTo? && (skip.end - base > MAX_INT || (skip.end <= |data| && GroupWraps(data, base, skip.end))))
  }

  /** The undeclared field at `i`, or a field of a group inside it, ends past the largest int. */
  predicate UndeclaredWraps(data: seq<byte>, i: nat)
    requires i < |data|
  {
    SkipWraps(data, i) || var skip := Skip(data, i, Exact); skip.SkipTo? && skip.end > MAX_INT
  }

  lemma {:induction false} SkipMachine(data: seq<byte>, i: nat)
    requires i < |data| <= MAX_INT
    ensures Skip(data, i, Machine) == if SkipWraps(data, i) then NoSkip(LengthPanic) else Skip(data, i, Exact)
    ensures SkipWraps(data, i) ==> Skip(data, i, Exact) == NoSkip(UnexpectedEof)
    decreases |data| - i, 0
  {
    hide ReadGroups;
    var s := ReadGroups(data, i, 0);
    if s.Scanned? && s.x % 8 == 3 {
      GroupMachine(data, i, s.next);
    }
  }

  lemma {:induction false} GroupMachine(data: seq<byte>, base: nat, j: nat)
    requires base < j <= |data| <= MAX_INT
    ensures SkipGroup(data, base, j, Machine) ==
            if GroupWraps(data, base, j) then NoSkip(LengthPanic) else SkipGroup(data, base, j, Exact)
    ensures GroupWraps(data, base, j) ==> SkipGroup(data, base, j, Exact) == NoSkip(UnexpectedEof)
    decreases |data| - j, 1
  {
    hide ReadGroups, Skip, SkipWraps;
    var s := ReadGroups(data, j, 0);
    if s.Scanned? && s.x % 8 != 4 {
      SkipMachine(data, j);
      var skip := Skip(data, j, Exact);
      if skip.SkipTo? && skip.end <= |data| {
        GroupMachine(data, base, skip.end);
      }
    }
  }

  /** Past the largest int the machine panics or reports a bad length where the input has run out. */
  lemma AfterSkipMachine(data: seq<byte>, i: nat)
    requires i < |data| <= MAX_INT
    ensures !UndeclaredWraps(data, i) ==> AfterSkip(data, i, Machine) == AfterSkip(data, i, Exact)
    ensures UndeclaredWraps(data, i) ==>
              && AfterSkip(data, i, Machine) in {Stop(LengthPanic), Stop(InvalidLength)}
              && AfterSkip(data, i, Exact) == Stop(UnexpectedEof)
  {
    hide Skip, SkipWraps;
    SkipMachine(data, i);
  }

  lemma SpanMachine(data: seq<byte>, j: nat)
    requires j <= |data| <= MAX_INT
    ensures !SpanWraps(data, j) ==> ReadSpan(data, j, Machine) == ReadSpan(data, j, Exact)
    ensures SpanWraps(data, j) ==>
              ReadSpan(data, j, Machine) == NoSpan(LengthPanic) && ReadSpan(data, j, Exact) == NoSpan(UnexpectedEof)
  {
    hide ReadGroups;
  }

  // ---- one field ----

  /** The field of a message at `i` ends past the largest int, or one inside it does. */
  predicate Wraps(data: seq<byte>, i: nat)
    requires i < |data|
  {
    match ReadTag(data, i)
    case NoTag(_) => false
    case Tag(field, wire, j) =>
      if field == ENTRIES || field == SNAPSHOT then wire == 2 && SpanWraps(data, j)
      else !IsScalar(field) && UndeclaredWraps(data, i)
  }

  predicate MemberWraps(data: seq<byte>, i: nat)
    requires i < |data|
  {
    match ReadTag(data, i)
    case NoTag(_) => false
    case Tag(field, wire, j) => if field == 1 then wire == 2 && SpanWraps(data, j) else UndeclaredWraps(data, i)
  }

  lemma FieldMachine(data: seq<byte>, i: nat)
    requires i < |data| <= MAX_INT
    ensures !Wraps(data, i) ==> ReadField(data, i, Machine) == ReadField(data, i, Exact)
    ensures Wraps(data, i) ==>
              && ReadField(data, i, Machine) in {BadField(LengthPanic), BadField(InvalidLength)}
              && ReadField(data, i, Exact) == BadField(UnexpectedEof)
  {
    hide ReadTag, ReadSpan, ReadGroups, AfterSkip, SpanWraps, UndeclaredWraps;
    AfterSkipMachine(data, i);
    var tag := ReadTag(data, i);
    if tag.Tag? {
      SpanMachine(data, tag.next);
    }
  }

  lemma MemberMachine(data: seq<byte>, i: nat)
    requires i < |data| <= MAX_INT
    ensures !MemberWraps(data, i) ==> ReadBatchField(data, i, Machine) == ReadBatchField(data, i, Exact)
    ensures MemberWraps(data, i) ==>
              && ReadBatchField(data, i, Machine) in {BadMember(LengthPanic), BadMember(InvalidLength)}
              && ReadBatchField(data, i, Exact) == BadMember(UnexpectedEof)
  {
    hide ReadTag, ReadSpan, AfterSkip, SpanWraps, UndeclaredWraps;
    AfterSkipMachine(data, i);
    var tag := ReadTag(data, i);
    if tag.Tag? {
      SpanMachine(data, tag.next);
    }
  }

  // ---- whole inputs ----

  /** The decoder of a message reaches such a field: every field before it is good. */
  predicate ReachesWrap(data: seq<byte>, i: nat)
    requires i <= |data|
    decreases |data| - i
  {
    i < |data| &&
    match ReadField(data, i, Exact)
    case BadField(_) => Wraps(data, i)
    case EntryField(start, end) => Decode(data[start..end], EMPTY_ENTRY).Ok? && ReachesWrap(data, end)
    case SnapshotField(_, end) => ReachesWrap(data, end)
    case ScalarField(_, _, end) => ReachesWrap(data, end)
    case Undeclared(end) => ReachesWrap(data, end)
  }

  /** So does the decoder of an entry batch. */
  predicate BatchReachesWrap(data: seq<byte>, i: nat)
    requires i <= |data|
    decreases |data| - i
  {
    i < |data| &&
    match ReadBatchField(data, i, Exact)
    case BadMember(_) => MemberWraps(data, i)
    case MemberField(start, end) => Decode(data[start..end], EMPTY_ENTRY).Ok? && BatchReachesWrap(data, end)
    case Foreign(end) => BatchReachesWrap(data, end)
  }

  lemma {:induction false} BatchOutcome(data: seq<byte>, i: nat, es: seq<Entry>)
    requires i <= |data| <= MAX_INT
    ensures !BatchReachesWrap(data, i) ==> BatchFrom(data, i, es, Machine) == BatchFrom(data, i, es, Exact)
    ensures BatchReachesWrap(data, i) ==>
              && BatchFrom(data, i, es, Machine) in {Failed(LengthPanic), Failed(InvalidLength)}
              && BatchFrom(data, i, es, Exact) == Failed(UnexpectedEof)
    decreases |data| - i
  {
    hide ReadBatchField, MemberWraps, Decode;
    if i < |data| {
      MemberMachine(data, i);
      match ReadBatchField(data, i, Exact)
      case BadMember(_) =>
      case MemberField(start, end) =>
        var d := Decode(data[start..end], EMPTY_ENTRY);
        if d.Ok? { BatchOutcome(data, end, es + [d.e]); }
      case Foreign(end) => BatchOutcome(data, end, es);
    }
  }

  /**
    * On every byte string the decoder of an entry batch gives what the format prescribes if and only if
    * it reaches no record, skipped field or group whose end passes the largest int.
    */
  lemma BatchReturnsExactly(data: seq<byte>)
    requires |data| <= MAX_INT
    ensures UnmarshalledBatch(data) == DecodeBatch(data) <==> !BatchReachesWrap(data, 0)
  {
    hide BatchFrom, BatchReachesWrap;
    BatchOutcome(data, 0, []);
  }

  // ---- such inputs ----

  /** A tag, then the largest int as a length. */
  function LongRecord(tag: byte): seq<byte> { [tag, 0xff, 0xff, 0xff, 0xff, 0xff, 0xff, 0xff, 0xff, 0x7f] }

  lemma LongLength(tag: byte)
    requires tag < 0x80
    ensures ReadGroups(LongRecord(tag), 0, 0) == Scanned(tag, 1)
    ensures ReadGroups(LongRecord(tag), 1, 0) == Scanned(MAX_INT, 10)
  {
    var d := LongRecord(tag);
    assert ReadGroups(d, 9, 8) == Scanned(0x7f, 10);
    assert ReadGroups(d, 7, 6) == Scanned(0x1f_ffff, 10);
    assert ReadGroups(d, 5, 4) == Scanned(0x7_ffff_ffff, 10);
    assert ReadGroups(d, 3, 2) == Scanned(0x1_ffff_ffff_ffff, 10);
  }

  /** An entry record of the largest length: the decoder of an entry batch panics on it. */
  lemma BatchPanics()
    ensures UnmarshalledBatch(LongRecord(0x0a)) == Failed(LengthPanic)
    ensures DecodeBatch(LongRecord(0x0a)) == Failed(UnexpectedEof)
  {
    LongLength(0x0a);
    assert ReadTag(LongRecord(0x0a), 0) == Tag(1, 2, 1);
  }

  /** So does the decoder of a message. */
  lemma MessagePanics()
    ensures Unmarshalled(LongRecord(0x5a)) == Failed(LengthPanic)
    ensures DecodeMessage(LongRecord(0x5a)) == Failed(UnexpectedEof)
  {
    LongLength(0x5a);
    assert ReadTag(LongRecord(0x5a), 0) == Tag(ENTRIES, 2, 1);
    assert ReadField(LongRecord(0x5a), 0, Machine) == BadField(LengthPanic);
  }

  /** An undeclared field of that length at the start is reported as a negative length instead. */
  lemma MessageMisreports()
    ensures Unmarshalled(LongRecord(0x72)) == Failed(InvalidLength)
    ensures DecodeMessage(LongRecord(0x72)) == Failed(UnexpectedEof)
  {
    LongLength(0x72);
    assert ReadTag(LongRecord(0x72), 0) == Tag(14, 2, 1);
    assert Skip(LongRecord(0x72), 0, Machine) == SkipTo(10 + MAX_INT) == Skip(LongRecord(0x72), 0, Exact);
    assert ReadField(LongRecord(0x72), 0, Machine) == BadField(InvalidLength);
  }
}
