/** The loops that size, write and read entry batches and messages. */
module FramingCodec {
  import opened Bits
  import opened EntryFormat
  import opened EntryCodec
  import opened Framing

  // ---- sizes ----

  /** sovRaft. */
  method Sov(x0: nat) returns (n: nat)
    ensures n == |Uvarint(x0)|
  {
    n := 0;
    var x := x0;
    while true
      invariant n + |Uvarint(x)| == |Uvarint(x0)|
      decreases x
    {
      n := n + 1;
      if x / 0x80 == 0 {
        return;
      }
      x := x / 0x80;
    }
  }

  lemma {:induction false} EntriesConcat(f: nat, a: seq<Entry>, e: Entry)
    requires f < 16
    ensures PutEntries(f, a + [e]) == PutEntries(f, a) + PutRecord(f, Encode(e))
  {
    hide PutRecord, Encode;
    if a == [] {
      assert a + [e] == [e];
      assert PutEntries(f, [e][1..]) == [];
    } else {
      assert (a + [e])[1..] == a[1..] + [e];
      EntriesConcat(f, a[1..], e);
    }
  }

  /** Every entry is within the size the encoder accepts. */
  ghost predicate Sized(es: seq<Entry>) {
    forall e | e in es :: |Encode(e)| <= SIZE_MAX
  }

  /** The size of a run of entries, or the panic of one over the limit. */
  method EntriesSize(f: nat, es: seq<Entry>) returns (r: SizeResult)
    requires f < 16
    ensures r == if Sized(es) then Size(|PutEntries(f, es)|) else Panic
  {
    hide Encode, Uvarint;
    var n := 0;
    for k := 0 to |es|
      invariant n == |PutEntries(f, es[..k])| && Sized(es[..k])
    {
      var l := EntrySize(es[k]);
      if l.Panic? {
        assert es[k] in es;
        return Panic;
      }
      var s := Sov(l.n);
      EntriesConcat(f, es[..k], es[k]);
      assert es[..k] + [es[k]] == es[..k + 1];
      n := n + 1 + l.n + s;
    }
    assert es[..|es|] == es;
    r := Size(n);
  }

  method BatchSize(es: seq<Entry>) returns (r: SizeResult)
    ensures r == if Sized(es) then Size(|EncodeBatch(es)|) else Panic
  {
    r := EntriesSize(1, es);
  }

  lemma MessageLength(m: Message)
    ensures |EncodeMessage(m)| ==
            (1 + |Uvarint(Scalar(m, 1))|) + (1 + |Uvarint(m.to)|) + (1 + |Uvarint(m.from)|) +
            (1 + |Uvarint(m.clusterId)|) + (1 + |Uvarint(m.term)|) + (1 + |Uvarint(m.logTerm)|) +
            (1 + |Uvarint(m.logIndex)|) + (1 + |Uvarint(m.commit)|) + 2 + (1 + |Uvarint(m.hint)|) +
            |PutEntries(ENTRIES, m.entries)| +
            (1 + |m.snapshot| + |Uvarint(|m.snapshot|)|) + (1 + |Uvarint(m.hintHigh)|)
  {
    hide PutEntries;
    assert |EncodeMessageFrom(m, 12)| ==
           (1 + |m.snapshot| + |Uvarint(|m.snapshot|)|) + (1 + |Uvarint(m.hintHigh)|);
    assert |EncodeMessageFrom(m, 10)| ==
           (1 + |Uvarint(m.hint)|) + |PutEntries(ENTRIES, m.entries)| + |EncodeMessageFrom(m, 12)|;
    assert |EncodeMessageFrom(m, 8)| == (1 + |Uvarint(m.commit)|) + 2 + |EncodeMessageFrom(m, 10)|;
    assert |EncodeMessageFrom(m, 6)| ==
           (1 + |Uvarint(m.logTerm)|) + (1 + |Uvarint(m.logIndex)|) + |EncodeMessageFrom(m, 8)|;
    assert |EncodeMessageFrom(m, 4)| ==
           (1 + |Uvarint(m.clusterId)|) + (1 + |Uvarint(m.term)|) + |EncodeMessageFrom(m, 6)|;
    assert |EncodeMessageFrom(m, 2)| ==
           (1 + |Uvarint(m.to)|) + (1 + |Uvarint(m.from)|) + |EncodeMessageFrom(m, 4)|;
  }

  method MessageSize(m: Message) returns (r: SizeResult)
    ensures r == if Sized(m.entries) then Size(|EncodeMessage(m)|) else Panic
  {
    hide EncodeMessage, Uvarint, PutEntries;
    var n := 0;
    var s := Sov(Scalar(m, 1));
    n := n + 1 + s;
    s := Sov(m.to);
    n := n + 1 + s;
    s := Sov(m.from);
    n := n + 1 + s;
    s := Sov(m.clusterId);
    n := n + 1 + s;
    s := Sov(m.term);
    n := n + 1 + s;
    s := Sov(m.logTerm);
    n := n + 1 + s;
    s := Sov(m.logIndex);
    n := n + 1 + s;
    s := Sov(m.commit);
    n := n + 1 + s;
    n := n + 2;
    s := Sov(m.hint);
    n := n + 1 + s;
    var l := EntriesSize(ENTRIES, m.entries);
    if l.Panic? {
      return Panic;
    }
    n := n + l.n;
    s := Sov(|m.snapshot|);
    n := n + 1 + |m.snapshot| + s;
    s := Sov(m.hintHigh);
    n := n + 1 + s;
    MessageLength(m);
    r := Size(n);
  }

  // ---- writing ----

  /** The loop that writes a run of entries as records of field `f`. */
  method AppendEntries(buf: array<byte>, ghost base: seq<byte>, ghost at: nat, ghost done: seq<byte>,
                       i: nat, f: nat, es: seq<Entry>) returns (j: nat)
    requires Wrote(base, buf[..], at, done) && i == at + |done|
    requires f < 16 && Sized(es) && i + |PutEntries(f, es)| <= buf.Length
    modifies buf
    ensures j == i + |PutEntries(f, es)| && Wrote(base, buf[..], at, done + PutEntries(f, es))
  {
    hide Wrote, Encode, PutRecord, PutEntries;
    j := i;
    ghost var run: seq<byte> := [];
    NoEntries(f, es);
    assert done + run == done;
    for k := 0 to |es|
      invariant run == PutEntries(f, es[..k]) && j == i + |run|
      invariant Wrote(base, buf[..], at, done + run)
    {
      assert es[..k] + [es[k]] == es[..k + 1];
      EntriesConcat(f, es[..k], es[k]);
      EntriesPrefix(f, es, k + 1);
      j := AppendEntry(buf, base, at, done + run, j, f, es[k]);
      assert done + run + PutRecord(f, Encode(es[k])) == done + (run + PutRecord(f, Encode(es[k])));
      run := run + PutRecord(f, Encode(es[k]));
    }
    assert es[..|es|] == es;
  }

  lemma NoEntries(f: nat, es: seq<Entry>)
    requires f < 16
    ensures PutEntries(f, es[..0]) == []
  {
  }

  lemma {:induction false} EntriesPrefix(f: nat, es: seq<Entry>, k: nat)
    requires f < 16 && k <= |es|
    ensures |PutEntries(f, es[..k])| <= |PutEntries(f, es)|
    decreases |es| - k
  {
    if k < |es| {
      assert es[..k] + [es[k]] == es[..k + 1];
      EntriesConcat(f, es[..k], es[k]);
      EntriesPrefix(f, es, k + 1);
    } else {
      assert es[..k] == es;
    }
  }

  method AppendEntry(buf: array<byte>, ghost base: seq<byte>, ghost at: nat, ghost done: seq<byte>,
                     i: nat, f: nat, e: Entry) returns (j: nat)
    requires Wrote(base, buf[..], at, done) && i == at + |done|
    requires f < 16 && |Encode(e)| <= SIZE_MAX && i + |PutRecord(f, Encode(e))| <= buf.Length
    modifies buf
    ensures j == i + |PutRecord(f, Encode(e))|
    ensures Wrote(base, buf[..], at, done + PutRecord(f, Encode(e)))
  {
    hide Wrote, Encode, Uvarint;
    var l := EntrySize(e);
    ghost var head := [8 * f + 2] + Uvarint(l.n);
    j := AppendVarint(buf, base, at, done, i, 8 * f + 2, l.n);
    ghost var before := buf[..];
    var n := MarshalTo(buf, j, e);
    WroteTwice(base, before, buf[..], at, done + head, Encode(e));
    assert done + (head + Encode(e)) == done + head + Encode(e);
    j := j + n;
  }

  /** Writes an entry batch; every byte beyond it keeps its value. */
  method MarshalBatch(buf: array<byte>, es: seq<Entry>) returns (n: nat)
    requires Sized(es) && |EncodeBatch(es)| <= buf.Length
    modifies buf
    ensures n == |EncodeBatch(es)| && Wrote(old(buf[..]), buf[..], 0, EncodeBatch(es))
  {
    hide Wrote, PutEntries;
    WroteNothing(buf[..], 0);
    n := AppendEntries(buf, buf[..], 0, [], 0, 1, es);
    assert [] + PutEntries(1, es) == PutEntries(1, es);
  }

  ghost function MessageUpTo(m: Message, f: nat): seq<byte>
    requires FIRST_FIELD <= f <= END_FIELD
  {
    if f == FIRST_FIELD then [] else MessageUpTo(m, f - 1) + PutMessageField(m, f - 1)
  }

  lemma {:induction false} MessageSplits(m: Message, f: nat)
    requires FIRST_FIELD <= f <= END_FIELD
    ensures EncodeMessage(m) == MessageUpTo(m, f) + EncodeMessageFrom(m, f)
  {
    hide PutMessageField;
    if f > FIRST_FIELD {
      MessageSplits(m, f - 1);
      var a, s, b := MessageUpTo(m, f - 1), PutMessageField(m, f - 1), EncodeMessageFrom(m, f);
      assert a + (s + b) == (a + s) + b;
    }
  }

  lemma RoomForField(m: Message, f: nat)
    requires FIRST_FIELD <= f < END_FIELD
    ensures |MessageUpTo(m, f)| + |PutMessageField(m, f)| <= |EncodeMessage(m)|
    ensures MessageUpTo(m, f + 1) == MessageUpTo(m, f) + PutMessageField(m, f)
  {
    hide PutMessageField;
    MessageSplits(m, f + 1);
  }

  method AppendScalar(buf: array<byte>, ghost base: seq<byte>, i: nat, m: Message, f: nat) returns (j: nat)
    requires IsScalar(f) && |EncodeMessage(m)| <= buf.Length
    requires Wrote(base, buf[..], 0, MessageUpTo(m, f)) && i == |MessageUpTo(m, f)|
    modifies buf
    ensures j == |MessageUpTo(m, f + 1)| && Wrote(base, buf[..], 0, MessageUpTo(m, f + 1))
  {
    hide Wrote, MessageUpTo, EncodeMessage, Uvarint, Scalar;
    RoomForField(m, f);
    j := AppendVarint(buf, base, 0, MessageUpTo(m, f), i, 8 * f, Scalar(m, f));
  }

  method AppendSnapshot(buf: array<byte>, ghost base: seq<byte>, i: nat, m: Message) returns (j: nat)
    requires |EncodeMessage(m)| <= buf.Length
    requires Wrote(base, buf[..], 0, MessageUpTo(m, SNAPSHOT)) && i == |MessageUpTo(m, SNAPSHOT)|
    modifies buf
    ensures j == |MessageUpTo(m, 13)| && Wrote(base, buf[..], 0, MessageUpTo(m, 13))
  {
    hide Wrote, MessageUpTo, EncodeMessage, Uvarint;
    RoomForField(m, SNAPSHOT);
    ghost var done, head := MessageUpTo(m, SNAPSHOT), [8 * SNAPSHOT + 2] + Uvarint(|m.snapshot|);
    j := AppendVarint(buf, base, 0, done, i, 8 * SNAPSHOT + 2, |m.snapshot|);
    ghost var before := buf[..];
    CopyBytes(buf, j, m.snapshot);
    WroteTwice(base, before, buf[..], 0, done + head, m.snapshot);
    assert done + head + m.snapshot == done + (head + m.snapshot);
    j := j + |m.snapshot|;
  }

  /** Writes a message; every byte beyond it keeps its value. */
  method MarshalMessage(buf: array<byte>, m: Message) returns (n: nat)
    requires Sized(m.entries) && |EncodeMessage(m)| <= buf.Length
    modifies buf
    ensures n == |EncodeMessage(m)| && Wrote(old(buf[..]), buf[..], 0, EncodeMessage(m))
  {
    hide Wrote, MessageUpTo, EncodeMessage, PutEntries;
    ghost var base := buf[..];
    WroteNothing(base, 0);
    UpToEnds(m);
    var i := 0;
    i := AppendScalar(buf, base, i, m, 1);
    i := AppendScalar(buf, base, i, m, 2);
    i := AppendScalar(buf, base, i, m, 3);
    i := AppendScalar(buf, base, i, m, 4);
    i := AppendScalar(buf, base, i, m, 5);
    i := AppendScalar(buf, base, i, m, 6);
    i := AppendScalar(buf, base, i, m, 7);
    i := AppendScalar(buf, base, i, m, 8);
    i := AppendScalar(buf, base, i, m, 9);
    i := AppendScalar(buf, base, i, m, 10);
    RoomForField(m, ENTRIES);
    i := AppendEntries(buf, base, 0, MessageUpTo(m, ENTRIES), i, ENTRIES, m.entries);
    i := AppendSnapshot(buf, base, i, m);
    i := AppendScalar(buf, base, i, m, 13);
    n := i;
  }

  lemma UpToEnds(m: Message)
    ensures MessageUpTo(m, FIRST_FIELD) == [] && MessageUpTo(m, END_FIELD) == EncodeMessage(m)
  {
    hide PutMessageField;
    MessageSplits(m, END_FIELD);
    assert EncodeMessageFrom(m, END_FIELD) == [];
  }

  // ---- reading ----

  /** The groups still to be read, above the `shift` bits already in `total`. */
  ghost function AboveScan(total: nat, shift: nat, rest: Scan): Scan {
    match rest
    case Scanned(x, next) => Scanned(total + Pow2(shift) * x, next)
    case ScanFailed(_) => rest
  }

  ghost predicate Accumulating(whole: Scan, total: nat, x: nat, shift: nat, rest: Scan) {
    total < Pow2(shift) && x == total % Pow2(64) && whole == AboveScan(total, shift, rest)
  }

  lemma AccumulateNone(rest: Scan)
    ensures Accumulating(rest, 0, 0, 0, rest)
  {
    assert Pow2(0) == 1;
  }

  lemma AccumulateMore(whole: Scan, total: nat, x: nat, shift: nat, group: nat, rest: Scan)
    requires Accumulating(whole, total, x, shift, PrependScan(group, rest)) && group < 0x80
    ensures Accumulating(whole, Extend(total, group, shift), Or(x, Shl(group, shift, 64)), shift + 7, rest)
  {
    Pow2Values();
    OrTruncates(total, x, group, 7, shift, 64);
    if rest.Scanned? {
      Pow2Add(shift, 7);
      Distribute(Pow2(shift), group, rest.x);
    }
  }

  lemma AccumulateLast(whole: Scan, total: nat, x: nat, shift: nat, y: nat, next: nat)
    requires Accumulating(whole, total, x, shift, Scanned(y, next)) && y < 0x80
    ensures whole.Scanned? && whole.next == next && Or(x, Shl(y, shift, 64)) == whole.x % TWO_64
  {
    Pow2Values();
    OrTruncates(total, x, y, 7, shift, 64);
  }

  lemma AccumulateFailed(whole: Scan, total: nat, x: nat, shift: nat, e: FrameError)
    requires Accumulating(whole, total, x, shift, ScanFailed(e))
    ensures whole == ScanFailed(e)
  {
  }

  /** The varint loop of the generated decoders. */
  method ScanGroups(data: seq<byte>, start: nat) returns (r: Scan)
    requires start <= |data|
    ensures r == match ReadGroups(data, start, 0)
                 case ScanFailed(e) => ScanFailed(e)
                 case Scanned(v, next) => Scanned(v % TWO_64, next)
  {
    hide Or, Shl, Pow2, Accumulating, PrependScan, Extend;
    var x, i, shift: nat := 0, start, 0;
    ghost var k: nat, total: nat := 0, 0;
    ghost var whole := ReadGroups(data, start, 0);
    AccumulateNone(whole);
    while true
      invariant i <= |data| && shift == 7 * k
      invariant Accumulating(whole, total, x, shift, ReadGroups(data, i, k))
      decreases |data| - i
    {
      if shift >= 64 {
        AccumulateFailed(whole, total, x, shift, IntOverflow);
        return ScanFailed(IntOverflow);
      }
      if i >= |data| {
        AccumulateFailed(whole, total, x, shift, UnexpectedEof);
        return ScanFailed(UnexpectedEof);
      }
      var b := data[i];
      i := i + 1;
      if b < 0x80 {
        AccumulateLast(whole, total, x, shift, b, i);
        return Scanned(Or(x, Shl(b, shift, 64)), i);
      }
      AccumulateMore(whole, total, x, shift, b % 0x80, ReadGroups(data, i, k + 1));
      x := Or(x, Shl(b % 0x80, shift, 64));
      total := Extend(total, b % 0x80, shift);
      shift, k := shift + 7, k + 1;
    }
  }

  method ScanTag(data: seq<byte>, i: nat) returns (r: Tag)
    requires i <= |data|
    ensures r == ReadTag(data, i)
  {
    hide ReadGroups;
    var s := ScanGroups(data, i);
    match s
    case ScanFailed(e) => return NoTag(e);
    case Scanned(wire, next) =>
      var field := AsInt32((wire / 8) % TWO_32);
      if wire % 8 == 4 {
        return NoTag(EndGroup);
      }
      if field <= 0 {
        return NoTag(IllegalTag);
      }
      return Tag(field, wire % 8, next);
  }

  method ScanSpan(data: seq<byte>, i: nat) returns (r: Span)
    requires i <= |data|
    ensures r == ReadSpan(data, i, Machine)
  {
    hide ReadGroups;
    var s := ScanGroups(data, i);
    match s
    case ScanFailed(e) => return NoSpan(e);
    case Scanned(len, next) =>
      if len > MAX_INT {
        return NoSpan(InvalidLength);
      }
      if next + len > MAX_INT {
        return NoSpan(LengthPanic);
      }
      if next + len > |data| {
        return NoSpan(UnexpectedEof);
      }
      return Span(next, next + len);
  }

  /** The varint loop of skipRaft, which keeps no value. */
  method SkipVarint(data: seq<byte>, start: nat) returns (r: Skipping)
    requires start <= |data|
    ensures r == match ReadGroups(data, start, 0)
                 case ScanFailed(e) => NoSkip(e)
                 case Scanned(_, next) => SkipTo(next)
  {
    var i, shift := start, 0;
    ghost var k: nat := 0;
    while true
      invariant i <= |data| && shift == 7 * k
      invariant match ReadGroups(data, i, k)
                case ScanFailed(e) => ReadGroups(data, start, 0) == ScanFailed(e)
                case Scanned(_, next) =>
                  ReadGroups(data, start, 0).Scanned? && ReadGroups(data, start, 0).next == next
      decreases |data| - i
    {
      if shift >= 64 {
        return NoSkip(IntOverflow);
      }
      if i >= |data| {
        return NoSkip(UnexpectedEof);
      }
      i := i + 1;
      if data[i - 1] < 0x80 {
        return SkipTo(i);
      }
      shift, k := shift + 7, k + 1;
    }
  }

  /** skipRaft on the input from `i` on. */
  method SkipRaft(data: seq<byte>, i: nat) returns (r: Skipping)
    requires i < |data|
    ensures r == Skip(data, i, Machine)
    decreases |data| - i, 0
  {
    hide ReadGroups, SkipGroup;
    var s := ScanGroups(data, i);
    if s.ScanFailed? {
      return NoSkip(s.error);
    }
    assert s.x % 8 == ReadGroups(data, i, 0).x % 8;
    match s.x % 8
    case 0 => r := SkipVarint(data, s.next);
    case 1 => r := SkipTo(s.next + 8);
    case 2 =>
      var len := ScanGroups(data, s.next);
      if len.ScanFailed? {
        return NoSkip(len.error);
      }
      r := if len.x > MAX_INT then NoSkip(InvalidLength) else SkipTo(len.next + len.x);
    case 3 => r := SkipGroupFields(data, i, s.next);
    case 4 => r := SkipTo(s.next);
    case 5 => r := SkipTo(s.next + 4);
    case _ => r := NoSkip(IllegalWireType);
  }

  /** The fields of the group that began at `i`, from `start` on. */
  method SkipGroupFields(data: seq<byte>, i: nat, start: nat) returns (r: Skipping)
    requires i < start <= |data|
    ensures r == SkipGroup(data, i, start, Machine)
    decreases |data| - start, 1
  {
    hide ReadGroups, Skip;
    var j := start;
    while true
      invariant start <= j <= |data| && SkipGroup(data, i, j, Machine) == SkipGroup(data, i, start, Machine)
      decreases |data| - j
    {
      var inner := ScanGroups(data, j);
      if inner.ScanFailed? {
        return NoSkip(inner.error);
      }
      assert inner.x % 8 == ReadGroups(data, j, 0).x % 8;
      if inner.x % 8 == 4 {
        return SkipTo(inner.next);
      }
      var one := SkipRaft(data, j);
      if one.NoSkip? {
        return one;
      }
      if one.end - i > MAX_INT {
        return NoSkip(LengthPanic);
      }
      if one.end > |data| {
        return NoSkip(UnexpectedEof);
      }
      j := one.end;
    }
  }

  /** The default case of both decoders. */
  method StepOver(data: seq<byte>, i: nat) returns (r: Next)
    requires i < |data|
    ensures r == AfterSkip(data, i, Machine)
  {
    hide Skip;
    var s := SkipRaft(data, i);
    if s.NoSkip? {
      return Stop(s.error);
    }
    if s.end - i > MAX_INT {
      return Stop(InvalidLength);
    }
    if s.end > MAX_INT {
      return Stop(LengthPanic);
    }
    if s.end > |data| {
      return Stop(UnexpectedEof);
    }
    return Continue(s.end);
  }

  /** One field of an entry batch. */
  method ScanBatchField(data: seq<byte>, i: nat) returns (r: BatchField)
    requires i < |data|
    ensures r == ReadBatchField(data, i, Machine)
  {
    hide ReadTag, ReadSpan, AfterSkip;
    var tag := ScanTag(data, i);
    if tag.NoTag? {
      return BadMember(tag.error);
    }
    if tag.field == 1 {
      if tag.wire != 2 {
        return BadMember(WrongWireType);
      }
      var span := ScanSpan(data, tag.next);
      return if span.NoSpan? then BadMember(span.error) else MemberField(span.start, span.end);
    }
    var next := StepOver(data, i);
    return if next.Stop? then BadMember(next.error) else Foreign(next.at);
  }

  method UnmarshalBatch(data: seq<byte>) returns (r: Result<seq<Entry>>)
    ensures r == UnmarshalledBatch(data)
  {
    hide ReadBatchField, Decode;
    var i := 0;
    var es: seq<Entry> := [];
    while i < |data|
      invariant i <= |data| && BatchFrom(data, i, es, Machine) == UnmarshalledBatch(data)
    {
      var field := ScanBatchField(data, i);
      match field {
        case BadMember(e) => return Failed(e);
        case MemberField(start, end) =>
          var e := Unmarshal(data[start..end], EMPTY_ENTRY);
          if !e.Ok? {
            return Failed(BadEntry(e));
          }
          es := es + [e.e];
        case Foreign(_) =>
      }
      i := field.end;
    }
    r := Done(es);
  }

  /** One field of a message. */
  method ScanField(data: seq<byte>, i: nat) returns (r: MessageField)
    requires i < |data|
    ensures r == ReadField(data, i, Machine)
  {
    hide ReadTag, ReadSpan, ReadGroups, AfterSkip;
    var tag := ScanTag(data, i);
    if tag.NoTag? {
      return BadField(tag.error);
    }
    if tag.field == ENTRIES || tag.field == SNAPSHOT {
      if tag.wire != 2 {
        return BadField(WrongWireType);
      }
      var span := ScanSpan(data, tag.next);
      if span.NoSpan? {
        return BadField(span.error);
      }
      return if tag.field == ENTRIES then EntryField(span.start, span.end) else SnapshotField(span.start, span.end);
    }
    if IsScalar(tag.field) {
      if tag.wire != 0 {
        return BadField(WrongWireType);
      }
      var s := ScanGroups(data, tag.next);
      if s.ScanFailed? {
        return BadField(s.error);
      }
      return ScalarField(tag.field, s.x, s.next);
    }
    var next := StepOver(data, i);
    return if next.Stop? then BadField(next.error) else Undeclared(next.at);
  }

  method UnmarshalMessage(data: seq<byte>) returns (r: Result<Message>)
    ensures r == Unmarshalled(data)
  {
    hide ReadField, Decode, SetScalar, CountRun;
    var i := 0;
    var m := EMPTY_MESSAGE;
    var sized := false;
    while i < |data|
      invariant i <= |data| && UnmarshalFrom(data, i, m, sized) == Unmarshalled(data)
    {
      var field := ScanField(data, i);
      match field {
        case BadField(e) => return Failed(e);
        case EntryField(start, end) =>
          if !sized {
            var count := CountRecords(data[end..], ENTRIES);
            if !count.Count? {
              return Failed(if count.OutOfRange? then CountPanic else CountEndless);
            }
            sized := true;
          }
          var e := Unmarshal(data[start..end], EMPTY_ENTRY);
          if !e.Ok? {
            return Failed(BadEntry(e));
          }
          m := m.(entries := m.entries + [e.e]);
        case SnapshotField(start, end) => m := m.(snapshot := data[start..end]);
        case ScalarField(f, x, _) => m := SetScalar(m, f, x);
        case Undeclared(_) =>
      }
      i := field.end;
    }
    r := Done(m);
  }

  /** The pre-scan `entryCount`, and `messageCount` of a batch for field 1. The model stops it when it
      has made as many jumps as there are positions; the source then goes on for ever. */
  method CountRecords(data: seq<byte>, f: nat) returns (r: Count)
    ensures r == CountRun(data, f)
  {
    hide ReadLength;
    Pow2Values();
    var i: int, n: nat := 0, 0;
    while i < |data|
      invariant n <= |data|
      invariant CountRun(data, f) == Added(n, CountFrom(data, i, f, |data| - n))
      decreases |data| - n
    {
      if i < 0 {
        return OutOfRange;
      }
      var w, j, eof := ScanLength(data, i);
      if eof {
        return OutOfRange;
      }
      if AsInt32((w / 8) % TWO_32) != f {
        break;
      }
      var len, k, eof' := ScanLength(data, j);
      if eof' {
        return OutOfRange;
      }
      if n == |data| {
        return Endless;
      }
      n := n + 1;
      i := k + AsInt64(len);
      if i > MAX_INT {
        i := i - TWO_64;
      }
    }
    r := Count(n);
  }

  function Added(n: nat, c: Count): Count { if c.Count? then Count(n + c.n) else c }
}
