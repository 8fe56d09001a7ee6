/** The bytes themselves: the weight of each byte of an integer, and the header or tag of each field by
    name. */
module WireBytes {
  import opened Bits
  import opened EntryFormat
  import opened Framing
  import opened FramingRecords

  // ---- the fixed form ----

  lemma DivDiv(x: nat, a: nat, b: nat)
    requires a > 0 && b > 0
    ensures a * b > 0 && x / a / b == x / (a * b)
  {
    var q, r := x / a, x % a;
    var q', r' := q / b, q % b;
    assert x == a * (b * q' + r') + r;
    assert a * (b * q' + r') == (a * b) * q' + a * r';
    assert a * r' + r < a * b by { MulStep(a, r', b); }
    QuotientUnique(a * b, q', a * r' + r, x / (a * b), x % (a * b));
  }

  lemma MulStep(a: nat, r: nat, b: nat)
    requires r < b
    ensures a * r + a <= a * b
  {
    MulGap(a, r, b);
  }

  /** Byte `i` of the fixed form has weight `2^(8 * (n - 1 - i))`: most significant first. */
  lemma {:induction false} FixedByte(x: nat, n: nat, i: nat)
    requires i < n
    ensures BigEndian(x, n)[i] == x / Pow2(8 * (n - 1 - i)) % 0x100
  {
    Pow2Values();
    if i < n - 1 {
      FixedByte(x / 0x100, n - 1, i);
      Pow2Add(8, 8 * (n - 2 - i));
      DivDiv(x, 0x100, Pow2(8 * (n - 2 - i)));
    }
  }

  /** The sum of the bytes of `s` from `i` on, each times its weight. */
  function FixedSum(s: seq<byte>, i: nat): nat
    requires i <= |s|
    decreases |s| - i
  {
    if i == |s| then 0 else s[i] * Pow2(8 * (|s| - 1 - i)) + FixedSum(s, i + 1)
  }

  lemma {:induction false} FixedSumLast(s: seq<byte>, i: nat)
    requires i < |s|
    ensures FixedSum(s, i) == FixedSum(s[..|s| - 1], i) * 0x100 + s[|s| - 1]
    decreases |s| - i
  {
    var init := s[..|s| - 1];
    if i < |s| - 1 {
      FixedSumLast(s, i + 1);
      Pow2Values();
      Pow2Add(8 * (|s| - 2 - i), 8);
      Distribute(s[i], Pow2(8 * (|s| - 2 - i)), FixedSum(init, i + 1));
    } else {
      assert FixedSum(s, i + 1) == 0 && FixedSum(init, i) == 0 && Pow2(0) == 1;
    }
  }

  lemma Distribute(a: nat, p: nat, rest: nat)
    ensures (a * p + rest) * 0x100 == a * (p * 0x100) + rest * 0x100
  {
  }

  lemma {:induction false} FixedValue(s: seq<byte>)
    ensures FromBigEndian(s) == FixedSum(s, 0)
    decreases |s|
  {
    if s != [] {
      FixedValue(s[..|s| - 1]);
      FixedSumLast(s, 0);
    }
  }

  // ---- varints ----

  /** The first `n` bytes at `i` as 7-bit groups, least significant first. */
  function GroupSum(data: seq<byte>, i: nat, n: nat): nat
    requires i + n <= |data|
  {
    if n == 0 then 0 else GroupSum(data, i, n - 1) + data[i + n - 1] % 0x80 * Pow2(7 * (n - 1))
  }

  lemma {:induction false} GroupSumFirst(data: seq<byte>, i: nat, n: nat)
    requires 0 < n && i + n <= |data|
    ensures GroupSum(data, i, n) == data[i] % 0x80 + 0x80 * GroupSum(data, i + 1, n - 1)
    decreases n
  {
    Pow2Values();
    if n == 1 {
      assert GroupSum(data, i, 0) == 0 && GroupSum(data, i + 1, 0) == 0 && Pow2(0) == 1;
    } else {
      GroupSumFirst(data, i, n - 1);
      var b, p := data[i + n - 1] % 0x80, Pow2(7 * (n - 2));
      assert Pow2(7 * (n - 1)) == 0x80 * p by { Pow2Add(7, 7 * (n - 2)); }
      GroupSumLast(data, i + 1, n - 1);
      GroupSumLast(data, i, n);
      hide GroupSum, Pow2;
      Distribute7(GroupSum(data, i + 1, n - 2), b, p);
    }
  }

  lemma GroupSumLast(data: seq<byte>, i: nat, n: nat)
    requires 0 < n && i + n <= |data|
    ensures GroupSum(data, i, n) == GroupSum(data, i, n - 1) + data[i + n - 1] % 0x80 * Pow2(7 * (n - 1))
  {
  }

  lemma Distribute7(g: nat, b: nat, p: nat)
    ensures 0x80 * (g + b * p) == 0x80 * g + b * (0x80 * p)
  {
  }

  /** Bytes at `i` that continue `n - 1` times and then end. */
  ghost predicate EndsAfter(data: seq<byte>, i: nat, n: nat) {
    && 0 < n && i + n <= |data| && data[i + n - 1] < 0x80
    && forall j | i <= j < i + n - 1 :: data[j] >= 0x80
  }

  /** A varint written is its value's 7-bit groups, least significant first, all but the last marked. */
  lemma {:induction false} UvarintBytes(x: nat)
    ensures EndsAfter(Uvarint(x), 0, |Uvarint(x)|) && GroupSum(Uvarint(x), 0, |Uvarint(x)|) == x
  {
    var s := Uvarint(x);
    if x < 0x80 {
      assert GroupSum(s, 0, 0) == 0 && Pow2(0) == 1;
    } else {
      UvarintBytes(x / 0x80);
      var rest := Uvarint(x / 0x80);
      assert s == [s[0]] + rest;
      assert s[0] % 0x80 == x % 0x80;
      GroupSumFirst(s, 0, |s|);
      GroupSumShift(s, rest, |rest|);
    }
  }

  lemma {:induction false} GroupSumShift(s: seq<byte>, rest: seq<byte>, n: nat)
    requires n <= |rest| && |s| == 1 + |rest| && s[1..] == rest
    ensures GroupSum(s, 1, n) == GroupSum(rest, 0, n)
  {
    if n > 0 {
      GroupSumShift(s, rest, n - 1);
      assert s[n] == s[1..][n - 1];
    }
  }

  /** A varint of a record is what ends within ten bytes; one that goes on is refused, one cut short is
      the end of the input. */
  lemma {:induction false} GroupsExact(data: seq<byte>, i: nat, k: nat)
    requires i <= |data| && k <= 10
    ensures forall n: nat | EndsAfter(data, i, n) && k + n <= 10 :: ReadGroups(data, i, k) == Scanned(GroupSum(data, i, n), i + n)
    ensures (forall n: nat | EndsAfter(data, i, n) :: k + n > 10) ==>
              ReadGroups(data, i, k) == ScanFailed(if i + (10 - k) <= |data| then IntOverflow else UnexpectedEof)
    decreases |data| - i
  {
    if i < |data| && k < 10 {
      if data[i] < 0x80 {
        assert EndsAfter(data, i, 1) && GroupSum(data, i, 0) == 0 && Pow2(0) == 1;
      } else {
        GroupsExact(data, i + 1, k + 1);
        forall n: nat {:trigger EndsAfter(data, i + 1, n)} | EndsAfter(data, i + 1, n)
          ensures EndsAfter(data, i, n + 1)
        {
        }
        forall n: nat | EndsAfter(data, i, n) && k + n <= 10
          ensures ReadGroups(data, i, k) == Scanned(GroupSum(data, i, n), i + n)
        {
          assert EndsAfter(data, i + 1, n - 1);
          GroupSumFirst(data, i, n);
        }
      }
    }
  }

  /** Where the varint of an integer field ends: at an unmarked byte or, capped, at its ninth. */
  ghost predicate FieldEndsAfter(data: seq<byte>, i: nat, k: nat, n: nat, capped: bool) {
    && 0 < n && i + n < |data| && (data[i + n - 1] < 0x80 || (capped && k + n == 9))
    && (forall j | i <= j < i + n - 1 :: data[j] >= 0x80) && (capped && k <= 8 ==> k + n <= 9)
  }

  /** Its groups, the last of which is taken whole. */
  function FieldSum(data: seq<byte>, i: nat, n: nat): nat
    requires 0 < n && i + n <= |data|
  {
    GroupSum(data, i, n - 1) + data[i + n - 1] * Pow2(7 * (n - 1))
  }

  lemma {:induction false} FieldSumFirst(data: seq<byte>, i: nat, n: nat)
    requires 1 < n && i + n <= |data|
    ensures FieldSum(data, i, n) == data[i] % 0x80 + 0x80 * FieldSum(data, i + 1, n - 1)
  {
    Pow2Values();
    GroupSumFirst(data, i, n - 1);
    Pow2Add(7, 7 * (n - 2));
    Distribute7(GroupSum(data, i + 1, n - 2), data[i + n - 1], Pow2(7 * (n - 2)));
  }

  /** What an integer field of an entry reads as a varint: its groups up to where it ends, with a byte
      after it, or the end of the input. */
  lemma {:induction false} FieldExact(data: seq<byte>, i: nat, k: nat, capped: bool)
    requires i <= |data| && k <= 8
    ensures forall n: nat | FieldEndsAfter(data, i, k, n, capped) ::
              ReadVarint(data, i, k, capped) == Value(FieldSum(data, i, n), i + n)
    ensures (forall n: nat :: !FieldEndsAfter(data, i, k, n, capped)) ==>
              ReadVarint(data, i, k, capped) == Short(if i < |data| then |data| else i + 1)
    decreases |data| - i
  {
    if i + 1 < |data| {
      if data[i] < 0x80 || (capped && k == 8) {
        assert FieldEndsAfter(data, i, k, 1, capped) && GroupSum(data, i, 0) == 0 && Pow2(0) == 1;
      } else if capped || k < 8 {
        FieldExact(data, i + 1, k + 1, capped);
        FieldExactStep(data, i, k, k + 1, capped);
      } else {
        FieldExact(data, i + 1, k, capped);
        UncappedAnyGroup(data, i + 1, k, k + 1);
        FieldExactStep(data, i, k, k, capped);
      }
    }
  }

  lemma FieldExactStep(data: seq<byte>, i: nat, k: nat, k': nat, capped: bool)
    requires i + 1 < |data| && data[i] >= 0x80 && k <= 8 && k' <= 8 && (capped ==> k' == k + 1)
    ensures forall n: nat {:trigger FieldEndsAfter(data, i + 1, k', n, capped)} |
              FieldEndsAfter(data, i + 1, k', n, capped) :: FieldEndsAfter(data, i, k, n + 1, capped)
    ensures forall n: nat | FieldEndsAfter(data, i, k, n, capped) ::
              n > 1 && FieldEndsAfter(data, i + 1, k', n - 1, capped) &&
              FieldSum(data, i, n) == data[i] % 0x80 + 0x80 * FieldSum(data, i + 1, n - 1)
  {
    forall n: nat | FieldEndsAfter(data, i, k, n, capped)
      ensures n > 1 && FieldEndsAfter(data, i + 1, k', n - 1, capped)
      ensures FieldSum(data, i, n) == data[i] % 0x80 + 0x80 * FieldSum(data, i + 1, n - 1)
    {
      FieldSumFirst(data, i, n);
    }
  }

  /** Without the cap the number of a group does not matter. */
  lemma {:induction false} UncappedAnyGroup(data: seq<byte>, i: nat, k: nat, k': nat)
    requires i <= |data|
    ensures ReadVarint(data, i, k, false) == ReadVarint(data, i, k', false)
    decreases |data| - i
  {
    if i + 1 < |data| {
      UncappedAnyGroup(data, i + 1, k + 1, k' + 1);
    }
  }

  lemma {:induction false} FixedSumBound(s: seq<byte>, i: nat)
    requires i <= |s|
    ensures FixedSum(s, i) < Pow2(8 * (|s| - i))
    decreases |s| - i
  {
    if i < |s| {
      FixedSumBound(s, i + 1);
      Pow2Values();
      var p := Pow2(8 * (|s| - 1 - i));
      Pow2Add(8 * (|s| - 1 - i), 8);
      MulStep(p, s[i], 0x100);
    }
  }

  /** What an integer field of an entry reads in the fixed form: eight bytes, most significant first. */
  lemma FixedReads(data: seq<byte>, i: nat, k: nat)
    requires i <= |data| && k < 7
    ensures GetUint64(data, k + 0x80, i, k) ==
            if i + 8 >= |data| then Cut(i + 8) else Present(FixedSum(data[i..i + 8], 0), i + 9)
  {
    if i + 8 < |data| {
      FixedValue(data[i..i + 8]);
      FixedSumBound(data[i..i + 8], 0);
      Pow2Values();
    }
  }

  /** The length of a payload: its groups up to an unmarked byte, or the end of the input. */
  lemma {:induction false} LengthExact(data: seq<byte>, i: nat)
    requires i <= |data|
    ensures forall n: nat | EndsAfter(data, i, n) :: ReadLength(data, i) == Value(GroupSum(data, i, n), i + n)
    ensures (forall n: nat :: !EndsAfter(data, i, n)) ==> ReadLength(data, i) == Short(|data|)
    decreases |data| - i
  {
    if i < |data| {
      if data[i] < 0x80 {
        assert EndsAfter(data, i, 1) && GroupSum(data, i, 0) == 0 && Pow2(0) == 1;
      } else {
        LengthExact(data, i + 1);
        forall n: nat {:trigger EndsAfter(data, i + 1, n)} | EndsAfter(data, i + 1, n)
          ensures EndsAfter(data, i, n + 1)
        {
        }
        forall n: nat | EndsAfter(data, i, n)
          ensures ReadLength(data, i) == Value(GroupSum(data, i, n), i + n)
        {
          assert EndsAfter(data, i + 1, n - 1);
          GroupSumFirst(data, i, n);
        }
      }
    }
  }

  /** A tag is the value of its groups on 64 bits: the wire type in the low three, the field number, on 32
      bits and positive, in the others; the end of a group stands for no field. */
  lemma TagExact(data: seq<byte>, i: nat, n: nat)
    requires i <= |data| && EndsAfter(data, i, n) && n <= 10
    ensures var w := GroupSum(data, i, n) % TWO_64; var number := w / 8 % TWO_32;
            ReadTag(data, i) ==
              if w % 8 == 4 then NoTag(EndGroup)
              else if number == 0 || number >= 0x8000_0000 then NoTag(IllegalTag)
              else Tag(number, w % 8, i + n)
  {
    GroupsExact(data, i, 0);
  }

  /** The decoder stops at a byte that is neither the next field's header nor the terminator, and names its
      position. */
  lemma HeaderErrorAt(data: seq<byte>, o: Entry)
    requires Decode(data, o).HeaderError?
    ensures 0 <= Decode(data, o).at < |data| && data[Decode(data, o).at] != 0x7f
  {
  }

  // ---- the record of an entry, by name ----

  /** Header `h` and the value after it, in the form its size calls for. */
  function Field64(h: byte, x: uint64): seq<byte>
    requires h < 7
  {
    if x == 0 then [] else if x < 0x2_0000_0000_0000 then [h] + Uvarint(x) else [h + 0x80] + BigEndian(x, 8)
  }

  function FieldType(v: int): seq<byte> {
    if v == 0 then [] else if v > 0 then [2] + Uvarint(v) else [0x82] + Uvarint(-v)
  }

  function FieldCmd(cmd: seq<byte>): seq<byte> { if cmd == [] then [] else [7] + Uvarint(|cmd|) + cmd }

  /** The record is the fields in this order, each under its own header, closed by 0x7f. */
  lemma EntryByName(e: Entry)
    ensures Encode(e) == Field64(0, e.term) + Field64(1, e.index) + FieldType(e.kind) + Field64(3, e.key) +
                         Field64(4, e.clientId) + Field64(5, e.seriesId) + Field64(6, e.respondedTo) +
                         FieldCmd(e.cmd) + [0x7f]
  {
    hide Uvarint, BigEndian;
    FieldsMatch(e);
    EntryConcat(e);
  }

  lemma FieldsMatch(e: Entry)
    ensures PutField(e, 0) == Field64(0, e.term) && PutField(e, 1) == Field64(1, e.index)
    ensures PutField(e, 2) == FieldType(e.kind) && PutField(e, 3) == Field64(3, e.key)
    ensures PutField(e, 4) == Field64(4, e.clientId) && PutField(e, 5) == Field64(5, e.seriesId)
    ensures PutField(e, 6) == Field64(6, e.respondedTo) && PutField(e, 7) == FieldCmd(e.cmd)
  {
    hide Uvarint, BigEndian;
  }

  lemma EntryConcat(e: Entry)
    ensures Encode(e) == PutField(e, 0) + PutField(e, 1) + PutField(e, 2) + PutField(e, 3) +
                         PutField(e, 4) + PutField(e, 5) + PutField(e, 6) + PutField(e, 7) + [0x7f]
  {
    hide PutField;
    var a := EncodeFrom(e, 6);
    assert a == PutField(e, 6) + (PutField(e, 7) + [0x7f]);
    var b := EncodeFrom(e, 3);
    assert EncodeFrom(e, 4) == PutField(e, 4) + (PutField(e, 5) + a);
    assert Encode(e) == PutField(e, 0) + (PutField(e, 1) + (PutField(e, 2) + b));
  }

  /** The first value of the fixed form, in full. */
  lemma FixedExample()
    ensures Encode(EMPTY_ENTRY.(term := 0x2_0000_0000_0000)) == [0x80, 0, 2, 0, 0, 0, 0, 0, 0, 0x7f]
  {
    hide Encode;
    EntryByName(EMPTY_ENTRY.(term := 0x2_0000_0000_0000));
    ExampleValue();
  }

  lemma ExampleValue()
    ensures BigEndian(0x2_0000_0000_0000, 8) == [0, 2, 0, 0, 0, 0, 0, 0]
  {
    assert BigEndian(2, 2) == [0, 2];
    assert BigEndian(0x200, 3) == [0, 2, 0];
    assert BigEndian(0x2_0000, 4) == [0, 2, 0, 0];
    assert BigEndian(0x200_0000, 5) == [0, 2, 0, 0, 0];
    assert BigEndian(0x2_0000_0000, 6) == [0, 2, 0, 0, 0, 0];
    assert BigEndian(0x200_0000_0000, 7) == [0, 2, 0, 0, 0, 0, 0];
  }

  // ---- the records around it, by name ----

  function Varint(tag: byte, x: nat): seq<byte> { [tag] + Uvarint(x) }

  function Record(tag: byte, s: seq<byte>): seq<byte> { [tag] + Uvarint(|s|) + s }

  function EntryRecords(tag: byte, es: seq<Entry>): seq<byte> {
    if es == [] then [] else Record(tag, Encode(es[0])) + EntryRecords(tag, es[1..])
  }

  /** The type of a message as a 64-bit integer: a negative one is taken modulo 2^64. */
  function SignExtended(v: int32): uint64 { if v >= 0 then v else v + TWO_64 }

  /** The scalar part of a message before its entries. */
  function Scalars(m: Message): seq<byte> {
    Varint(0x08, SignExtended(m.kind)) + Varint(0x10, m.to) + Varint(0x18, m.from) + Varint(0x20, m.clusterId) +
    Varint(0x28, m.term) + Varint(0x30, m.logTerm) + Varint(0x38, m.logIndex) + Varint(0x40, m.commit) +
    Varint(0x48, if m.reject then 1 else 0) + Varint(0x50, m.hint)
  }

  /** A message is its fields in this order, each under its own tag. */
  lemma MessageByName(m: Message)
    ensures EncodeMessage(m) ==
            Scalars(m) + EntryRecords(0x5a, m.entries) + Record(0x62, m.snapshot) + Varint(0x68, m.hintHigh)
  {
    MessageConcat(m);
    MessageFieldsMatch(m);
    EntriesMatch(0x5a, ENTRIES, m.entries);
    hide PutMessageField, Varint, Record, EntryRecords, PutEntries, EncodeMessage;
  }

  lemma MessageFieldsMatch(m: Message)
    ensures PutMessageField(m, 1) == Varint(0x08, SignExtended(m.kind)) && PutMessageField(m, 2) == Varint(0x10, m.to)
    ensures PutMessageField(m, 3) == Varint(0x18, m.from) && PutMessageField(m, 4) == Varint(0x20, m.clusterId)
    ensures PutMessageField(m, 5) == Varint(0x28, m.term) && PutMessageField(m, 6) == Varint(0x30, m.logTerm)
    ensures PutMessageField(m, 7) == Varint(0x38, m.logIndex) && PutMessageField(m, 8) == Varint(0x40, m.commit)
    ensures PutMessageField(m, 9) == Varint(0x48, if m.reject then 1 else 0) && PutMessageField(m, 10) == Varint(0x50, m.hint)
    ensures PutMessageField(m, 11) == PutEntries(ENTRIES, m.entries)
    ensures PutMessageField(m, 12) == Record(0x62, m.snapshot) && PutMessageField(m, 13) == Varint(0x68, m.hintHigh)
  {
    hide Uvarint, PutEntries;
    assert m.kind % TWO_64 == SignExtended(m.kind);
  }

  lemma {:induction false} EntriesMatch(tag: byte, f: nat, es: seq<Entry>)
    requires f < 16 && tag == 8 * f + 2
    ensures PutEntries(f, es) == EntryRecords(tag, es)
  {
    hide Encode, Uvarint;
    if es != [] {
      EntriesMatch(tag, f, es[1..]);
    }
  }

  lemma MessageConcat(m: Message)
    ensures EncodeMessage(m) ==
            PutMessageField(m, 1) + PutMessageField(m, 2) + PutMessageField(m, 3) + PutMessageField(m, 4) +
            PutMessageField(m, 5) + PutMessageField(m, 6) + PutMessageField(m, 7) + PutMessageField(m, 8) +
            PutMessageField(m, 9) + PutMessageField(m, 10) + PutMessageField(m, 11) + PutMessageField(m, 12) +
            PutMessageField(m, 13)
  {
    hide PutMessageField;
    var a := EncodeMessageFrom(m, 11);
    assert a == PutMessageField(m, 11) + (PutMessageField(m, 12) + PutMessageField(m, 13)) by {
      assert EncodeMessageFrom(m, 14) == [];
      assert PutMessageField(m, 13) + [] == PutMessageField(m, 13);
    }
    var b := EncodeMessageFrom(m, 8);
    assert b == PutMessageField(m, 8) + (PutMessageField(m, 9) + (PutMessageField(m, 10) + a));
    var c := EncodeMessageFrom(m, 5);
    assert c == PutMessageField(m, 5) + (PutMessageField(m, 6) + (PutMessageField(m, 7) + b));
    assert EncodeMessage(m) ==
           PutMessageField(m, 1) + (PutMessageField(m, 2) + (PutMessageField(m, 3) + (PutMessageField(m, 4) + c)));
  }

  lemma BatchByName(es: seq<Entry>)
    ensures EncodeBatch(es) == EntryRecords(0x0a, es)
  {
    EntriesMatch(0x0a, 1, es);
  }

  function MessageRecords(ms: seq<Message>): seq<byte> {
    if ms == [] then [] else Record(0x0a, EncodeMessage(ms[0])) + MessageRecords(ms[1..])
  }

  lemma {:induction false} MessagesMatch(ms: seq<Message>)
    ensures PutMessages(ms) == MessageRecords(ms)
  {
    hide EncodeMessage, Uvarint;
    if ms != [] {
      MessagesMatch(ms[1..]);
    }
  }

  lemma MessageBatchByName(b: MessageBatch)
    ensures EncodeMessageBatch(b) ==
            MessageRecords(b.requests) + Varint(0x10, b.deploymentId) + Record(0x1a, b.sourceAddress) + Varint(0x20, b.binVer)
  {
    MessagesMatch(b.requests);
    hide Uvarint, PutMessages;
  }

  /** The low 32 bits, as a signed integer. */
  function Low32(x: uint64): int32 { var y := x % TWO_32; if y < TWO_31 then y else y - TWO_32 }

  lemma ScalarDecodes(f: nat, x: uint64)
    requires IsScalar(f)
    ensures DecodeMessage(Varint(8 * f, x)) == Done(SetScalar(EMPTY_MESSAGE, f, x))
  {
    hide ReadTag, ReadGroups, Uvarint, SetScalar;
    var data := Varint(8 * f, x);
    assert data[0] == 8 * f && data[1..1 + |Uvarint(x)|] == Uvarint(x);
    TagReads(data, 0, f, 0);
    ScalarReads(data, 1, x);
    assert ReadField(data, 0, Exact) == ScalarField(f, x, |data|);
    NothingMore(data, SetScalar(EMPTY_MESSAGE, f, x));
  }

  lemma NothingMore(data: seq<byte>, m: Message)
    ensures DecodeMessageFrom(data, |data|, m) == Done(m)
  {
  }

  /** Each scalar field of a message alone: any 64-bit value under its tag is read into it. The type takes
      the low 32 bits; any value but zero is a rejection. */
  lemma MessageReadsByName(x: uint64)
    ensures DecodeMessage(Varint(0x08, x)) == Done(EMPTY_MESSAGE.(kind := Low32(x)))
    ensures DecodeMessage(Varint(0x10, x)) == Done(EMPTY_MESSAGE.(to := x))
    ensures DecodeMessage(Varint(0x18, x)) == Done(EMPTY_MESSAGE.(from := x))
    ensures DecodeMessage(Varint(0x20, x)) == Done(EMPTY_MESSAGE.(clusterId := x))
    ensures DecodeMessage(Varint(0x28, x)) == Done(EMPTY_MESSAGE.(term := x))
    ensures DecodeMessage(Varint(0x30, x)) == Done(EMPTY_MESSAGE.(logTerm := x))
    ensures DecodeMessage(Varint(0x38, x)) == Done(EMPTY_MESSAGE.(logIndex := x))
    ensures DecodeMessage(Varint(0x40, x)) == Done(EMPTY_MESSAGE.(commit := x))
    ensures DecodeMessage(Varint(0x48, x)) == Done(EMPTY_MESSAGE.(reject := x != 0))
    ensures DecodeMessage(Varint(0x50, x)) == Done(EMPTY_MESSAGE.(hint := x))
    ensures DecodeMessage(Varint(0x68, x)) == Done(EMPTY_MESSAGE.(hintHigh := x))
  {
    hide DecodeMessage, Uvarint;
    ScalarDecodes(1, x);
    ScalarDecodes(2, x);
    ScalarDecodes(3, x);
    ScalarDecodes(4, x);
    ScalarDecodes(5, x);
    ScalarDecodes(6, x);
    ScalarDecodes(7, x);
    ScalarDecodes(8, x);
    ScalarDecodes(9, x);
    ScalarDecodes(10, x);
    ScalarDecodes(13, x);
  }
}
