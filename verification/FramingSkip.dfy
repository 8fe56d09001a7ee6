/** Fields a record does not declare, such as those a newer version would add, are passed over. */
module FramingSkip {
  import opened Bits
  import opened EntryFormat
  import opened EntryRoundTrip
  import opened Framing
  import opened FramingRecords

  datatype Body =
    | Varint(v: uint64)
    | Fixed64(bytes: seq<byte>)
    | Bytes(content: seq<byte>)
    | Group(fields: seq<Field>)
    | Fixed32(bytes: seq<byte>)

  /** A field by number and content; field numbers have at most 29 bits. */
  datatype Field = Field(number: nat, body: Body)

  const MAX_FIELD: nat := 0x1fff_ffff

  function WireType(b: Body): nat {
    match b
    case Varint(_) => 0
    case Fixed64(_) => 1
    case Bytes(_) => 2
    case Group(_) => 3
    case Fixed32(_) => 5
  }

  predicate WellFormed(x: Field) {
    1 <= x.number <= MAX_FIELD &&
    match x.body
    case Fixed64(bytes) => |bytes| == 8
    case Fixed32(bytes) => |bytes| == 4
    case Group(fields) => forall y | y in fields :: WellFormed(y)
    case _ => true
  }

  function PutTag(number: nat, wire: nat): seq<byte> { Uvarint(8 * number + wire) }

  function Put(x: Field): seq<byte>
    decreases x, 1
  {
    PutTag(x.number, WireType(x.body)) + PutBody(x)
  }

  /** What follows the tag; a group ends with the end tag of its own number. */
  function PutBody(x: Field): seq<byte>
    decreases x, 0
  {
    match x.body
    case Varint(v) => Uvarint(v)
    case Fixed64(bytes) => bytes
    case Bytes(content) => Uvarint(|content|) + content
    case Group(fields) => PutAll(fields) + PutTag(x.number, 4)
    case Fixed32(bytes) => bytes
  }

  function PutAll(xs: seq<Field>): seq<byte>
    decreases xs, 2
  {
    if xs == [] then [] else Put(xs[0]) + PutAll(xs[1..])
  }

  lemma TagGroups(data: seq<byte>, p: nat, number: nat, wire: nat)
    requires Holds(data, p, PutTag(number, wire)) && 1 <= number <= MAX_FIELD && wire < 8
    ensures p < |data|
    ensures ReadGroups(data, p, 0) == Scanned(8 * number + wire, p + |PutTag(number, wire)|)
    ensures (8 * number + wire) % 8 == wire
  {
    ScalarReads(data, p, 8 * number + wire);
  }

  /** The body of a field that is not a group, whose tag was read up to `j`. */
  lemma PlainSkipped(data: seq<byte>, p: nat, j: nat, x: Field, ints: Ints)
    requires WellFormed(x) && !x.body.Group? && p < |data| && Holds(data, j, PutBody(x)) && |data| <= MAX_INT
    requires ReadGroups(data, p, 0) == Scanned(8 * x.number + WireType(x.body), j)
    ensures Skip(data, p, ints) == SkipTo(j + |PutBody(x)|)
  {
    hide Uvarint, ReadGroups, SkipGroup;
    match x.body
    case Varint(v) => ScalarReads(data, j, v);
    case Bytes(content) =>
      HoldsTail(data, j, Uvarint(|content|), content);
      ScalarReads(data, j, |content|);
    case _ =>
  }

  lemma GroupStarts(data: seq<byte>, p: nat, j: nat, tag: nat, ints: Ints)
    requires p < |data| && ReadGroups(data, p, 0) == Scanned(tag, j) && tag % 8 == 3
    ensures Skip(data, p, ints) == SkipGroup(data, p, j, ints)
  {
    hide SkipGroup;
  }

  /** A well-formed field is skipped exactly, nested groups included. */
  lemma {:induction false} FieldSkipped(data: seq<byte>, p: nat, x: Field, ints: Ints)
    requires WellFormed(x) && Holds(data, p, Put(x)) && |data| <= MAX_INT
    ensures p < |data| && Skip(data, p, ints) == SkipTo(p + |Put(x)|)
    decreases x, 1
  {
    var tag, j := PutTag(x.number, WireType(x.body)), p + |PutTag(x.number, WireType(x.body))|;
    HoldsTail(data, p, tag, PutBody(x));
    TagGroups(data, p, x.number, WireType(x.body));
    hide ReadGroups, PutTag, PutAll, Skip, SkipGroup;
    if x.body.Group? {
      GroupStarts(data, p, j, 8 * x.number + 3, ints);
      GroupSkipped(data, p, j, x.number, x.body.fields, ints);
    } else {
      hide PutBody;
      PlainSkipped(data, p, j, x, ints);
    }
  }

  lemma {:induction false} GroupSkipped(
      data: seq<byte>, base: nat, j: nat, number: nat, xs: seq<Field>, ints: Ints)
    requires base < j && |data| <= MAX_INT && 1 <= number <= MAX_FIELD
    requires (forall y | y in xs :: WellFormed(y)) && Holds(data, j, PutAll(xs) + PutTag(number, 4))
    ensures SkipGroup(data, base, j, ints) == SkipTo(j + |PutAll(xs) + PutTag(number, 4)|)
    decreases xs, 0
  {
    hide Skip, ReadGroups, PutTag, Put;
    if xs == [] {
      assert PutAll(xs) + PutTag(number, 4) == PutTag(number, 4);
      TagGroups(data, j, number, 4);
    } else {
      var rest := PutAll(xs[1..]) + PutTag(number, 4);
      assert PutAll(xs) + PutTag(number, 4) == Put(xs[0]) + rest;
      HoldsTail(data, j, Put(xs[0]), rest);
      FieldSkipped(data, j, xs[0], ints);
      FieldStarts(data, j, xs[0]);
      GroupSkipped(data, base, j + |Put(xs[0])|, number, xs[1..], ints);
    }
  }

  /** A field does not begin with an end tag. */
  lemma FieldStarts(data: seq<byte>, p: nat, x: Field)
    requires WellFormed(x) && Holds(data, p, Put(x))
    ensures ReadGroups(data, p, 0).Scanned? && ReadGroups(data, p, 0).x % 8 != 4
  {
    hide Uvarint, ReadGroups, PutTag, PutBody;
    HoldsTail(data, p, PutTag(x.number, WireType(x.body)), PutBody(x));
    TagGroups(data, p, x.number, WireType(x.body));
  }

  lemma FieldTag(data: seq<byte>, p: nat, x: Field)
    requires WellFormed(x) && Holds(data, p, Put(x))
    ensures p < |data| && ReadTag(data, p).Tag? && ReadTag(data, p).field == x.number
  {
    hide Uvarint, ReadGroups, PutTag, PutBody;
    HoldsTail(data, p, PutTag(x.number, WireType(x.body)), PutBody(x));
    TagGroups(data, p, x.number, WireType(x.body));
    NumberOfTag(x.number, WireType(x.body));
  }

  lemma NumberOfTag(number: nat, wire: nat)
    requires 1 <= number <= MAX_FIELD && wire < 8
    ensures AsInt32(((8 * number + wire) % TWO_64 / 8) % TWO_32) == number
  {
  }

  lemma FieldContinues(data: seq<byte>, p: nat, x: Field, ints: Ints)
    requires WellFormed(x) && Holds(data, p, Put(x)) && |data| <= MAX_INT
    ensures p < |data| && AfterSkip(data, p, ints) == Continue(p + |Put(x)|)
  {
    hide Put, Skip;
    FieldSkipped(data, p, x, ints);
  }

  /** An end-of-group tag on its own is skipped as such. */
  lemma EndTagSkipped(data: seq<byte>, i: nat, f: nat, ints: Ints)
    requires i < |data| && f < 16 && data[i] == 8 * f + 4
    ensures Skip(data, i, ints) == SkipTo(i + 1)
  {
    assert ReadGroups(data, i, 0) == Scanned(8 * f + 4, i + 1);
  }
}
