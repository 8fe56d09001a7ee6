/** The Colfer record of a Raft log entry: fields in tag order, each preceded by its header byte,
    zero fields left out, closed by the terminator 0x7f. An integer of 2^49 or more is stored as
    8 big-endian bytes under the header `tag | 0x80`, any other as a varint. */
module EntryFormat {
  import opened Bits

  /** ColferSizeMax. */
  const SIZE_MAX: int := 256 * 1024 * 1024
  const TERMINATOR: byte := 0x7f
  /** The number of the first field. */
  const FIRST: nat := 0
  /** The bit of a header that selects the fixed form, or the negative sign of Type. */
  const FLAG: int := 0x80

  datatype Entry = Entry(
    term: uint64, index: uint64, kind: int32, key: uint64,
    clientId: uint64, seriesId: uint64, respondedTo: uint64, cmd: seq<byte>)

  const EMPTY_ENTRY: Entry := Entry(0, 0, 0, 0, 0, 0, 0, [])

  // ---- writing ----

  function Uvarint(x: nat): (s: seq<byte>)
    ensures |s| >= 1
  {
    if x < 0x80 then [x] else [0x80 + x % 0x80] + Uvarint(x / 0x80)
  }

  function BigEndian(x: nat, n: nat): (s: seq<byte>)
    ensures |s| == n
  {
    if n == 0 then [] else BigEndian(x / 0x100, n - 1) + [x % 0x100]
  }

  function PutUint64(tag: nat, x: uint64): seq<byte>
    requires tag < 7
  {
    if x >= TWO_49 then [tag + FLAG] + BigEndian(x, 8)
    else if x != 0 then [tag] + Uvarint(x)
    else []
  }

  /** `^x + 1` on 32 bits. */
  function Negate32(x: uint32): uint32 { (TWO_32 - x) % TWO_32 }

  function AsUint32(v: int32): uint32 { v % TWO_32 }

  function AsInt32(x: uint32): int32 { if x < TWO_31 then x else x - TWO_32 }

  function PutKind(v: int32): seq<byte> {
    if v > 0 then [2] + Uvarint(AsUint32(v))
    else if v < 0 then [2 + FLAG] + Uvarint(Negate32(AsUint32(v)))
    else []
  }

  function PutCmd(cmd: seq<byte>): seq<byte> {
    if |cmd| == 0 then [] else [7] + Uvarint(|cmd|) + cmd
  }

  /** What is written from field `k` on. */
  function EncodeFrom(e: Entry, k: nat): (s: seq<byte>)
    requires k <= 8
    ensures |s| >= 1
    decreases 8 - k
  {
    if k == 8 then [TERMINATOR] else PutField(e, k) + EncodeFrom(e, k + 1)
  }

  predicate IsUint64Field(k: nat) { k < 7 && k != 2 }

  function Uint64At(e: Entry, k: nat): uint64
    requires IsUint64Field(k)
  {
    match k
    case 0 => e.term
    case 1 => e.index
    case 3 => e.key
    case 4 => e.clientId
    case 5 => e.seriesId
    case _ => e.respondedTo
  }

  function PutField(e: Entry, k: nat): seq<byte>
    requires k < 8
  {
    if k == 2 then PutKind(e.kind)
    else if k == 7 then PutCmd(e.cmd)
    else PutUint64(k, Uint64At(e, k))
  }

  function Encode(e: Entry): seq<byte> { EncodeFrom(e, FIRST) }

  // ---- reading ----

  /** The outcome of reading a varint: its value and the position after it, or the position at
      which the input ran out. */
  datatype Varint = Value(x: nat, next: nat) | Short(at: nat)

  /** Prepends a 7-bit group to the groups that follow it. */
  function Prepend(group: nat, rest: Varint): Varint {
    match rest
    case Value(x, next) => Value(group + 0x80 * x, next)
    case Short(_) => rest
  }

  /** The varint of an integer field, read from group number `k` on; at least one more byte must
      follow it. A capped varint ends at its ninth group, of which it takes all 8 bits. */
  function ReadVarint(data: seq<byte>, i: nat, k: nat, capped: bool): (r: Varint)
    requires i <= |data|
    ensures r.Value? ==> i < r.next < |data|
    decreases |data| - i
  {
    if i + 1 >= |data| then Short(i + 1)
    else if data[i] < 0x80 || (capped && k == 8) then Value(data[i], i + 1)
    else Prepend(data[i] % 0x80, ReadVarint(data, i + 1, k + 1, capped))
  }

  /** The varint of Cmd's length, which may end with the input. */
  function ReadLength(data: seq<byte>, i: nat): (r: Varint)
    requires i <= |data|
    ensures r.Value? ==> i < r.next <= |data|
    decreases |data| - i
  {
    if i >= |data| then Short(i)
    else if data[i] < 0x80 then Value(data[i], i + 1)
    else Prepend(data[i] % 0x80, ReadLength(data, i + 1))
  }

  function FromBigEndian(s: seq<byte>): nat {
    if s == [] then 0 else FromBigEndian(s[..|s| - 1]) * 0x100 + s[|s| - 1]
  }

  /** A decoder between two fields: the entry so far and a header already read at `i - 1`. */
  datatype Cursor =
    | At(e: Entry, header: byte, i: nat)
    | Eof(at: nat)
    | TooBig

  predicate Inside(c: Cursor, data: seq<byte>) {
    c.At? ==> 1 <= c.i <= |data| && c.header == data[c.i - 1]
  }

  function SetUint64(e: Entry, k: nat, x: uint64): Entry
    requires IsUint64Field(k)
  {
    match k
    case 0 => e.(term := x)
    case 1 => e.(index := x)
    case 3 => e.(key := x)
    case 4 => e.(clientId := x)
    case 5 => e.(seriesId := x)
    case _ => e.(respondedTo := x)
  }

  /** The outcome of reading one integer field: absent, or its value with the next header read at
      `next - 1`. */
  datatype Field<T> = Absent | Present(x: T, next: nat) | Cut(at: nat)

  function GetUint64(data: seq<byte>, header: byte, i: nat, k: nat): (r: Field<uint64>)
    requires i <= |data|
    ensures r.Present? ==> i < r.next <= |data|
  {
    if header == k then
      match ReadVarint(data, i, 0, true)
      case Short(at) => Cut(at)
      case Value(x, next) => Present(x % TWO_64, next + 1)
    else if header == k + FLAG then
      if i + 8 >= |data| then Cut(i + 8)
      else Present(FromBigEndian(data[i..i + 8]) % TWO_64, i + 9)
    else Absent
  }

  function GetKind(data: seq<byte>, header: byte, i: nat): (r: Field<int32>)
    requires i <= |data|
    ensures r.Present? ==> i < r.next <= |data|
  {
    if header == 2 || header == 2 + FLAG then
      match ReadVarint(data, i, 0, false)
      case Short(at) => Cut(at)
      case Value(x, next) =>
        var u: uint32 := x % TWO_32;
        Present(AsInt32(if header == 2 then u else Negate32(u)), next + 1)
    else Absent
  }

  datatype CmdField = NoCmd | Cmd(cmd: seq<byte>, next: nat) | CutCmd(at: nat) | LongCmd

  function GetCmd(data: seq<byte>, header: byte, i: nat): (r: CmdField)
    requires i <= |data|
    ensures r.Cmd? ==> i < r.next <= |data|
  {
    if header == 7 then
      match ReadLength(data, i)
      case Short(at) => CutCmd(at)
      case Value(v, next) =>
        var x := v % TWO_64;
        if x > SIZE_MAX then LongCmd
        else if next + x >= |data| then CutCmd(next + x)
        else Cmd(data[next..next + x], next + x + 1)
    else NoCmd
  }

  function GetField(data: seq<byte>, c: Cursor, k: nat): (r: Cursor)
    requires Inside(c, data) && k < 8
    ensures Inside(r, data)
  {
    if !c.At? then c
    else if k == 2 then
      match GetKind(data, c.header, c.i)
      case Absent => c
      case Cut(at) => Eof(at)
      case Present(x, next) => At(c.e.(kind := x), data[next - 1], next)
    else if k == 7 then
      match GetCmd(data, c.header, c.i)
      case NoCmd => c
      case LongCmd => TooBig
      case CutCmd(at) => Eof(at)
      case Cmd(cmd, next) => At(c.e.(cmd := cmd), data[next - 1], next)
    else
      match GetUint64(data, c.header, c.i, k)
      case Absent => c
      case Cut(at) => Eof(at)
      case Present(x, next) => At(SetUint64(c.e, k, x), data[next - 1], next)
  }

  function GetFields(data: seq<byte>, c: Cursor, k: nat): (r: Cursor)
    requires Inside(c, data) && k <= 8
    ensures Inside(r, data)
    decreases 8 - k
  {
    if k == 8 then c else GetFields(data, GetField(data, c, k), k + 1)
  }

  /** Once the input has run out the remaining fields change nothing. */
  lemma {:induction false} GetFieldsStuck(data: seq<byte>, c: Cursor, k: nat)
    requires !c.At? && k <= 8
    ensures GetFields(data, c, k) == c
    decreases 8 - k
  {
    if k < 8 {
      GetFieldsStuck(data, c, k + 1);
    }
  }

  datatype Decoded =
    | Ok(n: nat, e: Entry)
    | EofError
    | MaxError
    | HeaderError(at: int)

  function Finish(c: Cursor): Decoded {
    match c
    case TooBig => MaxError
    case Eof(at) => if at >= SIZE_MAX then MaxError else EofError
    case At(e, header, i) =>
      if header != TERMINATOR then HeaderError(i - 1)
      else if i < SIZE_MAX then Ok(i, e)
      else MaxError
  }

  /** Unmarshalling `data` into the entry `o`. */
  function Decode(data: seq<byte>, o: Entry): Decoded {
    if data == [] then EofError else Finish(GetFields(data, At(o, data[0], 1), FIRST))
  }
}
