/** The loops that size, write and read an entry, on the bit operations of the source. */
module EntryCodec {
  import opened Bits
  import opened EntryFormat

  // ---- bit operations against the arithmetic of the format ----

  /** `byte(x | 0x80)`. */
  lemma GroupByte(x: nat)
    ensures Or(x, 0x80) % 0x100 == 0x80 + x % 0x80
  {
    Pow2Values();
    OrHigh(x, 7);
  }

  /** Setting bit `s` leaves the bits below it alone and makes bit `s` one. */
  lemma {:induction false} OrHigh(x: nat, s: nat)
    ensures Or(x, Pow2(s)) % Pow2(s) == x % Pow2(s)
    ensures (Or(x, Pow2(s)) / Pow2(s)) % 2 == 1
  {
    if x == 0 {
      OrNone(Pow2(s));
    } else if s == 0 {
      OrOne(x);
    } else {
      OrHalves(x, s);
      OrHigh(x / 2, s - 1);
      hide Or;
      HalfMod(Or(x / 2, Pow2(s - 1)), x % 2, Pow2(s - 1));
      HalfMod(x / 2, x % 2, Pow2(s - 1));
    }
  }

  lemma OrNone(p: nat)
    requires p > 0
    ensures Or(0, p) % p == 0 && (Or(0, p) / p) % 2 == 1
  {
    ModUnique(p, p, 1, 0);
  }

  lemma OrOne(x: nat)
    ensures Or(x, Pow2(0)) % Pow2(0) == x % Pow2(0)
    ensures (Or(x, Pow2(0)) / Pow2(0)) % 2 == 1
  {
    assert Pow2(0) == 1;
    assert Or(x, 1) == 2 * Or(x / 2, 0) + 1;
  }

  lemma OrHalves(x: nat, s: nat)
    requires x > 0 && s > 0
    ensures Or(x, Pow2(s)) == 2 * Or(x / 2, Pow2(s - 1)) + x % 2
  {
    assert Pow2(s) == 2 * Pow2(s - 1);
    assert Pow2(s) / 2 == Pow2(s - 1) && Pow2(s) % 2 == 0;
  }

  lemma HalfMod(r: nat, bit: nat, p: nat)
    requires bit < 2 && p > 0
    ensures (2 * r + bit) % (2 * p) == 2 * (r % p) + bit
    ensures (2 * r + bit) / (2 * p) == r / p
  {
    HalfSplit(p, r / p, r % p, bit);
    ModUnique(2 * r + bit, 2 * p, r / p, 2 * (r % p) + bit);
  }

  lemma HalfSplit(p: nat, d: nat, m: nat, bit: nat)
    ensures 2 * (p * d + m) + bit == (2 * p) * d + (2 * m + bit)
  {
  }

  /** Accumulating with "or" in a register of `width` bits is addition modulo `2^width`. */
  lemma OrTruncates(total: nat, x: nat, y: nat, bits: nat, shift: nat, width: nat)
    requires total < Pow2(shift) && x == total % Pow2(width) && y < Pow2(bits)
    ensures Or(x, Shl(y, shift, width)) == (total + y * Pow2(shift)) % Pow2(width)
    ensures total + y * Pow2(shift) < Pow2(shift + bits)
  {
    hide Or, Shl;
    var w, s := Pow2(width), Pow2(shift);
    assert total + y * s < Pow2(shift + bits) by {
      Pow2Add(shift, bits);
      NextMultiple(total, y, s, Pow2(bits));
    }
    ModAtMost(total, w);
    OrGroup(x, y, bits, shift, width);
    SumMod(total, y, shift, width);
  }

  lemma SumMod(total: nat, y: nat, shift: nat, width: nat)
    requires total < Pow2(shift)
    requires (total % Pow2(width)) + Shl(y, shift, width) < Pow2(width)
    ensures (total % Pow2(width)) + Shl(y, shift, width) == (total + y * Pow2(shift)) % Pow2(width)
  {
    AddMod(total, y * Pow2(shift), Pow2(width));
  }

  /** `total` with a group of bits put above its `shift` bits. */
  ghost function Extend(total: nat, group: nat, shift: nat): nat { total + group * Pow2(shift) }

  /** The groups still to be read, above the `shift` bits already in `total`. */
  ghost function Above(total: nat, shift: nat, rest: Varint): Varint {
    match rest
    case Value(x, next) => Value(total + Pow2(shift) * x, next)
    case Short(_) => rest
  }

  lemma Distribute(p: nat, group: nat, x: nat)
    ensures p * (group + 0x80 * x) == group * p + (p * 0x80) * x
  {
    assert p * (group + 0x80 * x) == p * group + p * (0x80 * x);
  }

  lemma AbovePrepend(total: nat, group: nat, shift: nat, rest: Varint)
    ensures Above(total, shift, Prepend(group, rest)) == Above(total + group * Pow2(shift), shift + 7, rest)
  {
    if rest.Value? {
      SevenMore(shift);
      hide Pow2;
      Distribute(Pow2(shift), group, rest.x);
    }
  }

  lemma SevenMore(shift: nat)
    ensures Pow2(shift + 7) == Pow2(shift) * 0x80
  {
    Pow2Values();
    Pow2Add(shift, 7);
  }

  // ---- Size ----

  method VarintSize(x0: nat) returns (n: nat)
    ensures n == |Uvarint(x0)|
  {
    n := 1;
    var x := x0;
    while x >= 0x80
      invariant n + |Uvarint(x)| == 1 + |Uvarint(x0)|
    {
      x := x / 0x80;
      n := n + 1;
    }
  }

  method Uint64Size(k: nat, x: uint64) returns (n: nat)
    requires k < 7
    ensures n == |PutUint64(k, x)|
  {
    if x >= TWO_49 {
      n := 9;
    } else if x != 0 {
      var m := VarintSize(x);
      n := 1 + m;
    } else {
      n := 0;
    }
  }

  datatype SizeResult = Size(n: nat) | Panic

  /** The size of the record, or the panic of a record over the limit. */
  method EntrySize(e: Entry) returns (r: SizeResult)
    ensures r == if |Encode(e)| <= SIZE_MAX then Size(|Encode(e)|) else Panic
  {
    hide PutUint64, PutKind, Uvarint, Uint64At, PutField;
    var l := 1;
    var n := Uint64Size(0, e.term);
    l := l + n;
    n := Uint64Size(1, e.index);
    l := l + n;
    n := KindSize(e.kind);
    l := l + n;
    n := Uint64Size(3, e.key);
    l := l + n;
    n := Uint64Size(4, e.clientId);
    l := l + n;
    n := Uint64Size(5, e.seriesId);
    l := l + n;
    n := Uint64Size(6, e.respondedTo);
    l := l + n;
    RecordLength(e);
    if |e.cmd| != 0 {
      if |e.cmd| > SIZE_MAX {
        return Panic;
      }
      n := VarintSize(|e.cmd|);
      l := l + |e.cmd| + 1 + n;
    }
    r := if l > SIZE_MAX then Panic else Size(l);
  }

  method KindSize(v: int32) returns (n: nat)
    ensures n == |PutKind(v)|
  {
    n := 0;
    if v != 0 {
      var x := AsUint32(v);
      if v < 0 {
        x := Negate32(x);
      }
      n := VarintSize(x);
      n := n + 1;
    }
  }

  lemma RecordLength(e: Entry)
    ensures |Encode(e)| ==
            |PutUint64(0, e.term)| + |PutUint64(1, e.index)| + |PutKind(e.kind)| +
            |PutUint64(3, e.key)| + |PutUint64(4, e.clientId)| + |PutUint64(5, e.seriesId)| +
            |PutUint64(6, e.respondedTo)| + |PutCmd(e.cmd)| + 1
  {
    hide PutUint64, PutKind, PutCmd;
    assert |EncodeFrom(e, 6)| == |PutUint64(6, e.respondedTo)| + |PutCmd(e.cmd)| + 1;
    assert |EncodeFrom(e, 4)| == |PutUint64(4, e.clientId)| + |PutUint64(5, e.seriesId)| + |EncodeFrom(e, 6)|;
    assert |EncodeFrom(e, 2)| == |PutKind(e.kind)| + |PutUint64(3, e.key)| + |EncodeFrom(e, 4)|;
  }

  // ---- MarshalTo ----

  /** What writing `s` at `i` leaves in a buffer that held `before`. */
  ghost predicate Wrote(before: seq<byte>, after: seq<byte>, i: nat, s: seq<byte>) {
    i + |s| <= |before| && after == before[..i] + s + before[i + |s|..]
  }

  lemma WroteTwice(a: seq<byte>, b: seq<byte>, c: seq<byte>, i: nat, s: seq<byte>, t: seq<byte>)
    requires Wrote(a, b, i, s) && Wrote(b, c, i + |s|, t)
    ensures Wrote(a, c, i, s + t)
  {
    assert b[..i + |s|] == a[..i] + s;
    assert b[i + |s| + |t|..] == a[i + |s| + |t|..];
  }

  lemma WroteNothing(a: seq<byte>, i: nat)
    requires i <= |a|
    ensures Wrote(a, a, i, [])
  {
  }

  method PutByte(buf: array<byte>, i: nat, b: byte)
    requires i < buf.Length
    modifies buf
    ensures Wrote(old(buf[..]), buf[..], i, [b])
  {
    buf[i] := b;
  }

  method PutVarint(buf: array<byte>, i: nat, x0: nat) returns (j: nat)
    requires i + |Uvarint(x0)| <= buf.Length
    modifies buf
    ensures j == i + |Uvarint(x0)| && Wrote(old(buf[..]), buf[..], i, Uvarint(x0))
  {
    hide Wrote, Or;
    var x := x0;
    j := i;
    ghost var done: seq<byte> := [];
    WroteNothing(buf[..], i);
    while x >= 0x80
      invariant j == i + |done| && done + Uvarint(x) == Uvarint(x0)
      invariant j + |Uvarint(x)| <= buf.Length
      invariant Wrote(old(buf[..]), buf[..], i, done)
    {
      GroupByte(x);
      ghost var before, b := buf[..], 0x80 + x % 0x80;
      PutByte(buf, j, Or(x, 0x80) % 0x100);
      WroteTwice(old(buf[..]), before, buf[..], i, done, [b]);
      Associative(done, [b], Uvarint(x / 0x80));
      done := done + [b];
      x := x / 0x80;
      j := j + 1;
    }
    ghost var before := buf[..];
    PutByte(buf, j, x);
    WroteTwice(old(buf[..]), before, buf[..], i, done, [x]);
    j := j + 1;
  }

  /** The 8 bytes of the fixed form, most significant first. */
  method PutFixed(buf: array<byte>, i: nat, x: uint64)
    requires i + 8 <= buf.Length
    modifies buf
    ensures Wrote(old(buf[..]), buf[..], i, BigEndian(x, 8))
  {
    var n := 8;
    var y := x;
    while n > 0
      invariant 0 <= n <= 8 && y >= 0
      invariant buf[..i + n] == old(buf[..i + n])
      invariant buf[i + 8..] == old(buf[i + 8..])
      invariant BigEndian(y, n) + buf[i + n..i + 8] == BigEndian(x, 8)
    {
      assert BigEndian(y, n) == BigEndian(y / 0x100, n - 1) + [y % 0x100];
      n := n - 1;
      ghost var tail := buf[i + n + 1..i + 8];
      buf[i + n] := y % 0x100;
      assert buf[i + n..i + 8] == [y % 0x100] + tail;
      y := y / 0x100;
    }
    assert BigEndian(y, 0) == [];
    assert buf[..] == buf[..i] + buf[i..i + 8] + buf[i + 8..];
  }

  /** Each writer below appends its bytes to `done`, which was written at `at` over `base`. */
  method AppendVarint(buf: array<byte>, ghost base: seq<byte>, ghost at: nat, ghost done: seq<byte>,
                      i: nat, header: byte, x: nat) returns (j: nat)
    requires Wrote(base, buf[..], at, done) && i == at + |done|
    requires i + 1 + |Uvarint(x)| <= buf.Length
    modifies buf
    ensures j == i + 1 + |Uvarint(x)| && Wrote(base, buf[..], at, done + ([header] + Uvarint(x)))
  {
    hide Uvarint, Wrote;
    ghost var b0 := buf[..];
    Associative(done, [header], Uvarint(x));
    PutByte(buf, i, header);
    ghost var b1 := buf[..];
    WroteTwice(base, b0, b1, at, done, [header]);
    j := PutVarint(buf, i + 1, x);
    WroteTwice(base, b1, buf[..], at, done + [header], Uvarint(x));
  }

  method AppendUint64(buf: array<byte>, ghost base: seq<byte>, ghost at: nat, ghost done: seq<byte>,
                      i: nat, k: nat, x: uint64) returns (j: nat)
    requires Wrote(base, buf[..], at, done) && i == at + |done|
    requires k < 7 && i + |PutUint64(k, x)| <= buf.Length
    modifies buf
    ensures j == i + |PutUint64(k, x)| && Wrote(base, buf[..], at, done + PutUint64(k, x))
  {
    hide Uvarint, BigEndian, Wrote;
    if x >= TWO_49 {
      ghost var b0 := buf[..];
      PutByte(buf, i, k + FLAG);
      ghost var b1 := buf[..];
      WroteTwice(base, b0, b1, at, done, [k + FLAG]);
      PutFixed(buf, i + 1, x);
      WroteTwice(base, b1, buf[..], at, done + [k + FLAG], BigEndian(x, 8));
      assert done + ([k + FLAG] + BigEndian(x, 8)) == (done + [k + FLAG]) + BigEndian(x, 8);
      j := i + 9;
    } else if x != 0 {
      j := AppendVarint(buf, base, at, done, i, k, x);
    } else {
      j := i;
      assert done + [] == done;
    }
  }

  method AppendKind(buf: array<byte>, ghost base: seq<byte>, ghost at: nat, ghost done: seq<byte>,
                    i: nat, v: int32) returns (j: nat)
    requires Wrote(base, buf[..], at, done) && i == at + |done|
    requires i + |PutKind(v)| <= buf.Length
    modifies buf
    ensures j == i + |PutKind(v)| && Wrote(base, buf[..], at, done + PutKind(v))
  {
    hide Uvarint, Wrote;
    j := i;
    if v != 0 {
      var x, header := AsUint32(v), 2;
      if v < 0 {
        x, header := Negate32(x), 2 + FLAG;
      }
      j := AppendVarint(buf, base, at, done, i, header, x);
    } else {
      assert done + [] == done;
    }
  }

  method AppendCmd(buf: array<byte>, ghost base: seq<byte>, ghost at: nat, ghost done: seq<byte>,
                   i: nat, cmd: seq<byte>) returns (j: nat)
    requires Wrote(base, buf[..], at, done) && i == at + |done|
    requires i + |PutCmd(cmd)| <= buf.Length
    modifies buf
    ensures j == i + |PutCmd(cmd)| && Wrote(base, buf[..], at, done + PutCmd(cmd))
  {
    hide Uvarint, Wrote;
    j := i;
    if |cmd| != 0 {
      ghost var head := [7] + Uvarint(|cmd|);
      Associative(done, head, cmd);
      j := AppendVarint(buf, base, at, done, i, 7, |cmd|);
      ghost var b1 := buf[..];
      CopyBytes(buf, j, cmd);
      WroteTwice(base, b1, buf[..], at, done + head, cmd);
      j := j + |cmd|;
    } else {
      assert done + [] == done;
    }
  }

  method CopyBytes(buf: array<byte>, i: nat, s: seq<byte>)
    requires i + |s| <= buf.Length
    modifies buf
    ensures Wrote(old(buf[..]), buf[..], i, s)
  {
    for n := 0 to |s|
      invariant Wrote(old(buf[..]), buf[..], i, s[..n])
    {
      ghost var before := buf[..];
      PutByte(buf, i + n, s[n]);
      WroteTwice(old(buf[..]), before, buf[..], i, s[..n], [s[n]]);
      assert s[..n] + [s[n]] == s[..n + 1];
    }
    assert s[..|s|] == s;
  }

  /** The record of `e` without its terminator, up to but not including field `k`. */
  ghost function EncodeUpTo(e: Entry, k: nat): seq<byte>
    requires k <= 8
  {
    if k == 0 then [] else EncodeUpTo(e, k - 1) + PutField(e, k - 1)
  }

  lemma {:induction false} EncodeSplits(e: Entry, k: nat)
    requires k <= 8
    ensures Encode(e) == EncodeUpTo(e, k) + EncodeFrom(e, k)
  {
    hide EncodeUpTo, EncodeFrom;
    if k == 0 {
      UpToNothing(e);
      assert [] + EncodeFrom(e, 0) == EncodeFrom(e, 0);
    } else {
      EncodeSplits(e, k - 1);
      SplitStep(e, k - 1);
    }
  }

  lemma SplitStep(e: Entry, k: nat)
    requires k < 8
    ensures EncodeUpTo(e, k) + EncodeFrom(e, k) == EncodeUpTo(e, k + 1) + EncodeFrom(e, k + 1)
  {
    hide PutField;
    Associative(EncodeUpTo(e, k), PutField(e, k), EncodeFrom(e, k + 1));
  }

  lemma Associative(a: seq<byte>, b: seq<byte>, c: seq<byte>)
    ensures a + (b + c) == (a + b) + c
  {
  }

  /** Room for one more field as long as there is room for the record. */
  lemma RoomFor(e: Entry, k: nat)
    requires k < 8
    ensures |EncodeUpTo(e, k)| + |PutField(e, k)| < |Encode(e)|
    ensures EncodeUpTo(e, k + 1) == EncodeUpTo(e, k) + PutField(e, k)
  {
    hide PutField;
    EncodeSplits(e, k + 1);
  }

  /** Writes the record of `e` at offset `at` and returns its length; every other byte of the buffer
      keeps its value. */
  method MarshalTo(buf: array<byte>, at: nat, e: Entry) returns (n: nat)
    requires at + |Encode(e)| <= buf.Length
    modifies buf
    ensures n == |Encode(e)| && Wrote(old(buf[..]), buf[..], at, Encode(e))
  {
    hide PutUint64, PutKind, PutCmd, Wrote, EncodeUpTo, EncodeFrom, Encode;
    ghost var base := buf[..];
    var i := at;
    WroteNothing(base, at);
    UpToNothing(e);
    RoomFor(e, 0);
    i := AppendUint64(buf, base, at, EncodeUpTo(e, 0), i, 0, e.term);
    RoomFor(e, 1);
    i := AppendUint64(buf, base, at, EncodeUpTo(e, 1), i, 1, e.index);
    RoomFor(e, 2);
    i := AppendKind(buf, base, at, EncodeUpTo(e, 2), i, e.kind);
    RoomFor(e, 3);
    i := AppendUint64(buf, base, at, EncodeUpTo(e, 3), i, 3, e.key);
    RoomFor(e, 4);
    i := AppendUint64(buf, base, at, EncodeUpTo(e, 4), i, 4, e.clientId);
    RoomFor(e, 5);
    i := AppendUint64(buf, base, at, EncodeUpTo(e, 5), i, 5, e.seriesId);
    RoomFor(e, 6);
    i := AppendUint64(buf, base, at, EncodeUpTo(e, 6), i, 6, e.respondedTo);
    RoomFor(e, 7);
    i := AppendCmd(buf, base, at, EncodeUpTo(e, 7), i, e.cmd);
    UpToAll(e);
    ghost var before := buf[..];
    PutByte(buf, i, TERMINATOR);
    WroteTwice(base, before, buf[..], at, EncodeUpTo(e, 8), [TERMINATOR]);
    n := i + 1 - at;
  }

  lemma UpToNothing(e: Entry)
    ensures EncodeUpTo(e, 0) == []
  {
  }

  lemma UpToAll(e: Entry)
    ensures Encode(e) == EncodeUpTo(e, 8) + [TERMINATOR]
  {
    hide PutField;
    EncodeSplits(e, 8);
  }

  // ---- Unmarshal ----

  /** A scan in a register of `width` bits: `total` is the value of the groups read so far, `x` what
      the register holds of it, and `rest` the groups still to come. */
  ghost predicate Scanning(whole: Varint, total: nat, x: nat, shift: nat, width: nat, rest: Varint) {
    total < Pow2(shift) && x == total % Pow2(width) && whole == Above(total, shift, rest)
  }

  lemma ScanFirst(group: nat, width: nat, rest: Varint)
    requires group < 0x80 && width >= 7
    ensures Scanning(Prepend(group, rest), group, group, 7, width, rest)
  {
    Pow2Values();
    SmallByte(group, width);
    AbovePrepend(0, group, 0, rest);
  }

  lemma ScanMore(whole: Varint, total: nat, x: nat, shift: nat, width: nat, group: nat, rest: Varint)
    requires Scanning(whole, total, x, shift, width, Prepend(group, rest)) && group < 0x80
    ensures Scanning(whole, Extend(total, group, shift), Or(x, Shl(group, shift, width)), shift + 7, width, rest)
  {
    Pow2Values();
    OrTruncates(total, x, group, 7, shift, width);
    AbovePrepend(total, group, shift, rest);
  }

  lemma ScanLast(whole: Varint, total: nat, x: nat, shift: nat, width: nat, y: byte, next: nat)
    requires Scanning(whole, total, x, shift, width, Value(y, next))
    ensures whole.Value? && whole.next == next && Or(x, Shl(y, shift, width)) == whole.x % Pow2(width)
  {
    Pow2Values();
    OrTruncates(total, x, y, 8, shift, width);
  }

  lemma ScanShort(whole: Varint, total: nat, x: nat, shift: nat, width: nat, at: nat)
    requires Scanning(whole, total, x, shift, width, Short(at))
    ensures whole == Short(at)
  {
  }

  lemma SmallByte(y: nat, width: nat)
    requires y < 0x80 && width >= 7
    ensures y % Pow2(width) == y
  {
    Pow2Values();
    Pow2Monotone(7, width);
    ModSmall(y, Pow2(width));
  }

  /** The varint of an integer field. */
  method ScanVarint(data: seq<byte>, start: nat, width: nat, capped: bool) returns (x: nat, i: nat, eof: bool)
    requires start <= |data| && width >= 8
    ensures match ReadVarint(data, start, 0, capped)
            case Short(at) => eof && i == at
            case Value(v, next) => !eof && i == next && x == v % Pow2(width)
  {
    hide Or, Shl, Pow2, Above, Scanning, Prepend, Extend;
    x, i, eof := 0, start + 1, false;
    if i >= |data| {
      return x, i, true;
    }
    x := data[start];
    if x < 0x80 {
      SmallByte(x, width);
      return;
    }
    x := x % 0x80;
    var shift: nat := 7;
    ghost var k: nat, total: nat := 1, x;
    ghost var whole := ReadVarint(data, start, 0, capped);
    ScanFirst(x, width, ReadVarint(data, i, k, capped));
    while true
      invariant i < |data| && shift == 7 * k
      invariant Scanning(whole, total, x, shift, width, ReadVarint(data, i, k, capped))
      decreases |data| - i
    {
      var b := data[i];
      i := i + 1;
      if i >= |data| {
        ScanShort(whole, total, x, shift, width, i);
        return x, i, true;
      }
      if b < 0x80 || (capped && shift == 56) {
        ScanLast(whole, total, x, shift, width, b, i);
        return Or(x, Shl(b, shift, width)), i, false;
      }
      ScanMore(whole, total, x, shift, width, b % 0x80, ReadVarint(data, i, k + 1, capped));
      x := Or(x, Shl(b % 0x80, shift, width));
      total := Extend(total, b % 0x80, shift);
      shift, k := shift + 7, k + 1;
    }
  }

  /** The varint of Cmd's length. */
  method ScanLength(data: seq<byte>, start: nat) returns (x: nat, i: nat, eof: bool)
    requires start <= |data|
    ensures match ReadLength(data, start)
            case Short(at) => eof && i == at
            case Value(v, next) => !eof && i == next && x == v % Pow2(64)
  {
    hide Or, Shl, Pow2, Above, Scanning, Prepend, Extend;
    x, i, eof := 0, start, false;
    if i >= |data| {
      return x, i, true;
    }
    x, i := data[i], i + 1;
    if x < 0x80 {
      SmallByte(x, 64);
      return;
    }
    x := x % 0x80;
    var shift: nat := 7;
    ghost var total: nat := x;
    ghost var whole := ReadLength(data, start);
    ScanFirst(x, 64, ReadLength(data, i));
    while true
      invariant i <= |data|
      invariant Scanning(whole, total, x, shift, 64, ReadLength(data, i))
      decreases |data| - i
    {
      if i >= |data| {
        ScanShort(whole, total, x, shift, 64, i);
        return x, i, true;
      }
      var b := data[i];
      i := i + 1;
      if b < 0x80 {
        ScanLast(whole, total, x, shift, 64, b, i);
        return Or(x, Shl(b, shift, 64)), i, false;
      }
      ScanMore(whole, total, x, shift, 64, b % 0x80, ReadLength(data, i));
      x := Or(x, Shl(b % 0x80, shift, 64));
      total := Extend(total, b % 0x80, shift);
      shift := shift + 7;
    }
  }

  method ScanFixed(data: seq<byte>, i: nat) returns (x: uint64)
    requires i + 8 <= |data|
    ensures x == FromBigEndian(data[i..i + 8]) % TWO_64
  {
    hide Or, Shl;
    var v := 0;
    for n := 0 to 8
      invariant v == FromBigEndian(data[i..i + n])
    {
      assert data[i..i + n + 1][..n] == data[i..i + n];
      v := v * 0x100 + data[i + n];
    }
    x := v % TWO_64;
  }

  method ScanUint64(data: seq<byte>, header: byte, i: nat, k: nat) returns (r: Field<uint64>)
    requires i <= |data|
    ensures r == GetUint64(data, header, i, k)
  {
    hide ReadVarint, FromBigEndian, Pow2;
    if header == k {
      var x, next, eof := ScanVarint(data, i, 64, true);
      Pow2Values();
      return if eof then Cut(next) else Present(x, next + 1);
    } else if header == k + FLAG {
      if i + 8 >= |data| {
        return Cut(i + 8);
      }
      var x := ScanFixed(data, i);
      return Present(x, i + 9);
    }
    return Absent;
  }

  method ScanKind(data: seq<byte>, header: byte, i: nat) returns (r: Field<int32>)
    requires i <= |data|
    ensures r == GetKind(data, header, i)
  {
    hide ReadVarint, Pow2, AsInt32, Negate32;
    if header == 2 || header == 2 + FLAG {
      var x, next, eof := ScanVarint(data, i, 32, false);
      Pow2Values();
      if eof {
        return Cut(next);
      }
      return Present(AsInt32(if header == 2 then x else Negate32(x)), next + 1);
    }
    return Absent;
  }

  method ScanCmd(data: seq<byte>, header: byte, i: nat) returns (r: CmdField)
    requires i <= |data|
    ensures r == GetCmd(data, header, i)
  {
    hide ReadLength, Pow2;
    if header == 7 {
      var x, next, eof := ScanLength(data, i);
      Pow2Values();
      if eof {
        return CutCmd(next);
      }
      if x > SIZE_MAX {
        return LongCmd;
      }
      if next + x >= |data| {
        return CutCmd(next + x);
      }
      return Cmd(data[next..next + x], next + x + 1);
    }
    return NoCmd;
  }

  method ReadUint64(data: seq<byte>, c: Cursor, k: nat) returns (r: Cursor)
    requires Inside(c, data) && IsUint64Field(k)
    ensures Inside(r, data) && r == GetField(data, c, k)
  {
    hide GetUint64, SetUint64;
    r := c;
    if c.At? {
      var f := ScanUint64(data, c.header, c.i, k);
      match f
      case Absent =>
      case Cut(at) => r := Eof(at);
      case Present(x, next) => r := At(SetUint64(c.e, k, x), data[next - 1], next);
    }
  }

  method ReadKind(data: seq<byte>, c: Cursor) returns (r: Cursor)
    requires Inside(c, data)
    ensures Inside(r, data) && r == GetField(data, c, 2)
  {
    hide GetKind;
    r := c;
    if c.At? {
      var f := ScanKind(data, c.header, c.i);
      match f
      case Absent =>
      case Cut(at) => r := Eof(at);
      case Present(x, next) => r := At(c.e.(kind := x), data[next - 1], next);
    }
  }

  method ReadCmd(data: seq<byte>, c: Cursor) returns (r: Cursor)
    requires Inside(c, data)
    ensures Inside(r, data) && r == GetField(data, c, 7)
  {
    hide GetCmd;
    r := c;
    if c.At? {
      var f := ScanCmd(data, c.header, c.i);
      match f
      case NoCmd =>
      case LongCmd => r := TooBig;
      case CutCmd(at) => r := Eof(at);
      case Cmd(cmd, next) => r := At(c.e.(cmd := cmd), data[next - 1], next);
    }
  }

  /** Reads an entry into `o`. Every index it uses is inside `data` and it stops on every input; a
      cursor that has run out passes through the remaining fields as the source's jump to `eof`. */
  method Unmarshal(data: seq<byte>, o: Entry) returns (r: Decoded)
    ensures r == Decode(data, o)
  {
    hide GetField, Finish;
    if |data| == 0 {
      return EofError;
    }
    var c := At(o, data[0], 1);
    c := ReadUint64(data, c, 0);
    c := ReadUint64(data, c, 1);
    c := ReadKind(data, c);
    c := ReadUint64(data, c, 3);
    c := ReadUint64(data, c, 4);
    c := ReadUint64(data, c, 5);
    c := ReadUint64(data, c, 6);
    c := ReadCmd(data, c);
    r := Finish(c);
  }
}
