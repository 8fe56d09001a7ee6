/** Decoding undoes encoding, whatever follows the record, for every record below the limit. */
module EntryRoundTrip {
  import opened Bits
  import opened EntryFormat

  // ---- varints ----

  predicate Holds(data: seq<byte>, i: nat, s: seq<byte>) {
    i + |s| <= |data| && data[i..i + |s|] == s
  }

  lemma HoldsTail(data: seq<byte>, i: nat, s: seq<byte>, t: seq<byte>)
    requires Holds(data, i, s + t)
    ensures Holds(data, i, s) && Holds(data, i + |s|, t)
  {
    assert data[i..i + |s|] == (s + t)[..|s|];
    assert data[i + |s|..i + |s| + |t|] == (s + t)[|s|..];
  }

  lemma {:induction false} VarintReads(data: seq<byte>, i: nat, k: nat, v: nat, capped: bool)
    requires Holds(data, i, Uvarint(v)) && i + |Uvarint(v)| < |data|
    requires capped ==> k + |Uvarint(v)| <= 9
    ensures ReadVarint(data, i, k, capped) == Value(v, i + |Uvarint(v)|)
    decreases v
  {
    assert data[i] == Uvarint(v)[0];
    if v >= 0x80 {
      HoldsTail(data, i, [data[i]], Uvarint(v / 0x80));
      VarintReads(data, i + 1, k + 1, v / 0x80, capped);
    }
  }

  lemma {:induction false} LengthReads(data: seq<byte>, i: nat, v: nat)
    requires Holds(data, i, Uvarint(v))
    ensures ReadLength(data, i) == Value(v, i + |Uvarint(v)|)
    decreases v
  {
    assert data[i] == Uvarint(v)[0];
    if v >= 0x80 {
      HoldsTail(data, i, [data[i]], Uvarint(v / 0x80));
      LengthReads(data, i + 1, v / 0x80);
    }
  }

  lemma {:induction false} UvarintMonotone(a: nat, b: nat)
    requires a <= b
    ensures |Uvarint(a)| <= |Uvarint(b)|
  {
    if a >= 0x80 {
      UvarintMonotone(a / 0x80, b / 0x80);
    }
  }

  /** Seven groups hold 49 bits. */
  lemma UvarintSevenGroups(v: nat)
    ensures v < TWO_49 <==> |Uvarint(v)| <= 7
  {
    var a := 0x80;
    var v1 := v / a; var v2 := v1 / a; var v3 := v2 / a; var v4 := v3 / a; var v5 := v4 / a; var v6 := v5 / a;
    assert |Uvarint(v6)| <= 1 <==> v6 < a;
    assert |Uvarint(v4)| <= 3 <==> v6 < a;
    assert |Uvarint(v2)| <= 5 <==> v6 < a;
    assert |Uvarint(v)| <= 7 <==> v6 < a;
  }

  lemma {:induction false} BigEndianReads(x: nat, n: nat)
    requires x < Pow2(8 * n)
    ensures FromBigEndian(BigEndian(x, n)) == x
  {
    if n > 0 {
      Pow2Values();
      Pow2Add(8 * (n - 1), 8);
      BigEndianReads(x / 0x100, n - 1);
      var s := BigEndian(x, n);
      assert s[..|s| - 1] == BigEndian(x / 0x100, n - 1);
    }
  }

  // ---- one field ----

  /** A field reads back, whatever follows it, wherever it was written. */
  lemma Uint64Reads(data: seq<byte>, p: nat, k: nat, x: uint64)
    requires k < 7 && x != 0
    requires Holds(data, p, PutUint64(k, x)) && p + |PutUint64(k, x)| < |data|
    ensures GetUint64(data, data[p], p + 1, k) == Present(x, p + |PutUint64(k, x)| + 1)
  {
    if x >= TWO_49 {
      HoldsTail(data, p, [k + FLAG], BigEndian(x, 8));
      assert data[p] == PutUint64(k, x)[0] == k + FLAG;
      assert data[p + 1..p + 9] == BigEndian(x, 8);
      BigEndian8Reads(x);
    } else {
      HoldsTail(data, p, [k], Uvarint(x));
      assert data[p] == PutUint64(k, x)[0] == k;
      UvarintSevenGroups(x);
      VarintReads(data, p + 1, 0, x, true);
    }
  }

  lemma BigEndian8Reads(x: uint64)
    ensures FromBigEndian(BigEndian(x, 8)) == x
  {
    Pow2Values();
    BigEndianReads(x, 8);
  }

  lemma KindReads(data: seq<byte>, p: nat, v: int32)
    requires v != 0 && Holds(data, p, PutKind(v)) && p + |PutKind(v)| < |data|
    ensures GetKind(data, data[p], p + 1) == Present(v, p + |PutKind(v)| + 1)
  {
    var u := Magnitude(v);
    HoldsTail(data, p, [if v > 0 then 2 else 2 + FLAG], Uvarint(u));
    assert data[p] == PutKind(v)[0];
    VarintReads(data, p + 1, 0, u, false);
    SignedMagnitude(v);
  }

  function Magnitude(v: int32): uint32 { if v > 0 then AsUint32(v) else Negate32(AsUint32(v)) }

  /** Sign and magnitude give back the value, down to -2^31. */
  lemma SignedMagnitude(v: int32)
    ensures AsInt32(if v > 0 then Magnitude(v) else Negate32(Magnitude(v))) == v
    ensures if v < 0 then Magnitude(v) + v == 0 else Magnitude(v) == v
  {
  }

  lemma CmdReads(data: seq<byte>, p: nat, cmd: seq<byte>)
    requires 0 < |cmd| <= SIZE_MAX && Holds(data, p, PutCmd(cmd)) && p + |PutCmd(cmd)| < |data|
    ensures GetCmd(data, data[p], p + 1) == Cmd(cmd, p + |PutCmd(cmd)| + 1)
  {
    hide ReadLength, Uvarint;
    assert PutCmd(cmd) == [7] + (Uvarint(|cmd|) + cmd);
    HoldsTail(data, p, [7], Uvarint(|cmd|) + cmd);
    HoldsTail(data, p + 1, Uvarint(|cmd|), cmd);
    assert data[p] == PutCmd(cmd)[0] == 7;
    LengthReads(data, p + 1, |cmd|);
  }

  // ---- the whole record ----

  /** What is written from field `k` on starts with a header of field `k` or later. */
  lemma {:induction false} HeaderOrder(e: Entry, k: nat)
    requires k <= 8
    ensures EncodeFrom(e, k)[0] % 0x80 >= k
    decreases 8 - k
  {
    hide Uvarint, BigEndian, Uint64At, AsUint32, Negate32;
    if k < 8 {
      HeaderOrder(e, k + 1);
    }
  }

  /** The entry `e` with the fields from `k` on still at their zero values. */
  function Prefix(e: Entry, k: nat): Entry {
    Entry(
      if k > 0 then e.term else 0, if k > 1 then e.index else 0, if k > 2 then e.kind else 0,
      if k > 3 then e.key else 0, if k > 4 then e.clientId else 0, if k > 5 then e.seriesId else 0,
      if k > 6 then e.respondedTo else 0, if k > 7 then e.cmd else [])
  }

  lemma PrefixSet(e: Entry, k: nat)
    requires IsUint64Field(k)
    ensures SetUint64(Prefix(e, k), k, Uint64At(e, k)) == Prefix(e, k + 1)
    ensures Uint64At(e, k) == 0 ==> Prefix(e, k) == Prefix(e, k + 1)
  {
  }

  lemma FieldReads(data: seq<byte>, p: nat, e: Entry, k: nat)
    requires k < 8 && |e.cmd| <= SIZE_MAX && p < |data|
    requires Holds(data, p, PutField(e, k)) && p + |PutField(e, k)| < |data|
    requires data[p + |PutField(e, k)|] % 0x80 > k
    ensures var q := p + |PutField(e, k)|;
            GetField(data, At(Prefix(e, k), data[p], p + 1), k) == At(Prefix(e, k + 1), data[q], q + 1)
  {
    if k == 2 {
      if e.kind != 0 { KindReads(data, p, e.kind); }
    } else if k == 7 {
      if e.cmd != [] { CmdReads(data, p, e.cmd); }
    } else {
      PrefixSet(e, k);
      if Uint64At(e, k) != 0 { Uint64Reads(data, p, k, Uint64At(e, k)); }
    }
  }

  lemma FieldStep(data: seq<byte>, p: nat, e: Entry, k: nat)
    requires k < 8 && |e.cmd| <= SIZE_MAX && Holds(data, p, EncodeFrom(e, k))
    ensures var q := p + |PutField(e, k)|;
            q < |data| && Holds(data, q, EncodeFrom(e, k + 1)) &&
            GetField(data, At(Prefix(e, k), data[p], p + 1), k) == At(Prefix(e, k + 1), data[q], q + 1)
  {
    hide PutField, GetField, Prefix;
    var rest := EncodeFrom(e, k + 1);
    HoldsTail(data, p, PutField(e, k), rest);
    HeaderOrder(e, k + 1);
    var q := p + |PutField(e, k)|;
    assert data[q] == data[q..q + |rest|][0] == rest[0];
    FieldReads(data, p, e, k);
  }

  lemma {:induction false} FieldsRead(data: seq<byte>, p: nat, e: Entry, k: nat)
    requires k <= 8 && |e.cmd| <= SIZE_MAX && Holds(data, p, EncodeFrom(e, k))
    ensures p < |data| && p + |EncodeFrom(e, k)| <= |data|
    ensures GetFields(data, At(Prefix(e, k), data[p], p + 1), k) ==
            At(e, TERMINATOR, p + |EncodeFrom(e, k)|)
    decreases 8 - k
  {
    hide PutField, GetField;
    if k == 8 {
      assert data[p] == data[p..p + 1][0] == TERMINATOR;
    } else {
      FieldStep(data, p, e, k);
      FieldsRead(data, p + |PutField(e, k)|, e, k + 1);
    }
  }

  lemma RecordReads(data: seq<byte>, e: Entry)
    requires |Encode(e)| <= SIZE_MAX && Holds(data, 0, Encode(e))
    ensures |data| > 0
    ensures Decode(data, EMPTY_ENTRY) == Finish(At(e, TERMINATOR, |Encode(e)|))
  {
    hide PutField, GetField;
    CmdLength(e, FIRST);
    assert Prefix(e, FIRST) == EMPTY_ENTRY;
    FieldsRead(data, 0, e, FIRST);
  }

  lemma {:induction false} CmdLength(e: Entry, k: nat)
    requires k <= 7
    ensures |e.cmd| < |EncodeFrom(e, k)|
    decreases 7 - k
  {
    if k < 7 {
      CmdLength(e, k + 1);
    }
  }

  /** Round trip: a record shorter than the limit, followed by anything, decodes to its entry and
      its own length. */
  lemma DecodeEncode(e: Entry, tail: seq<byte>)
    requires |Encode(e)| < SIZE_MAX
    ensures Decode(Encode(e) + tail, EMPTY_ENTRY) == Ok(|Encode(e)|, e)
  {
    var s := Encode(e);
    assert (s + tail)[0..0 + |s|] == s;
    RecordReads(s + tail, e);
  }

  /** Exactly at the limit the encoder still writes the record but the decoder refuses it. */
  lemma DecodeAtLimit(e: Entry, tail: seq<byte>)
    requires |Encode(e)| == SIZE_MAX
    ensures Decode(Encode(e) + tail, EMPTY_ENTRY) == MaxError
  {
    var s := Encode(e);
    assert (s + tail)[0..0 + |s|] == s;
    RecordReads(s + tail, e);
  }

  /** Of the entries the encoder accepts, exactly those below the limit read back. */
  lemma RoundTripExactly(e: Entry, tail: seq<byte>)
    requires |Encode(e)| <= SIZE_MAX
    ensures Decode(Encode(e) + tail, EMPTY_ENTRY) == Ok(|Encode(e)|, e) <==> |Encode(e)| < SIZE_MAX
  {
    hide Encode, Decode;
    if |Encode(e)| < SIZE_MAX { DecodeEncode(e, tail); } else { DecodeAtLimit(e, tail); }
  }

  /** The entry with nothing but a payload of `n` bytes. */
  function PayloadOnly(n: nat): Entry { EMPTY_ENTRY.(cmd := seq(n, _ => 0)) }

  lemma PayloadLength(n: nat)
    requires n > 0
    ensures |Encode(PayloadOnly(n))| == 2 + |Uvarint(n)| + n
  {
    hide Uvarint;
    var e := PayloadOnly(n);
    assert PutField(e, 7) == [7] + Uvarint(n) + e.cmd;
    assert |EncodeFrom(e, 6)| == 2 + |Uvarint(n)| + n;
    assert EncodeFrom(e, 4) == EncodeFrom(e, 6);
    assert EncodeFrom(e, 2) == EncodeFrom(e, 4);
  }

  /** There are such records: a payload six bytes short of the limit makes one. */
  lemma LimitIsReached()
    ensures SIZE_MAX == 0x1000_0000 && |Encode(PayloadOnly(0xfff_fffa))| == 0x1000_0000
  {
    var n: nat := SIZE_MAX - 6;
    var n1 := n / 0x80;
    var n2 := n1 / 0x80;
    assert |Uvarint(n2)| == 2;
    assert |Uvarint(n1)| == 3;
    assert |Uvarint(n)| == 4;
    PayloadLength(n);
  }

  /** Records are self-delimiting: no two entries share bytes, even when something follows. */
  lemma EncodePrefixFree(a: Entry, b: Entry, t: seq<byte>, u: seq<byte>)
    requires |Encode(a)| < SIZE_MAX && |Encode(b)| < SIZE_MAX
    requires Encode(a) + t == Encode(b) + u
    ensures a == b && t == u
  {
    DecodeEncode(a, t);
    DecodeEncode(b, u);
    assert t == (Encode(a) + t)[|Encode(a)|..];
    assert u == (Encode(b) + u)[|Encode(b)|..];
  }
}
