/** Decode, encode, decode: whatever bytes the decoder accepts, canonical or not, the entry it
    returns encodes to no more bytes than were read and decodes back to itself. */
module EntryStability {
  import opened Bits
  import opened EntryFormat
  import opened EntryRoundTrip

  /** A varint never takes fewer bytes than its value needs, except that the ninth byte of a capped
      one may carry a bit more than a group. */
  lemma {:induction false} VarintShortest(data: seq<byte>, i: nat, k: nat, capped: bool)
    requires i <= |data| && (capped ==> k <= 8)
    ensures var r := ReadVarint(data, i, k, capped);
            r.Value? ==>
              || |Uvarint(r.x)| <= r.next - i
              || (capped && k + (r.next - i) == 9)
    decreases |data| - i
  {
    if i + 1 < |data| && data[i] >= 0x80 && !(capped && k == 8) {
      VarintShortest(data, i + 1, k + 1, capped);
    }
  }

  /** A capped varint fits 64 bits: storing it in a uint64 loses nothing. */
  lemma {:induction false} VarintFits(data: seq<byte>, i: nat, k: nat)
    requires i <= |data| && k <= 8
    ensures var r := ReadVarint(data, i, k, true); r.Value? ==> r.x < Pow2(64 - 7 * k)
    decreases |data| - i
  {
    Pow2Values();
    Pow2Monotone(8, 64 - 7 * k);
    if i + 1 < |data| && data[i] >= 0x80 && k < 8 {
      VarintFits(data, i + 1, k + 1);
      Pow2Add(7, 64 - 7 * (k + 1));
    }
  }

  lemma {:induction false} LengthShortest(data: seq<byte>, i: nat)
    requires i <= |data|
    ensures var r := ReadLength(data, i); r.Value? ==> |Uvarint(r.x)| <= r.next - i
    decreases |data| - i
  {
    if i < |data| && data[i] >= 0x80 {
      LengthShortest(data, i + 1);
    }
  }

  // ---- one field ----

  lemma Uint64Size(k: nat, x: uint64)
    requires k < 7
    ensures |PutUint64(k, x)| <= 9 && |PutUint64(k, x)| <= 1 + |Uvarint(x)|
  {
    UvarintSevenGroups(x);
  }

  lemma Uint64Shortest(data: seq<byte>, header: byte, i: nat, k: nat)
    requires i <= |data| && k < 7
    ensures var r := GetUint64(data, header, i, k); r.Present? ==> |PutUint64(k, r.x)| <= r.next - i
  {
    hide PutUint64, Uvarint, ReadVarint, FromBigEndian;
    var r := GetUint64(data, header, i, k);
    if r.Present? {
      Uint64Size(k, r.x);
      if header == k {
        var v := ReadVarint(data, i, 0, true);
        VarintShortest(data, i, 0, true);
        UvarintMonotone(r.x, v.x);
      }
    }
  }

  lemma MagnitudeShrinks(u: uint32)
    ensures Magnitude(AsInt32(u)) <= u && Magnitude(AsInt32(Negate32(u))) <= u
  {
  }

  lemma KindShortest(data: seq<byte>, header: byte, i: nat)
    requires i <= |data|
    ensures var r := GetKind(data, header, i); r.Present? ==> |PutKind(r.x)| <= r.next - i
  {
    hide Uvarint, ReadVarint, AsInt32, Negate32, AsUint32;
    var r := GetKind(data, header, i);
    if r.Present? {
      var v := ReadVarint(data, i, 0, false);
      VarintShortest(data, i, 0, false);
      var u: uint32 := v.x % TWO_32;
      MagnitudeShrinks(u);
      UvarintMonotone(Magnitude(r.x), v.x);
    }
  }

  lemma CmdShortest(data: seq<byte>, header: byte, i: nat)
    requires i <= |data|
    ensures var r := GetCmd(data, header, i); r.Cmd? ==> |PutCmd(r.cmd)| <= r.next - i
  {
    hide Uvarint, ReadLength;
    if GetCmd(data, header, i).Cmd? {
      var v := ReadLength(data, i);
      LengthShortest(data, i);
      UvarintMonotone(v.x % TWO_64, v.x);
    }
  }

  lemma PrefixOfSet(e: Entry, k: nat, x: uint64)
    requires IsUint64Field(k) && e == Prefix(e, k)
    ensures var f := SetUint64(e, k, x);
            f == Prefix(f, k + 1) && Prefix(f, k) == e && Uint64At(f, k) == x
  {
  }

  /** Reading field `k` sets that field alone and takes at least the bytes it needs. */
  lemma FieldShortest(data: seq<byte>, c: Cursor, k: nat)
    requires c.At? && Inside(c, data) && k < 8 && c.e == Prefix(c.e, k)
    ensures var r := GetField(data, c, k);
            r.At? ==> r.e == Prefix(r.e, k + 1) && Prefix(r.e, k) == c.e && |PutField(r.e, k)| <= r.i - c.i
  {
    hide GetUint64, GetKind, GetCmd, PutKind, PutUint64, PutCmd;
    if k == 2 {
      KindShortest(data, c.header, c.i);
      assert |PutKind(0)| == 0 by { ZeroFieldsEmpty(0); }
    } else if k == 7 {
      CmdShortest(data, c.header, c.i);
      ZeroFieldsEmpty(0);
    } else {
      Uint64Shortest(data, c.header, c.i, k);
      ZeroFieldsEmpty(k);
      match GetUint64(data, c.header, c.i, k)
      case Present(x, _) => PrefixOfSet(c.e, k, x);
      case _ => PrefixOfSet(c.e, k, 0);
    }
  }

  lemma ZeroFieldsEmpty(k: nat)
    requires k < 7
    ensures PutUint64(k, 0) == [] && PutKind(0) == [] && PutCmd([]) == []
  {
  }

  lemma {:induction false} FieldsShortest(data: seq<byte>, c: Cursor, k: nat)
    requires c.At? && Inside(c, data) && k <= 8 && c.e == Prefix(c.e, k)
    ensures var r := GetFields(data, c, k);
            r.At? ==> Prefix(r.e, k) == c.e && |EncodeFrom(r.e, k)| <= r.i - c.i + 1
    decreases 8 - k
  {
    hide GetField, PutField;
    if k < 8 {
      var d := GetField(data, c, k);
      FieldShortest(data, c, k);
      if d.At? {
        FieldsShortest(data, d, k + 1);
        var r := GetFields(data, d, k + 1);
        if r.At? { PutFieldOfPrefix(d.e, r.e, k); }
      } else {
        GetFieldsStuck(data, d, k + 1);
      }
    }
  }

  lemma PutFieldOfPrefix(d: Entry, r: Entry, k: nat)
    requires k < 8 && Prefix(r, k + 1) == d
    ensures PutField(d, k) == PutField(r, k) && Prefix(d, k) == Prefix(r, k)
  {
  }

  /** The accepted bytes are a prefix of the input, and the encoding of the entry is no longer. */
  lemma EncodeNoLonger(data: seq<byte>)
    ensures var r := Decode(data, EMPTY_ENTRY);
            r.Ok? ==> |Encode(r.e)| <= r.n <= |data| && r.n < SIZE_MAX
  {
    hide GetFields, EncodeFrom, Prefix;
    if data != [] {
      var c := At(EMPTY_ENTRY, data[0], 1);
      EmptyPrefix();
      FieldsShortest(data, c, FIRST);
    }
  }

  lemma EmptyPrefix()
    ensures Prefix(EMPTY_ENTRY, FIRST) == EMPTY_ENTRY
  {
  }

  /** Stability: re-encoding what was decoded and decoding it again gives the same entry. */
  lemma DecodeEncodeDecode(data: seq<byte>, tail: seq<byte>)
    requires Decode(data, EMPTY_ENTRY).Ok?
    ensures var e := Decode(data, EMPTY_ENTRY).e;
            Decode(Encode(e) + tail, EMPTY_ENTRY) == Ok(|Encode(e)|, e)
  {
    EncodeNoLonger(data);
    DecodeEncode(Decode(data, EMPTY_ENTRY).e, tail);
  }

  /** Size alone does not make bytes canonical: 2^49 as an eight-group varint is accepted, takes as
      many bytes as the fixed form the encoder chooses, and differs from it. */
  lemma SameSizeOtherBytes()
    ensures var data := [0, 0x80, 0x80, 0x80, 0x80, 0x80, 0x80, 0x80, 1, TERMINATOR];
            var e := EMPTY_ENTRY.(term := TWO_49);
            Decode(data, EMPTY_ENTRY) == Ok(10, e) && |Encode(e)| == 10 && Encode(e) != data
  {
    var data: seq<byte> := [0, 0x80, 0x80, 0x80, 0x80, 0x80, 0x80, 0x80, 1, TERMINATOR];
    var e := EMPTY_ENTRY.(term := TWO_49);
    assert ReadVarint(data, 8, 7, true) == Value(1, 9);
    assert ReadVarint(data, 6, 5, true) == Value(0x4000, 9);
    assert ReadVarint(data, 4, 3, true) == Value(0x1000_0000, 9);
    assert ReadVarint(data, 2, 1, true) == Value(0x400_0000_0000, 9);
    assert ReadVarint(data, 1, 0, true) == Value(TWO_49, 9);
    var c := GetField(data, At(EMPTY_ENTRY, 0, 1), 0);
    assert c == At(e, TERMINATOR, 10);
    assert GetFields(data, c, 1) == c;
    assert PutUint64(0, TWO_49) == [FLAG] + BigEndian(TWO_49, 8);
    assert EncodeFrom(e, 1) == [TERMINATOR];
    assert Encode(e) == PutUint64(0, TWO_49) + [TERMINATOR];
  }
}
