/** Which accepted bytes are the encoder's own: a test on the bytes, field by field, and the proof that
    it is exact. */
module EntryCanonical {
  import opened Bits
  import opened EntryFormat
  import opened EntryRoundTrip
  import opened EntryStability

  // ---- the test ----

  /** An integer as a varint has at most seven groups, the last not zero; as eight bytes it is at
      least 2^49. */
  predicate CanonicalUint64(data: seq<byte>, header: byte, i: nat, k: nat)
    requires i <= |data|
  {
    && (header == k ==>
          var v := ReadVarint(data, i, 0, true); v.Value? ==> v.next - i <= 7 && data[v.next - 1] != 0)
    && (header == k + FLAG && i + 8 < |data| ==> FromBigEndian(data[i..i + 8]) >= TWO_49)
  }

  /** The magnitude of Type has no empty last group and fits the sign: below 2^31, or up to 2^31 when
      negative. */
  predicate CanonicalKind(data: seq<byte>, header: byte, i: nat)
    requires i <= |data|
  {
    header == 2 || header == 2 + FLAG ==>
      var v := ReadVarint(data, i, 0, false);
      v.Value? ==> data[v.next - 1] != 0 && v.x <= if header == 2 then TWO_31 - 1 else TWO_31
  }

  /** The length of Cmd has no empty last group, so it is not zero, and needs no more than 64 bits. */
  predicate CanonicalCmd(data: seq<byte>, header: byte, i: nat)
    requires i <= |data|
  {
    header == 7 ==> var v := ReadLength(data, i); v.Value? ==> data[v.next - 1] != 0 && v.x < TWO_64
  }

  predicate CanonicalField(data: seq<byte>, c: Cursor, k: nat)
    requires c.At? && Inside(c, data) && k < 8
  {
    if k == 2 then CanonicalKind(data, c.header, c.i)
    else if k == 7 then CanonicalCmd(data, c.header, c.i)
    else CanonicalUint64(data, c.header, c.i, k)
  }

  predicate CanonicalFields(data: seq<byte>, c: Cursor, k: nat)
    requires Inside(c, data) && k <= 8
    decreases 8 - k
  {
    c.At? && k < 8 ==> CanonicalField(data, c, k) && CanonicalFields(data, GetField(data, c, k), k + 1)
  }

  predicate Canonical(data: seq<byte>) {
    data != [] ==> CanonicalFields(data, At(EMPTY_ENTRY, data[0], 1), FIRST)
  }

  // ---- varints ----

  /** A varint is the shortest one of its value exactly when its last group is not zero. */
  lemma {:induction false} VarintBytes(data: seq<byte>, i: nat, k: nat, capped: bool)
    requires i <= |data|
    ensures var r := ReadVarint(data, i, k, capped);
            r.Value? && (capped ==> k + (r.next - i) <= 8) ==>
              && (data[i..r.next] == Uvarint(r.x) <==> r.next == i + 1 || data[r.next - 1] != 0)
              && (r.x == 0 ==> data[r.next - 1] == 0)
              && (r.next == i + 1 ==> r.x == data[i])
              && data[r.next - 1] < 0x80
    decreases |data| - i
  {
    var r := ReadVarint(data, i, k, capped);
    if r.Value? && data[i] >= 0x80 && (capped ==> k + (r.next - i) <= 8) {
      VarintBytes(data, i + 1, k + 1, capped);
      GroupBytes(data, i, r.next, ReadVarint(data, i + 1, k + 1, capped).x);
    }
  }

  lemma GroupBytes(data: seq<byte>, i: nat, next: nat, x: nat)
    requires i + 1 < next <= |data| && data[i] >= 0x80
    ensures var whole := data[i] % 0x80 + 0x80 * x;
            data[i..next] == Uvarint(whole) <==> x > 0 && data[i + 1..next] == Uvarint(x)
  {
    var whole := data[i] % 0x80 + 0x80 * x;
    assert data[i..next] == [data[i]] + data[i + 1..next];
    assert whole / 0x80 == x && whole % 0x80 == data[i] % 0x80;
    if x > 0 {
      assert Uvarint(whole) == [data[i]] + Uvarint(x);
      assert data[i..next][1..] == data[i + 1..next] && Uvarint(whole)[1..] == Uvarint(x);
    } else {
      assert |data[i..next]| > 1 && |Uvarint(whole)| == 1;
    }
  }

  lemma {:induction false} LengthBytes(data: seq<byte>, i: nat)
    requires i <= |data|
    ensures var r := ReadLength(data, i);
            r.Value? ==>
              && (data[i..r.next] == Uvarint(r.x) <==> r.next == i + 1 || data[r.next - 1] != 0)
              && (r.x == 0 ==> data[r.next - 1] == 0)
              && (r.next == i + 1 ==> r.x == data[i])
    decreases |data| - i
  {
    var r := ReadLength(data, i);
    if r.Value? && data[i] >= 0x80 {
      LengthBytes(data, i + 1);
      GroupBytes(data, i, r.next, ReadLength(data, i + 1).x);
    }
  }

  lemma SevenGroups(data: seq<byte>, i: nat)
    requires i <= |data|
    ensures var r := ReadVarint(data, i, 0, true); r.Value? && r.next - i <= 7 ==> r.x < TWO_49
  {
    hide ReadVarint, Uvarint;
    VarintShortest(data, i, 0, true);
    var r := ReadVarint(data, i, 0, true);
    if r.Value? {
      UvarintSevenGroups(r.x);
    }
  }

  // ---- one field ----

  /** The bytes of the field just read, header included. */
  function FieldBytes(data: seq<byte>, i: nat, next: nat): seq<byte>
    requires 1 <= i <= next <= |data|
  {
    data[i - 1..next - 1]
  }

  lemma {:induction false} BigEndianBytes(s: seq<byte>)
    ensures BigEndian(FromBigEndian(s), |s|) == s && FromBigEndian(s) < Pow2(8 * |s|)
    decreases |s|
  {
    if s != [] {
      var t := s[..|s| - 1];
      BigEndianBytes(t);
      Pow2Values();
      Pow2Add(8 * |t|, 8);
      hide Pow2;
      assert s == t + [s[|s| - 1]];
      assert FromBigEndian(s) / 0x100 == FromBigEndian(t) && FromBigEndian(s) % 0x100 == s[|s| - 1];
    }
  }

  lemma FixedCanonical(data: seq<byte>, i: nat, k: nat)
    requires 1 <= i && i + 8 < |data| && k < 7 && data[i - 1] == k + FLAG
    ensures var x := FromBigEndian(data[i..i + 8]);
            x < TWO_64 && (FieldBytes(data, i, i + 9) == PutUint64(k, x) <==> x >= TWO_49)
  {
    hide Uvarint, BigEndian, FromBigEndian;
    var s := data[i..i + 8];
    BigEndianBytes(s);
    Pow2Values();
    assert FieldBytes(data, i, i + 9) == [k + FLAG] + s;
    assert FieldBytes(data, i, i + 9)[0] == k + FLAG;
  }

  /** What the encoder writes, against a header and a varint of the same value. */
  lemma PutMatches(k: nat, x: uint64, s: seq<byte>)
    requires k < 7 && s != []
    ensures [k] + s == PutUint64(k, x) <==> 0 < x < TWO_49 && s == Uvarint(x)
  {
    hide Uvarint, BigEndian;
    if x >= TWO_49 {
      assert PutUint64(k, x)[0] == k + FLAG && ([k] + s)[0] == k;
    } else if x > 0 {
      HeadTail(k, s, k, Uvarint(x));
    }
  }

  lemma VarintCanonical(data: seq<byte>, i: nat, k: nat, v: Varint)
    requires 1 <= i <= |data| && k < 7 && data[i - 1] == k && v == ReadVarint(data, i, 0, true) && v.Value?
    ensures v.x < TWO_64
    ensures FieldBytes(data, i, v.next + 1) == PutUint64(k, v.x) <==> v.next - i <= 7 && data[v.next - 1] != 0
  {
    hide PutUint64, Uvarint, ReadVarint;
    VarintFits(data, i, 0);
    Pow2Values();
    hide Pow2;
    VarintBytes(data, i, 0, true);
    SevenGroups(data, i);
    assert FieldBytes(data, i, v.next + 1) == [k] + data[i..v.next];
    PutMatches(k, v.x, data[i..v.next]);
    UvarintSevenGroups(v.x);
    assert |data[i..v.next]| == v.next - i;
  }

  lemma Uint64Canonical(data: seq<byte>, i: nat, k: nat)
    requires 1 <= i <= |data| && k < 7 && GetUint64(data, data[i - 1], i, k).Present?
    ensures var r := GetUint64(data, data[i - 1], i, k);
            FieldBytes(data, i, r.next) == PutUint64(k, r.x) <==> CanonicalUint64(data, data[i - 1], i, k)
  {
    hide PutUint64, ReadVarint, FromBigEndian;
    if data[i - 1] == k {
      VarintCanonical(data, i, k, ReadVarint(data, i, 0, true));
    } else {
      FixedCanonical(data, i, k);
    }
  }

  lemma KindValues(u: nat, negative: bool)
    ensures var x := AsInt32(if negative then Negate32(u % TWO_32) else u % TWO_32);
            0 < u <= (if negative then TWO_31 else TWO_31 - 1) <==> u > 0 && Magnitude(x) == u && (x < 0) == negative
  {
  }

  lemma PutKindShape(x: int32)
    requires x != 0
    ensures PutKind(x) == [if x < 0 then 2 + FLAG else 2] + Uvarint(Magnitude(x))
  {
  }

  lemma ShortestOf(data: seq<byte>, i: nat, v: Varint, y: nat)
    requires i <= |data| && v == ReadVarint(data, i, 0, false) && v.Value? && y <= v.x
    ensures data[i..v.next] == Uvarint(y) <==> y == v.x && data[i..v.next] == Uvarint(v.x)
  {
    hide ReadVarint;
    VarintShortest(data, i, 0, false);
    UvarintMonotone(y, v.x);
    VarintBytes(data, i, 0, false);
    if data[i..v.next] == Uvarint(y) {
      ReadsBack(data, i, v, y);
    }
  }

  lemma ReadsBack(data: seq<byte>, i: nat, v: Varint, y: nat)
    requires i <= |data| && v == ReadVarint(data, i, 0, false) && v.Value? && data[i..v.next] == Uvarint(y)
    ensures v.x == y
  {
    VarintReads(data, i, 0, y, false);
  }

  lemma KindCanonical(data: seq<byte>, i: nat)
    requires 1 <= i <= |data| && GetKind(data, data[i - 1], i).Present?
    ensures var r := GetKind(data, data[i - 1], i);
            FieldBytes(data, i, r.next) == PutKind(r.x) <==> CanonicalKind(data, data[i - 1], i)
  {
    hide Uvarint, ReadVarint, AsInt32, Negate32, PutKind, Magnitude;
    var header, r, v := data[i - 1], GetKind(data, data[i - 1], i), ReadVarint(data, i, 0, false);
    VarintBytes(data, i, 0, false);
    KindValues(v.x, header != 2);
    var field := FieldBytes(data, i, r.next);
    assert field == [header] + data[i..v.next];
    assert field[0] == header && field[1..] == data[i..v.next];
    if r.x == 0 {
      assert PutKind(r.x) == [] by { ZeroFieldsEmpty(0); }
      assert Magnitude(r.x) == 0 by { ZeroMagnitude(); }
    } else {
      PutKindShape(r.x);
      var sign: byte := if r.x < 0 then 2 + FLAG else 2;
      HeadTail(header, data[i..v.next], sign, Uvarint(Magnitude(r.x)));
      MagnitudeBelow(v.x, header != 2);
      NonZeroMagnitude(r.x);
      ShortestOf(data, i, v, Magnitude(r.x));
      assert field == PutKind(r.x) <==> header == sign && Magnitude(r.x) == v.x && data[i..v.next] == Uvarint(v.x);
      assert v.next == i + 1 ==> data[v.next - 1] != 0;
    }
  }

  lemma HeadTail(h: byte, s: seq<byte>, g: byte, t: seq<byte>)
    ensures [h] + s == [g] + t <==> h == g && s == t
  {
    assert ([h] + s)[0] == h && ([h] + s)[1..] == s;
    assert ([g] + t)[0] == g && ([g] + t)[1..] == t;
  }

  lemma NonZeroMagnitude(x: int32)
    requires x != 0
    ensures Magnitude(x) > 0
  {
  }

  lemma ZeroMagnitude()
    ensures Magnitude(0) == 0
  {
  }

  lemma MagnitudeBelow(u: nat, negative: bool)
    ensures Magnitude(AsInt32(if negative then Negate32(u % TWO_32) else u % TWO_32)) <= u
  {
    MagnitudeShrinks(u % TWO_32);
  }

  lemma CmdCanonical(data: seq<byte>, i: nat)
    requires 1 <= i <= |data| && GetCmd(data, data[i - 1], i).Cmd?
    ensures var r := GetCmd(data, data[i - 1], i);
            FieldBytes(data, i, r.next) == PutCmd(r.cmd) <==> CanonicalCmd(data, data[i - 1], i)
  {
    hide Uvarint, ReadLength;
    var r, v := GetCmd(data, data[i - 1], i), ReadLength(data, i);
    LengthBytes(data, i);
    var n := v.x % TWO_64;
    var field := FieldBytes(data, i, r.next);
    assert |r.cmd| == n;
    assert field == [7] + data[i..v.next] + r.cmd;
    if n == 0 {
      assert PutCmd(r.cmd) == [] && field != [];
    } else {
      var short := [7] + Uvarint(n) + r.cmd;
      assert PutCmd(r.cmd) == short;
      assert field == short <==> data[i..v.next] == Uvarint(n) by {
        if field == short {
          assert |field| == 1 + (v.next - i) + n && |short| == 1 + |Uvarint(n)| + n;
          assert field[1..1 + (v.next - i)] == data[i..v.next];
          assert short[1..1 + |Uvarint(n)|] == Uvarint(n);
        }
      }
      if data[i..v.next] == Uvarint(n) {
        LengthReads(data, i, n);
      }
    }
  }

  /** A field just read is what the encoder writes for it exactly when it passes the test. */
  lemma FieldCanonical(data: seq<byte>, c: Cursor, k: nat)
    requires c.At? && Inside(c, data) && k < 8 && c.e == Prefix(c.e, k) && GetField(data, c, k).At?
    ensures var r := GetField(data, c, k);
            c.i <= r.i && (FieldBytes(data, c.i, r.i) == PutField(r.e, k) <==> CanonicalField(data, c, k))
  {
    hide GetUint64, GetKind, GetCmd, PutKind, PutUint64, PutCmd, CanonicalUint64, CanonicalKind, CanonicalCmd;
    if k == 2 {
      if GetKind(data, c.header, c.i).Present? {
        KindCanonical(data, c.i);
      } else {
        assert FieldBytes(data, c.i, c.i) == [];
        AbsentKind(data, c.header, c.i);
      }
    } else if k == 7 {
      if GetCmd(data, c.header, c.i).Cmd? {
        CmdCanonical(data, c.i);
      } else {
        assert FieldBytes(data, c.i, c.i) == [];
        AbsentCmd(data, c.header, c.i);
      }
    } else {
      var g := GetUint64(data, c.header, c.i, k);
      if g.Present? {
        PrefixOfSet(c.e, k, g.x);
        Uint64Canonical(data, c.i, k);
      } else {
        assert FieldBytes(data, c.i, c.i) == [];
        AbsentUint64(data, c.header, c.i, k);
      }
    }
  }

  lemma AbsentUint64(data: seq<byte>, header: byte, i: nat, k: nat)
    requires i <= |data| && k < 7 && GetUint64(data, header, i, k).Absent?
    ensures CanonicalUint64(data, header, i, k) && PutUint64(k, 0) == []
  {
  }

  lemma AbsentKind(data: seq<byte>, header: byte, i: nat)
    requires i <= |data| && GetKind(data, header, i).Absent?
    ensures CanonicalKind(data, header, i) && PutKind(0) == []
  {
  }

  lemma AbsentCmd(data: seq<byte>, header: byte, i: nat)
    requires i <= |data| && GetCmd(data, header, i).NoCmd?
    ensures CanonicalCmd(data, header, i) && PutCmd([]) == []
  {
  }

  // ---- the whole record ----

  lemma SplitEqual(a: seq<byte>, b: seq<byte>, c: seq<byte>, d: seq<byte>)
    requires |c| <= |a| && |d| <= |b|
    ensures a + b == c + d <==> a == c && b == d
  {
    if a + b == c + d {
      assert |a| == |c|;
      assert (a + b)[..|a|] == a && (c + d)[..|a|] == c;
      assert (a + b)[|a|..] == b && (c + d)[|a|..] == d;
    }
  }

  lemma {:induction false} FieldsCanonical(data: seq<byte>, c: Cursor, k: nat)
    requires c.At? && Inside(c, data) && k <= 8 && c.e == Prefix(c.e, k)
    requires GetFields(data, c, k).At? && GetFields(data, c, k).header == TERMINATOR
    ensures var r := GetFields(data, c, k);
            c.i <= r.i && (data[c.i - 1..r.i] == EncodeFrom(r.e, k) <==> CanonicalFields(data, c, k))
    decreases 8 - k
  {
    hide GetField, PutField, CanonicalField, Prefix;
    var r := GetFields(data, c, k);
    if k == 8 {
      assert data[c.i - 1..c.i] == [TERMINATOR];
    } else {
      var d := GetField(data, c, k);
      if !d.At? {
        GetFieldsStuck(data, d, k + 1);
      }
      FieldShortest(data, c, k);
      FieldCanonical(data, c, k);
      FieldsCanonical(data, d, k + 1);
      FieldsShortest(data, d, k + 1);
      PutFieldOfPrefix(d.e, r.e, k);
      var a, b := FieldBytes(data, c.i, d.i), data[d.i - 1..r.i];
      assert data[c.i - 1..r.i] == a + b;
      SplitEqual(a, b, PutField(r.e, k), EncodeFrom(r.e, k + 1));
    }
  }

  /** Canonicity: the bytes an accepted input consumed are the encoder's own if and only if every field
      passes the test. */
  lemma CanonicalExactly(data: seq<byte>)
    requires Decode(data, EMPTY_ENTRY).Ok?
    ensures var r := Decode(data, EMPTY_ENTRY);
            r.n <= |data| && (data[..r.n] == Encode(r.e) <==> Canonical(data))
  {
    hide GetFields, EncodeFrom, CanonicalFields, Prefix;
    EmptyPrefix();
    FieldsCanonical(data, At(EMPTY_ENTRY, data[0], 1), FIRST);
    assert data[0..Decode(data, EMPTY_ENTRY).n] == data[..Decode(data, EMPTY_ENTRY).n];
  }
}
