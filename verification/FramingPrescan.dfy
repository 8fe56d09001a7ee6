/** What the pre-scan of a message decoder does on arbitrary bytes, and exactly when it lets the
    decoder through. */
module FramingPrescan {
  import opened Bits
  import opened EntryFormat
  import opened Framing
  import opened FramingWraps

  // ---- where the pre-scan goes ----

  /** The position after `n` jumps, or the last one reached. */
  ghost function Pos(data: seq<byte>, f: nat, n: nat): int {
    if n == 0 then 0
    else
      var p := Pos(data, f, n - 1);
      match JumpFrom(data, p, f)
      case To(next) => next
      case _ => p
  }

  /** The pre-scan counts one more record after `n` jumps. */
  ghost predicate Jumps(data: seq<byte>, f: nat, n: nat) { JumpFrom(data, Pos(data, f, n), f).To? }

  ghost predicate JumpsBelow(data: seq<byte>, f: nat, n: nat) { forall m | 0 <= m < n :: Jumps(data, f, m) }

  ghost predicate EndsAfter(data: seq<byte>, f: nat, n: nat) {
    JumpsBelow(data, f, n) && JumpFrom(data, Pos(data, f, n), f) == End
  }

  ghost predicate CrashesAfter(data: seq<byte>, f: nat, n: nat) {
    JumpsBelow(data, f, n) && JumpFrom(data, Pos(data, f, n), f) == Crash
  }

  lemma {:induction false} Unrolled(data: seq<byte>, f: nat, n: nat, rounds: nat) returns (k: nat)
    requires JumpsBelow(data, f, n)
    ensures k <= rounds && JumpsBelow(data, f, n + k)
    ensures match CountFrom(data, Pos(data, f, n), f, rounds)
            case Count(c) => c == k && EndsAfter(data, f, n + k)
            case OutOfRange => CrashesAfter(data, f, n + k)
            case Endless => k == rounds && Jumps(data, f, n + k)
    decreases rounds
  {
    hide JumpFrom;
    k := 0;
    if JumpFrom(data, Pos(data, f, n), f).To? && rounds > 0 {
      assert Jumps(data, f, n);
      var rest := Unrolled(data, f, n + 1, rounds - 1);
      k := rest + 1;
      assert n + k == n + 1 + rest;
    }
  }

  // ---- going round in circles ----

  lemma JumpsInside(data: seq<byte>, f: nat, n: nat)
    requires Jumps(data, f, n)
    ensures 0 <= Pos(data, f, n) < |data|
  {
  }

  lemma {:induction false} DistinctBelow(s: seq<int>, bound: nat)
    requires forall i | 0 <= i < |s| :: 0 <= s[i] < bound
    requires forall i, j | 0 <= i < j < |s| :: s[i] != s[j]
    ensures |s| <= bound
    decreases bound
  {
    if |s| > 0 {
      assert 0 <= s[0] < bound;
      if i :| 0 <= i < |s| && s[i] == bound - 1 {
        var t := s[..i] + s[i + 1..];
        assert forall j | 0 <= j < |t| :: t[j] == s[if j < i then j else j + 1];
        DistinctBelow(t, bound - 1);
      } else {
        DistinctBelow(s, bound - 1);
      }
    }
  }

  /** More jumps than positions visit a position twice. */
  lemma Revisits(data: seq<byte>, f: nat) returns (a: nat, b: nat)
    requires JumpsBelow(data, f, |data| + 1)
    ensures a < b <= |data| && Pos(data, f, a) == Pos(data, f, b)
  {
    hide JumpFrom, Pos;
    var visited := seq(|data| + 1, n requires 0 <= n => Pos(data, f, n));
    forall n | 0 <= n < |visited|
      ensures 0 <= visited[n] < |data|
    {
      JumpsInside(data, f, n);
    }
    if forall i, j | 0 <= i < j < |visited| :: visited[i] != visited[j] {
      DistinctBelow(visited, |data|);
      assert false;
    }
    a, b :| 0 <= a < b < |visited| && visited[a] == visited[b];
  }

  lemma {:induction false} Repeats(data: seq<byte>, f: nat, a: nat, b: nat, n: nat)
    requires Pos(data, f, a) == Pos(data, f, b)
    ensures Pos(data, f, a + n) == Pos(data, f, b + n)
    decreases n
  {
    hide JumpFrom;
    if n > 0 {
      Repeats(data, f, a, b, n - 1);
      assert a + n - 1 == a + (n - 1) && b + n - 1 == b + (n - 1);
    }
  }

  lemma {:induction false} CircleJumps(data: seq<byte>, f: nat, a: nat, b: nat, n: nat)
    requires a < b && Pos(data, f, a) == Pos(data, f, b) && JumpsBelow(data, f, b)
    ensures Jumps(data, f, n)
    decreases n
  {
    hide JumpFrom;
    if n >= b {
      Repeats(data, f, a, b, n - b);
      CircleJumps(data, f, a, b, a + (n - b));
    }
  }

  /**
    * The three outcomes are exact: the pre-scan counts `c` exactly when it ends after `c` jumps, it
    * indexes outside the slice exactly when some jump takes it there, and it is given up exactly when
    * it would jump for ever.
    */
  lemma PrescanExact(data: seq<byte>, f: nat)
    ensures forall c :: CountRun(data, f) == Count(c) <==> EndsAfter(data, f, c)
    ensures CountRun(data, f) == OutOfRange <==> exists n :: CrashesAfter(data, f, n)
    ensures CountRun(data, f) == Endless <==> forall n: nat :: Jumps(data, f, n)
  {
    hide JumpFrom, Pos;
    assert Pos(data, f, 0) == 0 by { PosStart(data, f); }
    var k := Unrolled(data, f, 0, |data|);
    assert 0 + k == k;
    if CountRun(data, f) == Endless {
      assert JumpsBelow(data, f, |data| + 1);
      var a, b := Revisits(data, f);
      forall n: nat
        ensures Jumps(data, f, n) && !EndsAfter(data, f, n) && !CrashesAfter(data, f, n)
      {
        CircleJumps(data, f, a, b, n);
      }
    } else {
      assert !Jumps(data, f, k);
      forall n: nat | EndsAfter(data, f, n) || CrashesAfter(data, f, n)
        ensures n == k
      {
        assert !Jumps(data, f, n) && !Jumps(data, f, k);
      }
    }
  }

  lemma PosStart(data: seq<byte>, f: nat)
    ensures Pos(data, f, 0) == 0
  {
  }

  /** Only a negative length makes it endless. */
  lemma EndlessJumpsBack(data: seq<byte>, f: nat)
    requires CountRun(data, f) == Endless
    ensures exists n: nat :: Jumps(data, f, n) && Pos(data, f, n + 1) <= Pos(data, f, n)
  {
    PrescanExact(data, f);
    var k := |data|;
    if forall n: nat :: Pos(data, f, n + 1) > Pos(data, f, n) {
      Climbs(data, f, k);
      JumpsInside(data, f, k);
      assert false;
    }
    var n: nat :| Pos(data, f, n + 1) <= Pos(data, f, n);
    assert Jumps(data, f, n);
  }

  lemma {:induction false} Climbs(data: seq<byte>, f: nat, n: nat)
    requires forall m: nat :: Pos(data, f, m + 1) > Pos(data, f, m)
    ensures Pos(data, f, n) >= n
    decreases n
  {
    hide JumpFrom;
    if n > 0 {
      Climbs(data, f, n - 1);
      assert Pos(data, f, (n - 1) + 1) > Pos(data, f, n - 1);
    }
  }

  // ---- when the decoder gets past it ----

  /** The first entry record the decoder reaches, by where it ends. */
  datatype First = NoEntry | EntryEnds(end: nat)

  function FirstEntry(data: seq<byte>, i: nat): (r: First)
    requires i <= |data|
    ensures r.EntryEnds? ==> r.end <= |data|
    decreases |data| - i
  {
    if i == |data| then NoEntry
    else
      match ReadField(data, i, Exact)
      case BadField(_) => NoEntry
      case EntryField(_, end) => EntryEnds(end)
      case SnapshotField(_, end) => FirstEntry(data, end)
      case ScalarField(_, _, end) => FirstEntry(data, end)
      case Undeclared(end) => FirstEntry(data, end)
  }

  /** The pre-scan the decoder makes, if any, comes to an end inside the input. */
  predicate CountReturns(data: seq<byte>, i: nat)
    requires i <= |data|
  {
    var first := FirstEntry(data, i);
    first.EntryEnds? ==> CountRun(data[first.end..], ENTRIES).Count?
  }

  /** The decoder goes on as the format says unless it reaches an end past the largest int, where the
      format has the input run out. */
  ghost predicate UnlessWrapped(data: seq<byte>, i: nat, m: Message, r: Result<Message>)
    requires i <= |data|
  {
    if ReachesWrap(data, i)
    then r in {Failed(LengthPanic), Failed(InvalidLength)} && DecodeMessageFrom(data, i, m) == Failed(UnexpectedEof)
    else r == DecodeMessageFrom(data, i, m)
  }

  lemma {:induction false} SizedOutcome(data: seq<byte>, i: nat, m: Message)
    requires i <= |data| <= MAX_INT
    ensures UnlessWrapped(data, i, m, UnmarshalFrom(data, i, m, true))
    decreases |data| - i
  {
    hide ReadField, Wraps, Decode, SetScalar, CountRun;
    if i < |data| {
      FieldMachine(data, i);
      match ReadField(data, i, Exact)
      case BadField(_) =>
      case EntryField(start, end) =>
        var d := Decode(data[start..end], EMPTY_ENTRY);
        if d.Ok? { SizedOutcome(data, end, m.(entries := m.entries + [d.e])); }
      case SnapshotField(start, end) => SizedOutcome(data, end, m.(snapshot := data[start..end]));
      case ScalarField(f, x, end) => SizedOutcome(data, end, SetScalar(m, f, x));
      case Undeclared(end) => SizedOutcome(data, end, m);
    }
  }

  /** The decoder does what the format says, ends as its pre-scan does, or meets the largest int. */
  lemma {:induction false} UnmarshalOutcome(data: seq<byte>, i: nat, m: Message)
    requires i <= |data| <= MAX_INT
    ensures var first, r := FirstEntry(data, i), UnmarshalFrom(data, i, m, false);
            if CountReturns(data, i) then UnlessWrapped(data, i, m, r)
            else if CountRun(data[first.end..], ENTRIES).OutOfRange? then r == Failed(CountPanic)
            else r == Failed(CountEndless)
    decreases |data| - i
  {
    hide ReadField, Wraps, Decode, SetScalar, CountRun;
    if i < |data| {
      FieldMachine(data, i);
      match ReadField(data, i, Exact)
      case BadField(_) =>
      case EntryField(start, end) =>
        var d := Decode(data[start..end], EMPTY_ENTRY);
        if d.Ok? { SizedOutcome(data, end, m.(entries := m.entries + [d.e])); }
      case SnapshotField(start, end) => UnmarshalOutcome(data, end, m.(snapshot := data[start..end]));
      case ScalarField(f, x, end) => UnmarshalOutcome(data, end, SetScalar(m, f, x));
      case Undeclared(end) => UnmarshalOutcome(data, end, m);
    }
  }

  lemma {:induction false} FormatNeverCounts(data: seq<byte>, i: nat, m: Message)
    requires i <= |data|
    ensures var r := DecodeMessageFrom(data, i, m); r.Failed? ==> !FromCount(r.error)
    decreases |data| - i
  {
    hide ReadField, Decode, SetScalar;
    if i < |data| {
      match ReadField(data, i, Exact)
      case BadField(_) =>
      case EntryField(start, end) =>
        var d := Decode(data[start..end], EMPTY_ENTRY);
        if d.Ok? { FormatNeverCounts(data, end, m.(entries := m.entries + [d.e])); }
      case SnapshotField(start, end) => FormatNeverCounts(data, end, m.(snapshot := data[start..end]));
      case ScalarField(f, x, end) => FormatNeverCounts(data, end, SetScalar(m, f, x));
      case Undeclared(end) => FormatNeverCounts(data, end, m);
    }
  }

  /**
    * On every byte string: the decoder gives what the format prescribes if and only if it reaches no end
    * past the largest int, and no entry record or one after which the pre-scan ends inside the input.
    */
  lemma ReturnsExactly(data: seq<byte>)
    requires |data| <= MAX_INT
    ensures Unmarshalled(data) == DecodeMessage(data) <==> CountReturns(data, 0) && !ReachesWrap(data, 0)
  {
    hide UnmarshalFrom, DecodeMessageFrom, CountReturns, ReachesWrap;
    UnmarshalOutcome(data, 0, EMPTY_MESSAGE);
    FormatNeverCounts(data, 0, EMPTY_MESSAGE);
  }

  // ---- both failures are real, and a negative length alone is neither ----

  const EMPTY_RECORD: seq<byte> := [0x5a, 1, TERMINATOR]

  /** An entry record of an empty entry, then anything. */
  lemma AfterEmptyEntry(rest: seq<byte>)
    ensures var data := EMPTY_RECORD + rest;
            FirstEntry(data, 0) == EntryEnds(3) && data[3..] == rest
  {
    var data := EMPTY_RECORD + rest;
    assert ReadGroups(data, 0, 0) == Scanned(0x5a, 1);
    assert ReadGroups(data, 1, 0) == Scanned(1, 2);
  }

  lemma PanicInput()
    ensures Unmarshalled(EMPTY_RECORD + [0x80]) == Failed(CountPanic)
    ensures DecodeMessage(EMPTY_RECORD + [0x80]) == Failed(UnexpectedEof)
  {
    hide UnmarshalFrom;
    EmptyEntryThenCut();
    hide DecodeMessageFrom;
    var rest: seq<byte> := [0x80];
    AfterEmptyEntry(rest);
    assert ReadLength(rest, 0) == Short(1);
    assert CountRun(rest, ENTRIES) == OutOfRange;
    UnmarshalOutcome(EMPTY_RECORD + rest, 0, EMPTY_MESSAGE);
  }

  lemma EmptyRecordDecodes()
    ensures Decode([TERMINATOR], EMPTY_ENTRY) == Ok(1, EMPTY_ENTRY)
  {
    var data := [TERMINATOR];
    assert GetFields(data, At(EMPTY_ENTRY, TERMINATOR, 1), 4) == At(EMPTY_ENTRY, TERMINATOR, 1);
  }

  lemma EmptyEntryThenCut()
    ensures DecodeMessage(EMPTY_RECORD + [0x80]) == Failed(UnexpectedEof)
  {
    var data := EMPTY_RECORD + [0x80];
    assert ReadGroups(data, 0, 0) == Scanned(0x5a, 1);
    assert ReadGroups(data, 1, 0) == Scanned(1, 2);
    assert ReadField(data, 0, Exact) == EntryField(2, 3);
    assert data[2..3] == [TERMINATOR];
    assert Decode(data[2..3], EMPTY_ENTRY) == Ok(1, EMPTY_ENTRY) by { EmptyRecordDecodes(); }
    assert ReadGroups(data, 3, 0) == ScanFailed(UnexpectedEof);
    assert ReadField(data, 3, Exact) == BadField(UnexpectedEof);
    var m := EMPTY_MESSAGE.(entries := EMPTY_MESSAGE.entries + [EMPTY_ENTRY]);
    assert DecodeMessageFrom(data, 3, m) == Failed(UnexpectedEof);
  }

  /** Ten groups all but the first and last of which are full: `low` plus `2^64 - 0x80`. */
  lemma NegativeLength(rest: seq<byte>, low: nat)
    requires low < 0x80 && rest == [0x5a, 0x80 + low, 0xff, 0xff, 0xff, 0xff, 0xff, 0xff, 0xff, 0xff, 1]
    ensures ReadLength(rest, 0) == Value(0x5a, 1)
    ensures ReadLength(rest, 1) == Value(TWO_64 - 0x80 + low, 11)
    ensures JumpFrom(rest, 0, ENTRIES) == To(low - 0x80 + 11)
  {
    assert ReadLength(rest, 10) == Value(1, 11);
    assert ReadLength(rest, 8) == Value(0x7fff, 11);
    assert ReadLength(rest, 6) == Value(0x1fff_ffff, 11);
    assert ReadLength(rest, 4) == Value(0x7ff_ffff_ffff, 11);
    assert ReadLength(rest, 2) == Value(0x1ff_ffff_ffff_ffff, 11);
  }

  lemma HangInput()
    ensures Unmarshalled(EMPTY_RECORD + [0x5a, 0xf5, 0xff, 0xff, 0xff, 0xff, 0xff, 0xff, 0xff, 0xff, 1]) ==
            Failed(CountEndless)
  {
    hide UnmarshalFrom, DecodeMessageFrom, CountFrom;
    var rest: seq<byte> := [0x5a, 0xf5, 0xff, 0xff, 0xff, 0xff, 0xff, 0xff, 0xff, 0xff, 1];
    AfterEmptyEntry(rest);
    NegativeLength(rest, 0x75);
    hide JumpFrom, ReadLength;
    forall n: nat
      ensures Jumps(rest, ENTRIES, n)
    {
      StaysAtStart(rest, n);
    }
    PrescanExact(rest, ENTRIES);
    UnmarshalOutcome(EMPTY_RECORD + rest, 0, EMPTY_MESSAGE);
  }

  lemma {:induction false} StaysAtStart(data: seq<byte>, n: nat)
    requires JumpFrom(data, 0, ENTRIES) == To(0)
    ensures Pos(data, ENTRIES, n) == 0
    decreases n
  {
    if n > 0 {
      StaysAtStart(data, n - 1);
    }
  }

  /** The empty entry is good, and a negative length is no end past the largest int. */
  lemma NegativeNoWrap(rest: seq<byte>)
    requires rest == [0x5a, 0xff, 0xff, 0xff, 0xff, 0xff, 0xff, 0xff, 0xff, 0xff, 1]
    ensures !ReachesWrap(EMPTY_RECORD + rest, 0)
  {
    var data := EMPTY_RECORD + rest;
    assert ReadGroups(data, 0, 0) == Scanned(0x5a, 1);
    assert ReadGroups(data, 1, 0) == Scanned(1, 2);
    assert ReadField(data, 0, Exact) == EntryField(2, 3);
    NegativeSpan(data);
    hide ReadGroups;
    assert ReadField(data, 3, Exact) == BadField(InvalidLength) && !Wraps(data, 3);
    assert !ReachesWrap(data, 3);
  }

  lemma NegativeSpan(data: seq<byte>)
    requires data == EMPTY_RECORD + [0x5a, 0xff, 0xff, 0xff, 0xff, 0xff, 0xff, 0xff, 0xff, 0xff, 1]
    ensures ReadGroups(data, 3, 0) == Scanned(0x5a, 4)
    ensures ReadGroups(data, 4, 0) == Scanned(TWO_64 - 1, 14)
  {
    assert ReadGroups(data, 13, 9) == Scanned(1, 14);
    assert ReadGroups(data, 11, 7) == Scanned(0x7fff, 14);
    assert ReadGroups(data, 9, 5) == Scanned(0x1fff_ffff, 14);
    assert ReadGroups(data, 7, 3) == Scanned(0x7ff_ffff_ffff, 14);
    assert ReadGroups(data, 5, 1) == Scanned(0x1ff_ffff_ffff_ffff, 14);
  }

  /** A length of -1 sends the pre-scan back to a byte that is no entry tag: it ends, and the decoder
      reports the length. */
  lemma BackwardYetReturns()
    ensures var data := EMPTY_RECORD + [0x5a, 0xff, 0xff, 0xff, 0xff, 0xff, 0xff, 0xff, 0xff, 0xff, 1];
            Unmarshalled(data) == DecodeMessage(data)
  {
    hide UnmarshalFrom, DecodeMessageFrom;
    var rest: seq<byte> := [0x5a, 0xff, 0xff, 0xff, 0xff, 0xff, 0xff, 0xff, 0xff, 0xff, 1];
    AfterEmptyEntry(rest);
    NegativeLength(rest, 0x7f);
    assert ReadLength(rest, 10) == Value(1, 11);
    assert JumpFrom(rest, 10, ENTRIES) == End;
    hide JumpFrom, ReadLength;
    assert CountRun(rest, ENTRIES) == OneMore(CountFrom(rest, 10, ENTRIES, 10));
    NegativeNoWrap(rest);
    hide ReachesWrap;
    ReturnsExactly(EMPTY_RECORD + rest);
  }
}
