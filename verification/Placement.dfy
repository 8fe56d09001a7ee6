/** Choosing a host for a new node: a chain of filters, then random draws. */
module Placement {
  import opened Bits
  import opened ClusterImage
  import opened NodeHostImage
  import opened Repair
  import opened Sequences

  datatype Filter = Basic(clusterId: Id) | Live(currentTick: uint64, gap: nat) | Region(region: string)
  {
    predicate Passes(spec: HostSpec) {
      match this
      case Basic(cid) => cid !in spec.clusters
      case Live(now, gap) => Elapsed(spec.tick, now) < gap
      case Region(region) => region == spec.region
    }

    method Run(input: seq<HostSpec>) returns (result: seq<HostSpec>)
      ensures result == Kept(this, input)
    {
      result := [];
      for i := 0 to |input|
        invariant result + Kept(this, input[i..]) == Kept(this, input)
      {
        assert input[i..][0] == input[i] && input[i..][1..] == input[i + 1..];
        if Passes(input[i]) {
          result := result + [input[i]];
        }
      }
    }
  }

  function Kept(f: Filter, input: seq<HostSpec>): seq<HostSpec> {
    if input == [] then []
    else if f.Passes(input[0]) then [input[0]] + Kept(f, input[1..])
    else Kept(f, input[1..])
  }

  /** The filters one after another, each over the list the one before left. */
  function Chained(fs: seq<Filter>, input: seq<HostSpec>): seq<HostSpec>
    decreases |fs|
  {
    if fs == [] then input else Chained(fs[1..], Kept(fs[0], input))
  }

  method RunCombined(fs: seq<Filter>, input: seq<HostSpec>) returns (list: seq<HostSpec>)
    ensures list == Chained(fs, input)
  {
    list := input;
    for i := 0 to |fs|
      invariant Chained(fs[i..], list) == Chained(fs, input)
    {
      assert fs[i..][0] == fs[i] && fs[i..][1..] == fs[i + 1..];
      list := fs[i].Run(list);
    }
  }

  predicate PassesAll(fs: seq<Filter>, spec: HostSpec) { forall f | f in fs :: f.Passes(spec) }

  /** One pass that keeps what satisfies every filter. */
  function KeptByAll(fs: seq<Filter>, input: seq<HostSpec>): seq<HostSpec> {
    if input == [] then []
    else if PassesAll(fs, input[0]) then [input[0]] + KeptByAll(fs, input[1..])
    else KeptByAll(fs, input[1..])
  }

  lemma {:induction false} KeptThenAll(f: Filter, fs: seq<Filter>, input: seq<HostSpec>)
    ensures KeptByAll(fs, Kept(f, input)) == KeptByAll([f] + fs, input)
    decreases |input|
  {
    if input != [] {
      KeptThenAll(f, fs, input[1..]);
      assert PassesAll([f] + fs, input[0]) <==> f.Passes(input[0]) && PassesAll(fs, input[0]) by {
        assert forall g :: g in [f] + fs <==> g == f || g in fs;
      }
      if f.Passes(input[0]) {
        assert Kept(f, input)[1..] == Kept(f, input[1..]);
      }
    }
  }

  lemma {:induction false} KeptByNone(input: seq<HostSpec>)
    ensures KeptByAll([], input) == input
    decreases |input|
  {
    if input != [] {
      KeptByNone(input[1..]);
    }
  }

  /** The chain of filters keeps exactly the hosts that pass every filter, in their order. */
  lemma {:induction false} ChainIsOnePass(fs: seq<Filter>, input: seq<HostSpec>)
    ensures Chained(fs, input) == KeptByAll(fs, input)
    decreases |fs|
  {
    if fs == [] {
      KeptByNone(input);
    } else {
      ChainIsOnePass(fs[1..], Kept(fs[0], input));
      KeptThenAll(fs[0], fs[1..], input);
      assert [fs[0]] + fs[1..] == fs;
    }
  }

  lemma {:induction false} InKeptByAll(fs: seq<Filter>, input: seq<HostSpec>, spec: HostSpec)
    ensures spec in KeptByAll(fs, input) <==> spec in input && PassesAll(fs, spec)
    decreases |input|
  {
    if input != [] {
      InKeptByAll(fs, input[1..], spec);
      assert spec in input <==> spec == input[0] || spec in input[1..];
    }
  }

  /** A host gets through the chain exactly when it was there and passes every filter. */
  lemma InChained(fs: seq<Filter>, input: seq<HostSpec>, spec: HostSpec)
    ensures spec in Chained(fs, input) <==> spec in input && PassesAll(fs, spec)
  {
    ChainIsOnePass(fs, input);
    InKeptByAll(fs, input, spec);
  }

  function DrummerFilter(cid: Id, now: uint64): seq<Filter> { [Live(now, NODE_HOST_TTL), Basic(cid)] }

  function DrummerRegionFilter(region: string, cid: Id, now: uint64): seq<Filter> {
    [Live(now, NODE_HOST_TTL), Basic(cid), Region(region)]
  }

  // ---- random selection ----

  datatype Outcome<T> = Found(value: T) | StillDrawing

  /** Draws until `count` different positions below `n` have come up, or the draws end. */
  function Drawn(draws: seq<nat>, n: nat, count: nat, selected: seq<nat>): Outcome<seq<nat>>
    requires n > 0 || |selected| == count
    decreases |draws|
  {
    if |selected| == count then Found(selected)
    else if draws == [] then StillDrawing
    else
      var rv := draws[0] % n;
      Drawn(draws[1..], n, count, if rv in selected then selected else selected + [rv])
  }

  function Residues(draws: seq<nat>, n: nat): set<nat>
    requires n > 0
    decreases |draws|
  {
    if draws == [] then {} else {draws[0] % n} + Residues(draws[1..], n)
  }

  lemma {:induction false} DrawnDistinct(draws: seq<nat>, n: nat, count: nat, selected: seq<nat>)
    requires n > 0 || |selected| == count
    requires Distinct(selected) && |selected| <= count
    requires forall v | v in selected :: v < n
    ensures var r := Drawn(draws, n, count, selected);
            r.Found? ==> Distinct(r.value) && |r.value| == count && forall v | v in r.value :: v < n
    decreases |draws|
  {
    if |selected| != count && draws != [] {
      var rv := draws[0] % n;
      DrawnDistinct(draws[1..], n, count, if rv in selected then selected else selected + [rv]);
    }
  }

  lemma {:induction false} DistinctCount(s: seq<nat>)
    requires Distinct(s)
    ensures |Elements(s)| == |s|
    decreases |s|
  {
    if s != [] {
      DistinctCount(s[1..]);
      assert s == [s[0]] + s[1..];
      assert Elements(s) == {s[0]} + Elements(s[1..]);
      assert s[0] !in Elements(s[1..]);
    }
  }

  lemma SubsetCount<T>(a: set<T>, b: set<T>)
    requires a <= b
    ensures |a| <= |b|
  {
    assert b == a + (b - a);
  }

  lemma NextResidues(selected: seq<nat>, next: seq<nat>, rv: nat, rest: set<nat>)
    requires next == if rv in selected then selected else selected + [rv]
    ensures Elements(next) + rest == Elements(selected) + ({rv} + rest)
  {
  }

  /** The drawing ends exactly when enough different positions come up. */
  lemma {:induction false} DrawnExactly(draws: seq<nat>, n: nat, count: nat, selected: seq<nat>)
    requires n > 0 && Distinct(selected) && |selected| <= count
    ensures Drawn(draws, n, count, selected).Found? <==> |Elements(selected) + Residues(draws, n)| >= count
    decreases |draws|
  {
    DistinctCount(selected);
    if |selected| == count {
      SubsetCount(Elements(selected), Elements(selected) + Residues(draws, n));
    } else if draws == [] {
      assert Elements(selected) + Residues(draws, n) == Elements(selected);
    } else {
      var rv := draws[0] % n;
      var next := if rv in selected then selected else selected + [rv];
      DrawnExactly(draws[1..], n, count, next);
      NextResidues(selected, next, rv, Residues(draws[1..], n));
    }
  }

  /** `result` is made of `count` different positions of `filtered`. */
  ghost predicate PickedFrom(result: seq<HostSpec>, filtered: seq<HostSpec>, positions: seq<nat>) {
    && Distinct(positions) && |positions| == |result|
    && (forall v | v in positions :: v < |filtered|)
    && (forall i | 0 <= i < |result| && positions[i] < |filtered| :: result[i] == filtered[positions[i]])
  }

  /**
    * Fewer suitable hosts than asked for give nothing; otherwise `count` hosts at different positions
    * of the suitable list, as soon as enough different positions were drawn.
    */
  method FindSuitable(fs: seq<Filter>, input: seq<HostSpec>, count: nat, draws: seq<nat>)
    returns (r: Outcome<seq<HostSpec>>)
    ensures var suitable := KeptByAll(fs, input);
            && (|suitable| < count ==> r == Found([]))
            && (|suitable| >= count && r.Found? ==>
                  |r.value| == count && exists positions :: PickedFrom(r.value, suitable, positions))
            && (|suitable| >= count > 0 ==> (r.Found? <==> |Residues(draws, |suitable|)| >= count))
            && (count == 0 ==> r == Found([]))
  {
    ChainIsOnePass(fs, input);
    var filtered := RunCombined(fs, input);
    if |filtered| < count {
      return Found([]);
    }
    var drawn := DrawPositions(|filtered|, count, draws);
    if drawn.StillDrawing? {
      return StillDrawing;
    }
    var selected := drawn.value;
    var result := [];
    for j := 0 to |selected|
      invariant |result| == j
      invariant forall k | 0 <= k < j :: selected[k] in selected && result[k] == filtered[selected[k]]
    {
      assert selected[j] in selected;
      result := result + [filtered[selected[j]]];
    }
    assert PickedFrom(result, filtered, selected);
    return Found(result);
  }

  /** The rejection sampling loop. */
  method DrawPositions(n: nat, count: nat, draws: seq<nat>) returns (drawn: Outcome<seq<nat>>)
    requires n >= count
    ensures drawn.Found? ==> Distinct(drawn.value) && |drawn.value| == count && forall v | v in drawn.value :: v < n
    ensures count > 0 ==> (drawn.Found? <==> |Residues(draws, n)| >= count)
    ensures count == 0 ==> drawn == Found([])
  {
    var selected: seq<nat> := [];
    DrawnDistinct(draws, n, count, []);
    if count > 0 {
      DrawnExactly(draws, n, count, []);
      assert Elements([]) + Residues(draws, n) == Residues(draws, n);
    }
    var i := 0;
    while |selected| != count && i < |draws|
      invariant i <= |draws|
      invariant n > 0 || |selected| == count
      invariant Drawn(draws[i..], n, count, selected) == Drawn(draws, n, count, [])
      decreases |draws| - i
    {
      assert draws[i..][0] == draws[i] && draws[i..][1..] == draws[i + 1..];
      var rv := draws[i] % n;
      if rv !in selected {
        selected := selected + [rv];
      }
      i := i + 1;
    }
    return if |selected| == count then Found(selected) else StillDrawing;
  }

  // ---- the replacement of a failed node ----

  /** A live host that runs no node of the cluster. */
  predicate Eligible(spec: HostSpec, cid: Id, now: uint64) {
    cid !in spec.clusters && Elapsed(spec.tick, now) < NODE_HOST_TTL
  }

  method ToArray(hosts: Hosts) returns (list: seq<HostSpec>)
    ensures forall spec :: spec in list <==> exists a | a in hosts :: hosts[a] == spec
    ensures ValidHosts(hosts) ==> forall i, j | 0 <= i < j < |list| :: list[i].address != list[j].address
  {
    list := [];
    var todo := hosts.Keys;
    while todo != {}
      invariant todo <= hosts.Keys
      invariant forall spec :: spec in list <==> exists a | a in hosts.Keys - todo :: hosts[a] == spec
      invariant ValidHosts(hosts) ==>
                  && (forall i | 0 <= i < |list| :: list[i].address !in todo)
                  && (forall i, j | 0 <= i < j < |list| :: list[i].address != list[j].address)
      decreases todo
    {
      var a :| a in todo;
      list := list + [hosts[a]];
      todo := todo - {a};
    }
  }

  lemma DrummerPasses(cid: Id, now: uint64, spec: HostSpec)
    ensures PassesAll(DrummerFilter(cid, now), spec) <==> Eligible(spec, cid, now)
  {
    var fs := DrummerFilter(cid, now);
    assert fs[0] in fs && fs[1] in fs;
  }

  lemma DrummerRegionPasses(region: string, cid: Id, now: uint64, spec: HostSpec)
    ensures PassesAll(DrummerRegionFilter(region, cid, now), spec) <==>
            Eligible(spec, cid, now) && spec.region == region
  {
    var fs := DrummerRegionFilter(region, cid, now);
    assert fs[0] in fs && fs[1] in fs && fs[2] in fs;
  }

  const UNKNOWN_REGION := "UNKNOWN"

  function RegionOf(hosts: Hosts, a: Address): string { if a in hosts then hosts[a].region else UNKNOWN_REGION }

  /** The host to replace a failed node: an eligible one, in the region of the failed node when there is one. */
  ghost predicate Replacement(list: seq<HostSpec>, region: string, cid: Id, now: uint64, spec: HostSpec) {
    && spec in list && Eligible(spec, cid, now)
    && (spec.region == region || forall s | s in list && Eligible(s, cid, now) :: s.region != region)
  }

  method GetReplacementNode(hosts: Hosts, list: seq<HostSpec>, failedAddress: Address, cid: Id, now: uint64)
    returns (selected: seq<HostSpec>)
    ensures |selected| <= 1
    ensures |selected| == 1 ==> Replacement(list, RegionOf(hosts, failedAddress), cid, now, selected[0])
    ensures |selected| == 0 <==> forall s | s in list :: !Eligible(s, cid, now)
  {
    var region := RegionOf(hosts, failedAddress);
    ghost var inRegion := DrummerRegionFilter(region, cid, now);
    selected := FindOne(DrummerRegionFilter(region, cid, now), list);
    forall s
      ensures PassesAll(inRegion, s) <==> Eligible(s, cid, now) && s.region == region
      ensures PassesAll(DrummerFilter(cid, now), s) <==> Eligible(s, cid, now)
    {
      DrummerRegionPasses(region, cid, now, s);
      DrummerPasses(cid, now, s);
    }
    if |selected| == 1 {
      return;
    }
    selected := FindOne(DrummerFilter(cid, now), list);
  }

  /** One suitable host, if there is any: a single draw, whatever it is, settles it. */
  method FindOne(fs: seq<Filter>, list: seq<HostSpec>) returns (selected: seq<HostSpec>)
    ensures |selected| <= 1
    ensures |selected| == 1 ==> selected[0] in list && PassesAll(fs, selected[0])
    ensures |selected| == 0 <==> forall s | s in list :: !PassesAll(fs, s)
  {
    var draw: nat := *;
    forall s
      ensures s in KeptByAll(fs, list) <==> s in list && PassesAll(fs, s)
    {
      InKeptByAll(fs, list, s);
    }
    var r := FindSuitable(fs, list, 1, [draw]);
    ghost var suitable := KeptByAll(fs, list);
    if |suitable| >= 1 {
      assert Residues([draw], |suitable|) == {draw % |suitable|};
      assert suitable[0] in list && PassesAll(fs, suitable[0]);
    }
    selected := r.value;
    if |selected| == 1 {
      ghost var positions :| PickedFrom(selected, suitable, positions);
      assert positions[0] in positions;
      assert selected[0] == suitable[positions[0]];
    }
  }

  /** A host eligible for a cluster is at the address of none of its members. */
  lemma EligibleIsElsewhere(s: DbState, a: Address, cid: Id, now: uint64)
    requires HostsListMembers(s) && cid in s.image.clusters
    requires a in s.hosts && Eligible(s.hosts[a], cid, now)
    ensures forall k | k in s.image.clusters[cid].nodes :: s.image.clusters[cid].nodes[k].address != a
  {
  }
}
