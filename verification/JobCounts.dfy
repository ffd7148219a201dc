/** Prover job counts per protocol version and circuit, accumulated from database rows. */
module JobCounts {
  import opened Wrappers
  import opened PackedVersion

  /** Counts are machine words; addition wraps around. */
  const USIZE: nat := TWO_64

  datatype CircuitIdRound = CircuitIdRound(circuitId: nat, aggregationRound: nat)

  datatype JobCount = JobCount(queued: nat, inProgress: nat)

  const ZERO := JobCount(0, 0)

  datatype Entry = Entry(key: CircuitIdRound, version: SemanticVersion, count: JobCount)

  type Stats = map<CircuitIdRound, JobCount>

  /** A signed number cast to an unsigned type with the given number of values. */
  function Cast(value: int, values: nat): nat
    requires 0 < values
  {
    value % values
  }

  /** An entry built from a database row; an unknown status or version panics. The node aggregation
      round is always counted for circuit 2. */
  function NewEntry(circuitId: int, aggregationRound: int, version: int, patch: int, status: string, count: int)
    : Result<Entry, string>
  {
    if status != "queued" && status != "in_progress" then Err("unexpected status")
    else if Cast(version, TWO_16) > LAST_VERSION_ID then Err("received protocol version is broken")
    else
      var jobs := Cast(count, USIZE);
      Ok(Entry(
        CircuitIdRound(if aggregationRound == 2 then 2 else Cast(circuitId, 0x100), Cast(aggregationRound, 0x100)),
        SemanticVersion(Cast(version, TWO_16), Cast(patch, TWO_32)),
        if status == "queued" then JobCount(jobs, 0) else JobCount(0, jobs)))
  }

  /** Exactly rows with a known status and version make entries; every row of the node aggregation
      round is counted for circuit 2, and a row whose numbers fit keeps them. */
  lemma NewEntryKeepsRow(circuitId: int, aggregationRound: int, version: int, patch: int, status: string, count: int)
    ensures
      var result := NewEntry(circuitId, aggregationRound, version, patch, status, count);
      && (0 <= version < 65536 ==> (result.Ok? <==> status in {"queued", "in_progress"} && version <= 25))
      && (result.Ok? && aggregationRound == 2 ==> result.value.key == CircuitIdRound(2, 2))
      && (result.Ok? && 0 <= circuitId < 256 && 0 <= aggregationRound < 256 && aggregationRound != 2 ==>
            result.value.key == CircuitIdRound(circuitId, aggregationRound))
      && (result.Ok? && 0 <= version < 65536 && 0 <= patch < 4294967296 ==>
            result.value.version == SemanticVersion(version, patch))
      && (result.Ok? && 0 <= count < 18446744073709551616 ==>
            result.value.count == if status == "queued" then JobCount(count, 0) else JobCount(0, count))
  {
  }

  /** Numbers that do not fit wrap around: a row makes the same entry as any other row whose numbers
      differ by multiples of what their columns hold, as long as both rounds are 2 or neither is. */
  lemma NewEntryWrapsAround(circuitId: int, aggregationRound: int, version: int, patch: int, status: string, count: int,
                            a: int, b: int, c: int, d: int, e: int)
    requires aggregationRound == 2 <==> aggregationRound + 256 * b == 2
    ensures NewEntry(circuitId + 256 * a, aggregationRound + 256 * b, version + 65536 * c, patch + 4294967296 * d, status,
                     count + 18446744073709551616 * e) ==
      NewEntry(circuitId, aggregationRound, version, patch, status, count)
  {
    CastWraps(circuitId, a, 256);
    CastWraps(aggregationRound, b, 256);
    CastWraps(version, c, 65536);
    CastWraps(patch, d, 4294967296);
    CastWraps(count, e, 18446744073709551616);
  }

  lemma CastWraps(value: int, times: int, values: nat)
    requires 0 < values
    ensures Cast(value + values * times, values) == Cast(value, values)
  {
    var q, r := value / values, value % values;
    assert value == values * q + r;
    assert values * (q + times) == values * q + values * times;
    QuotientIsUnique(value + values * times, values, q + times, r);
  }

  /** The round is compared before it is narrowed to eight bits. So an entry of round 2 is counted
      for circuit 2 exactly when the row's round is 2, or the row's circuit is one that narrows to
      2: a round such as 258 becomes 2 as well and keeps its circuit. */
  lemma RoundTwoIsCircuitTwoExactlyWhen(circuitId: int, aggregationRound: int, version: int, patch: int,
                                        status: string, count: int)
    ensures
      var result := NewEntry(circuitId, aggregationRound, version, patch, status, count);
      result.Ok? && result.value.key.aggregationRound == 2 ==>
        (result.value.key.circuitId == 2 <==> aggregationRound == 2 || circuitId % 0x100 == 2)
    ensures
      var result := NewEntry(circuitId, aggregationRound, version, patch, status, count);
      result.Ok? ==> (result.value.key.aggregationRound == 2 <==> aggregationRound % 0x100 == 2)
  {
  }

  lemma WideRoundKeepsCircuit()
    ensures NewEntry(7, 258, 24, 0, "queued", 1) ==
      Ok(Entry(CircuitIdRound(7, 2), SemanticVersion(24, 0), JobCount(1, 0)))
  {
  }

  // ---------------------------------------------------------------------------------------------
  // Accumulation
  // ---------------------------------------------------------------------------------------------

  function Plus(a: JobCount, b: JobCount): JobCount {
    JobCount((a.queued + b.queued) % USIZE, (a.inProgress + b.inProgress) % USIZE)
  }

  predicate IsDefaultKey(key: CircuitIdRound) {
    match key.aggregationRound
    case 0 => 1 <= key.circuitId <= 15 || key.circuitId == 255
    case 1 => 3 <= key.circuitId <= 18
    case 2 => key.circuitId == 2
    case 3 => key.circuitId == 255
    case 4 => key.circuitId == 1
    case _ => false
  }

  function Circuits(from: nat, to: nat, round: nat): set<CircuitIdRound> {
    set c: nat | from <= c < to :: CircuitIdRound(c, round)
  }

  function DefaultKeys(): set<CircuitIdRound> {
    Circuits(1, 16, 0) + {CircuitIdRound(255, 0)} + Circuits(3, 19, 1) +
    {CircuitIdRound(2, 2)} + {CircuitIdRound(255, 3)} + {CircuitIdRound(1, 4)}
  }

  function DefaultStats(): Stats {
    map key | key in DefaultKeys() :: ZERO
  }

  function CountAt(stats: Stats, key: CircuitIdRound): JobCount {
    if key in stats then stats[key] else ZERO
  }

  function Add(stats: Stats, key: CircuitIdRound, count: JobCount): Stats {
    stats[key := Plus(CountAt(stats, key), count)]
  }

  type Mapping = map<SemanticVersion, Stats>

  function StatsAt(mapping: Mapping, version: SemanticVersion): Stats {
    if version in mapping then mapping[version] else DefaultStats()
  }

  function AddEntry(mapping: Mapping, entry: Entry): Mapping {
    mapping[entry.version := Add(StatsAt(mapping, entry.version), entry.key, entry.count)]
  }

  function Aggregate(entries: seq<Entry>): Mapping {
    if entries == [] then map[] else AddEntry(Aggregate(entries[..|entries| - 1]), entries[|entries| - 1])
  }

  lemma OneMoreCircuit(from: nat, to: nat, round: nat)
    requires from <= to
    ensures Circuits(from, to + 1, round) == Circuits(from, to, round) + {CircuitIdRound(to, round)}
  {
  }

  predicate AllZero(stats: Stats) {
    forall key :: key in stats ==> stats[key] == ZERO
  }

  /** The stats of one version, updated in place. */
  class CircuitProverStats {
    var stats: Stats

    /** Starts with a zero for every circuit that is always reported, inserted one by one. */
    constructor ()
      ensures stats == DefaultStats()
    {
      stats := map[];
      new;
      for circuit := 1 to 16
        invariant stats.Keys == Circuits(1, circuit, 0) && AllZero(stats)
      {
        OneMoreCircuit(1, circuit, 0);
        stats := stats[CircuitIdRound(circuit, 0) := ZERO];
      }
      stats := stats[CircuitIdRound(255, 0) := ZERO];
      ghost var basic := stats.Keys;
      for circuit := 3 to 19
        invariant stats.Keys == basic + Circuits(3, circuit, 1) && AllZero(stats)
      {
        OneMoreCircuit(3, circuit, 1);
        stats := stats[CircuitIdRound(circuit, 1) := ZERO];
      }
      stats := stats[CircuitIdRound(2, 2) := ZERO];
      stats := stats[CircuitIdRound(255, 3) := ZERO];
      stats := stats[CircuitIdRound(1, 4) := ZERO];
      assert stats.Keys == DefaultKeys();
    }

    method AddCount(key: CircuitIdRound, count: JobCount)
      modifies this
      ensures stats == Add(old(stats), key, count)
    {
      if key !in stats {
        stats := stats[key := ZERO];
      }
      stats := stats[key := Plus(stats[key], count)];
    }
  }

  type StatsByVersion = map<SemanticVersion, CircuitProverStats>

  /** Every version has an object of its own, which holds the version's part of the mapping. */
  ghost predicate Holds(byVersion: StatsByVersion, mapping: Mapping)
    reads byVersion.Values
  {
    && byVersion.Keys == mapping.Keys
    && (forall v :: v in byVersion ==> byVersion[v].stats == mapping[v])
    && (forall v, w :: v in byVersion && w in byVersion && v != w ==> byVersion[v] != byVersion[w])
  }

  /** Gets or makes the object of the entry's version and adds the count to it. */
  method AddEntryTo(byVersion: StatsByVersion, entry: Entry, ghost mapping: Mapping) returns (next: StatsByVersion)
    requires Holds(byVersion, mapping)
    modifies byVersion.Values
    ensures Holds(next, AddEntry(mapping, entry))
    ensures forall v :: v in next ==> next[v] in byVersion.Values || fresh(next[v])
  {
    next := byVersion;
    if entry.version !in byVersion {
      var stats := new CircuitProverStats();
      next := byVersion[entry.version := stats];
    }
    next[entry.version].AddCount(entry.key, entry.count);
  }

  /** Accumulates the entries one by one, with an object for every version seen. */
  method FromEntries(entries: seq<Entry>) returns (byVersion: StatsByVersion)
    ensures Holds(byVersion, Aggregate(entries))
    ensures forall v :: v in byVersion ==> fresh(byVersion[v])
  {
    byVersion := map[];
    for i := 0 to |entries|
      invariant forall v :: v in byVersion ==> fresh(byVersion[v])
      invariant Holds(byVersion, Aggregate(entries[..i]))
    {
      assert entries[..i + 1][..i] == entries[..i];
      byVersion := AddEntryTo(byVersion, entries[i], Aggregate(entries[..i]));
    }
    assert entries[..|entries|] == entries;
  }

  // ---------------------------------------------------------------------------------------------
  // Conservation
  // ---------------------------------------------------------------------------------------------

  predicate Matches(entry: Entry, version: SemanticVersion, key: CircuitIdRound) {
    entry.version == version && entry.key == key
  }

  /** The counts of the matching entries, added up without bound. */
  function Sum(entries: seq<Entry>, version: SemanticVersion, key: CircuitIdRound): JobCount {
    if entries == [] then ZERO
    else
      var before := Sum(entries[..|entries| - 1], version, key);
      var last := entries[|entries| - 1];
      if Matches(last, version, key)
      then JobCount(before.queued + last.count.queued, before.inProgress + last.count.inProgress)
      else before
  }

  function Wrap(count: JobCount): JobCount {
    JobCount(count.queued % USIZE, count.inProgress % USIZE)
  }

  predicate Seen(entries: seq<Entry>, version: SemanticVersion) {
    exists i :: 0 <= i < |entries| && entries[i].version == version
  }

  predicate SeenKey(entries: seq<Entry>, version: SemanticVersion, key: CircuitIdRound) {
    exists i :: 0 <= i < |entries| && Matches(entries[i], version, key)
  }

  lemma ModAdd(a: nat, b: nat)
    ensures (a % USIZE + b) % USIZE == (a + b) % USIZE
  {
  }

  lemma WrapPlus(a: JobCount, b: JobCount)
    ensures Plus(Wrap(a), b) == Wrap(JobCount(a.queued + b.queued, a.inProgress + b.inProgress))
  {
    ModAdd(a.queued, b.queued);
    ModAdd(a.inProgress, b.inProgress);
  }

  /** Conservation: under every version and key stands the sum of the matching entries, as a machine
      word; the versions are the ones seen, and the keys of a version are the ones always reported
      and the ones seen. */
  lemma {:induction false} AggregateConserves(entries: seq<Entry>, version: SemanticVersion, key: CircuitIdRound)
    ensures version in Aggregate(entries) <==> Seen(entries, version)
    ensures version in Aggregate(entries) ==>
      && (key in Aggregate(entries)[version] <==> IsDefaultKey(key) || SeenKey(entries, version, key))
      && CountAt(Aggregate(entries)[version], key) == Wrap(Sum(entries, version, key))
    ensures !Seen(entries, version) ==> Sum(entries, version, key) == ZERO
  {
    if entries != [] {
      var init, last := entries[..|entries| - 1], entries[|entries| - 1];
      AggregateConserves(init, version, key);
      DefaultsAreZero(key);
      SeenAfter(entries, version, key);
      WrapPlus(Sum(init, version, key), last.count);
    }
  }

  lemma DefaultsAreZero(key: CircuitIdRound)
    ensures key in DefaultStats() <==> IsDefaultKey(key)
    ensures CountAt(DefaultStats(), key) == Wrap(ZERO)
  {
  }

  lemma SeenAfter(entries: seq<Entry>, version: SemanticVersion, key: CircuitIdRound)
    requires entries != []
    ensures
      var init, last := entries[..|entries| - 1], entries[|entries| - 1];
      && (Seen(entries, version) <==> Seen(init, version) || last.version == version)
      && (SeenKey(entries, version, key) <==> SeenKey(init, version, key) || Matches(last, version, key))
  {
  }

  // ---------------------------------------------------------------------------------------------
  // Order
  // ---------------------------------------------------------------------------------------------

  function Without(entries: seq<Entry>, i: nat): seq<Entry>
    requires i < |entries|
  {
    entries[..i] + entries[i + 1..]
  }

  lemma {:induction false} SumWithout(entries: seq<Entry>, i: nat, version: SemanticVersion, key: CircuitIdRound)
    requires i < |entries|
    ensures Sum(entries, version, key) == Sum(Without(entries, i) + [entries[i]], version, key)
  {
    var n := |entries| - 1;
    var moved := Without(entries, i) + [entries[i]];
    assert moved[..n] == Without(entries, i);
    if i == n {
      assert moved == entries;
    } else {
      var init := entries[..n];
      SumWithout(init, i, version, key);
      var rest := Without(entries, i);
      assert rest[..n - 1] == Without(init, i) && rest[n - 1] == entries[n];
      var inner := Without(init, i) + [init[i]];
      assert inner[..n - 1] == Without(init, i);
    }
  }

  lemma WithoutKeepsOthers(entries: seq<Entry>, i: nat)
    requires i < |entries|
    ensures multiset(Without(entries, i)) == multiset(entries) - multiset{entries[i]}
  {
    assert entries == entries[..i] + [entries[i]] + entries[i + 1..];
  }

  /** An entry of one order taken out of the other. */
  lemma {:induction false} TakeOut(e1: seq<Entry>, e2: seq<Entry>) returns (i: nat)
    requires e1 != [] && multiset(e1) == multiset(e2)
    ensures i < |e2| && e2[i] == e1[|e1| - 1]
    ensures multiset(Without(e2, i)) == multiset(e1[..|e1| - 1])
  {
    var n := |e1| - 1;
    assert e1[n] in multiset(e2);
    i :| 0 <= i < |e2| && e2[i] == e1[n];
    WithoutKeepsOthers(e2, i);
    WithoutKeepsOthers(e1, n);
    assert Without(e1, n) == e1[..n];
  }

  lemma {:induction false} SumIsOrderFree(e1: seq<Entry>, e2: seq<Entry>, version: SemanticVersion, key: CircuitIdRound)
    requires multiset(e1) == multiset(e2)
    ensures Sum(e1, version, key) == Sum(e2, version, key)
  {
    if e1 == [] {
      assert |multiset(e2)| == 0;
    } else {
      var n := |e1| - 1;
      var i := TakeOut(e1, e2);
      var rest := Without(e2, i);
      SumIsOrderFree(e1[..n], rest, version, key);
      SumWithout(e2, i, version, key);
      assert (rest + [e1[n]])[..|rest|] == rest;
    }
  }

  lemma SeenIsOrderFree(e1: seq<Entry>, e2: seq<Entry>, version: SemanticVersion, key: CircuitIdRound)
    requires multiset(e1) == multiset(e2)
    ensures Seen(e1, version) ==> Seen(e2, version)
    ensures SeenKey(e1, version, key) ==> SeenKey(e2, version, key)
  {
    forall i | 0 <= i < |e1| ensures exists j :: 0 <= j < |e2| && e2[j] == e1[i] {
      assert e1[i] in multiset(e2);
    }
    if Seen(e1, version) {
      var i :| 0 <= i < |e1| && e1[i].version == version;
      var j :| 0 <= j < |e2| && e2[j] == e1[i];
    }
    if SeenKey(e1, version, key) {
      var i :| 0 <= i < |e1| && Matches(e1[i], version, key);
      var j :| 0 <= j < |e2| && e2[j] == e1[i];
      assert Matches(e2[j], version, key);
    }
  }

  lemma SameAt(e1: seq<Entry>, e2: seq<Entry>, version: SemanticVersion, key: CircuitIdRound)
    requires multiset(e1) == multiset(e2)
    ensures version in Aggregate(e1) <==> version in Aggregate(e2)
    ensures version in Aggregate(e1) ==>
      && (key in Aggregate(e1)[version] <==> key in Aggregate(e2)[version])
      && CountAt(Aggregate(e1)[version], key) == CountAt(Aggregate(e2)[version], key)
  {
    AggregateConserves(e1, version, key);
    AggregateConserves(e2, version, key);
    SeenIsOrderFree(e1, e2, version, key);
    SeenIsOrderFree(e2, e1, version, key);
    SumIsOrderFree(e1, e2, version, key);
  }

  /** The order of the entries does not matter. */
  lemma AggregateIsOrderFree(e1: seq<Entry>, e2: seq<Entry>)
    requires multiset(e1) == multiset(e2)
    ensures Aggregate(e1) == Aggregate(e2)
  {
    var a1, a2 := Aggregate(e1), Aggregate(e2);
    forall version, key
      ensures version in a1 <==> version in a2
      ensures version in a1 ==>
        (key in a1[version] <==> key in a2[version]) && CountAt(a1[version], key) == CountAt(a2[version], key)
    {
      SameAt(e1, e2, version, key);
    }
    forall version | version in a1 ensures version in a2 && a1[version] == a2[version] {
      SameAt(e1, e2, version, CircuitIdRound(0, 0));
      forall key | key in a1[version] ensures a1[version][key] == a2[version][key] {
        assert CountAt(a1[version], key) == CountAt(a2[version], key);
      }
    }
    forall version | version in a2 ensures version in a1 {
      SameAt(e1, e2, version, CircuitIdRound(0, 0));
    }
  }
}
