/** When a snapshot of observations makes a capability available. */
module Availability {
  import opened Wrappers
  import opened Graphs
  import opened Registry

  /** Times are in nanoseconds. */
  const MINUTE := 60_000_000_000

  datatype Key = PlatformKey(platform: Platform) | ExtensionKey(name: string, value: string)

  datatype Definition = Definition(maxValidity: nat, dependencies: seq<Platform>)

  type Definitions = map<Platform, Definition>

  /** `sound` stands for state, reason, provider and evidence, which do not depend on time. */
  datatype Observation = Observation(key: Key, sound: bool, observedAt: Option<int>, validUntil: Option<int>)

  datatype Snapshot = Snapshot(collectedAt: Option<int>, observations: seq<Observation>)

  type Index = map<Key, Observation>

  predicate Known(defs: Definitions, key: Key) {
    key.PlatformKey? ==> key.platform in defs
  }

  // ---------------------------------------------------------------------------
  // One observation
  // ---------------------------------------------------------------------------

  /** How long an observation of the key may stay valid; zero for ever. */
  function MaxValidity(defs: Definitions, key: Key): nat
    requires Known(defs, key)
  {
    if key.ExtensionKey? then 0 else defs[key.platform].maxValidity
  }

  predicate Fresh(defs: Definitions, o: Observation, now: int) {
    && o.observedAt.Some? && Known(defs, o.key)
    && var most := MaxValidity(defs, o.key);
       if most == 0 then o.validUntil.None?
       else o.validUntil.Some? && o.observedAt.value < o.validUntil.value <= o.observedAt.value + most && now < o.validUntil.value
  }

  predicate ObservationValid(defs: Definitions, o: Observation, now: int) {
    o.sound && o.observedAt.Some? && o.observedAt.value <= now + MINUTE && Fresh(defs, o, now)
  }

  predicate ValidAt(defs: Definitions, index: Index, key: Key, now: int) {
    key in index && index[key].key == key && ObservationValid(defs, index[key], now)
  }

  // ---------------------------------------------------------------------------
  // The search
  // ---------------------------------------------------------------------------

  function DependencyKeys(platforms: seq<Platform>): (keys: seq<Key>)
    ensures |keys| == |platforms| && forall i | 0 <= i < |keys| :: keys[i] == PlatformKey(platforms[i])
  {
    seq(|platforms|, i requires 0 <= i < |platforms| => PlatformKey(platforms[i]))
  }

  function Needs(defs: Definitions): Key -> seq<Key> {
    (key: Key) => if key.PlatformKey? && key.platform in defs then DependencyKeys(defs[key.platform].dependencies) else []
  }

  /** The search as a function of the keys already on its way. */
  predicate AvailableSet(defs: Definitions, index: Index, key: Key, now: int, visiting: set<Key>)
    decreases index.Keys - visiting
  {
    && key !in visiting
    && ValidAt(defs, index, key, now)
    && (forall d | d in Needs(defs)(key) :: AvailableSet(defs, index, d, now, visiting + {key}))
  }

  class Searcher {
    var visiting: set<Key>

    constructor ()
      ensures visiting == {}
    {
      visiting := {};
    }

    /** Marks a key while its dependencies are searched, and leaves the marks as they were. */
    method Available(defs: Definitions, index: Index, key: Key, now: int) returns (available: bool)
      requires forall k | k in index :: index[k].key == k
      modifies this
      ensures available == AvailableSet(defs, index, key, now, old(visiting)) && visiting == old(visiting)
      decreases index.Keys - visiting
    {
      if key in visiting {
        return false;
      }
      if key !in index || !ObservationValid(defs, index[key], now) {
        return false;
      }
      if key.ExtensionKey? {
        return true;
      }
      var dependencies := Needs(defs)(key);
      visiting := visiting + {key};
      available := true;
      var i := 0;
      while available && i < |dependencies|
        invariant i <= |dependencies| && visiting == old(visiting) + {key}
        invariant available <==> forall d | d in dependencies[..i] :: AvailableSet(defs, index, d, now, old(visiting) + {key})
        decreases |dependencies| - i
      {
        available := Available(defs, index, dependencies[i], now);
        i := i + 1;
      }
      assert available ==> dependencies[..i] == dependencies;
      assert forall d | d in dependencies[..i] :: d in dependencies;
      visiting := visiting - {key};
      assert visiting == old(visiting);
    }
  }

  // ---------------------------------------------------------------------------
  // What the search decides
  // ---------------------------------------------------------------------------

  /** Every chain of dependencies from the key, however long, ends in a valid observation and
      never comes back to a key it has passed. */
  ghost predicate Grounded(defs: Definitions, index: Index, key: Key, now: int) {
    forall p | Walk(Needs(defs), p) && p[0] == key :: ValidAt(defs, index, p[|p| - 1], now) && Distinct(p)
  }

  lemma {:induction false} AvailableWalks(defs: Definitions, index: Index, key: Key, now: int, visiting: set<Key>, p: seq<Key>)
    requires AvailableSet(defs, index, key, now, visiting) && Walk(Needs(defs), p) && p[0] == key
    ensures ValidAt(defs, index, p[|p| - 1], now) && Distinct(p) && forall k | k in p :: k !in visiting
    decreases |p|
  {
    if |p| > 1 {
      WalkTail(Needs(defs), p);
      AvailableWalks(defs, index, p[1], now, visiting + {key}, p[1..]);
      assert p == [key] + p[1..];
      forall i, j | 0 <= i < j < |p| ensures p[i] != p[j] {
        if i == 0 {
          assert p[j] in p[1..];
        } else {
          assert p[1..][i - 1] != p[1..][j - 1];
        }
      }
    }
  }

  ghost predicate GoodWalk(defs: Definitions, index: Index, now: int, visiting: set<Key>, p: seq<Key>) {
    p != [] && ValidAt(defs, index, p[|p| - 1], now) && Distinct(p) && forall k | k in p :: k !in visiting
  }

  ghost predicate WalksGood(defs: Definitions, index: Index, key: Key, now: int, visiting: set<Key>) {
    forall p | Walk(Needs(defs), p) && p[0] == key :: GoodWalk(defs, index, now, visiting, p)
  }

  lemma {:induction false} WalksAvailable(defs: Definitions, index: Index, key: Key, now: int, visiting: set<Key>)
    requires WalksGood(defs, index, key, now, visiting)
    ensures AvailableSet(defs, index, key, now, visiting)
    decreases index.Keys - visiting
  {
    assert Walk(Needs(defs), [key]) && [key][0] == key;
    assert key in [key];
    forall d | d in Needs(defs)(key) ensures AvailableSet(defs, index, d, now, visiting + {key}) {
      GoodFromHere(defs, index, key, now, visiting, d);
      WalksAvailable(defs, index, d, now, visiting + {key});
    }
  }

  /** Walks from a dependency are walks from the key without their first step. */
  lemma GoodFromHere(defs: Definitions, index: Index, key: Key, now: int, visiting: set<Key>, d: Key)
    requires WalksGood(defs, index, key, now, visiting) && d in Needs(defs)(key)
    ensures WalksGood(defs, index, d, now, visiting + {key})
  {
    forall p | Walk(Needs(defs), p) && p[0] == d ensures GoodWalk(defs, index, now, visiting + {key}, p) {
      WalkFrom(Needs(defs), key, p);
      assert ([key] + p)[0] == key;
      GoodTail(defs, index, now, visiting, key, p);
    }
  }

  lemma GoodTail(defs: Definitions, index: Index, now: int, visiting: set<Key>, key: Key, p: seq<Key>)
    requires p != [] && GoodWalk(defs, index, now, visiting, [key] + p)
    ensures GoodWalk(defs, index, now, visiting + {key}, p)
  {
    DistinctTail(key, p);
    assert forall k | k in p :: k in [key] + p;
  }

  lemma DistinctTail(key: Key, p: seq<Key>)
    requires Distinct([key] + p)
    ensures Distinct(p) && key !in p
  {
    var q := [key] + p;
    forall i, j | 0 <= i < j < |p| ensures p[i] != p[j] {
      assert q[i + 1] != q[j + 1];
    }
    forall i | 0 <= i < |p| ensures p[i] != key {
      assert q[0] != q[i + 1];
    }
  }

  /** The search answers exactly that, on any dependency map. */
  lemma AvailableExact(defs: Definitions, index: Index, key: Key, now: int)
    ensures AvailableSet(defs, index, key, now, {}) <==> Grounded(defs, index, key, now)
  {
    if AvailableSet(defs, index, key, now, {}) {
      forall p | Walk(Needs(defs), p) && p[0] == key ensures ValidAt(defs, index, p[|p| - 1], now) && Distinct(p) {
        AvailableWalks(defs, index, key, now, {}, p);
      }
    }
    if Grounded(defs, index, key, now) {
      assert WalksGood(defs, index, key, now, {});
      WalksAvailable(defs, index, key, now, {});
    }
  }

  // ---------------------------------------------------------------------------
  // Over time
  // ---------------------------------------------------------------------------

  ghost predicate DependsOn(defs: Definitions, key: Key, d: Key) {
    exists p :: Walk(Needs(defs), p) && p[0] == key && p[|p| - 1] == d
  }

  /** The moment an observation stops being valid, if there is one. */
  predicate Expired(index: Index, key: Key, now: int) {
    key in index && index[key].validUntil.Some? && index[key].validUntil.value <= now
  }

  lemma ValidBetween(defs: Definitions, index: Index, key: Key, from: int, now: int)
    requires ValidAt(defs, index, key, from) && from <= now
    ensures ValidAt(defs, index, key, now) <==> !Expired(index, key, now)
  {
  }

  /** Once available, a capability stays so exactly until the first expiry among the
      observations it depends on. */
  lemma AvailableUntilFirstExpiry(defs: Definitions, index: Index, key: Key, from: int, now: int)
    requires AvailableSet(defs, index, key, from, {}) && from <= now
    ensures AvailableSet(defs, index, key, now, {}) <==> forall d | DependsOn(defs, key, d) :: !Expired(index, d, now)
  {
    AvailableExact(defs, index, key, from);
    AvailableExact(defs, index, key, now);
    if AvailableSet(defs, index, key, now, {}) {
      forall d | DependsOn(defs, key, d) ensures !Expired(index, d, now) {
        var p :| Walk(Needs(defs), p) && p[0] == key && p[|p| - 1] == d;
        ValidBetween(defs, index, d, from, now);
      }
    }
    if forall d | DependsOn(defs, key, d) :: !Expired(index, d, now) {
      forall p | Walk(Needs(defs), p) && p[0] == key ensures ValidAt(defs, index, p[|p| - 1], now) && Distinct(p) {
        assert DependsOn(defs, key, p[|p| - 1]);
        ValidBetween(defs, index, p[|p| - 1], from, now);
      }
    }
  }

  /** Every observation it depends on is no older than its definition allows. */
  lemma NoDependencyIsTooOld(defs: Definitions, index: Index, key: Key, now: int, d: Key)
    requires AvailableSet(defs, index, key, now, {}) && DependsOn(defs, key, d)
    ensures Known(defs, d) && d in index && index[d].observedAt.Some?
    ensures MaxValidity(defs, d) > 0 ==> now < index[d].observedAt.value + MaxValidity(defs, d)
  {
    AvailableExact(defs, index, key, now);
    var p :| Walk(Needs(defs), p) && p[0] == key && p[|p| - 1] == d;
  }

  // ---------------------------------------------------------------------------
  // A whole snapshot
  // ---------------------------------------------------------------------------

  /** No key twice, no extension name twice, every platform defined. */
  ghost predicate Indexable(defs: Definitions, observations: seq<Observation>) {
    && (forall o | o in observations :: Known(defs, o.key))
    && (forall i, j | 0 <= i < j < |observations| :: observations[i].key != observations[j].key
          && (observations[i].key.ExtensionKey? && observations[j].key.ExtensionKey? ==>
                observations[i].key.name != observations[j].key.name))
  }

  ghost predicate Indexes(observations: seq<Observation>, index: Index) {
    && (forall o | o in observations :: o.key in index && index[o.key] == o)
    && (forall k | k in index :: index[k].key == k && index[k] in observations)
  }

  method ObservationsByKey(defs: Definitions, observations: seq<Observation>) returns (r: Result<Index>)
    ensures r.Ok? <==> Indexable(defs, observations)
    ensures r.Ok? ==> Indexes(observations, r.value)
  {
    var index: Index := map[];
    var names: set<string> := {};
    for i := 0 to |observations|
      invariant Indexable(defs, observations[..i]) && Indexes(observations[..i], index)
      invariant forall n :: n in names <==> exists o | o in observations[..i] :: o.key.ExtensionKey? && o.key.name == n
    {
      var o := observations[i];
      assert observations[..i + 1] == observations[..i] + [o];
      if !Known(defs, o.key) {
        assert o in observations;
        return Err;
      }
      if o.key in index {
        var j :| 0 <= j < i && observations[j] == index[o.key];
        return Err;
      }
      if o.key.ExtensionKey? {
        if o.key.name in names {
          var other :| other in observations[..i] && other.key.ExtensionKey? && other.key.name == o.key.name;
          var j :| 0 <= j < i && observations[j] == other;
          return Err;
        }
        names := names + {o.key.name};
      }
      index := index[o.key := o];
    }
    assert observations[..|observations|] == observations;
    return Ok(index);
  }

  /** Available at a time, for a snapshot: published by then, and grounded in it. */
  ghost predicate AvailableIn(defs: Definitions, snapshot: Snapshot, key: Key, now: int) {
    && Known(defs, key) && snapshot.collectedAt.Some? && snapshot.collectedAt.value <= now + MINUTE
    && Indexable(defs, snapshot.observations)
    && exists index :: Indexes(snapshot.observations, index) && Grounded(defs, index, key, now)
  }

  lemma IndexUnique(observations: seq<Observation>, a: Index, b: Index)
    requires Indexes(observations, a) && Indexes(observations, b)
    ensures a == b
  {
    forall k ensures k in a <==> k in b {}
    forall k | k in a ensures a[k] == b[k] {}
  }

  method AvailableObservation(defs: Definitions, snapshot: Snapshot, key: Key, now: int) returns (found: Option<Observation>)
    ensures found.Some? <==> AvailableIn(defs, snapshot, key, now)
    ensures found.Some? ==> found.value in snapshot.observations && found.value.key == key
  {
    if snapshot.collectedAt.None? || snapshot.collectedAt.value > now + MINUTE || !Known(defs, key) {
      return None;
    }
    var indexed := ObservationsByKey(defs, snapshot.observations);
    if indexed.Err? {
      return None;
    }
    var index := indexed.value;
    var searcher := new Searcher();
    var available := searcher.Available(defs, index, key, now);
    AvailableExact(defs, index, key, now);
    if !available {
      forall other | Indexes(snapshot.observations, other) ensures other == index {
        IndexUnique(snapshot.observations, other, index);
      }
      return None;
    }
    return Some(index[key]);
  }

  /** Available twice, a capability is available at every time in between. */
  lemma AvailableBetween(defs: Definitions, snapshot: Snapshot, key: Key, from: int, now: int, until: int)
    requires from <= now <= until
    requires AvailableIn(defs, snapshot, key, from) && AvailableIn(defs, snapshot, key, until)
    ensures AvailableIn(defs, snapshot, key, now)
  {
    var a :| Indexes(snapshot.observations, a) && Grounded(defs, a, key, from);
    var b :| Indexes(snapshot.observations, b) && Grounded(defs, b, key, until);
    IndexUnique(snapshot.observations, a, b);
    AvailableExact(defs, a, key, from);
    AvailableExact(defs, a, key, now);
    AvailableExact(defs, a, key, until);
    AvailableUntilFirstExpiry(defs, a, key, from, now);
    AvailableUntilFirstExpiry(defs, a, key, from, until);
  }

  /** An observation the capability depends on, by the snapshot, with a limited validity. */
  ghost predicate Limits(defs: Definitions, snapshot: Snapshot, key: Key, o: Observation) {
    o in snapshot.observations && DependsOn(defs, key, o.key) && o.validUntil.Some?
  }

  // ---------------------------------------------------------------------------
  // Intervals of times
  // ---------------------------------------------------------------------------

  ghost predicate During(first: int, end: Option<int>, now: int) {
    first <= now && (end.Some? ==> now < end.value)
  }

  ghost predicate Connected(at: int -> bool) {
    forall a, b, c | a <= b <= c && at(a) && at(c) :: at(b)
  }

  lemma {:induction false} FirstTime(at: int -> bool, from: int, floor: int) returns (first: int)
    requires at(from) && floor <= from && !at(floor - 1)
    ensures first <= from && at(first) && !at(first - 1)
    decreases from - floor
  {
    if from > floor && at(from - 1) {
      first := FirstTime(at, from - 1, floor);
    } else {
      first := from;
    }
  }

  lemma {:induction false} EndTime(at: int -> bool, from: int, late: int) returns (end: int)
    requires from < late && at(from) && !at(late)
    ensures from < end <= late && at(end - 1) && !at(end)
    decreases late - from
  {
    if at(late - 1) {
      end := late;
    } else {
      end := EndTime(at, from, late - 1);
    }
  }

  lemma ConnectedInterval(at: int -> bool, first: int, end: Option<int>, now: int)
    requires Connected(at) && at(first) && !at(first - 1)
    requires if end.Some? then first < end.value && at(end.value - 1) && !at(end.value) else forall t | first <= t :: at(t)
    ensures at(now) <==> During(first, end, now)
  {
    if at(now) && now < first {
      Between(at, now, first - 1, first);
    }
    match end
    case None =>
    case Some(e) =>
      if at(now) && e <= now {
        Between(at, first, e, now);
      }
      if first <= now < e {
        Between(at, first, now, e - 1);
      }
  }

  lemma Between(at: int -> bool, a: int, b: int, c: int)
    requires Connected(at) && a <= b <= c && at(a) && at(c)
    ensures at(b)
  {
  }

  lemma LimitedTimes(at: int -> bool, from: int, floor: int, late: int) returns (first: int, end: int)
    requires Connected(at) && at(from) && floor <= from < late && !at(floor - 1) && !at(late)
    ensures at(end - 1) && forall now :: at(now) <==> During(first, Some(end), now)
  {
    first := FirstTime(at, from, floor);
    end := EndTime(at, from, late);
    forall now ensures at(now) <==> During(first, Some(end), now) {
      ConnectedInterval(at, first, Some(end), now);
    }
  }

  lemma UnlimitedTimes(at: int -> bool, from: int, floor: int) returns (first: int)
    requires Connected(at) && at(from) && floor <= from && !at(floor - 1) && forall t | from <= t :: at(t)
    ensures forall now :: at(now) <==> During(first, None, now)
  {
    first := FirstTime(at, from, floor);
    forall t | first <= t ensures at(t) {
      if t < from { Between(at, first, t, from); }
    }
    forall now ensures at(now) <==> During(first, None, now) {
      ConnectedInterval(at, first, None, now);
    }
  }

  ghost function Times(defs: Definitions, snapshot: Snapshot, key: Key): int -> bool {
    (now: int) => AvailableIn(defs, snapshot, key, now)
  }

  lemma LimitEnds(defs: Definitions, snapshot: Snapshot, key: Key, from: int, o: Observation)
    requires AvailableIn(defs, snapshot, key, from) && Limits(defs, snapshot, key, o)
    ensures from < o.validUntil.value && !AvailableIn(defs, snapshot, key, o.validUntil.value)
    ensures o.observedAt.Some? && Known(defs, o.key) && o.validUntil.value <= o.observedAt.value + MaxValidity(defs, o.key)
  {
    var index :| Indexes(snapshot.observations, index) && Grounded(defs, index, key, from);
    var p :| Walk(Needs(defs), p) && p[0] == key && p[|p| - 1] == o.key;
    assert ValidAt(defs, index, o.key, from) && index[o.key] == o;
    forall other | Indexes(snapshot.observations, other) ensures !Grounded(defs, other, key, o.validUntil.value) {
      assert !ValidAt(defs, other, o.key, o.validUntil.value);
    }
  }

  lemma UnlimitedStays(defs: Definitions, snapshot: Snapshot, key: Key, from: int, now: int)
    requires AvailableIn(defs, snapshot, key, from) && from <= now
    requires forall o :: !Limits(defs, snapshot, key, o)
    ensures AvailableIn(defs, snapshot, key, now)
  {
    var index :| Indexes(snapshot.observations, index) && Grounded(defs, index, key, from);
    AvailableExact(defs, index, key, from);
    AvailableExact(defs, index, key, now);
    forall d | DependsOn(defs, key, d) ensures !Expired(index, d, now) {
      assert d in index ==> !Limits(defs, snapshot, key, index[d]);
    }
    AvailableUntilFirstExpiry(defs, index, key, from, now);
  }

  /** The times at which a snapshot makes a capability available are one half-open interval.
      It has an end exactly when an observation it depends on is limited, and then ends no
      later than any such observation's time plus its maximum validity. */
  lemma AvailabilityIsOneInterval(defs: Definitions, snapshot: Snapshot, key: Key, from: int)
    returns (first: int, end: Option<int>)
    requires AvailableIn(defs, snapshot, key, from)
    ensures forall now :: Times(defs, snapshot, key)(now) <==> During(first, end, now)
    ensures end.Some? <==> exists o :: Limits(defs, snapshot, key, o)
    ensures forall o | Limits(defs, snapshot, key, o) ::
              o.observedAt.Some? && Known(defs, o.key) && end.value <= o.observedAt.value + MaxValidity(defs, o.key)
  {
    var floor := snapshot.collectedAt.value - MINUTE;
    TimesConnected(defs, snapshot, key);
    if o :| Limits(defs, snapshot, key, o) {
      LimitEnds(defs, snapshot, key, from, o);
      var e;
      first, e := LimitedTimes(Times(defs, snapshot, key), from, floor, o.validUntil.value);
      end := Some(e);
      NoLaterThanLimits(defs, snapshot, key, e);
    } else {
      UnlimitedForEver(defs, snapshot, key, from);
      first := UnlimitedTimes(Times(defs, snapshot, key), from, floor);
      end := None;
    }
  }

  lemma TimesConnected(defs: Definitions, snapshot: Snapshot, key: Key)
    ensures Connected(Times(defs, snapshot, key))
  {
    forall a, b, c | a <= b <= c && AvailableIn(defs, snapshot, key, a) && AvailableIn(defs, snapshot, key, c)
      ensures AvailableIn(defs, snapshot, key, b)
    {
      AvailableBetween(defs, snapshot, key, a, b, c);
    }
  }

  lemma UnlimitedForEver(defs: Definitions, snapshot: Snapshot, key: Key, from: int)
    requires AvailableIn(defs, snapshot, key, from) && forall o :: !Limits(defs, snapshot, key, o)
    ensures forall t | from <= t :: Times(defs, snapshot, key)(t)
  {
    forall t | from <= t ensures AvailableIn(defs, snapshot, key, t) {
      UnlimitedStays(defs, snapshot, key, from, t);
    }
  }

  lemma NoLaterThanLimits(defs: Definitions, snapshot: Snapshot, key: Key, end: int)
    requires AvailableIn(defs, snapshot, key, end - 1)
    ensures forall o | Limits(defs, snapshot, key, o) ::
              o.observedAt.Some? && Known(defs, o.key) && end <= o.observedAt.value + MaxValidity(defs, o.key)
  {
    forall o | Limits(defs, snapshot, key, o)
      ensures o.observedAt.Some? && Known(defs, o.key) && end <= o.observedAt.value + MaxValidity(defs, o.key)
    {
      LimitEnds(defs, snapshot, key, end - 1, o);
    }
  }
}
