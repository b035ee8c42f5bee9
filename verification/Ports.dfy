/** Port ranges of one rule: sorted, merged in place, and reduced to the one list that says
    what they cover. */
module Ports {
  import opened Wrappers

  datatype PortRange = PortRange(start: nat, end: nat)

  const MAX_PORT := 65535

  predicate ValidRange(r: PortRange) {
    1 <= r.start <= r.end <= MAX_PORT
  }

  predicate AllValid(ranges: seq<PortRange>) {
    forall r | r in ranges :: ValidRange(r)
  }

  predicate In(r: PortRange, port: nat) {
    r.start <= port <= r.end
  }

  predicate Covers(ranges: seq<PortRange>, port: nat) {
    exists r | r in ranges :: In(r, port)
  }

  /** Sorted, disjoint, and with a gap between neighbours. */
  predicate Canonical(ranges: seq<PortRange>) {
    && (forall r | r in ranges :: r.start <= r.end)
    && (forall i, j | 0 <= i < j < |ranges| :: ranges[i].end + 1 < ranges[j].start)
  }

  // ---------------------------------------------------------------------------
  // One canonical list per covered set
  // ---------------------------------------------------------------------------

  lemma FirstCovers(a: seq<PortRange>, port: nat)
    requires Canonical(a) && a != []
    ensures Covers(a, port) <==> In(a[0], port) || Covers(a[1..], port)
    ensures Covers(a[1..], port) ==> a[0].end + 1 < port
  {
    assert a == [a[0]] + a[1..];
  }

  /** The first range is found from the covered set alone. */
  lemma FirstRange(a: seq<PortRange>, b: seq<PortRange>)
    requires Canonical(a) && Canonical(b) && a != [] && b != []
    requires forall port: nat :: Covers(a, port) <==> Covers(b, port)
    ensures a[0].start <= b[0].start && a[0].end <= b[0].end
  {
    FirstCovers(b, b[0].start);
    FirstCovers(a, b[0].start);
    assert a[0].start <= b[0].start;
    if a[0].end > b[0].end {
      FirstCovers(a, b[0].end + 1);
      FirstCovers(b, b[0].end + 1);
    }
  }

  lemma {:induction false} CanonicalUnique(a: seq<PortRange>, b: seq<PortRange>)
    requires Canonical(a) && Canonical(b)
    requires forall port: nat :: Covers(a, port) <==> Covers(b, port)
    ensures a == b
    decreases |a|
  {
    if a != [] {
      CoversFirst(a);
      assert Covers(b, a[0].start);
      FirstRange(a, b);
      FirstRange(b, a);
      SameRest(a, b);
      CanonicalUnique(a[1..], b[1..]);
      assert a == [a[0]] + a[1..] && b == [b[0]] + b[1..];
    } else if b != [] {
      CoversFirst(b);
    }
  }

  lemma CoversFirst(a: seq<PortRange>)
    requires Canonical(a) && a != []
    ensures Covers(a, a[0].start)
  {
    assert a[0] in a && In(a[0], a[0].start);
  }

  lemma SameRest(a: seq<PortRange>, b: seq<PortRange>)
    requires Canonical(a) && Canonical(b) && a != [] && b != [] && a[0] == b[0]
    requires forall port: nat :: Covers(a, port) <==> Covers(b, port)
    ensures forall port: nat :: Covers(a[1..], port) <==> Covers(b[1..], port)
  {
    forall port: nat ensures Covers(a[1..], port) <==> Covers(b[1..], port) {
      FirstCovers(a, port);
      FirstCovers(b, port);
    }
  }

  // ---------------------------------------------------------------------------
  // Sorting
  // ---------------------------------------------------------------------------

  predicate Before(a: PortRange, b: PortRange) {
    if a.start == b.start then a.end < b.end else a.start < b.start
  }

  predicate ByStart(s: seq<PortRange>) {
    forall i, j | 0 <= i < j < |s| :: s[i].start <= s[j].start
  }

  function Insert(s: seq<PortRange>, r: PortRange): (out: seq<PortRange>)
    requires ByStart(s)
    ensures ByStart(out) && |out| == |s| + 1
    ensures forall x :: x in out <==> x == r || x in s
  {
    if s == [] then [r]
    else if Before(r, s[0]) then [r] + s
    else
      assert s == [s[0]] + s[1..];
      var rest := Insert(s[1..], r);
      assert forall x | x in rest :: s[0].start <= x.start;
      [s[0]] + rest
  }

  function Sorted(s: seq<PortRange>): (out: seq<PortRange>)
    ensures ByStart(out) && |out| == |s|
    ensures forall x :: x in out <==> x in s
  {
    if s == [] then []
    else
      assert s == s[..|s| - 1] + [s[|s| - 1]];
      Insert(Sorted(s[..|s| - 1]), s[|s| - 1])
  }

  // ---------------------------------------------------------------------------
  // Merging, in the array that holds the sorted ranges
  // ---------------------------------------------------------------------------

  lemma CoversMore(s: seq<PortRange>, r: PortRange, port: nat)
    ensures Covers(s + [r], port) <==> Covers(s, port) || In(r, port)
  {
    assert forall x :: x in s + [r] <==> x in s || x == r;
    if In(r, port) { assert r in s + [r]; }
  }

  /** A range that touches the last one is covered by stretching it. */
  lemma StretchCovers(s: seq<PortRange>, last: PortRange, r: PortRange, port: nat)
    requires last.start <= r.start <= last.end + 1 && last.start <= last.end
    ensures var end := if r.end > last.end then r.end else last.end;
            Covers(s + [PortRange(last.start, end)], port) <==> Covers(s + [last], port) || In(r, port)
  {
    var end := if r.end > last.end then r.end else last.end;
    CoversMore(s, PortRange(last.start, end), port);
    CoversMore(s, last, port);
  }

  /** What the merged part and the part read so far have in common. */
  ghost predicate Merged(merged: seq<PortRange>, read: seq<PortRange>) {
    && Canonical(merged)
    && (forall port: nat :: Covers(merged, port) <==> Covers(read, port))
    && (forall r | r in merged :: exists x | x in read :: r.start == x.start)
  }

  /** One round of the loop, on the merged part. */
  function MergeOne(merged: seq<PortRange>, r: PortRange): seq<PortRange> {
    if merged == [] || r.start > merged[|merged| - 1].end + 1 then merged + [r]
    else
      var last := merged[|merged| - 1];
      if r.end > last.end then merged[|merged| - 1 := PortRange(last.start, r.end)] else merged
  }

  lemma MergeApart(merged: seq<PortRange>, read: seq<PortRange>, r: PortRange)
    requires Merged(merged, read) && r.start <= r.end
    requires merged == [] || r.start > merged[|merged| - 1].end + 1
    ensures Merged(merged + [r], read + [r])
  {
    forall port: nat ensures Covers(merged + [r], port) <==> Covers(read + [r], port) {
      CoversMore(merged, r, port);
      CoversMore(read, r, port);
    }
  }

  lemma MergeTouching(merged: seq<PortRange>, read: seq<PortRange>, r: PortRange)
    requires Merged(merged, read) && merged != [] && r.start <= r.end
    requires merged[|merged| - 1].start <= r.start <= merged[|merged| - 1].end + 1
    ensures Merged(MergeOne(merged, r), read + [r])
  {
    var init, last := merged[..|merged| - 1], merged[|merged| - 1];
    var end := if r.end > last.end then r.end else last.end;
    var stretched := PortRange(last.start, end);
    assert merged == init + [last];
    assert MergeOne(merged, r) == init + [stretched];
    forall port: nat ensures Covers(init + [stretched], port) <==> Covers(read + [r], port) {
      StretchCovers(init, last, r, port);
      CoversMore(read, r, port);
    }
  }

  function MergeAll(s: seq<PortRange>): (merged: seq<PortRange>)
    ensures |merged| <= |s|
  {
    if s == [] then [] else MergeOne(MergeAll(s[..|s| - 1]), s[|s| - 1])
  }

  lemma MergeAllNext(s: seq<PortRange>, i: nat)
    requires i < |s|
    ensures MergeAll(s[..i + 1]) == MergeOne(MergeAll(s[..i]), s[i])
  {
    assert s[..i + 1][..i] == s[..i];
  }

  lemma {:induction false} MergeAllMerges(s: seq<PortRange>)
    requires ByStart(s) && AllValid(s)
    ensures Merged(MergeAll(s), s)
    decreases |s|
  {
    if s != [] {
      var read, r := s[..|s| - 1], s[|s| - 1];
      MergeAllMerges(read);
      assert s == read + [r] && ValidRange(r);
      assert forall x | x in read :: x.start <= r.start;
      MergesNext(MergeAll(read), read, r);
    }
  }

  lemma MergesNext(merged: seq<PortRange>, read: seq<PortRange>, r: PortRange)
    requires Merged(merged, read) && r.start <= r.end && forall x | x in read :: x.start <= r.start
    ensures Merged(MergeOne(merged, r), read + [r])
  {
    if merged == [] || r.start > merged[|merged| - 1].end + 1 {
      MergeApart(merged, read, r);
    } else {
      assert merged[|merged| - 1] in merged;
      MergeTouching(merged, read, r);
    }
  }

  method MergeInPlace(out: array<PortRange>) returns (n: nat)
    modifies out
    ensures n <= out.Length && out[..n] == MergeAll(old(out[..]))
  {
    ghost var sorted := out[..];
    n := 0;
    for i := 0 to out.Length
      invariant n <= i && (forall j | i <= j < out.Length :: out[j] == sorted[j])
      invariant out[..n] == MergeAll(sorted[..i])
    {
      var current := out[i];
      ghost var merged := out[..n];
      MergeAllNext(sorted, i);
      if n == 0 || current.start > out[n - 1].end + 1 {
        out[n] := current;
        n := n + 1;
        assert out[..n] == merged + [current];
      } else if current.end > out[n - 1].end {
        out[n - 1] := PortRange(out[n - 1].start, current.end);
        assert out[..n] == merged[n - 1 := out[n - 1]];
      }
    }
    assert sorted[..out.Length] == sorted;
  }

  /** Fails exactly on an invalid range; otherwise the canonical list of the same ports. */
  method NormalizePorts(ranges: seq<PortRange>) returns (r: Result<seq<PortRange>>)
    ensures r.Ok? <==> AllValid(ranges)
    ensures r.Ok? ==> Canonical(r.value) && (forall port: nat :: Covers(r.value, port) <==> Covers(ranges, port))
  {
    for i := 0 to |ranges|
      invariant AllValid(ranges[..i])
    {
      if !ValidRange(ranges[i]) {
        return Err;
      }
    }
    var sorted := Sorted(ranges);
    var out := new PortRange[|sorted|](i requires 0 <= i < |sorted| => sorted[i]);
    assert out[..] == sorted;
    var n := MergeInPlace(out);
    MergeAllMerges(sorted);
    r := Ok(out[..n]);
  }
}
