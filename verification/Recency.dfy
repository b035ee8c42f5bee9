/** Recency lists: what a bounded most-recently-used cache is to hold. */
module Recency {

  /** The digest of an image name. */
  datatype Key = Key(digest: string)

  predicate NoRepeats(s: seq<Key>) {
    forall i, j | 0 <= i < j < |s| :: s[i] != s[j]
  }

  function Without(s: seq<Key>, key: Key): (r: seq<Key>)
    ensures |r| <= |s|
  {
    if s == [] then [] else if s[0] == key then Without(s[1..], key) else [s[0]] + Without(s[1..], key)
  }

  function Touched(s: seq<Key>, key: Key): seq<Key> {
    [key] + Without(s, key)
  }

  /** A capacity that is not positive is no bound. */
  function Bounded(s: seq<Key>, capacity: int): seq<Key> {
    if 0 < capacity < |s| then s[..capacity] else s
  }

  lemma {:induction false} WithoutAppend(a: seq<Key>, b: seq<Key>, key: Key)
    ensures Without(a + b, key) == Without(a, key) + Without(b, key)
  {
    if a == [] {
      assert a + b == b;
    } else {
      WithoutAppend(a[1..], b, key);
      WithoutStep(a, b, key);
    }
  }

  lemma WithoutStep(a: seq<Key>, b: seq<Key>, key: Key)
    requires a != []
    ensures Without(a + b, key) == (if a[0] == key then [] else [a[0]]) + Without(a[1..] + b, key)
  {
    assert (a + b)[1..] == a[1..] + b && (a + b)[0] == a[0];
  }

  lemma {:induction false} WithoutAbsent(s: seq<Key>, key: Key)
    requires key !in s
    ensures Without(s, key) == s
  {
    if s != [] { WithoutAbsent(s[1..], key); }
  }

  lemma {:induction false} WithoutKeeps(s: seq<Key>, key: Key)
    ensures forall x :: x in Without(s, key) <==> x in s && x != key
    ensures NoRepeats(s) ==> NoRepeats(Without(s, key))
  {
    if s != [] {
      WithoutKeeps(s[1..], key);
      assert s == [s[0]] + s[1..];
      if NoRepeats(s) {
        assert NoRepeats(s[1..]) by {
          forall i, j | 0 <= i < j < |s[1..]| ensures s[1..][i] != s[1..][j] { assert s[i + 1] != s[j + 1]; }
        }
        assert s[0] !in s[1..];
      }
    }
  }

  lemma {:induction false} WithoutOne(s: seq<Key>, key: Key)
    requires NoRepeats(s)
    ensures |Without(s, key)| == if key in s then |s| - 1 else |s|
  {
    if s != [] {
      assert s == [s[0]] + s[1..];
      assert NoRepeats(s[1..]) by {
        forall i, j | 0 <= i < j < |s[1..]| ensures s[1..][i] != s[1..][j] { assert s[i + 1] != s[j + 1]; }
      }
      if s[0] == key {
        assert key !in s[1..];
        WithoutAbsent(s[1..], key);
      } else {
        WithoutOne(s[1..], key);
      }
    }
  }

  /** Without repetitions, taking a key out is cutting its place. */
  lemma {:induction false} WithoutAt(s: seq<Key>, i: nat)
    requires NoRepeats(s) && i < |s|
    ensures Without(s, s[i]) == s[..i] + s[i + 1..]
  {
    assert s == s[..i] + ([s[i]] + s[i + 1..]);
    WithoutAppend(s[..i], [s[i]] + s[i + 1..], s[i]);
    WithoutAppend([s[i]], s[i + 1..], s[i]);
    WithoutAbsent(s[..i], s[i]);
    WithoutAbsent(s[i + 1..], s[i]);
    assert Without([s[i]], s[i]) == [];
  }

  lemma TouchedNoRepeats(s: seq<Key>, key: Key)
    requires NoRepeats(s)
    ensures NoRepeats(Touched(s, key)) && forall x :: x in Touched(s, key) <==> x == key || x in s
  {
    WithoutKeeps(s, key);
    var rest := Without(s, key);
    forall i, j | 0 <= i < j < |Touched(s, key)| ensures Touched(s, key)[i] != Touched(s, key)[j] {
      assert rest[j - 1] in rest;
      if i > 0 { assert rest[i - 1] != rest[j - 1]; }
    }
  }

  // ---------------------------------------------------------------------------
  // Bounding early or late
  // ---------------------------------------------------------------------------

  /** The unbounded recency list. */
  function Recent(s: seq<Key>, keys: seq<Key>): seq<Key> {
    if keys == [] then s else Touched(Recent(s, keys[..|keys| - 1]), keys[|keys| - 1])
  }

  lemma {:induction false} RecentNoRepeats(s: seq<Key>, keys: seq<Key>)
    requires NoRepeats(s)
    ensures NoRepeats(Recent(s, keys))
    decreases |keys|
  {
    if keys != [] {
      RecentNoRepeats(s, keys[..|keys| - 1]);
      TouchedNoRepeats(Recent(s, keys[..|keys| - 1]), keys[|keys| - 1]);
    }
  }

  /** Forgetting what is beyond the bound does not change what the next access leaves. */
  lemma BoundedTouch(full: seq<Key>, key: Key, capacity: int)
    requires NoRepeats(full)
    ensures Bounded(Touched(Bounded(full, capacity), key), capacity) == Bounded(Touched(full, key), capacity)
  {
    if 0 < capacity < |full| {
      var near, far := full[..capacity], full[capacity..];
      assert full == near + far;
      WithoutAppend(near, far, key);
      assert NoRepeats(near);
      WithoutOne(near, key);
      WithoutOne(full, key);
    }
  }

  lemma HitStaysBounded(full: seq<Key>, key: Key, capacity: int)
    requires NoRepeats(full) && key in Bounded(full, capacity)
    ensures Touched(Bounded(full, capacity), key) == Bounded(Touched(full, key), capacity)
  {
    BoundedTouch(full, key, capacity);
    var near := Bounded(full, capacity);
    assert NoRepeats(near);
    WithoutOne(near, key);
  }

  // ---------------------------------------------------------------------------
  // What recent means
  // ---------------------------------------------------------------------------

  /** The position of a key's last access; keys never accessed come before all of them. */
  function LastAccess(keys: seq<Key>, key: Key): (at: int)
    ensures -1 <= at < |keys|
  {
    if keys == [] then -1 else if keys[|keys| - 1] == key then |keys| - 1 else LastAccess(keys[..|keys| - 1], key)
  }

  lemma LastAccessNext(keys: seq<Key>, last: Key, key: Key)
    ensures LastAccess(keys + [last], key) == if key == last then |keys| else LastAccess(keys, key)
  {
    assert (keys + [last])[..|keys|] == keys;
  }

  /** Each key comes before those accessed earlier. */
  ghost predicate LatestFirst(keys: seq<Key>, r: seq<Key>) {
    forall i, j | 0 <= i < j < |r| :: LastAccess(keys, r[i]) > LastAccess(keys, r[j])
  }

  lemma RestDiffers(s: seq<Key>, key: Key, i: nat)
    requires i < |Without(s, key)|
    ensures Without(s, key)[i] != key
  {
    WithoutKeeps(s, key);
    assert Without(s, key)[i] in Without(s, key);
  }

  /** Of two keys that were in the list before, the order stays. */
  lemma RestLatestFirst(keys: seq<Key>, r: seq<Key>, last: Key, i: nat, j: nat)
    requires LatestFirst(keys, r) && i < j < |Without(r, last)|
    ensures LastAccess(keys, Without(r, last)[i]) > LastAccess(keys, Without(r, last)[j])
  {
    WithoutOrder(r, last, i, j);
    var a, b :| 0 <= a < b < |r| && r[a] == Without(r, last)[i] && r[b] == Without(r, last)[j];
    assert LastAccess(keys, r[a]) > LastAccess(keys, r[b]);
  }

  lemma RestAccess(keys: seq<Key>, r: seq<Key>, last: Key, i: nat)
    requires i < |Without(r, last)|
    ensures LastAccess(keys + [last], Without(r, last)[i]) == LastAccess(keys, Without(r, last)[i])
  {
    RestDiffers(r, last, i);
    LastAccessNext(keys, last, Without(r, last)[i]);
  }

  lemma TouchedLatestAt(keys: seq<Key>, r: seq<Key>, last: Key, i: nat, j: nat)
    requires LatestFirst(keys, r) && i < j <= |Without(r, last)|
    ensures LastAccess(keys + [last], Touched(r, last)[i]) > LastAccess(keys + [last], Touched(r, last)[j])
  {
    RestAccess(keys, r, last, j - 1);
    if i == 0 {
      LastAccessNext(keys, last, last);
    } else {
      RestAccess(keys, r, last, i - 1);
      RestLatestFirst(keys, r, last, i - 1, j - 1);
    }
  }

  lemma TouchedLatestFirst(keys: seq<Key>, r: seq<Key>, last: Key)
    requires LatestFirst(keys, r)
    ensures LatestFirst(keys + [last], Touched(r, last))
  {
    forall i, j | 0 <= i < j < |Touched(r, last)|
      ensures LastAccess(keys + [last], Touched(r, last)[i]) > LastAccess(keys + [last], Touched(r, last)[j])
    {
      TouchedLatestAt(keys, r, last, i, j);
    }
  }

  lemma {:induction false} AccessedOnly(keys: seq<Key>)
    ensures forall x :: x in Recent([], keys) <==> x in keys
    ensures LatestFirst(keys, Recent([], keys))
    decreases |keys|
  {
    if keys != [] {
      var earlier, last := keys[..|keys| - 1], keys[|keys| - 1];
      AccessedOnly(earlier);
      assert keys == earlier + [last];
      WithoutKeeps(Recent([], earlier), last);
      TouchedLatestFirst(earlier, Recent([], earlier), last);
    }
  }

  function Reversed(s: seq<Key>): (r: seq<Key>)
    ensures forall x :: x in r <==> x in s
  {
    if s == [] then [] else Reversed(s[1..]) + [s[0]]
  }

  lemma {:induction false} RecentAppend(s: seq<Key>, a: seq<Key>, b: seq<Key>)
    ensures Recent(s, a + b) == Recent(Recent(s, a), b)
    decreases |b|
  {
    if b == [] {
      assert a + b == a;
    } else {
      RecentAppend(s, a, b[..|b| - 1]);
      assert (a + b)[..|a + b| - 1] == a + b[..|b| - 1];
    }
  }

  /** A list is the accesses of its keys, last first. */
  lemma {:induction false} RecentReversed(s: seq<Key>)
    requires NoRepeats(s)
    ensures Recent([], Reversed(s)) == s
  {
    if s != [] {
      var rest := s[1..];
      assert NoRepeats(rest) && s[0] !in rest by {
        forall i, j | 0 <= i < j < |rest| ensures rest[i] != rest[j] { assert s[i + 1] != s[j + 1]; }
      }
      RecentReversed(rest);
      WithoutAbsent(rest, s[0]);
      assert Reversed(s)[..|Reversed(s)| - 1] == Reversed(rest);
    }
  }

  /** The recency list is exactly the keys listed or accessed, by their last access; being
      listed at the start counts as an access before all others, the first listed the latest. */
  lemma RecentIsByLastAccess(s: seq<Key>, keys: seq<Key>)
    requires NoRepeats(s)
    ensures forall x :: x in Recent(s, keys) <==> x in s || x in keys
    ensures LatestFirst(Reversed(s) + keys, Recent(s, keys))
  {
    RecentReversed(s);
    RecentAppend([], Reversed(s), keys);
    AccessedOnly(Reversed(s) + keys);
  }

  /** Taking a key out keeps the order of the others. */
  lemma {:induction false} WithoutOrder(s: seq<Key>, key: Key, i: nat, j: nat)
    requires i < j < |Without(s, key)|
    ensures exists a, b | 0 <= a < b < |s| :: s[a] == Without(s, key)[i] && s[b] == Without(s, key)[j]
  {
    var rest := s[1..];
    if s[0] == key {
      WithoutOrder(rest, key, i, j);
      var a, b :| 0 <= a < b < |rest| && rest[a] == Without(rest, key)[i] && rest[b] == Without(rest, key)[j];
      assert s[a + 1] == rest[a] && s[b + 1] == rest[b];
    } else if i > 0 {
      WithoutOrder(rest, key, i - 1, j - 1);
      var a, b :| 0 <= a < b < |rest| && rest[a] == Without(rest, key)[i - 1] && rest[b] == Without(rest, key)[j - 1];
      assert s[a + 1] == rest[a] && s[b + 1] == rest[b];
    } else {
      WithoutKeeps(rest, key);
      assert Without(s, key)[j] == Without(rest, key)[j - 1] && Without(rest, key)[j - 1] in Without(rest, key);
      var b :| 0 <= b < |rest| && rest[b] == Without(rest, key)[j - 1];
      assert s[b + 1] == rest[b] && s[0] == Without(s, key)[0];
    }
  }
}
