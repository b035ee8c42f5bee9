/** One directory of cached bootstraps as a value: which keys are held in what order, which
    file each has, and what every run of stores and links does to them. */
module CacheRuns {
  import opened Wrappers
  import opened Recency

  /** `files` gives the inode of each cached file, `times` when an inode was last touched. */
  datatype Cache = Cache(lru: seq<Key>, files: map<Key, nat>, times: map<nat, int>)

  const EMPTY := Cache([], map[], map[])

  /** What the file system allows when one file is hard-linked over another. */
  datatype Linking = Linking(parent: bool, removable: bool, linkable: bool)

  // ---------------------------------------------------------------------------
  // Putting a file in place: the old one is removed before the new one is linked
  // ---------------------------------------------------------------------------

  predicate SameFile(files: map<Key, nat>, key: Key, source: Option<nat>) {
    source.Some? && key in files && files[key] == source.value
  }

  predicate Places(files: map<Key, nat>, key: Key, source: Option<nat>, fs: Linking) {
    SameFile(files, key, source) || (fs.parent && fs.removable && fs.linkable && source.Some?)
  }

  /** The old file is gone and no new one took its place. */
  predicate Clears(files: map<Key, nat>, key: Key, source: Option<nat>, fs: Linking) {
    !SameFile(files, key, source) && fs.parent && fs.removable && !(fs.linkable && source.Some?)
  }

  function Placed(files: map<Key, nat>, key: Key, source: Option<nat>, fs: Linking): map<Key, nat> {
    if Places(files, key, source, fs) then files[key := source.value]
    else if Clears(files, key, source, fs) then files - {key}
    else files
  }

  // ---------------------------------------------------------------------------
  // Stores and links
  // ---------------------------------------------------------------------------

  datatype Event =
    | Store(key: Key, source: Option<nat>, fs: Linking, now: int)
    | Link(key: Key, now: int)

  /** The files left when the list is cut from `all` to `lru`. */
  function Kept(files: map<Key, nat>, all: seq<Key>, lru: seq<Key>): map<Key, nat> {
    map k | k in files && (k in lru || k !in all) :: files[k]
  }

  function Next(c: Cache, capacity: int, e: Event): Cache {
    match e
    case Store(key, source, fs, now) =>
      var files := Placed(c.files, key, source, fs);
      if !Places(c.files, key, source, fs) then c.(files := files)
      else
        var all := Touched(c.lru, key);
        var lru := Bounded(all, capacity);
        Cache(lru, Kept(files, all, lru), c.times[source.value := now])
    case Link(key, now) =>
      if key !in c.lru then c
      else if key !in c.files then c.(lru := Without(c.lru, key))
      else Cache(Touched(c.lru, key), c.files, c.times[c.files[key] := now])
  }

  function After(c: Cache, capacity: int, events: seq<Event>): Cache {
    if events == [] then c
    else Next(After(c, capacity, events[..|events| - 1]), capacity, events[|events| - 1])
  }

  lemma AfterNext(c: Cache, capacity: int, events: seq<Event>, n: nat)
    requires n < |events|
    ensures After(c, capacity, events[..n + 1]) == Next(After(c, capacity, events[..n]), capacity, events[n])
  {
    assert events[..n + 1][..n] == events[..n];
  }

  lemma NextNoRepeats(c: Cache, capacity: int, e: Event)
    requires NoRepeats(c.lru)
    ensures NoRepeats(Next(c, capacity, e).lru)
  {
    TouchedNoRepeats(c.lru, e.key);
    WithoutKeeps(c.lru, e.key);
  }

  lemma {:induction false} AfterNoRepeats(c: Cache, capacity: int, events: seq<Event>)
    requires NoRepeats(c.lru)
    ensures NoRepeats(After(c, capacity, events).lru)
  {
    if events != [] {
      AfterNoRepeats(c, capacity, events[..|events| - 1]);
      NextNoRepeats(After(c, capacity, events[..|events| - 1]), capacity, events[|events| - 1]);
    }
  }

  // ---------------------------------------------------------------------------
  // Which held keys have their file
  // ---------------------------------------------------------------------------

  ghost predicate Backed(c: Cache) {
    forall k | k in c.lru :: k in c.files
  }

  /** A store of a held key that removes the cached file and then cannot link the new one. */
  predicate Loses(c: Cache, e: Event) {
    e.Store? && e.key in c.lru && Clears(c.files, e.key, e.source, e.fs)
  }

  /** A link of a held key whose file is missing. */
  predicate Drops(c: Cache, e: Event) {
    e.Link? && e.key in c.lru && e.key !in c.files
  }

  lemma NextBacked(c: Cache, capacity: int, e: Event)
    requires Backed(c)
    ensures Backed(Next(c, capacity, e)) <==> !Loses(c, e)
  {
    WithoutKeeps(c.lru, e.key);
    var c' := Next(c, capacity, e);
    if Loses(c, e) {
      assert e.key in c'.lru && e.key !in c'.files;
    } else {
      forall k | k in c'.lru ensures k in c'.files {
        assert k == e.key || k in c.lru;
      }
    }
  }

  ghost predicate NeverLoses(c: Cache, capacity: int, events: seq<Event>) {
    forall n | 0 <= n < |events| :: !Loses(After(c, capacity, events[..n]), events[n])
  }

  ghost predicate NeverDrops(c: Cache, capacity: int, events: seq<Event>) {
    forall n | 0 <= n < |events| :: !Drops(After(c, capacity, events[..n]), events[n])
  }

  ghost predicate AlwaysBacked(c: Cache, capacity: int, events: seq<Event>) {
    forall n | 0 <= n <= |events| :: Backed(After(c, capacity, events[..n]))
  }

  lemma {:induction false} BackedUpTo(c: Cache, capacity: int, events: seq<Event>, n: nat)
    requires Backed(c) && NeverLoses(c, capacity, events) && n <= |events|
    ensures Backed(After(c, capacity, events[..n]))
  {
    if n > 0 {
      BackedUpTo(c, capacity, events, n - 1);
      AfterNext(c, capacity, events, n - 1);
      NextBacked(After(c, capacity, events[..n - 1]), capacity, events[n - 1]);
    }
  }

  /** Every held key has its file throughout a run if and only if no store of a held key in it
      removes the cached file and fails to link the new one. */
  lemma BackedIffNeverLoses(c: Cache, capacity: int, events: seq<Event>)
    requires Backed(c)
    ensures AlwaysBacked(c, capacity, events) <==> NeverLoses(c, capacity, events)
  {
    if NeverLoses(c, capacity, events) {
      forall n | 0 <= n <= |events| ensures Backed(After(c, capacity, events[..n])) {
        BackedUpTo(c, capacity, events, n);
      }
    }
    if AlwaysBacked(c, capacity, events) {
      forall n | 0 <= n < |events| ensures !Loses(After(c, capacity, events[..n]), events[n]) {
        AfterNext(c, capacity, events, n);
        NextBacked(After(c, capacity, events[..n]), capacity, events[n]);
        assert Backed(After(c, capacity, events[..n + 1]));
      }
    }
  }

  /** Storing a held key again from a file that cannot be linked leaves the key held and its
      file gone, whatever the capacity; the next link of it drops the key. */
  lemma FailedStoreLosesFile(key: Key, inode: nat, capacity: int)
    ensures var events := [Store(key, Some(inode), Linking(true, true, true), 0), Store(key, None, Linking(true, true, true), 1)];
            var c := After(EMPTY, capacity, events);
            && c.lru == [key] && c.files == map[]
            && Next(c, capacity, Link(key, 2)).lru == []
  {
    var first, again := Store(key, Some(inode), Linking(true, true, true), 0), Store(key, None, Linking(true, true, true), 1);
    assert [first, again][..1] == [first] && [first][..0] == [];
    assert After(EMPTY, capacity, [first]).lru == [key];
    assert Without([key], key) == [];
  }

  // ---------------------------------------------------------------------------
  // The most recent keys
  // ---------------------------------------------------------------------------

  /** The event counts as an access of its key. */
  predicate Accesses(c: Cache, e: Event) {
    match e
    case Store(key, source, fs, _) => Places(c.files, key, source, fs)
    case Link(key, _) => key in c.lru && key in c.files
  }

  /** The keys accessed, in order. */
  function Effective(c: Cache, capacity: int, events: seq<Event>): seq<Key> {
    if events == [] then []
    else
      var earlier, last := events[..|events| - 1], events[|events| - 1];
      Effective(c, capacity, earlier) + if Accesses(After(c, capacity, earlier), last) then [last.key] else []
  }

  /** The list is the recency list of s and the accesses, cut to the capacity. */
  ghost predicate MostRecent(s: seq<Key>, c: Cache, capacity: int, events: seq<Event>) {
    After(c, capacity, events).lru == Bounded(Recent(s, Effective(c, capacity, events)), capacity)
  }

  lemma EffectiveNext(c: Cache, capacity: int, events: seq<Event>, n: nat)
    requires n < |events|
    ensures Effective(c, capacity, events[..n + 1]) ==
            Effective(c, capacity, events[..n]) + if Accesses(After(c, capacity, events[..n]), events[n]) then [events[n].key] else []
  {
    assert events[..n + 1][..n] == events[..n];
  }

  lemma RecentNext(s: seq<Key>, keys: seq<Key>, key: Key)
    ensures Recent(s, keys + [key]) == Touched(Recent(s, keys), key)
  {
    assert (keys + [key])[..|keys|] == keys;
  }

  lemma NextMostRecent(c: Cache, full: seq<Key>, capacity: int, e: Event)
    requires NoRepeats(full) && c.lru == Bounded(full, capacity)
    ensures Accesses(c, e) ==> Next(c, capacity, e).lru == Bounded(Touched(full, e.key), capacity)
    ensures !Accesses(c, e) ==> (Next(c, capacity, e).lru == Bounded(full, capacity) <==> !Drops(c, e))
  {
    BoundedTouch(full, e.key, capacity);
    if e.key in c.lru { HitStaysBounded(full, e.key, capacity); }
    WithoutKeeps(c.lru, e.key);
  }

  lemma MostRecentStep(s: seq<Key>, c: Cache, capacity: int, events: seq<Event>, n: nat)
    requires NoRepeats(s) && n < |events| && MostRecent(s, c, capacity, events[..n])
    ensures MostRecent(s, c, capacity, events[..n + 1]) <==> !Drops(After(c, capacity, events[..n]), events[n])
  {
    var keys := Effective(c, capacity, events[..n]);
    AfterNext(c, capacity, events, n);
    EffectiveNext(c, capacity, events, n);
    RecentNoRepeats(s, keys);
    RecentNext(s, keys, events[n].key);
    assert keys + [] == keys;
    NextMostRecent(After(c, capacity, events[..n]), Recent(s, keys), capacity, events[n]);
  }

  ghost predicate AlwaysMostRecent(s: seq<Key>, c: Cache, capacity: int, events: seq<Event>) {
    forall n | 0 <= n <= |events| :: MostRecent(s, c, capacity, events[..n])
  }

  lemma {:induction false} MostRecentUpTo(s: seq<Key>, c: Cache, capacity: int, events: seq<Event>, n: nat)
    requires NoRepeats(s) && c.lru == Bounded(s, capacity) && NeverDrops(c, capacity, events) && n <= |events|
    ensures MostRecent(s, c, capacity, events[..n])
  {
    if n > 0 {
      MostRecentUpTo(s, c, capacity, events, n - 1);
      MostRecentStep(s, c, capacity, events, n - 1);
    }
  }

  /** Throughout a run the cache holds the most recent keys, as many as fit, most recent first,
      if and only if no link in it finds the file of a held key missing. */
  lemma MostRecentIffNeverDrops(s: seq<Key>, c: Cache, capacity: int, events: seq<Event>)
    requires NoRepeats(s) && c.lru == Bounded(s, capacity)
    ensures AlwaysMostRecent(s, c, capacity, events) <==> NeverDrops(c, capacity, events)
  {
    if NeverDrops(c, capacity, events) {
      forall n | 0 <= n <= |events| ensures MostRecent(s, c, capacity, events[..n]) {
        MostRecentUpTo(s, c, capacity, events, n);
      }
    }
    if AlwaysMostRecent(s, c, capacity, events) {
      forall n | 0 <= n < |events| ensures !Drops(After(c, capacity, events[..n]), events[n]) {
        MostRecentStep(s, c, capacity, events, n);
        assert MostRecent(s, c, capacity, events[..n + 1]);
      }
    }
  }

  /** After any run of stores, failed or not, and links in which no store of a held key loses
      its file, the cache holds the most recent keys. */
  lemma CacheHoldsMostRecent(s: seq<Key>, c: Cache, capacity: int, events: seq<Event>)
    requires NoRepeats(s) && c.lru == Bounded(s, capacity) && Backed(c) && NeverLoses(c, capacity, events)
    ensures AlwaysMostRecent(s, c, capacity, events)
  {
    BackedIffNeverLoses(c, capacity, events);
    assert NeverDrops(c, capacity, events) by {
      forall n | 0 <= n < |events| ensures !Drops(After(c, capacity, events[..n]), events[n]) {
        assert Backed(After(c, capacity, events[..n]));
      }
    }
    MostRecentIffNeverDrops(s, c, capacity, events);
  }

  /** Whatever was lost or dropped, the list is by last access, and holds only keys listed at
      the start or accessed. */
  lemma {:induction false} ListByLastAccess(c: Cache, capacity: int, events: seq<Event>)
    requires NoRepeats(c.lru)
    ensures var history := Reversed(c.lru) + Effective(c, capacity, events);
            LatestFirst(history, After(c, capacity, events).lru)
            && forall k | k in After(c, capacity, events).lru :: k in history
  {
    if events == [] {
      RecentIsByLastAccess(c.lru, []);
    } else {
      var earlier, last := events[..|events| - 1], events[|events| - 1];
      ListByLastAccess(c, capacity, earlier);
      var before, history := After(c, capacity, earlier), Reversed(c.lru) + Effective(c, capacity, earlier);
      assert Reversed(c.lru) + (Effective(c, capacity, earlier) + [last.key]) == history + [last.key];
      assert Effective(c, capacity, earlier) + [] == Effective(c, capacity, earlier);
      TouchedLatestFirst(history, before.lru, last.key);
      WithoutKeeps(before.lru, last.key);
      WithoutLatestFirst(history, before.lru, last.key);
    }
  }

  lemma WithoutLatestFirst(history: seq<Key>, lru: seq<Key>, key: Key)
    requires LatestFirst(history, lru)
    ensures LatestFirst(history, Without(lru, key))
  {
    forall i, j | 0 <= i < j < |Without(lru, key)|
      ensures LastAccess(history, Without(lru, key)[i]) > LastAccess(history, Without(lru, key)[j])
    {
      RestLatestFirst(history, lru, key, i, j);
    }
  }
}
