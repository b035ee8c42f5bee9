/** Reading a cache directory back: what a new root holds after a run of the old one. */
module CacheRestart {
  import opened Ordering
  import opened Recency
  import opened CacheRuns
  import opened Wrappers

  // ---------------------------------------------------------------------------
  // Reading the directory
  // ---------------------------------------------------------------------------

  datatype File = File(key: Key, time: int)

  /** When the file of each key was last touched. */
  function TimesOf(files: map<Key, nat>, times: map<nat, int>): map<Key, int> {
    map k | k in files && files[k] in times :: times[files[k]]
  }

  function Listing(dates: map<Key, int>): set<File> {
    set k | k in dates :: File(k, dates[k])
  }

  function KeysOf(list: seq<File>): (keys: seq<Key>)
    ensures |keys| == |list|
  {
    seq(|list|, i requires 0 <= i < |list| => list[i].key)
  }

  /** The files in an order the sort may leave them in: newest first, those of one time anyhow. */
  ghost predicate ByTime(dates: map<Key, int>, list: seq<File>) {
    && NoRepeats(KeysOf(list))
    && (forall f :: f in list <==> f.key in dates && dates[f.key] == f.time)
    && (forall i, j | 0 <= i < j < |list| :: list[i].time >= list[j].time)
  }

  /** One such order: files of one time by name. */
  predicate FileLess(a: File, b: File) {
    a.time > b.time || (a.time == b.time && TextLess(a.key.digest, b.key.digest))
  }

  lemma FileOrder()
    ensures StrictOrder(FileLess)
  {
    forall a: File ensures !FileLess(a, a) { TextIrreflexive(a.key.digest); }
    forall a: File, b: File, c: File | FileLess(a, b) && FileLess(b, c) ensures FileLess(a, c) {
      if a.time == b.time && b.time == c.time {
        TextTransitive(a.key.digest, b.key.digest, c.key.digest);
      }
    }
    forall a: File, b: File ensures FileLess(a, b) || FileLess(b, a) || a == b {
      TextTotal(a.key.digest, b.key.digest);
    }
  }

  lemma ListingByTime(dates: map<Key, int>, list: seq<File>)
    requires Ascending(list, FileLess) && forall f :: f in list <==> f in Listing(dates)
    ensures ByTime(dates, list)
  {
    forall f ensures f in list <==> f.key in dates && dates[f.key] == f.time {}
    FileOrder();
    forall i, j | 0 <= i < j < |list| ensures KeysOf(list)[i] != KeysOf(list)[j] && list[i].time >= list[j].time {
      assert list[i] in list && list[j] in list && FileLess(list[i], list[j]);
      assert !FileLess(list[i], list[i]);
    }
  }

  lemma ListedKeys(dates: map<Key, int>, list: seq<File>)
    requires ByTime(dates, list)
    ensures forall k :: k in KeysOf(list) <==> k in dates
  {
    forall k ensures k in KeysOf(list) <==> k in dates {
      if k in dates {
        assert File(k, dates[k]) in list;
        var i :| 0 <= i < |list| && list[i] == File(k, dates[k]);
        assert KeysOf(list)[i] == k;
      }
      if k in KeysOf(list) {
        var i :| 0 <= i < |list| && KeysOf(list)[i] == k;
        assert list[i] in list;
      }
    }
  }

  // ---------------------------------------------------------------------------
  // Files dated in the order of the list
  // ---------------------------------------------------------------------------

  /** The held keys that have a file. */
  function Held(lru: seq<Key>, files: set<Key>): (r: seq<Key>)
    ensures |r| <= |lru|
  {
    if lru == [] then [] else (if lru[0] in files then [lru[0]] else []) + Held(lru[1..], files)
  }

  lemma {:induction false} HeldMembers(lru: seq<Key>, files: set<Key>)
    ensures forall k :: k in Held(lru, files) <==> k in lru && k in files
  {
    if lru != [] {
      HeldMembers(lru[1..], files);
      assert lru == [lru[0]] + lru[1..];
    }
  }

  lemma {:induction false} HeldAll(lru: seq<Key>, files: set<Key>)
    ensures Held(lru, files) == lru <==> forall k | k in lru :: k in files
  {
    if lru != [] {
      HeldAll(lru[1..], files);
      assert lru == [lru[0]] + lru[1..];
      if lru[0] !in files {
        assert |Held(lru, files)| < |lru|;
      }
    }
  }

  /** Of two held files, the one earlier in the list is newer. */
  ghost predicate Dated(lru: seq<Key>, dates: map<Key, int>) {
    forall i, j | 0 <= i < j < |lru| && lru[i] in dates && lru[j] in dates :: dates[lru[i]] > dates[lru[j]]
  }

  /** Only held keys have files. */
  ghost predicate Listed(lru: seq<Key>, files: set<Key>) {
    forall k | k in files :: k in lru
  }

  lemma HeadNewest(lru: seq<Key>, dates: map<Key, int>, k: Key)
    requires Dated(lru, dates) && lru != [] && lru[0] in dates && k in lru[1..] && k in dates
    ensures dates[lru[0]] > dates[k]
  {
    var b :| 0 <= b < |lru[1..]| && lru[1..][b] == k;
    assert lru[b + 1] == k;
  }

  lemma RestDated(lru: seq<Key>, dates: map<Key, int>)
    requires Dated(lru, dates) && lru != []
    ensures Dated(lru[1..], dates)
  {
    var rest := lru[1..];
    forall i, j | 0 <= i < j < |rest| && rest[i] in dates && rest[j] in dates ensures dates[rest[i]] > dates[rest[j]] {
      assert rest[i] == lru[i + 1] && rest[j] == lru[j + 1];
    }
  }

  lemma {:induction false} HeldDated(lru: seq<Key>, dates: map<Key, int>, i: nat, j: nat)
    requires Dated(lru, dates) && i < j < |Held(lru, dates.Keys)|
    ensures var held := Held(lru, dates.Keys);
            held[i] in dates && held[j] in dates && dates[held[i]] > dates[held[j]]
  {
    var rest := Held(lru[1..], dates.Keys);
    RestDated(lru, dates);
    if lru[0] !in dates {
      HeldDated(lru[1..], dates, i, j);
    } else if i > 0 {
      HeldDated(lru[1..], dates, i - 1, j - 1);
    } else {
      HeldMembers(lru[1..], dates.Keys);
      assert rest[j - 1] in rest;
      HeadNewest(lru, dates, rest[j - 1]);
    }
  }

  lemma DatesDiffer(lru: seq<Key>, dates: map<Key, int>, k: Key, l: Key)
    requires Dated(lru, dates) && k in lru && l in lru && k in dates && l in dates && k != l
    ensures dates[k] != dates[l]
  {
    var i :| 0 <= i < |lru| && lru[i] == k;
    var j :| 0 <= j < |lru| && lru[j] == l;
    if i < j {
      assert dates[lru[i]] > dates[lru[j]];
    } else {
      assert dates[lru[j]] > dates[lru[i]];
    }
  }

  /** Then a new root reads the held keys that have files, in the order of the list. */
  lemma RestartKeepsOrder(lru: seq<Key>, dates: map<Key, int>, list: seq<File>)
    requires NoRepeats(lru) && Listed(lru, dates.Keys) && Dated(lru, dates) && ByTime(dates, list)
    ensures KeysOf(list) == Held(lru, dates.Keys)
  {
    var held := Held(lru, dates.Keys);
    HeldMembers(lru, dates.Keys);
    var mine := seq(|held|, i requires 0 <= i < |held| => File(held[i], if held[i] in dates then dates[held[i]] else 0));
    FileOrder();
    forall i, j | 0 <= i < j < |mine| ensures FileLess(mine[i], mine[j]) {
      HeldDated(lru, dates, i, j);
    }
    forall i, j | 0 <= i < j < |list| ensures FileLess(list[i], list[j]) {
      assert list[i] in list && list[j] in list && KeysOf(list)[i] != KeysOf(list)[j];
      DatesDiffer(lru, dates, list[i].key, list[j].key);
    }
    forall f ensures f in list <==> f in mine {
      if f in list {
        assert f.key in held;
        var i :| 0 <= i < |held| && held[i] == f.key;
        assert mine[i] == f;
      }
      if f in mine {
        var i :| 0 <= i < |mine| && mine[i] == f;
        assert held[i] in held;
      }
    }
    AscendingUnique(list, mine, FileLess);
    assert forall i | 0 <= i < |held| :: KeysOf(list)[i] == held[i];
  }

  // ---------------------------------------------------------------------------
  // Every event keeps them so
  // ---------------------------------------------------------------------------

  lemma WithoutDated(lru: seq<Key>, dates: map<Key, int>, key: Key)
    requires Dated(lru, dates)
    ensures Dated(Without(lru, key), dates)
  {
    var rest := Without(lru, key);
    forall i, j | 0 <= i < j < |rest| && rest[i] in dates && rest[j] in dates ensures dates[rest[i]] > dates[rest[j]] {
      WithoutOrder(lru, key, i, j);
      var a, b :| 0 <= a < b < |lru| && lru[a] == rest[i] && lru[b] == rest[j];
      assert dates[lru[a]] > dates[lru[b]];
    }
  }

  lemma TouchedDatedAt(rest: seq<Key>, dates: map<Key, int>, key: Key, now: int, i: nat, j: nat)
    requires Dated(rest, dates) && key !in rest && (forall k | k in dates :: dates[k] < now)
    requires var t, later := [key] + rest, dates[key := now];
             i < j < |t| && t[i] in later && t[j] in later
    ensures var t, later := [key] + rest, dates[key := now]; later[t[i]] > later[t[j]]
  {
    var t := [key] + rest;
    assert t[j] == rest[j - 1] && rest[j - 1] in rest;
    if i > 0 {
      assert t[i] == rest[i - 1] && rest[i - 1] in rest;
    }
  }

  /** An access at a later time than any file's dates the touched list. */
  lemma TouchedDated(lru: seq<Key>, dates: map<Key, int>, key: Key, now: int)
    requires Dated(lru, dates) && forall k | k in dates :: dates[k] < now
    ensures Dated(Touched(lru, key), dates[key := now])
  {
    WithoutDated(lru, dates, key);
    WithoutKeeps(lru, key);
    var t, later := Touched(lru, key), dates[key := now];
    forall i, j | 0 <= i < j < |t| && t[i] in later && t[j] in later ensures later[t[i]] > later[t[j]] {
      TouchedDatedAt(Without(lru, key), dates, key, now, i, j);
    }
  }

  /** Fewer files and fewer keys. */
  lemma FewerDated(all: seq<Key>, dates: map<Key, int>, lru: seq<Key>, fewer: map<Key, int>)
    requires Dated(all, dates) && lru <= all && forall k | k in fewer :: k in dates && fewer[k] == dates[k]
    ensures Dated(lru, fewer)
  {
    forall i, j | 0 <= i < j < |lru| && lru[i] in fewer && lru[j] in fewer ensures fewer[lru[i]] > fewer[lru[j]] {
      assert lru[i] == all[i] && lru[j] == all[j];
      assert dates[all[i]] > dates[all[j]];
    }
  }

  ghost predicate Timed(c: Cache) {
    forall k | k in c.files :: c.files[k] in c.times
  }

  /** Each inode is the file of one key only. */
  ghost predicate Owned(files: map<Key, nat>, own: nat -> Key) {
    forall k | k in files :: own(files[k]) == k
  }

  ghost predicate Before(times: map<nat, int>, now: int) {
    forall n | n in times :: times[n] < now
  }

  /** What holds of every root however it is used. */
  ghost predicate Sound(c: Cache, capacity: int) {
    NoRepeats(c.lru) && Timed(c) && Listed(c.lru, c.files.Keys) && c.lru == Bounded(c.lru, capacity)
  }

  lemma NextSound(c: Cache, capacity: int, e: Event)
    requires Sound(c, capacity)
    ensures Sound(Next(c, capacity, e), capacity)
  {
    NextNoRepeats(c, capacity, e);
    TouchedNoRepeats(c.lru, e.key);
    WithoutKeeps(c.lru, e.key);
    WithoutOne(c.lru, e.key);
  }

  lemma {:induction false} AfterSound(c: Cache, capacity: int, events: seq<Event>)
    requires Sound(c, capacity)
    ensures Sound(After(c, capacity, events), capacity)
  {
    if events != [] {
      AfterSound(c, capacity, events[..|events| - 1]);
      NextSound(After(c, capacity, events[..|events| - 1]), capacity, events[|events| - 1]);
    }
  }

  ghost predicate InOrder(c: Cache, own: nat -> Key) {
    Owned(c.files, own) && Dated(c.lru, TimesOf(c.files, c.times))
  }

  ghost predicate OwnSource(e: Event, own: nat -> Key) {
    e.Store? && e.source.Some? ==> own(e.source.value) == e.key
  }

  /** Touching the inode of one key dates that key's file only. */
  lemma TouchedTimes(files: map<Key, nat>, times: map<nat, int>, own: nat -> Key, key: Key, inode: nat, now: int)
    requires Owned(files, own) && own(inode) == key
    ensures TimesOf(files[key := inode], times[inode := now]) == TimesOf(files, times)[key := now]
  {
  }

  /** What a store leaves is among what it put in place. */
  lemma StoredParts(c: Cache, capacity: int, e: Event)
    requires e.Store? && Places(c.files, e.key, e.source, e.fs)
    ensures var c' := Next(c, capacity, e);
            && c'.lru <= Touched(c.lru, e.key) && c'.times == c.times[e.source.value := e.now]
            && forall k | k in c'.files :: k in c.files[e.key := e.source.value] && c'.files[k] == c.files[e.key := e.source.value][k]
  {
  }

  lemma FewerTimes(files: map<Key, nat>, fewer: map<Key, nat>, times: map<nat, int>)
    requires forall k | k in fewer :: k in files && fewer[k] == files[k]
    ensures forall k | k in TimesOf(fewer, times) :: k in TimesOf(files, times) && TimesOf(fewer, times)[k] == TimesOf(files, times)[k]
  {
  }

  lemma StoreInOrder(c: Cache, capacity: int, e: Event, own: nat -> Key)
    requires InOrder(c, own) && e.Store? && Places(c.files, e.key, e.source, e.fs)
    requires OwnSource(e, own) && Before(c.times, e.now)
    ensures InOrder(Next(c, capacity, e), own)
  {
    var key, inode, now, c' := e.key, e.source.value, e.now, Next(c, capacity, e);
    var dates := TimesOf(c.files, c.times);
    StoredParts(c, capacity, e);
    TouchedDated(c.lru, dates, key, now);
    TouchedTimes(c.files, c.times, own, key, inode, now);
    FewerTimes(c.files[key := inode], c'.files, c'.times);
    FewerDated(Touched(c.lru, key), dates[key := now], c'.lru, TimesOf(c'.files, c'.times));
  }

  lemma NextInOrder(c: Cache, capacity: int, e: Event, own: nat -> Key)
    requires InOrder(c, own) && OwnSource(e, own) && Before(c.times, e.now)
    ensures InOrder(Next(c, capacity, e), own)
  {
    var dates, c' := TimesOf(c.files, c.times), Next(c, capacity, e);
    match e
    case Store(key, source, fs, now) =>
      if Places(c.files, key, source, fs) {
        StoreInOrder(c, capacity, e, own);
      } else {
        FewerDated(c.lru, dates, c.lru, TimesOf(c'.files, c'.times));
      }
    case Link(key, now) =>
      if key in c.lru && key !in c.files {
        WithoutDated(c.lru, dates, key);
      } else if key in c.lru {
        TouchedDated(c.lru, dates, key, now);
        TouchedTimes(c.files, c.times, own, key, c.files[key], now);
        assert c.files[key := c.files[key]] == c.files;
      }
  }

  lemma UnevictedFiles(found: map<Key, nat>, all: seq<Key>, lru: seq<Key>, evicted: seq<Key>)
    requires (forall k | k in found :: k in all) && forall k :: k in evicted <==> k in all && k !in lru
    ensures (map k | k in found && k !in evicted :: found[k]) == map k | k in found && k in lru :: found[k]
  {
  }

  /** A root that has just read its directory. */
  lemma FreshSound(found: map<Key, nat>, times: map<nat, int>, list: seq<File>, capacity: int)
    requires (forall k | k in found :: found[k] in times) && ByTime(TimesOf(found, times), list)
    ensures var lru := Bounded(KeysOf(list), capacity);
            var c := Cache(lru, map k | k in found && k in lru :: found[k], times);
            Sound(c, capacity) && Backed(c)
  {
    ListedKeys(TimesOf(found, times), list);
  }

  // ---------------------------------------------------------------------------
  // Whole runs
  // ---------------------------------------------------------------------------

  /** The clock rises from event to event, and starts later than any file's time. */
  ghost predicate Rising(c: Cache, events: seq<Event>) {
    && (forall i | 0 <= i < |events| :: Before(c.times, events[i].now))
    && (forall i, j | 0 <= i < j < |events| :: events[i].now < events[j].now)
  }

  lemma {:induction false} AfterBefore(c: Cache, capacity: int, events: seq<Event>, t: int)
    requires Before(c.times, t) && forall i | 0 <= i < |events| :: events[i].now < t
    ensures Before(After(c, capacity, events).times, t)
  {
    if events != [] {
      AfterBefore(c, capacity, events[..|events| - 1], t);
    }
  }

  lemma {:induction false} AfterInOrder(c: Cache, capacity: int, events: seq<Event>, own: nat -> Key)
    requires InOrder(c, own) && Rising(c, events) && forall i | 0 <= i < |events| :: OwnSource(events[i], own)
    ensures InOrder(After(c, capacity, events), own)
  {
    if events != [] {
      var earlier, last := events[..|events| - 1], events[|events| - 1];
      AfterInOrder(c, capacity, earlier, own);
      AfterBefore(c, capacity, earlier, last.now);
      NextInOrder(After(c, capacity, earlier), capacity, last, own);
    }
  }

  /** A new root on the directory left by a run holds the list of the old one less the keys
      whose files were lost, whichever way the sort treats equal times. */
  ghost predicate ReadsBack(c: Cache, capacity: int, events: seq<Event>) {
    var end := After(c, capacity, events);
    forall list | ByTime(TimesOf(end.files, end.times), list) ::
      Bounded(KeysOf(list), capacity) == Held(end.lru, end.files.Keys)
  }

  lemma OrderedReadsBack(c: Cache, capacity: int, events: seq<Event>)
    requires var end := After(c, capacity, events);
             Sound(end, capacity) && Dated(end.lru, TimesOf(end.files, end.times))
    ensures ReadsBack(c, capacity, events)
  {
    var end := After(c, capacity, events);
    var dates := TimesOf(end.files, end.times);
    assert dates.Keys == end.files.Keys;
    forall list | ByTime(dates, list) ensures Bounded(KeysOf(list), capacity) == Held(end.lru, end.files.Keys) {
      RestartKeepsOrder(end.lru, dates, list);
    }
  }

  /** Every run with a rising clock whose stored files are each stored under one key reads
      back; what is read back is the whole list if and only if every held key has its file. */
  lemma RestartReadsBack(c: Cache, capacity: int, events: seq<Event>, own: nat -> Key)
    requires Sound(c, capacity) && InOrder(c, own) && Rising(c, events)
    requires forall i | 0 <= i < |events| :: OwnSource(events[i], own)
    ensures ReadsBack(c, capacity, events)
    ensures var end := After(c, capacity, events); Held(end.lru, end.files.Keys) == end.lru <==> Backed(end)
  {
    AfterSound(c, capacity, events);
    AfterInOrder(c, capacity, events, own);
    OrderedReadsBack(c, capacity, events);
    HeldAll(After(c, capacity, events).lru, After(c, capacity, events).files.Keys);
  }

  // ---------------------------------------------------------------------------
  // One file stored under two keys
  // ---------------------------------------------------------------------------

  ghost predicate Permitted(sources: iset<(Key, nat)>, events: seq<Event>) {
    forall i | 0 <= i < |events| && events[i].Store? && events[i].source.Some? ::
      (events[i].key, events[i].source.value) in sources
  }

  ghost predicate OneKeyEach(sources: iset<(Key, nat)>) {
    forall k, l, n | (k, n) in sources && (l, n) in sources :: k == l
  }

  ghost predicate AllReadBack(sources: iset<(Key, nat)>, capacity: int) {
    forall events | Permitted(sources, events) && Rising(EMPTY, events) :: ReadsBack(EMPTY, capacity, events)
  }

  ghost function OwnerIn(sources: iset<(Key, nat)>, n: nat): Key {
    if exists k :: (k, n) in sources then var k :| (k, n) in sources; k else Key("")
  }

  lemma OneKeyEachReadsBack(sources: iset<(Key, nat)>, capacity: int, events: seq<Event>)
    requires OneKeyEach(sources) && Permitted(sources, events) && Rising(EMPTY, events)
    ensures ReadsBack(EMPTY, capacity, events)
  {
    var own := (n: nat) => OwnerIn(sources, n);
    RestartReadsBack(EMPTY, capacity, events, own);
  }

  lemma SingleReadsBack(events: seq<Event>)
    ensures ReadsBack(EMPTY, 1, events)
  {
    AfterSound(EMPTY, 1, events);
    OrderedReadsBack(EMPTY, 1, events);
  }

  function StoredTwice(k: Key, l: Key, n: nat): seq<Event> {
    [Store(k, Some(n), Linking(true, true, true), 0), Store(l, Some(n), Linking(true, true, true), 1)]
  }

  lemma StoreNew(c: Cache, capacity: int, key: Key, n: nat, now: int)
    requires key !in c.lru && Bounded([key] + c.lru, capacity) == [key] + c.lru
    ensures Next(c, capacity, Store(key, Some(n), Linking(true, true, true), now))
            == Cache([key] + c.lru, c.files[key := n], c.times[n := now])
  {
    WithoutAbsent(c.lru, key);
    var all, files := [key] + c.lru, c.files[key := n];
    assert Kept(files, all, all) == files;
  }

  lemma StoredTwiceEnds(k: Key, l: Key, n: nat, capacity: int)
    requires k != l && capacity != 1
    ensures After(EMPTY, capacity, StoredTwice(k, l, n)) == Cache([l, k], map[k := n, l := n], map[n := 1])
  {
    var events := StoredTwice(k, l, n);
    StoreNew(EMPTY, capacity, k, n, 0);
    StoreNew(Cache([k], map[k := n], map[n := 0]), capacity, l, n, 1);
    AfterNext(EMPTY, capacity, events, 0);
    AfterNext(EMPTY, capacity, events, 1);
    assert events[..2] == events;
    assert map[n := 0][n := 1] == map[n := 1];
  }

  lemma TiedEitherWay(k: Key, l: Key)
    requires k != l
    ensures ByTime(map[k := 1, l := 1], [File(k, 1), File(l, 1)])
    ensures KeysOf([File(k, 1), File(l, 1)]) == [k, l]
  {
    var list := [File(k, 1), File(l, 1)];
    assert KeysOf(list)[0] == k && KeysOf(list)[1] == l;
    forall f ensures f in list <==> f.key in map[k := 1, l := 1] && map[k := 1, l := 1][f.key] == f.time {
      assert f in list <==> f == list[0] || f == list[1];
    }
  }

  /** Stored under two keys, the file has one time, and the sort may list either key first. */
  lemma SharedFileMayReorder(k: Key, l: Key, n: nat, capacity: int)
    requires k != l && capacity != 1
    ensures Rising(EMPTY, StoredTwice(k, l, n)) && !ReadsBack(EMPTY, capacity, StoredTwice(k, l, n))
  {
    StoredTwiceEnds(k, l, n, capacity);
    SharedTimes(k, l, n);
    TiedEitherWay(k, l);
    HeldFirst([l, k], (map[k := n, l := n]).Keys);
    OtherOrder(EMPTY, capacity, StoredTwice(k, l, n), [File(k, 1), File(l, 1)]);
  }

  lemma SharedTimes(k: Key, l: Key, n: nat)
    ensures TimesOf(map[k := n, l := n], map[n := 1]) == map[k := 1, l := 1]
  {
  }

  lemma HeldFirst(lru: seq<Key>, files: set<Key>)
    requires lru != [] && lru[0] in files
    ensures Held(lru, files) != [] && Held(lru, files)[0] == lru[0]
  {
  }

  lemma OtherOrder(c: Cache, capacity: int, events: seq<Event>, list: seq<File>)
    requires var end := After(c, capacity, events);
             && ByTime(TimesOf(end.files, end.times), list)
             && list != [] && Held(end.lru, end.files.Keys) != [] && list[0].key != Held(end.lru, end.files.Keys)[0]
    ensures !ReadsBack(c, capacity, events)
  {
    assert Bounded(KeysOf(list), capacity)[0] == list[0].key;
  }

  /** From an empty directory every run with a rising clock reads back if and only if no file
      is stored under two keys, unless only one file is kept at all. */
  lemma ReadBackIffOneKeyEach(sources: iset<(Key, nat)>, capacity: int)
    ensures AllReadBack(sources, capacity) <==> capacity == 1 || OneKeyEach(sources)
  {
    if capacity == 1 {
      forall events | Permitted(sources, events) && Rising(EMPTY, events) ensures ReadsBack(EMPTY, 1, events) {
        SingleReadsBack(events);
      }
    } else if OneKeyEach(sources) {
      forall events | Permitted(sources, events) && Rising(EMPTY, events) ensures ReadsBack(EMPTY, capacity, events) {
        OneKeyEachReadsBack(sources, capacity, events);
      }
    } else {
      var k, l, n :| (k, n) in sources && (l, n) in sources && k != l;
      SharedFileMayReorder(k, l, n, capacity);
      assert Permitted(sources, StoredTwice(k, l, n));
    }
  }
}
