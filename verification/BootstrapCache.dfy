/** The bootstrap cache of one directory: a table of entries, a list of them in order of use,
    and the cached files. An element of the list is known by its key. */
module BootstrapCache {
  import opened Wrappers
  import opened Ordering
  import opened Recency
  import opened CacheRuns
  import opened CacheRestart

  /** Table and list hold the same entries, and the list holds each once. */
  ghost predicate Agree(entries: set<Key>, lru: seq<Key>) {
    NoRepeats(lru) && forall k :: k in entries <==> k in lru
  }

  lemma {:induction false} DistinctSize(s: seq<Key>)
    requires NoRepeats(s)
    ensures |set x | x in s| == |s|
  {
    if s != [] {
      var init, last := s[..|s| - 1], s[|s| - 1];
      DistinctSize(init);
      assert (set x | x in s) == (set x | x in init) + {last};
    }
  }

  lemma AgreeSize(entries: set<Key>, lru: seq<Key>)
    requires Agree(entries, lru)
    ensures |entries| == |lru|
  {
    DistinctSize(lru);
    assert entries == set x | x in lru;
  }

  lemma AgreeWithout(entries: set<Key>, lru: seq<Key>, i: nat)
    requires Agree(entries, lru) && i < |lru|
    ensures Agree(entries - {lru[i]}, lru[..i] + lru[i + 1..])
    ensures lru[..i] + lru[i + 1..] == Without(lru, lru[i])
  {
    WithoutAt(lru, i);
    WithoutKeeps(lru, lru[i]);
  }

  lemma AgreeTouched(entries: set<Key>, lru: seq<Key>, key: Key)
    requires Agree(entries, lru)
    ensures Agree(entries + {key}, Touched(lru, key))
  {
    TouchedNoRepeats(lru, key);
  }

  /** The first `n` stay, in the order they were in; the others are gone. */
  ghost predicate CutTo(all: seq<Key>, lru: seq<Key>, evicted: seq<Key>) {
    |lru| <= |all| && lru == all[..|lru|] && forall k :: k in evicted <==> k in all[|lru|..]
  }

  lemma CutOne(all: seq<Key>, lru: seq<Key>, evicted: seq<Key>)
    requires CutTo(all, lru, evicted) && lru != []
    ensures CutTo(all, lru[..|lru| - 1], evicted + [lru[|lru| - 1]])
  {
    var n := |lru| - 1;
    assert all[n..] == [all[n]] + all[n + 1..];
    assert lru[..n] == all[..n];
  }

  lemma CutExactly(all: seq<Key>, lru: seq<Key>, evicted: seq<Key>)
    requires NoRepeats(all) && CutTo(all, lru, evicted)
    ensures forall k :: k in evicted <==> k in all && k !in lru
  {
    assert all == all[..|lru|] + all[|lru|..];
  }

  lemma PushBack(entries: set<Key>, lru: seq<Key>, list: seq<File>, i: nat)
    requires i < |list| && NoRepeats(KeysOf(list)) && Agree(entries, lru) && lru == KeysOf(list[..i])
    ensures Agree(entries + {list[i].key}, lru + [list[i].key]) && lru + [list[i].key] == KeysOf(list[..i + 1])
  {
    var keys := KeysOf(list);
    assert lru == keys[..i] && KeysOf(list[..i + 1]) == keys[..i + 1] && keys[..i + 1] == keys[..i] + [keys[i]];
  }

  method SortFiles(dates: map<Key, int>) returns (list: seq<File>)
    ensures ByTime(dates, list) && forall k :: k in KeysOf(list) <==> k in dates
  {
    FileOrder();
    list := SortSet(Listing(dates), FileLess);
    ListingByTime(dates, list);
    ListedKeys(dates, list);
  }

  class CacheRoot {
    const capacity: int
    var entries: set<Key>
    var lru: seq<Key>
    /** The inode of each cached file, and when each inode was last touched. */
    var files: map<Key, nat>
    var times: map<nat, int>

    ghost predicate Valid()
      reads this
    {
      Agree(entries, lru)
    }

    function Value(): Cache
      reads this
    {
      Cache(lru, files, times)
    }

    method RemoveEntry(i: nat)
      requires Valid() && i < |lru|
      modifies this`entries, this`lru
      ensures Valid() && lru == Without(old(lru), old(lru)[i]) && lru == old(lru)[..i] + old(lru)[i + 1..]
    {
      AgreeWithout(entries, lru, i);
      entries := entries - {lru[i]};
      lru := lru[..i] + lru[i + 1..];
    }

    method Locate(key: Key) returns (i: nat)
      requires Valid() && key in entries
      ensures i < |lru| && lru[i] == key
    {
      i := 0;
      while lru[i] != key
        invariant i < |lru| && key in lru[i..]
        decreases |lru| - i
      {
        i := i + 1;
      }
    }

    method MoveToFront(key: Key)
      requires Valid() && key in entries
      modifies this`lru
      ensures Valid() && lru == Touched(old(lru), key)
    {
      var i := Locate(key);
      WithoutAt(lru, i);
      AgreeTouched(entries, lru, key);
      assert entries + {key} == entries;
      lru := [key] + (lru[..i] + lru[i + 1..]);
    }

    /** The last ones go until the rest fits. */
    method EvictLocked() returns (evicted: seq<Key>)
      requires Valid()
      modifies this`entries, this`lru
      ensures Valid() && lru == Bounded(old(lru), capacity)
      ensures forall k :: k in evicted <==> k in old(lru) && k !in lru
    {
      evicted := [];
      if capacity <= 0 {
        return;
      }
      ghost var all := lru;
      AgreeSize(entries, lru);
      while |entries| > capacity
        invariant Valid() && |entries| == |lru| && (|lru| >= capacity || |lru| == |all|)
        invariant CutTo(all, lru, evicted)
        decreases |lru|
      {
        CutOne(all, lru, evicted);
        evicted := evicted + [lru[|lru| - 1]];
        ghost var shorter := lru[..|lru| - 1];
        RemoveEntry(|lru| - 1);
        assert lru == shorter;
        AgreeSize(entries, lru);
      }
      CutExactly(all, lru, evicted);
    }

    method RecordAccess(key: Key) returns (evicted: seq<Key>)
      requires Valid()
      modifies this`entries, this`lru
      ensures Valid() && lru == Bounded(Touched(old(lru), key), capacity)
      ensures forall k :: k in evicted <==> k in Touched(old(lru), key) && k !in lru
    {
      if key in entries {
        MoveToFront(key);
      } else {
        WithoutAbsent(lru, key);
        AgreeTouched(entries, lru, key);
        lru := [key] + lru;
        entries := entries + {key};
      }
      evicted := EvictLocked();
    }

    method PushAll(list: seq<File>)
      requires entries == {} && lru == [] && NoRepeats(KeysOf(list))
      modifies this`entries, this`lru
      ensures Valid() && lru == KeysOf(list)
    {
      for i := 0 to |list|
        invariant Valid() && lru == KeysOf(list[..i])
      {
        PushBack(entries, lru, list, i);
        entries := entries + {list[i].key};
        lru := lru + [list[i].key];
      }
      assert list[..|list|] == list;
    }

    constructor (capacity: int)
      ensures this.capacity == capacity && entries == {} && lru == []
    {
      this.capacity := capacity;
      entries, lru, files, times := {}, [], map[], map[];
    }

    /** Reads the directory: newest files first, as many as fit; the others are deleted. */
    method EnsureInitialized(found: map<Key, nat>, times: map<nat, int>)
      requires entries == {} && lru == [] && forall k | k in found :: found[k] in times
      modifies this
      ensures Valid() && Sound(Value(), capacity) && Backed(Value())
      ensures exists list :: ByTime(TimesOf(found, times), list) && lru == Bounded(KeysOf(list), capacity)
      ensures files == (map k | k in found && k in lru :: found[k]) && this.times == times
    {
      var list := SortFiles(TimesOf(found, times));
      files, this.times := found, times;
      PushAll(list);
      ghost var all := lru;
      var evicted := EvictLocked();
      assert forall k | k in found :: k in TimesOf(found, times);
      UnevictedFiles(found, all, lru, evicted);
      RemoveFiles(evicted);
      FreshSound(found, times, list, capacity);
    }

    method RemoveFiles(evicted: seq<Key>)
      modifies this`files
      ensures files == map k | k in old(files) && k !in evicted :: old(files)[k]
    {
      for i := 0 to |evicted|
        invariant files == map k | k in old(files) && k !in evicted[..i] :: old(files)[k]
      {
        assert forall k :: k in evicted[..i + 1] <==> k in evicted[..i] || k == evicted[i];
        files := files - {evicted[i]};
      }
    }

    /** Links `source`, the inode a path names if it names any, over the cached file of key. */
    method EnsureHardLink(key: Key, source: Option<nat>, fs: Linking) returns (ok: bool)
      modifies this`files
      ensures ok == Places(old(files), key, source, fs) && files == Placed(old(files), key, source, fs)
    {
      if source.Some? && key in files && files[key] == source.value {
        return true;
      }
      if !fs.parent || !fs.removable {
        return false;
      }
      files := files - {key};
      if source.None? || !fs.linkable {
        return false;
      }
      files := files[key := source.value];
      return true;
    }

    /** A failed store of a held key may leave it without its file. */
    method Store(key: Key, source: Option<nat>, fs: Linking, now: int) returns (ok: bool)
      requires Valid()
      modifies this
      ensures Valid() && Value() == Next(old(Value()), capacity, Event.Store(key, source, fs, now))
      ensures ok == Places(old(files), key, source, fs) && (ok ==> key in lru && lru[0] == key && key in files)
      ensures old(Backed(Value())) ==> (Backed(Value()) <==> !Loses(old(Value()), Event.Store(key, source, fs, now)))
    {
      NextBackedIf(Value(), capacity, Event.Store(key, source, fs, now));
      ok := EnsureHardLink(key, source, fs);
      if !ok {
        return;
      }
      var evicted := RecordAccess(key);
      times := times[files[key] := now];
      assert lru[0] == key;
      RemoveFiles(evicted);
    }

    /** `linked` says whether the output file could be put in place. */
    method Link(key: Key, linked: bool, now: int) returns (hit: bool)
      requires Valid()
      modifies this
      ensures Valid() && Value() == Next(old(Value()), capacity, Event.Link(key, now))
      ensures hit <==> key in old(lru) && key in old(files) && linked
      ensures old(Backed(Value())) ==> Backed(Value())
    {
      NextBackedIf(Value(), capacity, Event.Link(key, now));
      if key !in entries {
        return false;
      }
      if key !in files {
        var i := Locate(key);
        RemoveEntry(i);
        return false;
      }
      MoveToFront(key);
      times := times[files[key] := now];
      return linked;
    }
  }

  lemma NextBackedIf(c: Cache, capacity: int, e: Event)
    ensures Backed(c) ==> (Backed(Next(c, capacity, e)) <==> !Loses(c, e))
  {
    if Backed(c) { NextBacked(c, capacity, e); }
  }
}
