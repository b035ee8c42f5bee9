/** Reference-counted locks by key.

    An entry is created for the first thread that asks for a key and deleted by the last
    one that is done with it, so one key is served by many entries over time. */
module KeyedLock {

  type Key = string
  type Thread = nat
  type Entry = nat

  /** Where a thread is between asking for a key and being done with it. */
  datatype Stage = Waiting | Holding | Unlocked

  datatype Use = Use(key: Key, entry: Entry, stage: Stage)

  /** `entries` and `refs` are the lock map; `held` is the state of each entry's mutex. */
  datatype State = State(
    entries: map<Key, Entry>,
    refs: map<Entry, int>,
    held: map<Entry, Thread>,
    uses: map<Thread, Use>,
    next: Entry)

  const START: State := State(map[], map[], map[], map[], 0)

  datatype Step =
    | Register(t: Thread, key: Key)
    | Lock(t: Thread)
    | Unlock(t: Thread)
    | Deregister(t: Thread)

  predicate Enabled(s: State, step: Step) {
    match step
    case Register(t, key) => t !in s.uses
    case Lock(t) => t in s.uses && s.uses[t].stage == Waiting && s.uses[t].entry !in s.held
    case Unlock(t) => t in s.uses && s.uses[t].stage == Holding
    case Deregister(t) => t in s.uses && s.uses[t].stage == Unlocked && s.uses[t].entry in s.refs
  }

  /** The lock map after a key is asked for, and the entry given. */
  function Registered(entries: map<Key, Entry>, refs: map<Entry, int>, next: Entry, key: Key)
    : (map<Key, Entry>, map<Entry, int>, Entry, Entry)
  {
    if key in entries && entries[key] in refs then
      var e := entries[key];
      (entries, refs[e := refs[e] + 1], next, e)
    else
      (entries[key := next], refs[next := 1], next + 1, next)
  }

  /** The lock map after one use of an entry ends. The entry is deleted by its key. */
  function Deregistered(entries: map<Key, Entry>, refs: map<Entry, int>, key: Key, e: Entry)
    : (map<Key, Entry>, map<Entry, int>)
    requires e in refs
  {
    if refs[e] - 1 == 0 then (entries - {key}, refs - {e}) else (entries, refs[e := refs[e] - 1])
  }

  function Next(s: State, step: Step): State
    requires Enabled(s, step)
  {
    match step
    case Register(t, key) =>
      var (entries, refs, next, e) := Registered(s.entries, s.refs, s.next, key);
      s.(entries := entries, refs := refs, next := next, uses := s.uses[t := Use(key, e, Waiting)])
    case Lock(t) =>
      var u := s.uses[t];
      s.(held := s.held[u.entry := t], uses := s.uses[t := u.(stage := Holding)])
    case Unlock(t) =>
      var u := s.uses[t];
      s.(held := s.held - {u.entry}, uses := s.uses[t := u.(stage := Unlocked)])
    case Deregister(t) =>
      var u := s.uses[t];
      var (entries, refs) := Deregistered(s.entries, s.refs, u.key, u.entry);
      s.(entries := entries, refs := refs, uses := s.uses - {t})
  }

  // ---------------------------------------------------------------------------
  // What every step keeps
  // ---------------------------------------------------------------------------

  function Users(uses: map<Thread, Use>, key: Key): set<Thread> {
    set t | t in uses && uses[t].key == key
  }

  /** A key has an entry exactly while threads use it, and its count is their number. */
  ghost predicate CountsExact(s: State) {
    && (forall key :: key in s.entries <==> Users(s.uses, key) != {})
    && (forall key | key in s.entries :: s.entries[key] in s.refs && s.refs[s.entries[key]] == |Users(s.uses, key)|)
  }

  /** Threads on one key are on one entry, the current one; entries are not shared by keys. */
  ghost predicate EntriesCurrent(s: State) {
    && (forall t | t in s.uses :: s.uses[t].key in s.entries && s.entries[s.uses[t].key] == s.uses[t].entry)
    && (forall key | key in s.entries :: s.entries[key] < s.next)
    && (forall a, b | a in s.entries && b in s.entries && s.entries[a] == s.entries[b] :: a == b)
  }

  ghost predicate HoldersExact(s: State) {
    && (forall t | t in s.uses && s.uses[t].stage == Holding :: s.uses[t].entry in s.held && s.held[s.uses[t].entry] == t)
    && (forall e | e in s.held :: s.held[e] in s.uses && s.uses[s.held[e]].entry == e && s.uses[s.held[e]].stage == Holding)
  }

  ghost predicate Inv(s: State) {
    CountsExact(s) && EntriesCurrent(s) && HoldersExact(s)
  }

  lemma UsersPut(uses: map<Thread, Use>, t: Thread, u: Use, key: Key)
    requires t !in uses
    ensures Users(uses[t := u], key) == if u.key == key then Users(uses, key) + {t} else Users(uses, key)
  {
  }

  lemma UsersDrop(uses: map<Thread, Use>, t: Thread, key: Key)
    requires t in uses
    ensures Users(uses - {t}, key) == if uses[t].key == key then Users(uses, key) - {t} else Users(uses, key)
  {
  }

  lemma UsersSame(uses: map<Thread, Use>, t: Thread, u: Use, key: Key)
    requires t in uses && uses[t].key == u.key
    ensures Users(uses[t := u], key) == Users(uses, key)
  {
  }

  lemma RegisterCounts(s: State, t: Thread, key: Key)
    requires Inv(s) && t !in s.uses
    ensures CountsExact(Next(s, Register(t, key)))
  {
    var n := Next(s, Register(t, key));
    forall k
      ensures k in n.entries <==> Users(n.uses, k) != {}
      ensures k in n.entries ==> n.entries[k] in n.refs && n.refs[n.entries[k]] == |Users(n.uses, k)|
    {
      UsersPut(s.uses, t, n.uses[t], k);
      assert t !in Users(s.uses, k);
    }
  }

  lemma RegisterEntries(s: State, t: Thread, key: Key)
    requires CountsExact(s) && EntriesCurrent(s) && t !in s.uses
    ensures EntriesCurrent(Next(s, Register(t, key)))
  {
    var n := Next(s, Register(t, key));
    forall u | u in s.uses ensures n.uses[u].key in n.entries && n.entries[n.uses[u].key] == n.uses[u].entry {
      if u != t && s.uses[u].key == key {
        assert u in Users(s.uses, key);
      }
    }
  }

  lemma RegisterHolders(s: State, t: Thread, key: Key)
    requires HoldersExact(s) && t !in s.uses
    ensures HoldersExact(Next(s, Register(t, key)))
  {
  }

  /** Moving a thread to another stage touches no entry and no count. */
  lemma StageKeeps(s: State, t: Thread, stage: Stage, held: map<Entry, Thread>)
    requires CountsExact(s) && EntriesCurrent(s) && t in s.uses
    ensures var n := s.(held := held, uses := s.uses[t := s.uses[t].(stage := stage)]); CountsExact(n) && EntriesCurrent(n)
  {
    var n := s.(held := held, uses := s.uses[t := s.uses[t].(stage := stage)]);
    forall k ensures Users(n.uses, k) == Users(s.uses, k) { UsersSame(s.uses, t, n.uses[t], k); }
  }

  lemma LockHolders(s: State, t: Thread)
    requires HoldersExact(s) && Enabled(s, Lock(t))
    ensures HoldersExact(Next(s, Lock(t)))
  {
  }

  lemma UnlockHolders(s: State, t: Thread)
    requires HoldersExact(s) && Enabled(s, Unlock(t))
    ensures HoldersExact(Next(s, Unlock(t)))
  {
    var n, e := Next(s, Unlock(t)), s.uses[t].entry;
    assert s.held[e] == t;
    forall u | u in n.uses && n.uses[u].stage == Holding ensures n.uses[u].entry in n.held && n.held[n.uses[u].entry] == u {
      assert s.uses[u].entry in s.held && s.held[s.uses[u].entry] == u;
    }
  }

  lemma DeregisterCounts(s: State, t: Thread)
    requires Inv(s) && Enabled(s, Deregister(t))
    ensures CountsExact(Next(s, Deregister(t)))
  {
    var n, u := Next(s, Deregister(t)), s.uses[t];
    assert t in Users(s.uses, u.key);
    forall k
      ensures k in n.entries <==> Users(n.uses, k) != {}
      ensures k in n.entries ==> n.entries[k] in n.refs && n.refs[n.entries[k]] == |Users(n.uses, k)|
    {
      UsersDrop(s.uses, t, k);
      assert k == u.key ==> |Users(n.uses, k)| == |Users(s.uses, k)| - 1;
    }
  }

  lemma DeregisterEntries(s: State, t: Thread)
    requires CountsExact(s) && EntriesCurrent(s) && Enabled(s, Deregister(t))
    ensures EntriesCurrent(Next(s, Deregister(t)))
  {
    var n, u := Next(s, Deregister(t)), s.uses[t];
    forall o | o in n.uses ensures n.uses[o].key in n.entries && n.entries[n.uses[o].key] == n.uses[o].entry {
      if s.uses[o].key == u.key {
        TwoUsers(s, o, t);
      }
    }
  }

  /** While another thread uses a key, a count of one is impossible. */
  lemma TwoUsers(s: State, a: Thread, b: Thread)
    requires CountsExact(s) && EntriesCurrent(s) && a in s.uses && b in s.uses && a != b && s.uses[a].key == s.uses[b].key
    ensures s.uses[a].entry in s.refs && s.refs[s.uses[a].entry] > 1
  {
    SubsetSize({a, b}, Users(s.uses, s.uses[a].key));
  }

  lemma DeregisterHolders(s: State, t: Thread)
    requires HoldersExact(s) && Enabled(s, Deregister(t))
    ensures HoldersExact(Next(s, Deregister(t)))
  {
  }

  lemma StepKeepsInv(s: State, step: Step)
    requires Inv(s) && Enabled(s, step)
    ensures Inv(Next(s, step))
  {
    match step
    case Register(t, key) =>
      RegisterCounts(s, t, key);
      RegisterEntries(s, t, key);
      RegisterHolders(s, t, key);
    case Lock(t) =>
      StageKeeps(s, t, Holding, Next(s, step).held);
      LockHolders(s, t);
    case Unlock(t) =>
      StageKeeps(s, t, Unlocked, Next(s, step).held);
      UnlockHolders(s, t);
    case Deregister(t) =>
      DeregisterCounts(s, t);
      DeregisterEntries(s, t);
      DeregisterHolders(s, t);
  }

  // ---------------------------------------------------------------------------
  // Every interleaving
  // ---------------------------------------------------------------------------

  ghost predicate ValidRun(s: State, run: seq<Step>)
    decreases |run|
  {
    run == [] || (Enabled(s, run[0]) && ValidRun(Next(s, run[0]), run[1..]))
  }

  ghost function After(s: State, run: seq<Step>): State
    requires ValidRun(s, run)
    decreases |run|
  {
    if run == [] then s else After(Next(s, run[0]), run[1..])
  }

  lemma {:induction false} RunKeepsInv(s: State, run: seq<Step>)
    requires Inv(s) && ValidRun(s, run)
    ensures Inv(After(s, run))
    decreases |run|
  {
    if run != [] {
      StepKeepsInv(s, run[0]);
      RunKeepsInv(Next(s, run[0]), run[1..]);
    }
  }

  /** Whatever entries have come and gone: one holder per key, counts equal to the threads
      registered, and no entry for a key that nobody uses. */
  lemma MutualExclusion(run: seq<Step>)
    requires ValidRun(START, run)
    ensures var s := After(START, run);
            && (forall t, u | t in s.uses && u in s.uses && s.uses[t].key == s.uses[u].key
                              && s.uses[t].stage == Holding && s.uses[u].stage == Holding :: t == u)
            && (forall key :: key in s.entries <==> exists t :: t in s.uses && s.uses[t].key == key)
            && (forall key | key in s.entries :: s.entries[key] in s.refs && s.refs[s.entries[key]] == |Users(s.uses, key)|)
  {
    assert Inv(START);
    RunKeepsInv(START, run);
    var s := After(START, run);
    forall key ensures key in s.entries <==> exists t :: t in s.uses && s.uses[t].key == key {
      assert Users(s.uses, key) != {} <==> exists t :: t in Users(s.uses, key);
    }
  }

  // ---------------------------------------------------------------------------
  // The plain lock it stands for
  // ---------------------------------------------------------------------------

  /** Who holds each key: one lock per key, no entries. */
  function Owners(s: State): map<Key, Thread> {
    OwnersOf(s.entries, s.held)
  }

  function OwnersOf(entries: map<Key, Entry>, held: map<Entry, Thread>): map<Key, Thread> {
    map key | key in entries && entries[key] in held :: held[entries[key]]
  }

  lemma FreeOwner(entries: map<Key, Entry>, held: map<Entry, Thread>, key: Key)
    requires key in entries && forall k | k in entries && entries[k] == entries[key] :: k == key
    ensures OwnersOf(entries, held - {entries[key]}) == OwnersOf(entries, held) - {key}
  {
  }

  /** Locking takes a key that is free, unlocking frees the thread's own key, and creating
      or deleting entries changes no owner. */
  lemma RefinesPlainLock(s: State, step: Step)
    requires Inv(s) && Enabled(s, step)
    ensures var before, after := Owners(s), Owners(Next(s, step));
            match step
            case Lock(t) => s.uses[t].key !in before && after == before[s.uses[t].key := t]
            case Unlock(t) => s.uses[t].key in before && before[s.uses[t].key] == t && after == before - {s.uses[t].key}
            case _ => after == before
  {
    match step
    case Register(t, key) => RegisterOwners(s, t, key);
    case Lock(t) => LockOwners(s, t);
    case Unlock(t) => UnlockOwners(s, t);
    case Deregister(t) => DeregisterOwners(s, t);
  }

  lemma RegisterOwners(s: State, t: Thread, key: Key)
    requires Inv(s) && t !in s.uses
    ensures Owners(Next(s, Register(t, key))) == Owners(s)
  {
    forall e | e in s.held ensures e < s.next {
      assert s.uses[s.held[e]].key in s.entries;
    }
  }

  lemma LockOwners(s: State, t: Thread)
    requires EntriesCurrent(s) && Enabled(s, Lock(t))
    ensures s.uses[t].key !in Owners(s) && Owners(Next(s, Lock(t))) == Owners(s)[s.uses[t].key := t]
  {
    assert forall k | k in s.entries && k != s.uses[t].key :: s.entries[k] != s.uses[t].entry;
  }

  lemma UnlockOwners(s: State, t: Thread)
    requires EntriesCurrent(s) && HoldersExact(s) && Enabled(s, Unlock(t))
    ensures var key := s.uses[t].key;
            key in Owners(s) && Owners(s)[key] == t && Owners(Next(s, Unlock(t))) == Owners(s) - {key}
  {
    FreeOwner(s.entries, s.held, s.uses[t].key);
  }

  lemma DeregisterOwners(s: State, t: Thread)
    requires Inv(s) && Enabled(s, Deregister(t))
    ensures Owners(Next(s, Deregister(t))) == Owners(s)
  {
    var u := s.uses[t];
    if u.entry in s.held {
      var h := s.held[u.entry];
      assert s.entries[s.uses[h].key] == s.entries[u.key];
      TwoUsers(s, h, t);
    }
  }

  lemma {:induction false} SubsetSize(a: set<Thread>, b: set<Thread>)
    requires a <= b
    ensures |a| <= |b|
    decreases a
  {
    if a != {} {
      var x :| x in a;
      SubsetSize(a - {x}, b - {x});
    }
  }

  /** A key that somebody waits for is taken in the end by someone: either its holder can
      unlock, or a waiting thread can lock. */
  lemma NeverStuck(s: State, t: Thread)
    requires Inv(s) && t in s.uses && s.uses[t].stage == Waiting
    ensures Enabled(s, Lock(t)) || exists u: Thread :: Enabled(s, Unlock(u)) && s.uses[u].key == s.uses[t].key
  {
    var e := s.uses[t].entry;
    if e in s.held {
      var u := s.held[e];
      assert s.entries[s.uses[u].key] == s.entries[s.uses[t].key];
      assert Enabled(s, Unlock(u)) && s.uses[u].key == s.uses[t].key;
    }
  }

  // ---------------------------------------------------------------------------
  // The lock map as the code keeps it
  // ---------------------------------------------------------------------------

  /** Each method is one critical section of the mutex that guards the map. */
  class LockTable {
    var entries: map<Key, Entry>
    var refs: map<Entry, int>
    var next: Entry

    constructor ()
      ensures entries == map[] && refs == map[] && next == 0
    {
      entries, refs, next := map[], map[], 0;
    }

    method Ask(key: Key) returns (e: Entry)
      requires key in entries ==> entries[key] in refs
      modifies this
      ensures Registered(old(entries), old(refs), old(next), key) == (entries, refs, next, e)
    {
      if key in entries {
        e := entries[key];
      } else {
        e := next;
        next := next + 1;
        entries := entries[key := e];
        refs := refs[e := 0];
      }
      refs := refs[e := refs[e] + 1];
      assert key !in old(entries) ==> refs == old(refs)[e := 1];
    }

    method Leave(key: Key, e: Entry)
      requires e in refs
      modifies this
      ensures Deregistered(old(entries), old(refs), key, e) == (entries, refs) && next == old(next)
    {
      refs := refs[e := refs[e] - 1];
      if refs[e] == 0 {
        refs := refs - {e};
        assert refs == old(refs) - {e};
        entries := entries - {key};
      }
    }
  }
}
