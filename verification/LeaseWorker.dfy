/** The lease worker as written: a store changed in place, and the desired-set
    reconciliation that walks a listing of it. One request at a time; interleavings are the
    subject of `LeaseProtocol`. */
module LeaseWorker {
  import opened Wrappers
  import opened LeaseStore

  datatype Node = Node(store: Store, kernel: set<string>)

  /** One release; `stuck` are the keys whose unmount fails. */
  function ReleasedOne(w: Node, id: string, stuck: set<string>): (Node, bool) {
    if id !in w.store.leases then (w, true)
    else
      var key := w.store.leases[id].key;
      if key !in w.store.mounts then (w, false)
      else if LeasesOn(w.store.leases, key).Keys != {id} then (w.(store := w.store.(leases := w.store.leases - {id})), true)
      else if key in stuck then (w.(store := Began(w.store, id)), false)
      else (Node(Store(w.store.leases - {id}, w.store.mounts - {key}), w.kernel - {key}), true)
  }

  function RetainedOne(w: Node, id: string, owner: string): (Node, bool) {
    if id in w.store.leases && w.store.leases[id].key !in w.store.mounts then (w, false)
    else match Retained(w.store, id, owner)
         case Ok(st) => (w.(store := st), true)
         case Err => (w, false)
  }

  // ---------------------------------------------------------------------------
  // What a reconciliation is to achieve
  // ---------------------------------------------------------------------------

  function Listed(leases: Leases, owner: string): set<string> {
    set id | id in leases && leases[id].owner == owner
  }

  /** The owner's leases that are not desired. */
  function Stale(leases: Leases, owner: string, desired: set<string>): set<string> {
    Listed(leases, owner) - desired
  }

  /** Every lease but the stale ones; the owner's are no longer being released. */
  function Kept(leases: Leases, owner: string, desired: set<string>): Leases {
    map id | id in leases && id !in Stale(leases, owner, desired) ::
      if leases[id].owner == owner then leases[id].(releasing := false) else leases[id]
  }

  /** The keys all of whose leases are stale. */
  function Vacated(leases: Leases, stale: set<string>): set<string> {
    set id | id in leases && LeasesOn(leases, leases[id].key).Keys <= stale :: leases[id].key
  }

  /** The reconciliation cannot be completed: a lease of the owner has no mount record, or a
      key that is to be vacated does not unmount. */
  ghost predicate Impossible(w: Node, owner: string, desired: set<string>, stuck: set<string>) {
    || (exists id | id in Listed(w.store.leases, owner) :: w.store.leases[id].key !in w.store.mounts)
    || Vacated(w.store.leases, Stale(w.store.leases, owner, desired)) * stuck != {}
  }

  // ---------------------------------------------------------------------------
  // What holds along the walk
  // ---------------------------------------------------------------------------

  ghost predicate Gone(before: Leases, now: Leases, key: string) {
    LeasesOn(before, key) != map[] && LeasesOn(now, key) == map[]
  }

  ghost predicate OnlyStaleGo(before: Leases, now: Leases, owner: string, stale: set<string>) {
    && now.Keys <= before.Keys && before.Keys - now.Keys <= stale
    && (forall id | id in now :: now[id].key == before[id].key && now[id].owner == before[id].owner)
    && (forall id | id in now && before[id].owner != owner :: now[id] == before[id])
  }

  /** A record and its mount go exactly when the last lease goes. */
  ghost predicate MountsFollow(before: Node, now: Node, stuck: set<string>) {
    && (forall key :: key in now.store.mounts <==> key in before.store.mounts && !Gone(before.store.leases, now.store.leases, key))
    && (forall key :: key in now.kernel <==> key in before.kernel && !Gone(before.store.leases, now.store.leases, key))
    && (forall key | Gone(before.store.leases, now.store.leases, key) :: key in before.store.mounts && key !in stuck)
  }

  ghost predicate Untouched(before: Leases, now: Leases, todo: set<string>) {
    forall id | id in todo :: id in before && id in now && now[id] == before[id]
  }

  /** What is decided about the leases already visited. */
  ghost predicate Settled(before: Node, now: Node, visited: set<string>, desired: set<string>) {
    forall id | id in visited :: id in before.store.leases && before.store.leases[id].key in before.store.mounts
      && if id in desired then id in now.store.leases && !now.store.leases[id].releasing else id !in now.store.leases
  }

  ghost predicate Walk(before: Node, now: Node, owner: string, desired: set<string>, stuck: set<string>,
                       todo: set<string>, ok: bool)
  {
    var listed := Listed(before.store.leases, owner);
    && todo <= listed
    && OnlyStaleGo(before.store.leases, now.store.leases, owner, listed - desired)
    && MountsFollow(before, now, stuck)
    && Untouched(before.store.leases, now.store.leases, todo)
    && (ok ==> Settled(before, now, listed - todo, desired))
    && (!ok ==> Impossible(before, owner, desired, stuck))
  }

  /** Dropping a lease of a key takes it off that key and no other. */
  lemma DropElsewhere(leases: Leases, id: string, key: string)
    requires id in leases && leases[id].key == key
    ensures forall k :: LeasesOn(leases - {id}, k) == if k == key then LeasesOn(leases, k) - {id} else LeasesOn(leases, k)
  {
    forall k ensures LeasesOn(leases - {id}, k) == if k == key then LeasesOn(leases, k) - {id} else LeasesOn(leases, k) {
      DropOn(leases, id, k);
      assert k != key ==> LeasesOn(leases, k) - {id} == LeasesOn(leases, k);
    }
  }

  lemma DropStale(before: Leases, now: Leases, owner: string, stale: set<string>, id: string)
    requires OnlyStaleGo(before, now, owner, stale) && id in now && id in stale
    ensures OnlyStaleGo(before, now - {id}, owner, stale)
  {
  }

  lemma DropShared(before: Node, now: Node, stuck: set<string>, id: string)
    requires MountsFollow(before, now, stuck) && id in now.store.leases
    requires LeasesOn(now.store.leases, now.store.leases[id].key).Keys != {id}
    ensures MountsFollow(before, now.(store := now.store.(leases := now.store.leases - {id})), stuck)
  {
    var key := now.store.leases[id].key;
    var on := LeasesOn(now.store.leases, key);
    DropElsewhere(now.store.leases, id, key);
    assert on - {id} != map[] by {
      assert on.Keys == (on.Keys - {id}) + {id};
      assert (on - {id}).Keys == on.Keys - {id};
    }
    assert forall k :: Gone(before.store.leases, now.store.leases - {id}, k) <==> Gone(before.store.leases, now.store.leases, k);
  }

  lemma DropLast(before: Node, now: Node, stuck: set<string>, id: string)
    requires MountsFollow(before, now, stuck) && id in now.store.leases && id in before.store.leases
    requires before.store.leases[id] == now.store.leases[id]
    requires var key := now.store.leases[id].key;
             LeasesOn(now.store.leases, key).Keys == {id} && key in now.store.mounts && key !in stuck
    ensures var key := now.store.leases[id].key;
            MountsFollow(before, Node(Store(now.store.leases - {id}, now.store.mounts - {key}), now.kernel - {key}), stuck)
  {
    var key := now.store.leases[id].key;
    DropElsewhere(now.store.leases, id, key);
    assert id in LeasesOn(before.store.leases, key);
    assert LeasesOn(now.store.leases, key) - {id} == map[];
    assert forall k :: Gone(before.store.leases, now.store.leases - {id}, k)
                       <==> k == key || Gone(before.store.leases, now.store.leases, k);
  }

  lemma MarkFollows(before: Node, now: Node, stuck: set<string>, id: string, releasing: bool)
    requires MountsFollow(before, now, stuck)
    ensures MountsFollow(before, now.(store := now.store.(leases := Mark(now.store.leases, id, releasing))), stuck)
  {
    var marked := Mark(now.store.leases, id, releasing);
    forall k ensures Gone(before.store.leases, marked, k) <==> Gone(before.store.leases, now.store.leases, k) {
      assert LeasesOn(marked, k).Keys == LeasesOn(now.store.leases, k).Keys;
      assert LeasesOn(marked, k) == map[] <==> LeasesOn(marked, k).Keys == {};
    }
  }

  /** The last lease of a key that does not unmount: all its leases were stale. */
  lemma StuckIsImpossible(before: Node, now: Node, owner: string, desired: set<string>, stuck: set<string>, id: string)
    requires var stale := Listed(before.store.leases, owner) - desired;
             OnlyStaleGo(before.store.leases, now.store.leases, owner, stale) && id in stale && id in now.store.leases
    requires LeasesOn(now.store.leases, now.store.leases[id].key).Keys == {id} && now.store.leases[id].key in stuck
    ensures Impossible(before, owner, desired, stuck)
  {
    var key := now.store.leases[id].key;
    var stale := Stale(before.store.leases, owner, desired);
    forall j | j in LeasesOn(before.store.leases, key) ensures j in stale {
      assert j in now.store.leases ==> j in LeasesOn(now.store.leases, key).Keys;
    }
    assert key in Vacated(before.store.leases, stale) * stuck;
  }

  lemma MissingIsImpossible(before: Node, now: Node, owner: string, desired: set<string>, stuck: set<string>, id: string)
    requires MountsFollow(before, now, stuck) && id in Listed(before.store.leases, owner) && id in now.store.leases
    requires before.store.leases[id] == now.store.leases[id] && now.store.leases[id].key !in now.store.mounts
    ensures Impossible(before, owner, desired, stuck)
  {
    assert id in LeasesOn(now.store.leases, now.store.leases[id].key);
  }

  lemma RetainStep(before: Node, now: Node, owner: string, desired: set<string>, stuck: set<string>,
                   todo: set<string>, ok: bool, id: string)
    requires Walk(before, now, owner, desired, stuck, todo, ok) && id in todo && id in desired
    ensures var (w, done) := RetainedOne(now, id, owner);
            Walk(before, w, owner, desired, stuck, todo - {id}, ok && done)
  {
    if now.store.leases[id].key !in now.store.mounts {
      MissingIsImpossible(before, now, owner, desired, stuck, id);
    } else {
      assert id in LeasesOn(now.store.leases, now.store.leases[id].key);
      MarkFollows(before, now, stuck, id, false);
    }
  }

  lemma ReleaseStep(before: Node, now: Node, owner: string, desired: set<string>, stuck: set<string>,
                    todo: set<string>, ok: bool, id: string)
    requires Walk(before, now, owner, desired, stuck, todo, ok) && id in todo && id !in desired
    ensures var (w, done) := ReleasedOne(now, id, stuck);
            Walk(before, w, owner, desired, stuck, todo - {id}, ok && done)
  {
    var key := now.store.leases[id].key;
    var stale := Listed(before.store.leases, owner) - desired;
    if key !in now.store.mounts {
      MissingIsImpossible(before, now, owner, desired, stuck, id);
    } else {
      assert id in LeasesOn(now.store.leases, key);
      assert key in before.store.mounts;
      if LeasesOn(now.store.leases, key).Keys != {id} {
        DropShared(before, now, stuck, id);
        DropStale(before.store.leases, now.store.leases, owner, stale, id);
      } else if key in stuck {
        StuckIsImpossible(before, now, owner, desired, stuck, id);
        MarkFollows(before, now, stuck, id, true);
      } else {
        DropLast(before, now, stuck, id);
        DropStale(before.store.leases, now.store.leases, owner, stale, id);
      }
    }
  }

  lemma WalkStarts(w: Node, owner: string, desired: set<string>, stuck: set<string>)
    ensures Walk(w, w, owner, desired, stuck, Listed(w.store.leases, owner), true)
  {
  }

  /** Once every listed lease was visited without error: the owner is left exactly its old
      leases that are desired, nobody else is touched, and only vacated keys are unmounted. */
  lemma WalkEnds(before: Node, now: Node, owner: string, desired: set<string>, stuck: set<string>)
    requires Walk(before, now, owner, desired, stuck, {}, true)
    ensures now.store.leases == Kept(before.store.leases, owner, desired)
    ensures var gone := Vacated(before.store.leases, Stale(before.store.leases, owner, desired));
            now.store.mounts == before.store.mounts - gone && now.kernel == before.kernel - gone
    ensures !Impossible(before, owner, desired, stuck)
  {
    var stale := Stale(before.store.leases, owner, desired);
    var listed := Listed(before.store.leases, owner);
    assert listed - {} == listed;
    forall id ensures id in now.store.leases <==> id in before.store.leases && id !in stale {
      if id in stale {
        assert id in listed;
      }
    }
    forall id | id in now.store.leases ensures now.store.leases[id] == Kept(before.store.leases, owner, desired)[id] {
      if before.store.leases[id].owner == owner {
        assert id in listed;
      }
    }
    forall key ensures key in Vacated(before.store.leases, stale) <==> Gone(before.store.leases, now.store.leases, key) {
      GoneIsVacated(before.store.leases, now.store.leases, stale, key);
    }
  }

  lemma GoneIsVacated(before: Leases, now: Leases, stale: set<string>, key: string)
    requires now.Keys == before.Keys - stale
    requires forall id | id in now :: now[id].key == before[id].key
    ensures key in Vacated(before, stale) <==> Gone(before, now, key)
  {
    var was, rest := LeasesOn(before, key), LeasesOn(now, key);
    assert rest.Keys == was.Keys - stale;
    assert rest == map[] <==> rest.Keys == {};
    assert was == map[] <==> was.Keys == {};
    if Gone(before, now, key) {
      assert forall j | j in was.Keys :: j !in rest.Keys;
      var id :| id in was.Keys;
      assert before[id].key == key;
    }
  }

  lemma OneLess(todo: set<string>, desired: set<string>, id: string)
    requires id in todo
    ensures |(todo - {id}) - desired| == |todo - desired| - if id in desired then 0 else 1
    ensures |(todo - {id}) * desired| == |todo * desired| - if id in desired then 1 else 0
  {
    if id in desired {
      assert (todo - {id}) * desired == todo * desired - {id} && (todo - {id}) - desired == todo - desired;
    } else {
      assert (todo - {id}) * desired == todo * desired && (todo - {id}) - desired == todo - desired - {id};
    }
  }

  lemma WalkSpares(before: Node, now: Node, owner: string, desired: set<string>, stuck: set<string>,
                   todo: set<string>, ok: bool)
    requires Walk(before, now, owner, desired, stuck, todo, ok)
    ensures forall id | id in before.store.leases && before.store.leases[id].owner != owner ::
              id in now.store.leases && now.store.leases[id] == before.store.leases[id]
  {
    forall id | id in before.store.leases && before.store.leases[id].owner != owner ensures id in now.store.leases {
      assert id !in before.store.leases.Keys - now.store.leases.Keys;
    }
  }

  class Worker {
    var leases: Leases
    var mounts: set<string>
    var kernel: set<string>

    function Content(): Store
      reads this
    {
      Store(leases, mounts)
    }

    function Value(): Node
      reads this
    {
      Node(Content(), kernel)
    }

    method Acquire(key: string, id: string, owner: string) returns (done: Result<bool>)
      modifies this`leases, this`mounts
      ensures var want := Acquired(old(Content()), key, id, owner);
              if want.Ok? then done == Ok(id !in old(leases)) && Content() == want.value
              else done == Err && Content() == old(Content())
    {
      if key == "" || id == "" {
        return Err;
      }
      if id in leases {
        var lease := leases[id];
        if lease.key != key || lease.owner != owner {
          return Err;
        }
        if lease.releasing {
          leases := leases[id := lease.(releasing := false)];
        }
        return Ok(false);
      }
      if key !in mounts {
        mounts := mounts + {key};
      }
      leases := leases[id := Lease(key, owner, false)];
      return Ok(true);
    }

    method BeginRelease(id: string)
      modifies this`leases
      ensures Content() == Began(old(Content()), id)
    {
      if id in leases {
        leases := leases[id := leases[id].(releasing := true)];
      }
    }

    method RetainLease(id: string, owner: string) returns (ok: bool)
      modifies this`leases
      ensures var want := Retained(old(Content()), id, owner);
              ok == want.Ok? && Content() == if ok then want.value else old(Content())
    {
      if id !in leases {
        return true;
      }
      var lease := leases[id];
      if lease.owner != owner {
        return false;
      }
      if lease.releasing {
        leases := leases[id := lease.(releasing := false)];
      }
      return true;
    }

    method ReleaseLease(id: string, removeMount: bool) returns (ok: bool)
      modifies this`leases, this`mounts
      ensures var want := Released(old(Content()), id, removeMount);
              ok == want.Ok? && Content() == if ok then want.value else old(Content())
    {
      if id !in leases {
        return true;
      }
      var key := leases[id].key;
      if removeMount {
        var todo := leases.Keys - {id};
        while todo != {}
          invariant todo <= leases.Keys - {id}
          invariant forall other | other in leases.Keys - {id} - todo :: leases[other].key != key
        {
          var other :| other in todo;
          if leases[other].key == key {
            assert other in LeasesOn(leases, key).Keys;
            return false;
          }
          todo := todo - {other};
        }
        assert LeasesOn(leases, key).Keys == {id};
        mounts := mounts - {key};
      }
      leases := leases - {id};
      return true;
    }

    /** The release of one lease; the mount goes with the last one. */
    method Release(id: string, stuck: set<string>) returns (ok: bool)
      modifies this
      ensures (Value(), ok) == ReleasedOne(old(Value()), id, stuck)
    {
      if id !in leases {
        return true;
      }
      var key := leases[id].key;
      if key !in mounts {
        return false;
      }
      OnlyOne(leases, id);
      var count := LeaseCount(leases, key);
      if count > 1 {
        ok := ReleaseLease(id, false);
        return;
      }
      BeginRelease(id);
      if key in stuck {
        return false;
      }
      kernel := kernel - {key};
      assert LeasesOn(leases, key).Keys == {id};
      assert leases - {id} == old(leases) - {id};
      ok := ReleaseLease(id, true);
    }

    method Retain(id: string, owner: string) returns (ok: bool)
      modifies this`leases
      ensures (Value(), ok) == RetainedOne(old(Value()), id, owner)
    {
      if id in leases && leases[id].key !in mounts {
        return false;
      }
      ok := RetainLease(id, owner);
    }

    /** Succeeds exactly when every lease of the owner has its record and every vacated key
        unmounts. Other owners' leases are never touched, even when it fails. */
    method ReconcileMountLeases(owner: string, desired: set<string>, stuck: set<string>)
      returns (ok: bool, retained: nat, releasing: nat)
      modifies this
      ensures ok <==> !Impossible(old(Value()), owner, desired, stuck)
      ensures ok ==> leases == Kept(old(leases), owner, desired)
      ensures ok ==> var gone := Vacated(old(leases), Stale(old(leases), owner, desired));
                     mounts == old(mounts) - gone && kernel == old(kernel) - gone
      ensures forall id | id in old(leases) && old(leases)[id].owner != owner :: id in leases && leases[id] == old(leases)[id]
      ensures releasing == |Stale(old(leases), owner, desired)|
      ensures ok ==> retained == |Listed(old(leases), owner) * desired|
    {
      ghost var before := Value();
      ok, retained, releasing := true, 0, 0;
      var todo := Listed(leases, owner);
      ghost var listed := todo;
      WalkStarts(before, owner, desired, stuck);
      while todo != {}
        invariant Walk(before, Value(), owner, desired, stuck, todo, ok)
        invariant releasing + |todo - desired| == |listed - desired|
        invariant ok ==> retained + |todo * desired| == |listed * desired|
      {
        var id :| id in todo;
        OneLess(todo, desired, id);
        if id in desired {
          RetainStep(before, Value(), owner, desired, stuck, todo, ok, id);
          var done := Retain(id, owner);
          if done {
            retained := retained + 1;
          }
          ok := ok && done;
        } else {
          ReleaseStep(before, Value(), owner, desired, stuck, todo, ok, id);
          releasing := releasing + 1;
          var done := Release(id, stuck);
          ok := ok && done;
        }
        todo := todo - {id};
      }
      WalkSpares(before, Value(), owner, desired, stuck, todo, ok);
      if ok {
        WalkEnds(before, Value(), owner, desired, stuck);
      }
    }
  }
}
