/** The durable table of mount resources and of the leases that share them. */
module LeaseStore {
  import opened Wrappers
  import opened Sums

  datatype Lease = Lease(key: string, owner: string, releasing: bool)

  type Leases = map<string, Lease>

  datatype Store = Store(leases: Leases, mounts: set<string>)

  function LeasesOn(leases: Leases, key: string): Leases {
    map id | id in leases && leases[id].key == key :: leases[id]
  }

  function Mark(leases: Leases, id: string, releasing: bool): Leases {
    if id in leases then leases[id := leases[id].(releasing := releasing)] else leases
  }

  lemma PutOn(leases: Leases, id: string, lease: Lease, key: string)
    ensures LeasesOn(leases[id := lease], key)
            == if lease.key == key then LeasesOn(leases, key)[id := lease] else LeasesOn(leases, key) - {id}
  {
  }

  lemma DropOn(leases: Leases, id: string, key: string)
    ensures LeasesOn(leases - {id}, key) == LeasesOn(leases, key) - {id}
  {
  }

  // ---------------------------------------------------------------------------
  // One transaction each
  // ---------------------------------------------------------------------------

  /** Idempotent for one lease; a lease is never moved to another mount or owner. */
  function Acquired(st: Store, key: string, id: string, owner: string): Result<Store> {
    if key == "" || id == "" then Err
    else if id in st.leases then
      if st.leases[id].key != key then Err
      else if st.leases[id].owner != owner then Err
      else Ok(st.(leases := Mark(st.leases, id, false)))
    else Ok(Store(st.leases[id := Lease(key, owner, false)], st.mounts + {key}))
  }

  function Began(st: Store, id: string): Store {
    st.(leases := Mark(st.leases, id, true))
  }

  function Retained(st: Store, id: string, owner: string): Result<Store> {
    if id in st.leases && st.leases[id].owner != owner then Err
    else Ok(st.(leases := Mark(st.leases, id, false)))
  }

  /** Taking the mount along is refused while another lease is on it. */
  function Released(st: Store, id: string, removeMount: bool): Result<Store> {
    if id !in st.leases then Ok(st)
    else if !removeMount then Ok(st.(leases := st.leases - {id}))
    else if LeasesOn(st.leases, st.leases[id].key).Keys != {id} then Err
    else Ok(Store(st.leases - {id}, st.mounts - {st.leases[id].key}))
  }

  // ---------------------------------------------------------------------------
  // Counting
  // ---------------------------------------------------------------------------

  lemma OnlyOne(leases: Leases, id: string)
    requires id in leases
    ensures |LeasesOn(leases, leases[id].key)| <= 1 <==> LeasesOn(leases, leases[id].key).Keys == {id}
  {
    var on := LeasesOn(leases, leases[id].key);
    assert on.Keys == {id} + (on.Keys - {id});
    assert |on| == |on.Keys|;
    if |on| <= 1 {
      assert on.Keys - {id} == {} by {
        assert |on.Keys - {id}| == 0;
      }
    }
  }

  method LeaseCount(leases: Leases, key: string) returns (count: nat)
    ensures count == |LeasesOn(leases, key)|
  {
    var todo := leases;
    count := 0;
    ghost var seen: Leases := map[];
    assert LeasesOn(seen, key) == map[];
    while todo != map[]
      invariant seen.Keys !! todo.Keys && seen + todo == leases
      invariant count == |LeasesOn(seen, key)|
      decreases todo.Keys
    {
      var id :| id in todo;
      CountOne(seen, id, todo[id], key);
      MoveEntry(seen, todo, id);
      if todo[id].key == key {
        count := count + 1;
      }
      seen := seen[id := todo[id]];
      todo := todo - {id};
    }
    assert seen == leases;
  }

  lemma CountOne(seen: Leases, id: string, lease: Lease, key: string)
    requires id !in seen
    ensures |LeasesOn(seen[id := lease], key)| == |LeasesOn(seen, key)| + if lease.key == key then 1 else 0
  {
    if lease.key == key {
      assert LeasesOn(seen[id := lease], key) == LeasesOn(seen, key)[id := lease];
    } else {
      assert LeasesOn(seen[id := lease], key) == LeasesOn(seen, key);
    }
  }
}
