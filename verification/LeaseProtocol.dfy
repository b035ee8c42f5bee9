/** Requests that share mounts by leases, interleaved step by step.

    Store transactions are atomic; between them any other thread may run. The lock of a key
    is the plain one that `KeyedLock` refines. */
module LeaseProtocol {
  import opened Wrappers
  import opened LeaseStore

  type Thread = nat

  /** A mount request; an unmount request, or a stale lease when an owner reconciles; a queued
      retry; a desired lease. */
  datatype Op =
    | Acquire(id: string, owner: string)
    | Release(id: string, lister: Option<string>)
    | Retry(id: string)
    | Retain(id: string, owner: string)

  /** `key` is the key locked (or waited for); `at` is the key the lease was re-read with; `lister`
      is the owner that lists the lease as stale. A listed lease is read again, without its
      lock, when its turn comes. */
  datatype Stage =
    | Queued(id: string, owner: string, key: string)
    | Waiting(op: Op, key: string)
    | Locked(op: Op, key: string)
    | Mounting(id: string, owner: string, key: string, newly: bool)
    | Mounted(id: string, owner: string, key: string, newly: bool)
    | RollingBack(key: string)
    | Read(id: string, key: string, at: string, lister: Option<string>)
    | Dropping(id: string, key: string, lister: Option<string>)
    | Beginning(id: string, key: string, at: string, lister: Option<string>)
    | Unmounting(id: string, key: string, at: string, lister: Option<string>)
    | Failed(id: string, key: string, lister: Option<string>)
    | Unmounted(id: string, key: string, lister: Option<string>)
    | Retaining(id: string, owner: string, key: string)
    | Done(key: string)

  datatype State = State(store: Store, kernel: set<string>, locks: map<string, Thread>, threads: map<Thread, Stage>)

  const START: State := State(Store(map[], {}), {}, map[], map[])

  /** `Act` is the next action of a thread that holds its lock; `ok` says whether a mount, the
      description of a mount or an unmount succeeds. A crash loses threads and locks, not the store or the mounts. */
  datatype Step =
    | Start(t: Thread, op: Op, key: string)
    | Look(t: Thread)
    | Take(t: Thread)
    | Act(t: Thread, ok: bool)
    | Unlock(t: Thread)
    | Crash

  /** Requests other than a mount start from a lease that was read without the lock. */
  predicate MayStart(leases: Leases, op: Op, key: string) {
    match op
    case Acquire(id, _) => key != "" && id != ""
    case Release(id, lister) => id in leases && leases[id].key == key && (lister.Some? ==> leases[id].owner == lister.value)
    case Retry(id) => id in leases && leases[id].key == key && leases[id].releasing
    case Retain(id, owner) => id in leases && leases[id].key == key && leases[id].owner == owner
  }

  /** A stage that holds no lock. */
  predicate Free(stage: Stage) {
    stage.Queued? || stage.Waiting?
  }

  predicate Enabled(s: State, step: Step) {
    match step
    case Start(t, op, key) => t !in s.threads && MayStart(s.store.leases, op, key)
    case Look(t) => t in s.threads && s.threads[t].Queued?
    case Take(t) => t in s.threads && s.threads[t].Waiting? && s.threads[t].key !in s.locks
    case Act(t, _) => t in s.threads && !Free(s.threads[t]) && !s.threads[t].Done?
    case Unlock(t) => t in s.threads && s.threads[t].Done?
    case Crash => true
  }

  /** The first decision under the lock, on the lease and mount as they are now. */
  function Decided(st: Store, op: Op, key: string): Stage {
    match op
    case Acquire(id, owner) =>
      if id in st.leases then
        if st.leases[id].key !in st.mounts || st.leases[id].key != key then Done(key)
        else Mounting(id, owner, key, false)
      else Mounting(id, owner, key, key !in st.mounts)
    case Release(id, lister) =>
      if id !in st.leases || st.leases[id].key !in st.mounts then Done(key)
      else Read(id, key, st.leases[id].key, lister)
    case Retry(id) =>
      if id !in st.leases || st.leases[id].key !in st.mounts || !st.leases[id].releasing || st.leases[id].key != key
      then Done(key)
      else Read(id, key, key, None)
    case Retain(id, owner) =>
      if id in st.leases && st.leases[id].key !in st.mounts then Done(key)
      else Retaining(id, owner, key)
  }

  /** The store, the mounts and the thread's stage after its next action. */
  function Acted(st: Store, kernel: set<string>, stage: Stage, ok: bool): (Store, set<string>, Stage)
    requires !Free(stage) && !stage.Done?
  {
    match stage
    case Locked(op, key) => (st, kernel, Decided(st, op, key))
    case Mounting(id, owner, key, newly) =>
      if ok then (st, kernel + {key}, Mounted(id, owner, key, newly)) else (st, kernel, Done(key))
    case Mounted(id, owner, key, newly) =>
      if !ok then (st, kernel, if newly then RollingBack(key) else Done(key))
      else (match Acquired(st, key, id, owner)
       case Ok(next) => (next, kernel, Done(key))
       case Err => (st, kernel, if newly then RollingBack(key) else Done(key)))
    case RollingBack(key) => (st, if ok then kernel - {key} else kernel, Done(key))
    case Read(id, key, at, lister) =>
      (st, kernel, if |LeasesOn(st.leases, at)| > 1 then Dropping(id, key, lister) else Beginning(id, key, at, lister))
    case Dropping(id, key, _) => (KeptOr(Released(st, id, false), st), kernel, Done(key))
    case Beginning(id, key, at, lister) => (Began(st, id), kernel, Unmounting(id, key, at, lister))
    case Unmounting(id, key, at, lister) =>
      if ok then (st, kernel - {at}, Unmounted(id, key, lister)) else (st, kernel, Failed(id, key, lister))
    case Failed(id, key, _) => (Began(st, id), kernel, Done(key))
    case Unmounted(id, key, _) => (KeptOr(Released(st, id, true), st), kernel, Done(key))
    case Retaining(id, owner, key) => (KeptOr(Retained(st, id, owner), st), kernel, Done(key))
  }

  function KeptOr(r: Result<Store>, st: Store): Store {
    if r.Ok? then r.value else st
  }

  function Entered(op: Op, key: string): Stage {
    if op.Release? && op.lister.Some? then Queued(op.id, op.lister.value, key) else Waiting(op, key)
  }

  function Next(s: State, step: Step): State
    requires Enabled(s, step)
  {
    match step
    case Start(t, op, key) => s.(threads := s.threads[t := Entered(op, key)])
    case Look(t) =>
      var q := s.threads[t];
      if q.id in s.store.leases && s.store.leases[q.id].key in s.store.mounts
      then s.(threads := s.threads[t := Waiting(Release(q.id, Some(q.owner)), s.store.leases[q.id].key)])
      else s.(threads := s.threads - {t})
    case Take(t) =>
      var w := s.threads[t];
      s.(locks := s.locks[w.key := t], threads := s.threads[t := Locked(w.op, w.key)])
    case Act(t, ok) =>
      var (store, kernel, stage) := Acted(s.store, s.kernel, s.threads[t], ok);
      s.(store := store, kernel := kernel, threads := s.threads[t := stage])
    case Unlock(t) => s.(locks := s.locks - {s.threads[t].key}, threads := s.threads - {t})
    case Crash => s.(locks := map[], threads := map[])
  }

  // ---------------------------------------------------------------------------
  // One key at a time
  // ---------------------------------------------------------------------------

  /** All there is about one key: its leases, whether it is recorded, whether it is mounted. */
  datatype View = View(leases: Leases, recorded: bool, mounted: bool)

  function ViewOf(st: Store, kernel: set<string>, key: string): View {
    View(LeasesOn(st.leases, key), key in st.mounts, key in kernel)
  }

  function Holder(s: State, key: string): Option<Stage> {
    if key in s.locks && s.locks[key] in s.threads then Some(s.threads[s.locks[key]]) else None
  }

  ghost predicate StageOk(v: View, stage: Stage) {
    match stage
    case Mounting(_, _, _, newly) => newly == !v.recorded
    case Mounted(id, _, key, newly) => newly == !v.recorded && v.mounted && id != "" && key != ""
    case RollingBack(_) => !v.recorded
    case Read(id, key, at, _) => at == key && id in v.leases
    case Dropping(id, _, _) => id in v.leases && v.leases.Keys != {id}
    case Beginning(id, key, at, _) => at == key && v.leases.Keys == {id}
    case Unmounting(id, key, at, _) => at == key && v.leases.Keys == {id} && v.leases[id].releasing
    case Failed(id, key, _) => v.leases.Keys == {id}
    case Unmounted(id, key, _) => v.leases.Keys == {id} && v.leases[id].releasing && !v.mounted
    case _ => true
  }

  /** A key is recorded exactly while it is leased; a lease that is not being released is
      mounted; a recorded key is unmounted only between unmount and the final delete. */
  ghost predicate KeyOk(v: View, holder: Option<Stage>) {
    && (v.recorded <==> v.leases != map[])
    && (forall id | id in v.leases && !v.leases[id].releasing :: v.mounted)
    && (v.recorded && !v.mounted ==> holder.Some? && holder.value.Unmounted?)
    && (holder.Some? ==> StageOk(v, holder.value))
  }

  ghost predicate LocksOk(s: State) {
    && (forall key | key in s.locks ::
          s.locks[key] in s.threads && s.threads[s.locks[key]].key == key && !Free(s.threads[s.locks[key]]))
    && (forall t | t in s.threads && !Free(s.threads[t]) ::
          s.threads[t].key in s.locks && s.locks[s.threads[t].key] == t)
  }

  ghost predicate KeysOk(s: State) {
    forall key :: KeyOk(ViewOf(s.store, s.kernel, key), Holder(s, key))
  }

  /** A request to mount names a key and a lease. */
  ghost predicate OpsNamed(s: State) {
    forall t | t in s.threads :: StageNamed(s.threads[t])
  }

  predicate StageNamed(stage: Stage) {
    match stage
    case Waiting(op, key) => op.Acquire? ==> op.id != "" && key != ""
    case Locked(op, key) => op.Acquire? ==> op.id != "" && key != ""
    case Mounting(id, _, key, _) => id != "" && key != ""
    case _ => true
  }

  ghost predicate Inv(s: State) {
    LocksOk(s) && KeysOk(s) && OpsNamed(s)
  }

  /** Steps that never act on a lease under the lock of another key, and crashes that do not
      fall between an unmount and the deletion of its lease. */
  ghost predicate Careful(s: State, step: Step) {
    match step
    case Act(t, _) => t in s.threads ==> ActsOnOwnKey(s.store.leases, s.threads[t])
    case Crash => forall t | t in s.threads :: !s.threads[t].Unmounted?
    case _ => true
  }

  predicate ActsOnOwnKey(leases: Leases, stage: Stage) {
    match stage
    case Locked(Release(id, _), key) => id in leases ==> leases[id].key == key
    case Retaining(id, _, key) => id in leases ==> leases[id].key == key
    case _ => true
  }

  // ---------------------------------------------------------------------------
  // What every careful step keeps
  // ---------------------------------------------------------------------------

  lemma StartKeeps(s: State, step: Step)
    requires Inv(s) && step.Start? && Enabled(s, step)
    ensures Inv(Next(s, step))
  {
    var n := Next(s, step);
    forall key ensures Holder(n, key) == Holder(s, key) {}
  }

  lemma LookKeeps(s: State, step: Step)
    requires Inv(s) && step.Look? && Enabled(s, step)
    ensures Inv(Next(s, step))
  {
    var n := Next(s, step);
    forall key ensures Holder(n, key) == Holder(s, key) {}
  }

  lemma TakeKeeps(s: State, step: Step)
    requires Inv(s) && step.Take? && Enabled(s, step)
    ensures Inv(Next(s, step))
  {
    var n, w := Next(s, step), s.threads[step.t];
    forall key ensures KeyOk(ViewOf(n.store, n.kernel, key), Holder(n, key)) {
      assert KeyOk(ViewOf(s.store, s.kernel, key), Holder(s, key));
      if key != w.key {
        assert Holder(n, key) == Holder(s, key);
      }
    }
  }

  lemma UnlockKeeps(s: State, step: Step)
    requires Inv(s) && step.Unlock? && Enabled(s, step)
    ensures Inv(Next(s, step))
  {
    var n, k := Next(s, step), s.threads[step.t].key;
    forall key ensures KeyOk(ViewOf(n.store, n.kernel, key), Holder(n, key)) {
      assert KeyOk(ViewOf(s.store, s.kernel, key), Holder(s, key));
      if key != k {
        assert Holder(n, key) == Holder(s, key);
      }
    }
  }

  lemma CrashKeeps(s: State)
    requires Inv(s) && Careful(s, Crash)
    ensures Inv(Next(s, Crash))
  {
    var n := Next(s, Crash);
    forall key ensures KeyOk(ViewOf(n.store, n.kernel, key), Holder(n, key)) {
      assert KeyOk(ViewOf(s.store, s.kernel, key), Holder(s, key));
    }
  }

  /** An action under the lock of `key` leaves every other key as it was. */
  ghost predicate Elsewhere(st: Store, kernel: set<string>, after: (Store, set<string>, Stage), key: string) {
    && after.2.key == key && !Free(after.2)
    && (forall k | k != key :: ViewOf(after.0, after.1, k) == ViewOf(st, kernel, k))
  }

  lemma ActFramed(s: State, t: Thread, ok: bool)
    requires Inv(s) && Enabled(s, Act(t, ok))
    requires var stage := s.threads[t];
             var after := Acted(s.store, s.kernel, stage, ok);
             && Elsewhere(s.store, s.kernel, after, stage.key)
             && KeyOk(ViewOf(after.0, after.1, stage.key), Some(after.2))
             && StageNamed(after.2)
    ensures Inv(Next(s, Act(t, ok)))
  {
    var n, k := Next(s, Act(t, ok)), s.threads[t].key;
    assert s.locks[k] == t;
    forall key ensures KeyOk(ViewOf(n.store, n.kernel, key), Holder(n, key)) {
      assert KeyOk(ViewOf(s.store, s.kernel, key), Holder(s, key));
      if key != k {
        assert Holder(n, key) == Holder(s, key);
      }
    }
  }

  /** What an action needs of the key it holds. */
  ghost predicate Ready(st: Store, kernel: set<string>, stage: Stage) {
    && KeyOk(ViewOf(st, kernel, stage.key), Some(stage))
    && StageNamed(stage)
    && ActsOnOwnKey(st.leases, stage)
  }

  ghost predicate Kept(st: Store, kernel: set<string>, after: (Store, set<string>, Stage), key: string) {
    Elsewhere(st, kernel, after, key) && KeyOk(ViewOf(after.0, after.1, key), Some(after.2)) && StageNamed(after.2)
  }

  lemma DecideKeeps(st: Store, kernel: set<string>, stage: Stage, ok: bool)
    requires stage.Locked? && Ready(st, kernel, stage)
    ensures Kept(st, kernel, Acted(st, kernel, stage, ok), stage.key)
  {
    var id := stage.op.id;
    assert id in st.leases && st.leases[id].key == stage.key ==> id in LeasesOn(st.leases, stage.key);
  }

  lemma MountKeeps(st: Store, kernel: set<string>, stage: Stage, ok: bool)
    requires (stage.Mounting? || stage.RollingBack?) && Ready(st, kernel, stage)
    ensures Kept(st, kernel, Acted(st, kernel, stage, ok), stage.key)
  {
  }

  /** Marking a lease of the held key changes that lease alone. */
  lemma MarkKeeps(st: Store, kernel: set<string>, id: string, releasing: bool, key: string)
    requires id in st.leases ==> st.leases[id].key == key
    ensures var after := st.(leases := Mark(st.leases, id, releasing));
            && (forall k | k != key :: ViewOf(after, kernel, k) == ViewOf(st, kernel, k))
            && LeasesOn(after.leases, key).Keys == LeasesOn(st.leases, key).Keys
            && (forall j | j in LeasesOn(st.leases, key) ::
                  LeasesOn(after.leases, key)[j] == if j == id then st.leases[j].(releasing := releasing) else st.leases[j])
  {
    if id in st.leases {
      var lease := st.leases[id].(releasing := releasing);
      forall k ensures LeasesOn(st.leases[id := lease], k)
                       == if lease.key == k then LeasesOn(st.leases, k)[id := lease] else LeasesOn(st.leases, k) - {id} {
        PutOn(st.leases, id, lease, k);
      }
      assert forall k | k != key :: id !in LeasesOn(st.leases, k);
      assert forall k | k != key :: LeasesOn(st.leases, k) - {id} == LeasesOn(st.leases, k);
    }
  }

  lemma CommitKeeps(st: Store, kernel: set<string>, stage: Stage, ok: bool)
    requires stage.Mounted? && Ready(st, kernel, stage)
    ensures Kept(st, kernel, Acted(st, kernel, stage, ok), stage.key)
  {
    var id, key := stage.id, stage.key;
    if id in st.leases {
      if st.leases[id].key == key {
        assert id in LeasesOn(st.leases, key);
        MarkKeeps(st, kernel, id, false, key);
      }
    } else {
      var lease := Lease(key, stage.owner, false);
      forall k ensures LeasesOn(st.leases[id := lease], k)
                       == if k == key then LeasesOn(st.leases, k)[id := lease] else LeasesOn(st.leases, k) {
        PutOn(st.leases, id, lease, k);
        assert LeasesOn(st.leases, k) - {id} == LeasesOn(st.leases, k);
      }
    }
  }

  lemma ReadKeeps(st: Store, kernel: set<string>, stage: Stage, ok: bool)
    requires stage.Read? && Ready(st, kernel, stage)
    ensures Kept(st, kernel, Acted(st, kernel, stage, ok), stage.key)
  {
    OnlyOne(st.leases, stage.id);
  }

  lemma BeginKeeps(st: Store, kernel: set<string>, stage: Stage, ok: bool)
    requires (stage.Beginning? || stage.Failed?) && Ready(st, kernel, stage)
    ensures Kept(st, kernel, Acted(st, kernel, stage, ok), stage.key)
  {
    assert stage.id in LeasesOn(st.leases, stage.key);
    MarkKeeps(st, kernel, stage.id, true, stage.key);
  }

  lemma RetainKeeps(st: Store, kernel: set<string>, stage: Stage, ok: bool)
    requires stage.Retaining? && Ready(st, kernel, stage)
    ensures Kept(st, kernel, Acted(st, kernel, stage, ok), stage.key)
  {
    MarkKeeps(st, kernel, stage.id, false, stage.key);
  }

  lemma UnmountKeeps(st: Store, kernel: set<string>, stage: Stage, ok: bool)
    requires stage.Unmounting? && Ready(st, kernel, stage)
    ensures Kept(st, kernel, Acted(st, kernel, stage, ok), stage.key)
  {
  }

  lemma DropKeeps(st: Store, kernel: set<string>, stage: Stage, ok: bool)
    requires (stage.Dropping? || stage.Unmounted?) && Ready(st, kernel, stage)
    ensures Kept(st, kernel, Acted(st, kernel, stage, ok), stage.key)
  {
    var id, key := stage.id, stage.key;
    assert id in LeasesOn(st.leases, key);
    forall k ensures LeasesOn(st.leases - {id}, k)
                     == if k == key then LeasesOn(st.leases, k) - {id} else LeasesOn(st.leases, k) {
      DropOn(st.leases, id, k);
      assert k != key ==> id !in LeasesOn(st.leases, k);
      assert k != key ==> LeasesOn(st.leases, k) - {id} == LeasesOn(st.leases, k);
    }
    var on := LeasesOn(st.leases, key);
    assert (on - {id}).Keys == on.Keys - {id};
    assert on.Keys != {id} ==> on.Keys - {id} != {} by {
      assert on.Keys == (on.Keys - {id}) + {id};
    }
    assert on - {id} == map[] <==> (on - {id}).Keys == {};
  }

  lemma ActKeeps(s: State, t: Thread, ok: bool)
    requires Inv(s) && Enabled(s, Act(t, ok)) && Careful(s, Act(t, ok))
    ensures Inv(Next(s, Act(t, ok)))
  {
    var stage := s.threads[t];
    assert Holder(s, stage.key) == Some(stage);
    assert Ready(s.store, s.kernel, stage);
    ActKept(s.store, s.kernel, stage, ok);
    ActFramed(s, t, ok);
  }

  lemma ActKept(st: Store, kernel: set<string>, stage: Stage, ok: bool)
    requires !Free(stage) && !stage.Done? && Ready(st, kernel, stage)
    ensures Kept(st, kernel, Acted(st, kernel, stage, ok), stage.key)
  {
    match stage
    case Locked(_, _) => DecideKeeps(st, kernel, stage, ok);
    case Mounting(_, _, _, _) => MountKeeps(st, kernel, stage, ok);
    case RollingBack(_) => MountKeeps(st, kernel, stage, ok);
    case Mounted(_, _, _, _) => CommitKeeps(st, kernel, stage, ok);
    case Read(_, _, _, _) => ReadKeeps(st, kernel, stage, ok);
    case Beginning(_, _, _, _) => BeginKeeps(st, kernel, stage, ok);
    case Failed(_, _, _) => BeginKeeps(st, kernel, stage, ok);
    case Retaining(_, _, _) => RetainKeeps(st, kernel, stage, ok);
    case Unmounting(_, _, _, _) => UnmountKeeps(st, kernel, stage, ok);
    case Dropping(_, _, _) => DropKeeps(st, kernel, stage, ok);
    case Unmounted(_, _, _) => DropKeeps(st, kernel, stage, ok);
  }

  lemma StepKeepsInv(s: State, step: Step)
    requires Inv(s) && Enabled(s, step) && Careful(s, step)
    ensures Inv(Next(s, step))
  {
    match step
    case Start(_, _, _) => StartKeeps(s, step);
    case Look(_) => LookKeeps(s, step);
    case Take(_) => TakeKeeps(s, step);
    case Act(t, ok) => ActKeeps(s, t, ok);
    case Unlock(_) => UnlockKeeps(s, step);
    case Crash => CrashKeeps(s);
  }
}
