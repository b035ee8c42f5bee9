/** Whole runs of the lease protocol: which mount requests are safe in every interleaving, and
    exactly where a crash is not. */
module LeaseRuns {
  import opened Wrappers
  import opened LeaseStore
  import opened LeaseProtocol

  /** A request to mount `key` under a lease for an owner. */
  datatype Request = Request(id: string, key: string, owner: string)

  /** Every mount request started is one of those permitted. */
  ghost predicate Permits(p: iset<Request>, step: Step) {
    step.Start? && step.op.Acquire? ==> Request(step.op.id, step.key, step.op.owner) in p
  }

  ghost predicate PermittedRun(p: iset<Request>, run: seq<Step>) {
    forall i | 0 <= i < |run| :: Permits(p, run[i])
  }

  ghost predicate ValidRun(s: State, run: seq<Step>)
    decreases |run|
  {
    run == [] || (Enabled(s, run[0]) && ValidRun(Next(s, run[0]), run[1..]))
  }

  ghost function After(s: State, run: seq<Step>): State
    requires ValidRun(s, run)
    decreases |run|
  {
    if run == [] then s else After(Next(s, run[0]), run[1..])
  }

  /** No crash falls between an unmount and the deletion of its lease. */
  ghost predicate TimelyRun(s: State, run: seq<Step>)
    requires ValidRun(s, run)
    decreases |run|
  {
    run == [] || ((run[0].Crash? ==> Careful(s, Crash)) && TimelyRun(Next(s, run[0]), run[1..]))
  }

  /** Every lease that is not being released has its resource mounted. */
  ghost predicate Protected(s: State) {
    forall id | id in s.store.leases && !s.store.leases[id].releasing :: s.store.leases[id].key in s.kernel
  }

  /** A resource is recorded exactly while somebody leases it. */
  ghost predicate RecordedIffLeased(s: State) {
    forall key :: key in s.store.mounts <==> exists id :: id in s.store.leases && s.store.leases[id].key == key
  }

  // ---------------------------------------------------------------------------
  // Requests that keep each lease on one key
  // ---------------------------------------------------------------------------

  /** `bind` gives the key of each lease. */
  ghost predicate BindsKeys(p: iset<Request>, bind: string -> string) {
    forall r | r in p && r.id != "" && r.key != "" :: bind(r.id) == r.key
  }

  /** Every lease, and every stage that is to act on one, is on the lease's key. */
  ghost predicate OnKeys(s: State, bind: string -> string) {
    && (forall id | id in s.store.leases :: s.store.leases[id].key == bind(id))
    && (forall t | t in s.threads :: StageOnKey(s.threads[t], bind))
  }

  ghost predicate StageOnKey(stage: Stage, bind: string -> string) {
    match stage
    case Waiting(op, key) => key == bind(op.id)
    case Locked(op, key) => key == bind(op.id)
    case Mounting(id, _, key, _) => key == bind(id)
    case Mounted(id, _, key, _) => key == bind(id)
    case Retaining(id, _, key) => key == bind(id)
    case _ => true
  }

  lemma ActStaysOnKeys(st: Store, kernel: set<string>, stage: Stage, ok: bool, bind: string -> string)
    requires !Free(stage) && !stage.Done? && StageOnKey(stage, bind)
    requires forall id | id in st.leases :: st.leases[id].key == bind(id)
    ensures var after := Acted(st, kernel, stage, ok);
            && (forall id | id in after.0.leases :: after.0.leases[id].key == bind(id))
            && StageOnKey(after.2, bind)
  {
  }

  /** No step moves a lease to another key, and so no action is under the lock of another. */
  lemma StepStaysOnKeys(p: iset<Request>, bind: string -> string, s: State, step: Step)
    requires BindsKeys(p, bind) && OnKeys(s, bind) && Enabled(s, step) && Permits(p, step)
    ensures OnKeys(Next(s, step), bind)
    ensures !step.Crash? ==> Careful(s, step)
  {
    if step.Act? {
      ActStaysOnKeys(s.store, s.kernel, s.threads[step.t], step.ok, bind);
    }
  }

  /** What every step of permitted requests keeps, unless it is an untimely crash. */
  lemma StepKeeps(p: iset<Request>, bind: string -> string, s: State, step: Step)
    requires BindsKeys(p, bind) && Inv(s) && OnKeys(s, bind) && Enabled(s, step) && Permits(p, step)
    requires step.Crash? ==> Careful(s, step)
    ensures Inv(Next(s, step)) && OnKeys(Next(s, step), bind)
  {
    StepStaysOnKeys(p, bind, s, step);
    StepKeepsInv(s, step);
  }

  lemma {:induction false} RunKeeps(p: iset<Request>, bind: string -> string, s: State, run: seq<Step>)
    requires BindsKeys(p, bind) && Inv(s) && OnKeys(s, bind)
    requires ValidRun(s, run) && PermittedRun(p, run) && TimelyRun(s, run)
    ensures Inv(After(s, run)) && OnKeys(After(s, run), bind)
    decreases |run|
  {
    if run != [] {
      assert Permits(p, run[0]);
      StepKeeps(p, bind, s, run[0]);
      RunKeeps(p, bind, Next(s, run[0]), run[1..]);
    }
  }

  lemma InvProtects(s: State)
    requires Inv(s)
    ensures Protected(s) && RecordedIffLeased(s)
  {
    forall id | id in s.store.leases ensures !s.store.leases[id].releasing ==> s.store.leases[id].key in s.kernel {
      var key := s.store.leases[id].key;
      assert KeyOk(ViewOf(s.store, s.kernel, key), Holder(s, key));
      assert id in LeasesOn(s.store.leases, key);
    }
    forall key ensures key in s.store.mounts <==> exists id :: id in s.store.leases && s.store.leases[id].key == key {
      assert KeyOk(ViewOf(s.store, s.kernel, key), Holder(s, key));
      var on := LeasesOn(s.store.leases, key);
      assert forall id :: id in on <==> id in s.store.leases && s.store.leases[id].key == key;
      assert on != map[] <==> exists id :: id in on;
    }
  }

  lemma StartInv()
    ensures Inv(START)
  {
    forall key ensures KeyOk(ViewOf(START.store, START.kernel, key), Holder(START, key)) {
      assert LeasesOn(START.store.leases, key) == map[];
    }
  }

  /** In every interleaving of such requests, unmounts, retries, reconciliations and timely
      crashes. */
  lemma EveryBoundRun(p: iset<Request>, bind: string -> string, run: seq<Step>)
    requires BindsKeys(p, bind)
    requires ValidRun(START, run) && PermittedRun(p, run) && TimelyRun(START, run)
    ensures Protected(After(START, run)) && RecordedIffLeased(After(START, run))
  {
    StartInv();
    RunKeeps(p, bind, START, run);
    InvProtects(After(START, run));
  }

  /** An unmount of a lease finds that lease alone on the key; an unmount that rolls a mount
      back finds no lease at all; both hold the key's lock. */
  lemma UnmountIsLast(s: State, t: Thread)
    requires Inv(s) && t in s.threads
    ensures var stage := s.threads[t];
            && (stage.Unmounting? ==>
                  && stage.at == stage.key && stage.key in s.locks && s.locks[stage.key] == t
                  && (forall id :: id in s.store.leases && s.store.leases[id].key == stage.at <==> id == stage.id))
            && (stage.RollingBack? ==>
                  && stage.key in s.locks && s.locks[stage.key] == t
                  && (forall id | id in s.store.leases :: s.store.leases[id].key != stage.key))
  {
    var stage := s.threads[t];
    if stage.Unmounting? || stage.RollingBack? {
      var on := LeasesOn(s.store.leases, stage.key);
      assert Holder(s, stage.key) == Some(stage);
      assert KeyOk(ViewOf(s.store, s.kernel, stage.key), Some(stage));
      assert forall id :: id in on <==> id in s.store.leases && s.store.leases[id].key == stage.key;
      assert stage.RollingBack? ==> on == map[];
      assert stage.Unmounting? ==> forall id :: id in on.Keys <==> id == stage.id;
    }
  }

  // ---------------------------------------------------------------------------
  // Reaching a state by permitted requests and without a crash
  // ---------------------------------------------------------------------------

  ghost predicate Steady(run: seq<Step>) {
    forall i | 0 <= i < |run| :: !run[i].Crash?
  }

  ghost predicate Reaches(p: iset<Request>, s: State, n: State) {
    exists run :: ValidRun(s, run) && PermittedRun(p, run) && Steady(run) && After(s, run) == n
  }

  lemma {:induction false} SteadyIsTimely(s: State, run: seq<Step>)
    requires ValidRun(s, run) && Steady(run)
    ensures TimelyRun(s, run)
    decreases |run|
  {
    if run != [] {
      assert !run[0].Crash?;
      SteadyIsTimely(Next(s, run[0]), run[1..]);
    }
  }

  lemma {:induction false} RunExtends(s: State, run: seq<Step>, step: Step)
    requires ValidRun(s, run) && Enabled(After(s, run), step)
    ensures ValidRun(s, run + [step]) && After(s, run + [step]) == Next(After(s, run), step)
    decreases |run|
  {
    var longer := run + [step];
    if run == [] {
      assert longer[1..] == [];
    } else {
      RunExtends(Next(s, run[0]), run[1..], step);
      assert longer[1..] == run[1..] + [step];
    }
  }

  lemma Onward(p: iset<Request>, s: State, n: State, step: Step)
    requires Reaches(p, s, n) && Enabled(n, step) && Permits(p, step) && !step.Crash?
    ensures Reaches(p, s, Next(n, step))
  {
    var run :| ValidRun(s, run) && PermittedRun(p, run) && Steady(run) && After(s, run) == n;
    RunExtends(s, run, step);
    assert PermittedRun(p, run + [step]) && Steady(run + [step]);
  }

  lemma Nowhere(p: iset<Request>, s: State)
    ensures Reaches(p, s, s)
  {
    assert ValidRun(s, []) && PermittedRun(p, []) && Steady([]) && After(s, []) == s;
  }

  // ---------------------------------------------------------------------------
  // One request from start to end
  // ---------------------------------------------------------------------------

  /** `base` once its thread t is at a stage and the store and the mounts are these. */
  function At(base: State, st: Store, kernel: set<string>, t: Thread, stage: Stage): State {
    State(st, kernel, base.locks, base.threads[t := stage])
  }

  function Holding(base: State, key: string, t: Thread): State {
    base.(locks := base.locks[key := t])
  }

  lemma ActReaches(p: iset<Request>, a: State, base: State, st: Store, kernel: set<string>, t: Thread, stage: Stage, ok: bool)
    requires !Free(stage) && !stage.Done? && Reaches(p, a, At(base, st, kernel, t, stage))
    ensures var after := Acted(st, kernel, stage, ok);
            Reaches(p, a, At(base, after.0, after.1, t, after.2))
  {
    var s, after := At(base, st, kernel, t, stage), Acted(st, kernel, stage, ok);
    Onward(p, a, s, Act(t, ok));
    assert s.threads[t := after.2] == base.threads[t := after.2];
  }

  lemma TakeReaches(p: iset<Request>, a: State, base: State, t: Thread, op: Op, key: string)
    requires Reaches(p, a, At(base, base.store, base.kernel, t, Waiting(op, key))) && key !in base.locks
    ensures Reaches(p, a, At(Holding(base, key, t), base.store, base.kernel, t, Locked(op, key)))
  {
    var s := At(base, base.store, base.kernel, t, Waiting(op, key));
    Onward(p, a, s, Take(t));
    assert s.threads[t := Locked(op, key)] == base.threads[t := Locked(op, key)];
  }

  lemma StartReaches(p: iset<Request>, a: State, base: State, t: Thread, op: Op, key: string)
    requires Reaches(p, a, base) && t !in base.threads && key !in base.locks
    requires MayStart(base.store.leases, op, key) && Permits(p, Start(t, op, key)) && Entered(op, key).Waiting?
    ensures Reaches(p, a, At(Holding(base, key, t), base.store, base.kernel, t, Locked(op, key)))
  {
    Onward(p, a, base, Start(t, op, key));
    TakeReaches(p, a, base, t, op, key);
  }

  lemma UnlockReaches(p: iset<Request>, a: State, base: State, st: Store, kernel: set<string>, t: Thread, key: string)
    requires t !in base.threads && key !in base.locks
    requires Reaches(p, a, At(Holding(base, key, t), st, kernel, t, Done(key)))
    ensures Reaches(p, a, base.(store := st, kernel := kernel))
  {
    var s := At(Holding(base, key, t), st, kernel, t, Done(key));
    Onward(p, a, s, Unlock(t));
    assert s.threads - {t} == base.threads && s.locks - {key} == base.locks;
  }

  /** The actions of a mount request under its lock. */
  lemma CommitReaches(p: iset<Request>, a: State, base: State, st: Store, kernel: set<string>, t: Thread,
                      id: string, owner: string, key: string, newly: bool)
    requires Reaches(p, a, At(base, st, kernel, t, Mounting(id, owner, key, newly))) && Acquired(st, key, id, owner).Ok?
    ensures Reaches(p, a, At(base, Acquired(st, key, id, owner).value, kernel + {key}, t, Done(key)))
  {
    ActReaches(p, a, base, st, kernel, t, Mounting(id, owner, key, newly), true);
    ActReaches(p, a, base, st, kernel + {key}, t, Mounted(id, owner, key, newly), true);
  }

  /** A mount request on a free key that may take the lease, to its end. */
  lemma AcquireReaches(p: iset<Request>, a: State, s: State, t: Thread, r: Request)
    requires Reaches(p, a, s) && t !in s.threads && r.key !in s.locks && r.key != "" && r.id != "" && r in p
    requires Decided(s.store, Acquire(r.id, r.owner), r.key).Mounting? && Acquired(s.store, r.key, r.id, r.owner).Ok?
    ensures Reaches(p, a, s.(store := Acquired(s.store, r.key, r.id, r.owner).value, kernel := s.kernel + {r.key}))
  {
    var id, owner, key, st, kernel := r.id, r.owner, r.key, s.store, s.kernel;
    var base, newly := Holding(s, key, t), Decided(st, Acquire(id, owner), key).newly;
    StartReaches(p, a, s, t, Acquire(id, owner), key);
    ActReaches(p, a, base, st, kernel, t, Locked(Acquire(id, owner), key), true);
    CommitReaches(p, a, base, st, kernel, t, id, owner, key, newly);
    UnlockReaches(p, a, s, Acquired(st, key, id, owner).value, kernel + {key}, t, key);
  }

  /** A release whose lease is alone on its key, wherever that is now, goes on to unmount it. */
  lemma UnmountingReaches(p: iset<Request>, a: State, base: State, st: Store, kernel: set<string>, t: Thread,
                          id: string, lister: Option<string>, locked: string)
    requires Reaches(p, a, At(base, st, kernel, t, Locked(Release(id, lister), locked))) && id in st.leases
    requires var key := st.leases[id].key; key in st.mounts && LeasesOn(st.leases, key).Keys == {id}
    ensures Reaches(p, a, At(base, Began(st, id), kernel, t, Unmounting(id, locked, st.leases[id].key, lister)))
  {
    var key := st.leases[id].key;
    ActReaches(p, a, base, st, kernel, t, Locked(Release(id, lister), locked), true);
    OnlyOne(st.leases, id);
    ActReaches(p, a, base, st, kernel, t, Read(id, locked, key, lister), true);
    ActReaches(p, a, base, st, kernel, t, Beginning(id, locked, key, lister), true);
  }

  lemma BeganReleases(st: Store, id: string, key: string)
    requires id in st.leases && st.leases[id].key == key && LeasesOn(st.leases, key).Keys == {id}
    ensures Released(Began(st, id), id, true) == Ok(Store(st.leases - {id}, st.mounts - {key}))
  {
    assert LeasesOn(Began(st, id).leases, key).Keys == {id};
    assert Began(st, id).leases - {id} == st.leases - {id};
  }

  /** ... and to delete the lease and the record. */
  lemma DeletedReaches(p: iset<Request>, a: State, base: State, st: Store, kernel: set<string>, t: Thread,
                       id: string, lister: Option<string>, key: string)
    requires id in st.leases && st.leases[id].key == key && LeasesOn(st.leases, key).Keys == {id}
    requires Reaches(p, a, At(base, Began(st, id), kernel, t, Unmounting(id, key, key, lister)))
    ensures Reaches(p, a, At(base, Store(st.leases - {id}, st.mounts - {key}), kernel - {key}, t, Done(key)))
  {
    ActReaches(p, a, base, Began(st, id), kernel, t, Unmounting(id, key, key, lister), true);
    BeganReleases(st, id, key);
    ActReaches(p, a, base, Began(st, id), kernel - {key}, t, Unmounted(id, key, lister), true);
  }

  /** A release of the only lease of a free key, to its end: the lease, the record and the mount
      are gone. */
  lemma ReleaseReaches(p: iset<Request>, a: State, s: State, t: Thread, id: string, key: string)
    requires Reaches(p, a, s) && t !in s.threads && key !in s.locks && key in s.store.mounts
    requires id in s.store.leases && s.store.leases[id].key == key && LeasesOn(s.store.leases, key).Keys == {id}
    ensures Reaches(p, a, s.(store := Store(s.store.leases - {id}, s.store.mounts - {key}), kernel := s.kernel - {key}))
  {
    var base, st, kernel := Holding(s, key, t), s.store, s.kernel;
    StartReaches(p, a, s, t, Release(id, None), key);
    UnmountingReaches(p, a, base, st, kernel, t, id, None, key);
    DeletedReaches(p, a, base, st, kernel, t, id, None, key);
    UnlockReaches(p, a, s, Store(st.leases - {id}, st.mounts - {key}), kernel - {key}, t, key);
  }

  // ---------------------------------------------------------------------------
  // Two requests that put one lease on two keys
  // ---------------------------------------------------------------------------

  /** One lease, on one mounted key. */
  function Solo(r: Request, threads: map<Thread, Stage>): State {
    State(Store(map[r.id := Lease(r.key, r.owner, false)], {r.key}), {r.key}, map[], threads)
  }

  lemma SoloReaches(p: iset<Request>, r: Request)
    requires r in p && r.id != "" && r.key != ""
    ensures Reaches(p, START, Solo(r, map[]))
  {
    Nowhere(p, START);
    AcquireReaches(p, START, START, 0, r);
    var s := Solo(r, map[]);
    assert START.store.leases[r.id := Lease(r.key, r.owner, false)] == s.store.leases;
    assert START.store.mounts + {r.key} == s.store.mounts && START.kernel + {r.key} == s.kernel;
  }

  /** The lease is released, and taken again for the other request. */
  lemma SoloRebinds(p: iset<Request>, r: Request, q: Request, others: map<Thread, Stage>)
    requires q in p && q.id == r.id && q.id != "" && q.key != "" && 0 !in others
    requires Reaches(p, START, Solo(r, others))
    ensures Reaches(p, START, Solo(q, others))
  {
    var s, id := Solo(r, others), r.id;
    assert LeasesOn(s.store.leases, r.key).Keys == {id};
    ReleaseReaches(p, START, s, 0, id, r.key);
    var none := s.(store := Store(map[], {}), kernel := {});
    assert s.store.leases - {id} == map[] && s.store.mounts - {r.key} == {} && s.kernel - {r.key} == {};
    AcquireReaches(p, START, none, 0, q);
    assert none.store.leases[id := Lease(q.key, q.owner, false)] == map[id := Lease(q.key, q.owner, false)];
    assert none.store.mounts + {q.key} == {q.key} && none.kernel + {q.key} == {q.key};
  }

  /** A release that waits for the first key while the lease moves to the second. */
  lemma StraySoloReaches(p: iset<Request>, r: Request, q: Request)
    requires r in p && q in p && r.id == q.id && r.id != "" && r.key != "" && q.key != "" && r.key != q.key
    ensures var s := Holding(Solo(q, map[]), r.key, 1);
            Reaches(p, START, At(s, s.store, s.kernel, 1, Locked(Release(r.id, None), r.key)))
  {
    var id, release := r.id, Release(r.id, None);
    SoloReaches(p, r);
    var waiting := map[1 := Waiting(release, r.key)];
    Onward(p, START, Solo(r, map[]), Start(1, release, r.key));
    assert Next(Solo(r, map[]), Start(1, release, r.key)) == Solo(r, waiting);
    SoloRebinds(p, r, q, waiting);
    var s := Solo(q, map[]);
    assert At(s, s.store, s.kernel, 1, Waiting(release, r.key)) == Solo(q, waiting);
    TakeReaches(p, START, s, 1, release, r.key);
  }

  /** It then unmounts the second key, and the second request, made once more, does not see it. */
  lemma ReboundLeaseLosesMount(p: iset<Request>, r: Request, q: Request)
    requires r in p && q in p && r.id == q.id && r.id != "" && r.key != "" && q.key != "" && r.key != q.key
    ensures exists n :: Reaches(p, START, n) && !Protected(n)
  {
    var id := r.id;
    StraySoloReaches(p, r, q);
    var base := Holding(Solo(q, map[]), r.key, 1);
    var st := base.store;
    assert LeasesOn(st.leases, q.key).Keys == {id};
    UnmountingReaches(p, START, base, st, {q.key}, 1, id, None, r.key);
    var stray := Unmounting(id, r.key, q.key, None);
    AcquireReaches(p, START, At(base, Began(st, id), {q.key}, 1, stray), 0, q);
    var again := Acquired(Began(st, id), q.key, id, q.owner).value;
    ActReaches(p, START, base, again, {q.key} + {q.key}, 1, stray, true);
    var n := At(base, again, {q.key} + {q.key} - {q.key}, 1, Unmounted(id, r.key, None));
    assert !n.store.leases[id].releasing && n.store.leases[id].key == q.key && q.key !in n.kernel;
  }

  /** A retention that waits for the first key while the lease moves to the second. */
  lemma StrayRetainReaches(p: iset<Request>, r: Request, q: Request)
    requires r in p && q in p && r.id == q.id && r.id != "" && r.key != "" && q.key != ""
    ensures var s := Holding(Solo(q, map[]), r.key, 1);
            Reaches(p, START, At(s, s.store, s.kernel, 1, Retaining(r.id, r.owner, r.key)))
  {
    var retain := Retain(r.id, r.owner);
    SoloReaches(p, r);
    var waiting := map[1 := Waiting(retain, r.key)];
    Onward(p, START, Solo(r, map[]), Start(1, retain, r.key));
    assert Next(Solo(r, map[]), Start(1, retain, r.key)) == Solo(r, waiting);
    SoloRebinds(p, r, q, waiting);
    var s := Solo(q, map[]);
    assert At(s, s.store, s.kernel, 1, Waiting(retain, r.key)) == Solo(q, waiting);
    TakeReaches(p, START, s, 1, retain, r.key);
    ActReaches(p, START, Holding(s, r.key, 1), s.store, s.kernel, 1, Locked(retain, r.key), true);
  }

  /** A release of the only lease, up to the point after its unmount. */
  lemma UnmountedReaches(p: iset<Request>, a: State, s: State, t: Thread, id: string, key: string)
    requires Reaches(p, a, s) && t !in s.threads && key !in s.locks && key in s.store.mounts
    requires id in s.store.leases && s.store.leases[id].key == key && LeasesOn(s.store.leases, key).Keys == {id}
    ensures Reaches(p, a, At(Holding(s, key, t), Began(s.store, id), s.kernel - {key}, t, Unmounted(id, key, None)))
  {
    StartReaches(p, a, s, t, Release(id, None), key);
    UnmountingReaches(p, a, Holding(s, key, t), s.store, s.kernel, t, id, None, key);
    ActReaches(p, a, Holding(s, key, t), Began(s.store, id), s.kernel, t, Unmounting(id, key, key, None), true);
  }

  /** Retaining the moved lease while it is being released under the second key's lock: it is no
      longer being released, and its mount is gone. */
  lemma ReboundRetentionLosesMount(p: iset<Request>, r: Request, q: Request)
    requires r in p && q in p && r.id == q.id && r.id != "" && r.key != "" && q.key != "" && r.key != q.key
    requires r.owner == q.owner
    ensures exists n :: Reaches(p, START, n) && !Protected(n)
  {
    var id := r.id;
    StrayRetainReaches(p, r, q);
    var s := Holding(Solo(q, map[]), r.key, 1);
    var retaining := At(s, s.store, s.kernel, 1, Retaining(id, r.owner, r.key));
    assert LeasesOn(s.store.leases, q.key).Keys == {id};
    UnmountedReaches(p, START, retaining, 0, id, q.key);
    var m := At(Holding(retaining, q.key, 0), Began(s.store, id), s.kernel - {q.key}, 0, Unmounted(id, q.key, None));
    assert m.threads[1] == Retaining(id, r.owner, r.key);
    Onward(p, START, m, Act(1, true));
    var n := Next(m, Act(1, true));
    assert !n.store.leases[id].releasing && n.store.leases[id].key == q.key && q.key !in n.kernel;
  }

  // ---------------------------------------------------------------------------
  // Exactly the requests that are safe
  // ---------------------------------------------------------------------------

  /** No lease is requested on two keys. Requests without a key or a lease are refused. */
  ghost predicate OneKeyEach(p: iset<Request>) {
    forall r, q | r in p && q in p && r.id == q.id && r.id != "" && r.key != "" && q.key != "" :: r.key == q.key
  }

  ghost predicate SafeInEveryRun(p: iset<Request>) {
    forall run | ValidRun(START, run) && PermittedRun(p, run) && TimelyRun(START, run) ::
      Protected(After(START, run)) && RecordedIffLeased(After(START, run))
  }

  ghost function KeyOf(p: iset<Request>, id: string): string {
    if exists r :: r in p && r.id == id && r.key != "" then var r :| r in p && r.id == id && r.key != ""; r.key else ""
  }

  lemma OneKeyBinds(p: iset<Request>)
    requires OneKeyEach(p)
    ensures BindsKeys(p, id => KeyOf(p, id))
  {
  }

  /** Whatever is requested besides, every run without an untimely crash keeps every lease
      mounted and every record leased if and only if no lease is requested on two keys. */
  lemma SafeIffOneKeyEach(p: iset<Request>)
    ensures SafeInEveryRun(p) <==> OneKeyEach(p)
  {
    if OneKeyEach(p) {
      OneKeyBinds(p);
      forall run | ValidRun(START, run) && PermittedRun(p, run) && TimelyRun(START, run)
        ensures Protected(After(START, run)) && RecordedIffLeased(After(START, run))
      {
        EveryBoundRun(p, id => KeyOf(p, id), run);
      }
    } else {
      var r, q :| r in p && q in p && r.id == q.id && r.id != "" && r.key != "" && q.key != "" && r.key != q.key;
      ReboundLeaseLosesMount(p, r, q);
      var n :| Reaches(p, START, n) && !Protected(n);
      var run :| ValidRun(START, run) && PermittedRun(p, run) && Steady(run) && After(START, run) == n;
      SteadyIsTimely(START, run);
    }
  }

  /** In particular when every request is for one key. */
  lemma OneKeyIsSafe(p: iset<Request>, key: string)
    requires forall r | r in p :: r.key == key
    ensures SafeInEveryRun(p)
  {
    SafeIffOneKeyEach(p);
  }

  // ---------------------------------------------------------------------------
  // Untimely crashes
  // ---------------------------------------------------------------------------

  /** A desired lease is retained when its key is free. */
  lemma RetainReaches(p: iset<Request>, a: State, s: State, t: Thread, id: string)
    requires Reaches(p, a, s) && t !in s.threads && id in s.store.leases
    requires s.store.leases[id].key in s.store.mounts && s.store.leases[id].key !in s.locks
    ensures Reaches(p, a, s.(store := s.store.(leases := Mark(s.store.leases, id, false))))
  {
    var key, owner, st := s.store.leases[id].key, s.store.leases[id].owner, s.store;
    StartReaches(p, a, s, t, Retain(id, owner), key);
    ActReaches(p, a, Holding(s, key, t), st, s.kernel, t, Locked(Retain(id, owner), key), true);
    ActReaches(p, a, Holding(s, key, t), st, s.kernel, t, Retaining(id, owner, key), true);
    UnlockReaches(p, a, s, st.(leases := Mark(st.leases, id, false)), s.kernel, t, key);
  }

  /** Every crash between an unmount and the deletion of its lease leaves a lease whose owner
      need only want it again for it to be unprotected. */
  lemma CrashAfterUnmountBreaks(p: iset<Request>, s: State)
    requires Inv(s) && !Careful(s, Crash)
    ensures exists n :: Reaches(p, Next(s, Crash), n) && !Protected(n)
  {
    var t :| t in s.threads && s.threads[t].Unmounted?;
    var id, key := s.threads[t].id, s.threads[t].key;
    assert Holder(s, key) == Some(s.threads[t]);
    assert KeyOk(ViewOf(s.store, s.kernel, key), Some(s.threads[t]));
    assert id in LeasesOn(s.store.leases, key).Keys;
    var a := Next(s, Crash);
    Nowhere(p, a);
    RetainReaches(p, a, a, 0, id);
    var n := a.(store := s.store.(leases := Mark(s.store.leases, id, false)));
    assert !n.store.leases[id].releasing && n.store.leases[id].key == key && key !in n.kernel;
  }
}
