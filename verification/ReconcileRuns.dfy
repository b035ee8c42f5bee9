/** Desired-set reconciliation interleaved with everything else: whose leases it changes, and
    what it leaves its owner. */
module ReconcileRuns {
  import opened Wrappers
  import opened LeaseStore
  import opened LeaseProtocol
  import opened LeaseRuns

  // ---------------------------------------------------------------------------
  // Requests that keep each lease with one owner
  // ---------------------------------------------------------------------------

  /** `own` gives the owner of each lease. */
  ghost predicate BindsOwners(p: iset<Request>, own: string -> string) {
    forall r | r in p && r.id != "" && r.key != "" :: own(r.id) == r.owner
  }

  ghost predicate WithOwners(s: State, own: string -> string) {
    && (forall id | id in s.store.leases :: s.store.leases[id].owner == own(id))
    && (forall t | t in s.threads :: StageWithOwner(s.threads[t], own))
  }

  predicate OpWithOwner(op: Op, own: string -> string) {
    match op
    case Acquire(id, owner) => owner == own(id)
    case Release(id, lister) => lister == None || lister == Some(own(id))
    case Retry(_) => true
    case Retain(id, owner) => owner == own(id)
  }

  predicate StageWithOwner(stage: Stage, own: string -> string) {
    match stage
    case Queued(id, owner, _) => owner == own(id)
    case Waiting(op, _) => OpWithOwner(op, own)
    case Locked(op, _) => OpWithOwner(op, own)
    case Mounting(id, owner, _, _) => owner == own(id)
    case Mounted(id, owner, _, _) => owner == own(id)
    case Retaining(id, owner, _) => owner == own(id)
    case _ => Lister(stage) == None || (StageId(stage).Some? && Lister(stage) == Some(own(StageId(stage).value)))
  }

  /** The lease a stage is about. */
  function StageId(stage: Stage): Option<string> {
    match stage
    case Waiting(op, _) => Some(op.id)
    case Locked(op, _) => Some(op.id)
    case RollingBack(_) => None
    case Done(_) => None
    case _ => Some(stage.id)
  }

  /** The owner whose reconciliation has come to a stage that changes a lease. */
  function Lister(stage: Stage): Option<string> {
    match stage
    case Read(_, _, _, lister) => lister
    case Dropping(_, _, lister) => lister
    case Beginning(_, _, _, lister) => lister
    case Unmounting(_, _, _, lister) => lister
    case Unmounted(_, _, lister) => lister
    case Failed(_, _, lister) => lister
    case Retaining(_, owner, _) => Some(owner)
    case _ => None
  }

  /** An action changes no lease but its own. */
  lemma ActOnOwnLease(st: Store, kernel: set<string>, stage: Stage, ok: bool, id: string)
    requires !Free(stage) && !stage.Done? && StageId(stage) != Some(id)
    ensures var after := Acted(st, kernel, stage, ok);
            && (id in after.0.leases <==> id in st.leases)
            && (id in st.leases ==> after.0.leases[id] == st.leases[id])
  {
  }

  lemma ActWithOwners(st: Store, kernel: set<string>, stage: Stage, ok: bool, own: string -> string)
    requires !Free(stage) && !stage.Done? && StageWithOwner(stage, own)
    requires forall id | id in st.leases :: st.leases[id].owner == own(id)
    ensures var after := Acted(st, kernel, stage, ok);
            && (forall id | id in after.0.leases :: after.0.leases[id].owner == own(id))
            && StageWithOwner(after.2, own)
  {
  }

  lemma StepWithOwners(p: iset<Request>, own: string -> string, s: State, step: Step)
    requires BindsOwners(p, own) && WithOwners(s, own) && Enabled(s, step) && Permits(p, step)
    ensures WithOwners(Next(s, step), own)
  {
    if step.Act? {
      ActWithOwners(s.store, s.kernel, s.threads[step.t], step.ok, own);
    }
  }

  lemma {:induction false} RunWithOwners(p: iset<Request>, own: string -> string, s: State, run: seq<Step>)
    requires BindsOwners(p, own) && WithOwners(s, own) && ValidRun(s, run) && PermittedRun(p, run)
    ensures WithOwners(After(s, run), own)
    decreases |run|
  {
    if run != [] {
      assert Permits(p, run[0]);
      StepWithOwners(p, own, s, run[0]);
      RunWithOwners(p, own, Next(s, run[0]), run[1..]);
    }
  }

  // ---------------------------------------------------------------------------
  // Exactly the requests under which a reconciliation keeps to its owner's leases
  // ---------------------------------------------------------------------------

  /** A step of one owner's reconciliation changes or removes another owner's lease. */
  ghost predicate TakesForeign(s: State, step: Step)
    requires Enabled(s, step)
  {
    step.Act? && Lister(s.threads[step.t]).Some? &&
    exists id | id in s.store.leases :: ForeignTo(s, Next(s, step), id, Lister(s.threads[step.t]).value)
  }

  predicate ForeignTo(s: State, n: State, id: string, owner: string)
    requires id in s.store.leases
  {
    s.store.leases[id].owner != owner && (id !in n.store.leases || n.store.leases[id] != s.store.leases[id])
  }

  ghost predicate NeverTakesForeign(p: iset<Request>) {
    forall run, step | ValidRun(START, run) && PermittedRun(p, run) && Enabled(After(START, run), step) ::
      !TakesForeign(After(START, run), step)
  }

  ghost predicate OneOwnerEach(p: iset<Request>) {
    forall r, q | r in p && q in p && r.id == q.id && r.id != "" && r.key != "" && q.key != "" :: r.owner == q.owner
  }

  ghost function OwnerOf(p: iset<Request>, id: string): string {
    if exists r :: r in p && r.id == id && r.key != "" then var r :| r in p && r.id == id && r.key != ""; r.owner else ""
  }

  lemma OneOwnerBinds(p: iset<Request>)
    requires OneOwnerEach(p)
    ensures BindsOwners(p, id => OwnerOf(p, id))
  {
  }

  lemma OwnLeaseOnly(s: State, step: Step, own: string -> string)
    requires WithOwners(s, own) && Enabled(s, step)
    ensures !TakesForeign(s, step)
  {
    if TakesForeign(s, step) {
      var stage := s.threads[step.t];
      var id :| id in s.store.leases && ForeignTo(s, Next(s, step), id, Lister(stage).value);
      assert StageWithOwner(stage, own) && s.store.leases[id].owner == own(id);
      assert StageId(stage) != Some(id);
      ActOnOwnLease(s.store, s.kernel, stage, step.ok, id);
      assert false;
    }
  }

  /** An owner lists a lease, it is released and taken by another owner, and the listed release
      finds it and locks its key. */
  lemma ListedReaches(p: iset<Request>, r: Request, q: Request)
    requires r in p && q in p && r.id == q.id && r.id != "" && r.key != "" && q.key != ""
    ensures var s := Solo(q, map[]);
            Reaches(p, START, At(Holding(s, q.key, 1), s.store, s.kernel, 1, Locked(Release(r.id, Some(r.owner)), q.key)))
  {
    var release, start := Release(r.id, Some(r.owner)), Start(1, Release(r.id, Some(r.owner)), r.key);
    SoloReaches(p, r);
    var listed := map[1 := Queued(r.id, r.owner, r.key)];
    Onward(p, START, Solo(r, map[]), start);
    assert Next(Solo(r, map[]), start) == Solo(r, listed);
    SoloRebinds(p, r, q, listed);
    Onward(p, START, Solo(q, listed), Look(1));
    var s := Solo(q, map[]);
    assert Next(Solo(q, listed), Look(1)) == At(s, s.store, s.kernel, 1, Waiting(release, q.key));
    TakeReaches(p, START, s, 1, release, q.key);
  }

  lemma StaleReaches(p: iset<Request>, s: State, id: string, key: string, lister: string)
    requires id in s.store.leases && s.store.leases[id].key == key && key in s.store.mounts && s.store.leases.Keys == {id}
    requires Reaches(p, START, At(Holding(s, key, 1), s.store, s.kernel, 1, Locked(Release(id, Some(lister)), key)))
    ensures Reaches(p, START, At(Holding(s, key, 1), Began(s.store, id), s.kernel - {key}, 1, Unmounted(id, key, Some(lister))))
  {
    assert LeasesOn(s.store.leases, key).Keys == {id};
    UnmountingReaches(p, START, Holding(s, key, 1), s.store, s.kernel, 1, id, Some(lister), key);
    ActReaches(p, START, Holding(s, key, 1), Began(s.store, id), s.kernel, 1, Unmounting(id, key, key, Some(lister)), true);
  }

  /** A release on behalf of `lister` that has unmounted a lease of `owner`, and is to remove it. */
  ghost predicate Usurps(n: State, id: string, key: string, lister: string, owner: string) {
    && 1 in n.threads && n.threads[1] == Unmounted(id, key, Some(lister)) && key !in n.kernel
    && id in n.store.leases && n.store.leases[id].owner == owner
    && id !in Next(n, Act(1, true)).store.leases
  }

  lemma ReconcileTakesForeignLease(p: iset<Request>, r: Request, q: Request)
    requires r in p && q in p && r.id == q.id && r.id != "" && r.key != "" && q.key != "" && r.owner != q.owner
    ensures exists n :: Reaches(p, START, n) && Usurps(n, r.id, q.key, r.owner, q.owner)
  {
    var s, id := Solo(q, map[]), r.id;
    ListedReaches(p, r, q);
    StaleReaches(p, s, id, q.key, r.owner);
    var n := At(Holding(s, q.key, 1), Began(s.store, id), s.kernel - {q.key}, 1, Unmounted(id, q.key, Some(r.owner)));
    UsurpsAt(n, s, id, q.key, r.owner, q.owner);
  }

  lemma UsurpsAt(n: State, s: State, id: string, key: string, lister: string, owner: string)
    requires s.store.leases == map[id := Lease(key, owner, false)]
    requires n == At(Holding(s, key, 1), Began(s.store, id), s.kernel - {key}, 1, Unmounted(id, key, Some(lister)))
    ensures Usurps(n, id, key, lister, owner)
  {
    assert LeasesOn(s.store.leases, key).Keys == {id};
    BeganReleases(s.store, id, key);
  }

  /** In every run, crashes included, each reconciliation keeps to its owner's leases if and
      only if no lease is requested for two owners. */
  lemma OwnLeasesIffOneOwnerEach(p: iset<Request>)
    ensures NeverTakesForeign(p) <==> OneOwnerEach(p)
  {
    if OneOwnerEach(p) {
      OneOwnerBinds(p);
      forall run, step | ValidRun(START, run) && PermittedRun(p, run) && Enabled(After(START, run), step)
        ensures !TakesForeign(After(START, run), step)
      {
        RunWithOwners(p, id => OwnerOf(p, id), START, run);
        OwnLeaseOnly(After(START, run), step, id => OwnerOf(p, id));
      }
    } else {
      var r, q :| r in p && q in p && r.id == q.id && r.id != "" && r.key != "" && q.key != "" && r.owner != q.owner;
      ReconcileTakesForeignLease(p, r, q);
      var n :| Reaches(p, START, n) && Usurps(n, r.id, q.key, r.owner, q.owner);
      var run :| ValidRun(START, run) && PermittedRun(p, run) && Steady(run) && After(START, run) == n;
      assert ForeignTo(n, Next(n, Act(1, true)), r.id, r.owner);
      assert TakesForeign(After(START, run), Act(1, true));
    }
  }

  // ---------------------------------------------------------------------------
  // What a reconciliation leaves its owner
  // ---------------------------------------------------------------------------

  /** No request is under way on the owner's leases. */
  ghost predicate Quiet(s: State, own: string -> string, owner: string) {
    forall t, id | t in s.threads && StageId(s.threads[t]) == Some(id) :: own(id) != owner
  }

  /** On the owner's leases only the reconciliation runs, besides unmounts and retries of what
      it lists as stale, and what it unmounts itself does unmount. */
  ghost predicate Orderly(s: State, step: Step, own: string -> string, owner: string, desired: set<string>)
    requires Enabled(s, step)
  {
    match step
    case Start(_, op, _) => own(op.id) == owner ==> Wanted(op, desired)
    case Act(t, ok) =>
      s.threads[t].Unmounting? && own(s.threads[t].id) == owner && s.threads[t].lister.Some? ==> ok
    case Crash => false
    case _ => true
  }

  predicate Wanted(op: Op, desired: set<string>) {
    if op.id in desired then op.Retain? else op.Release? || op.Retry?
  }

  ghost predicate OrderlyRun(s: State, run: seq<Step>, own: string -> string, owner: string, desired: set<string>)
    requires ValidRun(s, run)
    decreases |run|
  {
    run == [] || (Orderly(s, run[0], own, owner, desired) && OrderlyRun(Next(s, run[0]), run[1..], own, owner, desired))
  }

  /** An owner's reconciliation retains a lease, or releases it as stale. */
  predicate Reconciles(op: Op) {
    op.Retain? || (op.Release? && op.lister.Some?)
  }

  /** The leases visited. */
  function Visited(run: seq<Step>): set<string> {
    if run == [] then {}
    else (if run[0].Start? && Reconciles(run[0].op) then {run[0].op.id} else {}) + Visited(run[1..])
  }

  lemma VisitedOne(step: Step)
    ensures Visited([step]) == if step.Start? && Reconciles(step.op) then {step.op.id} else {}
  {
    assert [step][1..] == [];
  }

  function OwnedBy(leases: Leases, owner: string): Leases {
    map id | id in leases && leases[id].owner == owner :: leases[id]
  }

  /** What the owner is to be left with: its old leases that are desired, none being released. */
  function Desired(leases: Leases, owner: string, desired: set<string>): Leases {
    map id | id in leases && leases[id].owner == owner && id in desired :: leases[id].(releasing := false)
  }

  /** A stage of a reconciliation, which ends by settling its lease. */
  predicate Pending(stage: Stage, id: string) {
    && StageId(stage) == Some(id)
    && match stage
       case Queued(_, _, _) => true
       case Waiting(op, _) => Reconciles(op)
       case Locked(op, _) => Reconciles(op)
       case Failed(_, _, _) => false
       case _ => Lister(stage).Some?
  }

  predicate Settled(leases: Leases, id: string, desired: set<string>) {
    if id in desired then id in leases && !leases[id].releasing else id !in leases
  }

  /** What may be under way on a lease of the owner. */
  predicate RightStage(stage: Stage, id: string, desired: set<string>) {
    match stage
    case Waiting(op, _) => Wanted(op, desired)
    case Locked(op, _) => Wanted(op, desired)
    case Mounting(_, _, _, _) => false
    case Mounted(_, _, _, _) => false
    case Retaining(_, _, _) => id in desired
    case _ => id !in desired
  }

  ghost predicate RightStages(s: State, own: string -> string, owner: string, desired: set<string>) {
    forall t, id | t in s.threads && StageId(s.threads[t]) == Some(id) && own(id) == owner ::
      RightStage(s.threads[t], id, desired)
  }

  ghost predicate UnderWay(s: State, id: string) {
    exists t | t in s.threads :: Pending(s.threads[t], id)
  }

  /** Between the listing and the end, of one lease of the owner. */
  ghost predicate Midway(before: Leases, s: State, visited: set<string>, desired: set<string>, id: string) {
    && (id in s.store.leases ==>
          id in before && s.store.leases[id].(releasing := false) == before[id].(releasing := false))
    && (id in desired && id in before ==> id in s.store.leases)
    && (id in visited && id in before ==> Settled(s.store.leases, id, desired) || UnderWay(s, id))
  }

  ghost predicate AllMidway(before: Leases, s: State, visited: set<string>, own: string -> string, owner: string, desired: set<string>) {
    RightStages(s, own, owner, desired) && forall id | own(id) == owner :: Midway(before, s, visited, desired, id)
  }

  /** Nothing changes for a lease when its entry stays and whatever was under way on it does. */
  lemma MidwayStays(before: Leases, s: State, n: State, visited: set<string>, desired: set<string>, id: string)
    requires Midway(before, s, visited, desired, id)
    requires id in n.store.leases <==> id in s.store.leases
    requires id in s.store.leases ==> n.store.leases[id] == s.store.leases[id]
    requires UnderWay(s, id) ==> UnderWay(n, id)
    ensures Midway(before, n, visited, desired, id)
  {
  }

  lemma StartMidway(before: Leases, s: State, step: Step, visited: set<string>, own: string -> string, owner: string, desired: set<string>)
    requires AllMidway(before, s, visited, own, owner, desired) && step.Start? && Enabled(s, step)
    requires Orderly(s, step, own, owner, desired)
    ensures AllMidway(before, Next(s, step), visited + Visited([step]), own, owner, desired)
  {
    var n := Next(s, step);
    VisitedOne(step);
    assert n.threads[step.t] == Entered(step.op, step.key);
    forall id | own(id) == owner ensures Midway(before, n, visited + Visited([step]), desired, id) {
      assert Midway(before, s, visited, desired, id);
      if UnderWay(s, id) {
        var t :| t in s.threads && Pending(s.threads[t], id);
        assert t in n.threads && n.threads[t] == s.threads[t];
      }
      if id in Visited([step]) {
        assert Pending(n.threads[step.t], id);
      }
    }
  }

  /** A step of thread t that leaves the store as it is. */
  lemma MoveMidway(before: Leases, s: State, n: State, t: Thread, visited: set<string>, own: string -> string, owner: string, desired: set<string>)
    requires AllMidway(before, s, visited, own, owner, desired) && t in s.threads && n.store == s.store
    requires n.threads.Keys <= s.threads.Keys && n.threads.Keys >= s.threads.Keys - {t}
    requires forall u | u in n.threads && u != t :: n.threads[u] == s.threads[u]
    requires t in n.threads ==> forall id | StageId(n.threads[t]) == Some(id) && own(id) == owner :: RightStage(n.threads[t], id, desired)
    requires forall id | Pending(s.threads[t], id) && own(id) == owner && id in before ::
               (t in n.threads && Pending(n.threads[t], id)) || Settled(s.store.leases, id, desired)
    ensures AllMidway(before, n, visited, own, owner, desired)
  {
    forall id | own(id) == owner ensures Midway(before, n, visited, desired, id) {
      assert Midway(before, s, visited, desired, id);
      if UnderWay(s, id) && id in before && !Settled(s.store.leases, id, desired) {
        var u :| u in s.threads && Pending(s.threads[u], id);
        assert u in n.threads && Pending(n.threads[u], id);
      }
    }
  }

  lemma RecordedKey(s: State, id: string)
    requires Inv(s) && id in s.store.leases
    ensures s.store.leases[id].key in s.store.mounts
  {
    InvProtects(s);
  }

  lemma LookMidway(before: Leases, s: State, step: Step, visited: set<string>, own: string -> string, owner: string, desired: set<string>)
    requires Inv(s) && AllMidway(before, s, visited, own, owner, desired) && step.Look? && Enabled(s, step)
    ensures AllMidway(before, Next(s, step), visited, own, owner, desired)
  {
    var id := s.threads[step.t].id;
    if id in s.store.leases { RecordedKey(s, id); }
    MoveMidway(before, s, Next(s, step), step.t, visited, own, owner, desired);
  }

  lemma TakeMidway(before: Leases, s: State, step: Step, visited: set<string>, own: string -> string, owner: string, desired: set<string>)
    requires AllMidway(before, s, visited, own, owner, desired) && (step.Take? || step.Unlock?) && Enabled(s, step)
    ensures AllMidway(before, Next(s, step), visited, own, owner, desired)
  {
    MoveMidway(before, s, Next(s, step), step.t, visited, own, owner, desired);
  }

  // ---------------------------------------------------------------------------
  // Actions
  // ---------------------------------------------------------------------------

  /** What is known of an action on a lease of the owner. */
  ghost predicate Sound(st: Store, kernel: set<string>, stage: Stage, ok: bool, id: string, desired: set<string>) {
    && !Free(stage) && !stage.Done? && Ready(st, kernel, stage)
    && StageId(stage) == Some(id) && RightStage(stage, id, desired)
    && (stage.Unmounting? && stage.lister.Some? ==> ok)
    && (stage.Locked? || stage.Retaining? ==> id in st.leases ==> st.leases[id].key == stage.key && st.leases[id].key in st.mounts)
    && (stage.Retaining? && id in st.leases ==> st.leases[id].owner == stage.owner)
  }

  lemma ActRight(st: Store, kernel: set<string>, stage: Stage, ok: bool, id: string, desired: set<string>)
    requires Sound(st, kernel, stage, ok, id, desired)
    ensures var after := Acted(st, kernel, stage, ok).2; after.Done? || (StageId(after) == Some(id) && RightStage(after, id, desired))
  {
  }

  /** The lease itself: marked as the stage is to, or gone when it is not desired. */
  lemma ActEntry(st: Store, kernel: set<string>, stage: Stage, ok: bool, id: string, desired: set<string>)
    requires Sound(st, kernel, stage, ok, id, desired)
    ensures var leases := Acted(st, kernel, stage, ok).0.leases;
            && (id in leases ==> id in st.leases && leases[id].(releasing := false) == st.leases[id].(releasing := false))
            && (id in desired && id in st.leases ==> id in leases)
            && (Settled(st.leases, id, desired) ==> Settled(leases, id, desired))
  {
  }

  /** What is pending stays pending until the lease is settled. */
  lemma ActSettles(st: Store, kernel: set<string>, stage: Stage, ok: bool, id: string, desired: set<string>)
    requires Sound(st, kernel, stage, ok, id, desired) && Pending(stage, id)
    requires id in desired ==> id in st.leases
    ensures var after := Acted(st, kernel, stage, ok);
            Pending(after.2, id) || Settled(after.0.leases, id, desired)
  {
    if stage.Unmounted? {
      assert id in LeasesOn(st.leases, stage.key).Keys;
    }
  }

  lemma ActMidwayOwn(before: Leases, s: State, t: Thread, ok: bool, visited: set<string>, desired: set<string>, id: string)
    requires Enabled(s, Act(t, ok)) && Sound(s.store, s.kernel, s.threads[t], ok, id, desired)
    requires Midway(before, s, visited, desired, id)
    ensures Midway(before, Next(s, Act(t, ok)), visited, desired, id)
  {
    var st, kernel, stage, n := s.store, s.kernel, s.threads[t], Next(s, Act(t, ok));
    ActEntry(st, kernel, stage, ok, id, desired);
    if id in visited && id in before && !Settled(st.leases, id, desired) {
      var u :| u in s.threads && Pending(s.threads[u], id);
      if u == t {
        ActSettles(st, kernel, stage, ok, id, desired);
        assert Pending(n.threads[t], id) ==> UnderWay(n, id);
      } else {
        assert u in n.threads && n.threads[u] == s.threads[u];
      }
    }
  }

  lemma ActMidwayOther(before: Leases, s: State, t: Thread, ok: bool, visited: set<string>, desired: set<string>, id: string)
    requires Enabled(s, Act(t, ok)) && StageId(s.threads[t]) != Some(id)
    requires Midway(before, s, visited, desired, id)
    ensures Midway(before, Next(s, Act(t, ok)), visited, desired, id)
  {
    var n := Next(s, Act(t, ok));
    ActOnOwnLease(s.store, s.kernel, s.threads[t], ok, id);
    if UnderWay(s, id) {
      var u :| u in s.threads && Pending(s.threads[u], id);
      assert u in n.threads && n.threads[u] == s.threads[u];
    }
    MidwayStays(before, s, n, visited, desired, id);
  }

  lemma ActIsSound(s: State, t: Thread, ok: bool, bind: string -> string, own: string -> string, owner: string, desired: set<string>, id: string)
    requires Inv(s) && OnKeys(s, bind) && WithOwners(s, own) && RightStages(s, own, owner, desired)
    requires Enabled(s, Act(t, ok)) && Orderly(s, Act(t, ok), own, owner, desired)
    requires StageId(s.threads[t]) == Some(id) && own(id) == owner
    ensures Sound(s.store, s.kernel, s.threads[t], ok, id, desired)
  {
    var stage := s.threads[t];
    assert Holder(s, stage.key) == Some(stage);
    assert KeyOk(ViewOf(s.store, s.kernel, stage.key), Some(stage));
    if id in s.store.leases { RecordedKey(s, id); }
    assert StageOnKey(stage, bind) && StageWithOwner(stage, own);
  }

  lemma ActStaysAbout(st: Store, kernel: set<string>, stage: Stage, ok: bool)
    requires !Free(stage) && !stage.Done?
    ensures var after := StageId(Acted(st, kernel, stage, ok).2); after == None || after == StageId(stage)
  {
  }

  lemma ActRightStages(s: State, t: Thread, ok: bool, bind: string -> string, own: string -> string, owner: string, desired: set<string>)
    requires Inv(s) && OnKeys(s, bind) && WithOwners(s, own) && RightStages(s, own, owner, desired)
    requires Enabled(s, Act(t, ok)) && Orderly(s, Act(t, ok), own, owner, desired)
    ensures RightStages(Next(s, Act(t, ok)), own, owner, desired)
  {
    var stage := s.threads[t];
    var about := StageId(stage);
    ActStaysAbout(s.store, s.kernel, stage, ok);
    if about.Some? && own(about.value) == owner {
      ActIsSound(s, t, ok, bind, own, owner, desired, about.value);
      ActRight(s.store, s.kernel, stage, ok, about.value, desired);
    }
  }

  lemma ActMidwayAt(before: Leases, s: State, t: Thread, ok: bool, visited: set<string>,
                    bind: string -> string, own: string -> string, owner: string, desired: set<string>, id: string)
    requires Inv(s) && OnKeys(s, bind) && WithOwners(s, own) && RightStages(s, own, owner, desired)
    requires Enabled(s, Act(t, ok)) && Orderly(s, Act(t, ok), own, owner, desired)
    requires own(id) == owner && Midway(before, s, visited, desired, id)
    ensures Midway(before, Next(s, Act(t, ok)), visited, desired, id)
  {
    if StageId(s.threads[t]) == Some(id) {
      ActIsSound(s, t, ok, bind, own, owner, desired, id);
      ActMidwayOwn(before, s, t, ok, visited, desired, id);
    } else {
      ActMidwayOther(before, s, t, ok, visited, desired, id);
    }
  }

  lemma ActMidway(before: Leases, s: State, step: Step, visited: set<string>,
                  bind: string -> string, own: string -> string, owner: string, desired: set<string>)
    requires Inv(s) && OnKeys(s, bind) && WithOwners(s, own) && AllMidway(before, s, visited, own, owner, desired)
    requires step.Act? && Enabled(s, step) && Orderly(s, step, own, owner, desired)
    ensures AllMidway(before, Next(s, step), visited, own, owner, desired)
  {
    ActRightStages(s, step.t, step.ok, bind, own, owner, desired);
    forall id | own(id) == owner ensures Midway(before, Next(s, step), visited, desired, id) {
      ActMidwayAt(before, s, step.t, step.ok, visited, bind, own, owner, desired, id);
    }
  }

  // ---------------------------------------------------------------------------
  // The whole reconciliation
  // ---------------------------------------------------------------------------

  lemma StepMidway(before: Leases, s: State, step: Step, visited: set<string>,
                   bind: string -> string, own: string -> string, owner: string, desired: set<string>)
    requires Inv(s) && OnKeys(s, bind) && WithOwners(s, own) && AllMidway(before, s, visited, own, owner, desired)
    requires Enabled(s, step) && Orderly(s, step, own, owner, desired)
    ensures AllMidway(before, Next(s, step), visited + Visited([step]), own, owner, desired)
  {
    VisitedOne(step);
    assert visited + {} == visited;
    match step
    case Start(_, _, _) => StartMidway(before, s, step, visited, own, owner, desired);
    case Look(_) => LookMidway(before, s, step, visited, own, owner, desired);
    case Take(_) => TakeMidway(before, s, step, visited, own, owner, desired);
    case Unlock(_) => TakeMidway(before, s, step, visited, own, owner, desired);
    case Act(_, _) => ActMidway(before, s, step, visited, bind, own, owner, desired);
  }

  lemma {:induction false} RunMidway(p: iset<Request>, before: Leases, s: State, run: seq<Step>, visited: set<string>,
                                     bind: string -> string, own: string -> string, owner: string, desired: set<string>)
    requires BindsKeys(p, bind) && BindsOwners(p, own) && Inv(s) && OnKeys(s, bind) && WithOwners(s, own)
    requires ValidRun(s, run) && PermittedRun(p, run) && OrderlyRun(s, run, own, owner, desired)
    requires AllMidway(before, s, visited, own, owner, desired)
    ensures AllMidway(before, After(s, run), visited + Visited(run), own, owner, desired)
    decreases |run|
  {
    if run == [] {
      assert visited + {} == visited;
    } else {
      var step := run[0];
      assert Permits(p, step);
      StepMidway(before, s, step, visited, bind, own, owner, desired);
      StepKeeps(p, bind, s, step);
      StepWithOwners(p, own, s, step);
      RunMidway(p, before, Next(s, step), run[1..], visited + Visited([step]), bind, own, owner, desired);
      VisitedOne(step);
      assert visited + Visited([step]) + Visited(run[1..]) == visited + Visited(run);
    }
  }

  /** From a listing at s, when nothing is under way on the owner's leases, to a state where
      nothing is again and every listed lease was visited, however other owners' requests and
      other mounts of the same keys are interleaved: the owner is left exactly its old leases
      that are desired. */
  lemma ReconcileInterleaved(p: iset<Request>, bind: string -> string, own: string -> string,
                             earlier: seq<Step>, run: seq<Step>, owner: string, desired: set<string>)
    requires BindsKeys(p, bind) && BindsOwners(p, own)
    requires ValidRun(START, earlier) && PermittedRun(p, earlier) && TimelyRun(START, earlier)
    requires var s := After(START, earlier);
             && ValidRun(s, run) && PermittedRun(p, run) && OrderlyRun(s, run, own, owner, desired)
             && Quiet(s, own, owner) && Quiet(After(s, run), own, owner)
             && OwnedBy(s.store.leases, owner).Keys <= Visited(run)
    ensures var s := After(START, earlier);
            OwnedBy(After(s, run).store.leases, owner) == Desired(s.store.leases, owner, desired)
  {
    var s := After(START, earlier);
    var n, before := After(s, run), s.store.leases;
    StartInv();
    RunKeeps(p, bind, START, earlier);
    RunWithOwners(p, own, START, earlier);
    RunMidway(p, before, s, run, {}, bind, own, owner, desired);
    RunWithOwners(p, own, s, run);
    forall id | own(id) == owner
      ensures id in n.store.leases <==> id in before && id in desired
      ensures id in n.store.leases ==> n.store.leases[id] == before[id].(releasing := false)
    {
      assert Midway(before, n, {} + Visited(run), desired, id);
      assert !UnderWay(n, id);
      if id in before {
        assert id in OwnedBy(before, owner).Keys;
        assert Settled(n.store.leases, id, desired);
      }
    }
  }
}
