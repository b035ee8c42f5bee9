/** Concurrent mounts, unmounts, rollbacks and garbage collection over one metadata store,
    as a state machine whose steps are single store transactions or kernel actions. */
module MountProtocol {
  import opened Wrappers
  import opened RefStore
  import opened Sums

  /** A mounted image: its cache key names both the record and the mount point. */
  datatype Mount = Mount(key: string, layers: seq<string>, chains: seq<string>)

  function LayerRefs(layers: seq<string>): multiset<Ref> {
    if layers == [] then multiset{}
    else LayerRefs(layers[..|layers| - 1]) + multiset{LayerRef(layers[|layers| - 1])}
  }

  function ChainRefs(chains: seq<string>): multiset<Ref> {
    if chains == [] then multiset{}
    else ChainRefs(chains[..|chains| - 1]) + multiset{ChainRef(chains[|chains| - 1])}
  }

  /** Every layer and chain of a mount, as often as it occurs. */
  function RefsOf(m: Mount): multiset<Ref> {
    LayerRefs(m.layers) + ChainRefs(m.chains)
  }

  datatype Stage =
    | Extracting(jobs: multiset<Ref>, failed: bool)  // jobs not yet answered by a worker
    | Chaining(next: nat)                            // chains before next are reserved
    | TxnWritten
    | KernelMounted
    | Recorded                                       // record written, transaction still there
    | RollingBack(txn: bool)                         // whether a transaction may have been written
    | Unmounting                                     // kernel mount gone, record still there
    | Releasing                                      // record gone, references not all released

  /** One mount or unmount in flight, with the references it holds. */
  datatype Op = Op(mount: Mount, stage: Stage, refs: multiset<Ref>)

  /** Work under the lock of one layer or chain. */
  datatype Work =
    | Extract(op: nat, facts: bool, published: bool)
    | Build(op: nat, seen: Option<Record>, placed: bool)

  datatype State = State(
    table: Table,
    content: set<Ref>,             // published directories
    mounts: map<string, Mount>,
    txns: map<string, Mount>,
    kernel: set<string>,
    ops: map<nat, Op>,
    busy: map<Ref, Work>,
    now: int,
    positiveAt: map<Ref, int>)     // when each reference was last seen counted, for the proofs

  // ---------------------------------------------------------------------------
  // References held
  // ---------------------------------------------------------------------------

  function MountCounts(mounts: map<string, Mount>, ref: Ref): map<string, nat> {
    map k | k in mounts :: RefsOf(mounts[k])[ref]
  }

  function OpCounts(ops: map<nat, Op>, ref: Ref): map<nat, nat> {
    map o | o in ops :: ops[o].refs[ref]
  }

  ghost function Recorded'(mounts: map<string, Mount>, ref: Ref): nat {
    Sum(MountCounts(mounts, ref))
  }

  ghost function Reserved(ops: map<nat, Op>, ref: Ref): nat {
    Sum(OpCounts(ops, ref))
  }

  /** Occurrences in mount records plus outstanding reservations. */
  ghost function Held(s: State, ref: Ref): nat {
    Recorded'(s.mounts, ref) + Reserved(s.ops, ref)
  }

  // ---------------------------------------------------------------------------
  // Steps
  // ---------------------------------------------------------------------------

  /** Workers extracting the layers of a mount, in any order. */
  datatype LayerStep =
    | LayerHit(o: nat, ref: Ref)
    | BeginExtract(o: nat, ref: Ref)
    | PutFacts(ref: Ref)
    | Publish(ref: Ref)
    | ReserveLayer(ref: Ref)
    | JobFails(o: nat, ref: Ref, holding: bool)
    | FinishExtract(o: nat)

  /** Building the lower directories of a mount, oldest first. */
  datatype ChainStep =
    | ChainHit(o: nat)
    | BeginChain(o: nat)
    | PlaceChain(ref: Ref)
    | ReserveChain(ref: Ref)

  datatype MountStep =
    | BeginMount(o: nat, m: Mount)
    | WriteTxn(o: nat)
    | KernelMount(o: nat)
    | PutRecord(o: nat)
    | DeleteTxn(o: nat, stored: bool)
    | Fail(o: nat, txn: bool)

  /** Rolling back a mount and unmounting. */
  datatype ReleaseStep =
    | RollbackUnmount(o: nat)
    | ReleaseRef(o: nat, ref: Ref)
    | FinishRollback(o: nat)
    | BeginUnmount(o: nat, key: string)
    | DeleteRecord(o: nat)
    | UnmountFails(o: nat)
    | FinishUnmount(o: nat)

  datatype Step =
    | Tick(later: int)
    | OnLayer(layer: LayerStep)
    | OnChain(chain: ChainStep)
    | OnMount(mount: MountStep)
    | OnRelease(release: ReleaseStep)
    | Collect(ref: Ref, gcNow: int, ttl: int, requireExpiry: bool, contentGone: bool, recordGone: bool)

  predicate KeyFree(s: State, key: string) {
    forall o | o in s.ops :: s.ops[o].mount.key != key
  }

  function NextChain(op: Op): Ref
    requires op.stage.Chaining? && op.stage.next < |op.mount.chains|
  {
    ChainRef(op.mount.chains[op.stage.next])
  }

  predicate AtStage(s: State, o: nat, stage: Stage) {
    o in s.ops && s.ops[o].stage == stage
  }

  predicate WantsLayer(s: State, o: nat, ref: Ref) {
    o in s.ops && s.ops[o].stage.Extracting? && ref in s.ops[o].stage.jobs
  }

  predicate WantsChain(s: State, o: nat) {
    o in s.ops && s.ops[o].stage.Chaining? && s.ops[o].stage.next < |s.ops[o].mount.chains|
  }

  predicate LayerEnabled(s: State, step: LayerStep) {
    match step
    // A recorded, published layer is reserved at once.
    case LayerHit(o, ref) => WantsLayer(s, o, ref) && ref !in s.busy && ref in s.table && ref in s.content
    // A layer without content is extracted, unless its record is still referenced.
    case BeginExtract(o, ref) =>
      WantsLayer(s, o, ref) && ref !in s.busy && ref !in s.content && (ref in s.table ==> s.table[ref].refCount == 0)
    case PutFacts(ref) => ref in s.busy && s.busy[ref].Extract? && !s.busy[ref].facts
    case Publish(ref) => ref in s.busy && s.busy[ref].Extract? && s.busy[ref].facts && !s.busy[ref].published
    case ReserveLayer(ref) =>
      ref in s.busy && s.busy[ref].Extract? && s.busy[ref].published && ref in s.table && s.busy[ref].op in s.ops
    // A worker gives up, under the layer's lock or before it got there.
    case JobFails(o, ref, holding) =>
      WantsLayer(s, o, ref) &&
      var mine := ref in s.busy && s.busy[ref].op == o;
      if holding then mine else s.ops[o].stage.jobs[ref] > (if mine then 1 else 0)
    case FinishExtract(o) => o in s.ops && s.ops[o].stage.Extracting? && s.ops[o].stage.jobs == multiset{}
  }

  predicate ChainEnabled(s: State, step: ChainStep) {
    match step
    case ChainHit(o) => WantsChain(s, o) && var ref := NextChain(s.ops[o]); ref !in s.busy && ref in s.table && ref in s.content
    case BeginChain(o) => WantsChain(s, o) && var ref := NextChain(s.ops[o]); ref !in s.busy && !(ref in s.table && ref in s.content)
    case PlaceChain(ref) => ref in s.busy && s.busy[ref].Build? && !s.busy[ref].placed
    case ReserveChain(ref) => ref in s.busy && s.busy[ref].Build? && s.busy[ref].placed && s.busy[ref].op in s.ops
  }

  predicate MountEnabled(s: State, step: MountStep) {
    match step
    case BeginMount(o, m) => o !in s.ops && KeyFree(s, m.key) && m.key !in s.mounts && m.layers != []
    case WriteTxn(o) => o in s.ops && s.ops[o].stage.Chaining? && s.ops[o].stage.next == |s.ops[o].mount.chains|
    case KernelMount(o) => AtStage(s, o, TxnWritten)
    case PutRecord(o) => AtStage(s, o, KernelMounted)
    case DeleteTxn(o, _) => AtStage(s, o, Recorded)
    case Fail(o, txn) =>
      o in s.ops &&
      (match s.ops[o].stage
       case Chaining(next) => txn ==> next == |s.ops[o].mount.chains|
       case TxnWritten => txn
       case KernelMounted => txn
       case _ => false)
  }

  predicate ReleaseEnabled(s: State, step: ReleaseStep) {
    match step
    case RollbackUnmount(o) => AtStage(s, o, RollingBack(true))
    case ReleaseRef(o, ref) =>
      o in s.ops && (s.ops[o].stage.RollingBack? || s.ops[o].stage.Releasing?) && ref in s.ops[o].refs
    case FinishRollback(o) => o in s.ops && s.ops[o].stage.RollingBack? && s.ops[o].refs == multiset{}
    case BeginUnmount(o, key) => o !in s.ops && KeyFree(s, key) && key in s.mounts
    case DeleteRecord(o) => AtStage(s, o, Unmounting)
    case UnmountFails(o) => AtStage(s, o, Unmounting)
    case FinishUnmount(o) => AtStage(s, o, Releasing) && s.ops[o].refs == multiset{}
  }

  predicate Enabled(s: State, step: Step) {
    match step
    case Tick(later) => s.now <= later
    case OnLayer(l) => LayerEnabled(s, l)
    case OnChain(c) => ChainEnabled(s, c)
    case OnMount(m) => MountEnabled(s, m)
    case OnRelease(r) => ReleaseEnabled(s, r)
    case Collect(ref, gcNow, ttl, requireExpiry, _, _) =>
      ref !in s.busy && gcNow <= s.now && Collectable(s.table, ref, gcNow, ttl, requireExpiry)
  }

  function WithOp(s: State, o: nat, op: Op): State {
    s.(ops := s.ops[o := op])
  }

  function WithoutOp(s: State, o: nat): State {
    s.(ops := s.ops - {o})
  }

  /** The operation o answers the job for ref. */
  function JobDone(op: Op, ref: Ref, reserved: bool): Op {
    if op.stage.Extracting? then
      Op(op.mount, Extracting(op.stage.jobs - multiset{ref}, op.stage.failed || !reserved),
         if reserved then op.refs + multiset{ref} else op.refs)
    else op
  }

  function ChainDone(op: Op, ref: Ref): Op {
    if op.stage.Chaining? then Op(op.mount, Chaining(op.stage.next + 1), op.refs + multiset{ref}) else op
  }

  /** Work of an operation that gave up is abandoned with its lock. */
  function Unlocked(busy: map<Ref, Work>, o: nat): map<Ref, Work> {
    map ref | ref in busy && busy[ref].op != o :: busy[ref]
  }

  function LayerMoved(s: State, step: LayerStep): State
    requires LayerEnabled(s, step)
  {
    match step
    case LayerHit(o, ref) =>
      WithOp(s, o, JobDone(s.ops[o], ref, true)).(table := s.table[ref := Incremented(s.table[ref], s.now)])
    case BeginExtract(o, ref) => s.(busy := s.busy[ref := Extract(o, false, false)])
    case PutFacts(ref) =>
      s.(busy := s.busy[ref := Extract(s.busy[ref].op, true, false)],
         table := s.table[ref := Record(0, Unix(s.now), Unix(s.now))])
    case Publish(ref) =>
      s.(busy := s.busy[ref := Extract(s.busy[ref].op, true, true)], content := s.content + {ref})
    case ReserveLayer(ref) =>
      WithOp(s, s.busy[ref].op, JobDone(s.ops[s.busy[ref].op], ref, true))
      .(busy := s.busy - {ref}, table := s.table[ref := Incremented(s.table[ref], s.now)])
    case JobFails(o, ref, holding) =>
      WithOp(s, o, JobDone(s.ops[o], ref, false)).(busy := if holding then s.busy - {ref} else s.busy)
    case FinishExtract(o) =>
      WithOp(s, o, s.ops[o].(stage := if s.ops[o].stage.failed then RollingBack(false) else Chaining(0)))
  }

  function ChainMoved(s: State, step: ChainStep): State
    requires ChainEnabled(s, step)
  {
    match step
    case ChainHit(o) =>
      var ref := NextChain(s.ops[o]);
      WithOp(s, o, ChainDone(s.ops[o], ref)).(table := s.table[ref := Incremented(s.table[ref], s.now)])
    case BeginChain(o) =>
      var ref := NextChain(s.ops[o]);
      var seen := if ref in s.table then Some(s.table[ref]) else None;
      s.(busy := s.busy[ref := Build(o, seen, ref in s.content)])
    case PlaceChain(ref) =>
      s.(busy := s.busy[ref := Build(s.busy[ref].op, s.busy[ref].seen, true)], content := s.content + {ref})
    // The record read under the lock is written back with one more reference.
    case ReserveChain(ref) =>
      var w := s.busy[ref];
      var count := if w.seen.Some? then w.seen.value.refCount + 1 else 1;
      WithOp(s, w.op, ChainDone(s.ops[w.op], ref))
      .(busy := s.busy - {ref}, table := s.table[ref := Record(count, 0, Unix(s.now))])
  }

  function MountMoved(s: State, step: MountStep): State
    requires MountEnabled(s, step)
  {
    match step
    case BeginMount(o, m) => WithOp(s, o, Op(m, Extracting(LayerRefs(m.layers), false), multiset{}))
    case WriteTxn(o) =>
      WithOp(s, o, s.ops[o].(stage := TxnWritten)).(txns := s.txns[s.ops[o].mount.key := s.ops[o].mount])
    case KernelMount(o) =>
      WithOp(s, o, s.ops[o].(stage := KernelMounted)).(kernel := s.kernel + {s.ops[o].mount.key})
    case PutRecord(o) =>
      WithOp(s, o, Op(s.ops[o].mount, Recorded, multiset{})).(mounts := s.mounts[s.ops[o].mount.key := s.ops[o].mount])
    case DeleteTxn(o, stored) => WithoutOp(s, o).(txns := if stored then s.txns - {s.ops[o].mount.key} else s.txns)
    case Fail(o, txn) => WithOp(s, o, s.ops[o].(stage := RollingBack(txn))).(busy := Unlocked(s.busy, o))
  }

  function ReleaseMoved(s: State, step: ReleaseStep): State
    requires ReleaseEnabled(s, step)
  {
    match step
    case RollbackUnmount(o) => s.(kernel := s.kernel - {s.ops[o].mount.key})
    case ReleaseRef(o, ref) =>
      WithOp(s, o, s.ops[o].(refs := s.ops[o].refs - multiset{ref}))
      .(table := if ref in s.table then s.table[ref := Decremented(s.table[ref], s.now)] else s.table)
    case FinishRollback(o) =>
      WithoutOp(s, o).(txns := if s.ops[o].stage.txn then s.txns - {s.ops[o].mount.key} else s.txns)
    case BeginUnmount(o, key) =>
      WithOp(s, o, Op(s.mounts[key], Unmounting, multiset{})).(kernel := s.kernel - {key})
    case DeleteRecord(o) =>
      WithOp(s, o, Op(s.ops[o].mount, Releasing, RefsOf(s.ops[o].mount))).(mounts := s.mounts - {s.ops[o].mount.key})
    case UnmountFails(o) => WithoutOp(s, o)
    case FinishUnmount(o) => WithoutOp(s, o)
  }

  function Moved(s: State, step: Step): State
    requires Enabled(s, step)
  {
    match step
    case Tick(later) => s.(now := later)
    case OnLayer(l) => LayerMoved(s, l)
    case OnChain(c) => ChainMoved(s, c)
    case OnMount(m) => MountMoved(s, m)
    case OnRelease(r) => ReleaseMoved(s, r)
    case Collect(ref, _, _, _, contentGone, recordGone) =>
      s.(content := if contentGone then s.content - {ref} else s.content,
         table := if recordGone then s.table - {ref} else s.table)
  }

  /** Notes which references are counted now. */
  function Observed(s: State): State {
    s.(positiveAt := map ref | ref in s.positiveAt.Keys + s.table.Keys
                              && (ref in s.positiveAt || s.table[ref].refCount > 0) ::
                       if ref in s.table && s.table[ref].refCount > 0 then s.now else s.positiveAt[ref])
  }

  function Next(s: State, step: Step): State
    requires Enabled(s, step)
  {
    Observed(Moved(s, step))
  }

  // ---------------------------------------------------------------------------
  // The invariant
  // ---------------------------------------------------------------------------

  /** Each reference count is its occurrences in records plus outstanding reservations. */
  ghost predicate CountsExact(s: State) {
    forall ref | ref in s.table :: s.table[ref].refCount == Held(s, ref)
  }

  /** Whatever is held has its record and its content. */
  ghost predicate HeldPresent(s: State) {
    forall ref :: Held(s, ref) > 0 ==> ref in s.table && ref in s.content
  }

  ghost predicate ZeroStamps(s: State) {
    forall ref | ref in s.table :: ZeroMarked(s.table[ref])
  }

  /** Work under a lock belongs to an operation that waits for it, and nothing refers to
      the record it is about to write. */
  predicate WorkFits(s: State, ref: Ref, w: Work) {
    && (ref in s.table ==> s.table[ref].refCount == 0)
    && match w
       case Extract(o, facts, published) =>
         WantsLayer(s, o, ref) && (facts ==> ref in s.table) && (published <==> ref in s.content)
         && (published ==> facts)
       case Build(o, seen, placed) =>
         WantsChain(s, o) && NextChain(s.ops[o]) == ref && (placed <==> ref in s.content)
         && seen == (if ref in s.table then Some(s.table[ref]) else None)
  }

  ghost predicate WorkOk(s: State) {
    forall ref | ref in s.busy :: WorkFits(s, ref, s.busy[ref])
  }

  predicate OpFits(op: Op, mounts: map<string, Mount>) {
    match op.stage
    case Extracting(jobs, failed) => op.mount.key !in mounts && (!failed ==> op.refs + jobs == LayerRefs(op.mount.layers))
                                     && jobs <= LayerRefs(op.mount.layers)
    case Chaining(next) =>
      op.mount.key !in mounts && next <= |op.mount.chains|
      && op.refs == LayerRefs(op.mount.layers) + ChainRefs(op.mount.chains[..next])
    case TxnWritten => op.mount.key !in mounts && op.refs == RefsOf(op.mount)
    case KernelMounted => op.mount.key !in mounts && op.refs == RefsOf(op.mount)
    case Recorded => op.mount.key in mounts && op.refs == multiset{}
    case RollingBack(_) => op.mount.key !in mounts
    case Unmounting => op.mount.key in mounts && mounts[op.mount.key] == op.mount && op.refs == multiset{}
    case Releasing => op.mount.key !in mounts
  }

  ghost predicate OpsOk(s: State) {
    && (forall o | o in s.ops :: OpFits(s.ops[o], s.mounts))
    && (forall o, p | o in s.ops && p in s.ops && o != p :: s.ops[o].mount.key != s.ops[p].mount.key)
    && (forall k | k in s.mounts :: s.mounts[k].key == k)
  }

  /** A zero stamp is never more than a second older than the last time the record was counted. */
  ghost predicate TimesOk(s: State) {
    && s.now >= SECOND
    && (forall ref | ref in s.positiveAt :: s.positiveAt[ref] <= s.now)
    && (forall ref | ref in s.table && s.table[ref].refCount == 0 && ref in s.positiveAt ::
          s.positiveAt[ref] < (s.table[ref].refZeroAt + 1) * SECOND)
  }

  ghost predicate RefInv(s: State) {
    CountsExact(s) && HeldPresent(s) && ZeroStamps(s)
  }

  ghost predicate Inv(s: State) {
    RefInv(s) && WorkOk(s) && OpsOk(s) && TimesOk(s)
  }

  // ---------------------------------------------------------------------------
  // Held references under single changes
  // ---------------------------------------------------------------------------

  lemma ReservedPut(ops: map<nat, Op>, o: nat, op: Op, ref: Ref)
    ensures Reserved(ops[o := op], ref) + (if o in ops then ops[o].refs[ref] else 0) == Reserved(ops, ref) + op.refs[ref]
  {
    assert OpCounts(ops[o := op], ref) == OpCounts(ops, ref)[o := op.refs[ref]];
    SumPut(OpCounts(ops, ref), o, op.refs[ref]);
  }

  lemma ReservedDrop(ops: map<nat, Op>, o: nat, ref: Ref)
    ensures Reserved(ops - {o}, ref) + (if o in ops then ops[o].refs[ref] else 0) == Reserved(ops, ref)
  {
    assert OpCounts(ops - {o}, ref) == OpCounts(ops, ref) - {o};
    SumDrop(OpCounts(ops, ref), o);
  }

  lemma MountCountsPut(mounts: map<string, Mount>, k: string, m: Mount, ref: Ref)
    ensures MountCounts(mounts[k := m], ref) == MountCounts(mounts, ref)[k := RefsOf(m)[ref]]
  {
  }

  lemma MountCountsDrop(mounts: map<string, Mount>, k: string, ref: Ref)
    ensures MountCounts(mounts - {k}, ref) == MountCounts(mounts, ref) - {k}
  {
  }

  lemma RecordedPut(mounts: map<string, Mount>, k: string, m: Mount, ref: Ref)
    ensures Recorded'(mounts[k := m], ref) + (if k in mounts then RefsOf(mounts[k])[ref] else 0) ==
            Recorded'(mounts, ref) + RefsOf(m)[ref]
  {
    MountCountsPut(mounts, k, m, ref);
    SumPut(MountCounts(mounts, ref), k, RefsOf(m)[ref]);
  }

  lemma RecordedDrop(mounts: map<string, Mount>, k: string, ref: Ref)
    ensures Recorded'(mounts - {k}, ref) + (if k in mounts then RefsOf(mounts[k])[ref] else 0) == Recorded'(mounts, ref)
  {
    MountCountsDrop(mounts, k, ref);
    SumDrop(MountCounts(mounts, ref), k);
  }

  lemma HeldByOp(s: State, o: nat, ref: Ref)
    requires o in s.ops
    ensures Held(s, ref) >= s.ops[o].refs[ref]
  {
    SumAtLeast(OpCounts(s.ops, ref), o);
  }

  lemma HeldByRecord(s: State, k: string, ref: Ref)
    requires k in s.mounts
    ensures Held(s, ref) >= RefsOf(s.mounts[k])[ref]
  {
    SumAtLeast(MountCounts(s.mounts, ref), k);
  }

  // ---------------------------------------------------------------------------
  // Counts
  // ---------------------------------------------------------------------------

  /** Nothing changes hands. */
  lemma RefFrame(s: State, t: State)
    requires RefInv(s) && t.table == s.table && s.content <= t.content
    requires forall ref :: Held(t, ref) == Held(s, ref)
    ensures RefInv(t)
  {
  }

  lemma SameRefsOp(s: State, o: nat, op: Op, t: State)
    requires RefInv(s) && (if o in s.ops then s.ops[o].refs == op.refs else op.refs == multiset{})
    requires t.table == s.table && s.content <= t.content && t.ops == s.ops[o := op] && t.mounts == s.mounts
    ensures RefInv(t)
  {
    forall ref ensures Held(t, ref) == Held(s, ref) {
      ReservedPut(s.ops, o, op, ref);
    }
    RefFrame(s, t);
  }

  lemma EmptyOpGone(s: State, o: nat, t: State)
    requires RefInv(s) && o in s.ops && s.ops[o].refs == multiset{}
    requires t.table == s.table && s.content <= t.content && t.ops == s.ops - {o} && t.mounts == s.mounts
    ensures RefInv(t)
  {
    forall ref ensures Held(t, ref) == Held(s, ref) {
      ReservedDrop(s.ops, o, ref);
    }
    RefFrame(s, t);
  }

  /** An operation takes one more reference to something present. */
  lemma OneMore(s: State, o: nat, op: Op, ref: Ref, rec: Record, t: State)
    requires RefInv(s) && o in s.ops && op.refs == s.ops[o].refs + multiset{ref}
    requires ref in t.content && s.content <= t.content
    requires rec.refCount == Held(s, ref) + 1 && rec.refZeroAt == 0
    requires t.table == s.table[ref := rec] && t.ops == s.ops[o := op] && t.mounts == s.mounts
    ensures RefInv(t)
  {
    HeldOneMore(s, o, op, ref, t);
  }

  lemma HeldOneMore(s: State, o: nat, op: Op, ref: Ref, t: State)
    requires o in s.ops && op.refs == s.ops[o].refs + multiset{ref} && t.ops == s.ops[o := op] && t.mounts == s.mounts
    ensures forall r :: Held(t, r) == Held(s, r) + if r == ref then 1 else 0
  {
    forall r ensures Held(t, r) == Held(s, r) + if r == ref then 1 else 0 {
      ReservedPut(s.ops, o, op, r);
    }
  }

  lemma HeldOneLess(s: State, o: nat, op: Op, ref: Ref, t: State)
    requires o in s.ops && ref in s.ops[o].refs && op.refs == s.ops[o].refs - multiset{ref}
    requires t.ops == s.ops[o := op] && t.mounts == s.mounts
    ensures HeldLess(s, t, ref)
  {
    forall r ensures Held(t, r) == Held(s, r) - if r == ref then 1 else 0 {
      ReservedPut(s.ops, o, op, r);
    }
  }

  lemma OneLess(s: State, o: nat, op: Op, ref: Ref, rec: Record, t: State)
    requires RefInv(s) && o in s.ops && ref in s.ops[o].refs && op.refs == s.ops[o].refs - multiset{ref}
    requires ref in s.table && t.content == s.content
    requires rec.refCount == s.table[ref].refCount - 1 && ZeroMarked(rec)
    requires t.table == s.table[ref := rec] && t.ops == s.ops[o := op] && t.mounts == s.mounts
    ensures RefInv(t)
  {
    HeldOneLess(s, o, op, ref, t);
    CountOneLess(s, ref, rec, t);
    PresentOneLess(s, ref, t);
    StampedOne(s, ref, rec, t);
  }

  /** One reference to `ref` fewer is held, and nothing else changes. */
  ghost predicate HeldLess(s: State, t: State, ref: Ref) {
    forall r :: Held(t, r) == Held(s, r) - if r == ref then 1 else 0
  }

  lemma CountOneLess(s: State, ref: Ref, rec: Record, t: State)
    requires CountsExact(s) && ref in s.table && t.table == s.table[ref := rec] && rec.refCount == s.table[ref].refCount - 1
    requires HeldLess(s, t, ref)
    ensures CountsExact(t)
  {
  }

  lemma PresentOneLess(s: State, ref: Ref, t: State)
    requires HeldPresent(s) && t.table.Keys == s.table.Keys && t.content == s.content && HeldLess(s, t, ref)
    ensures HeldPresent(t)
  {
    assert forall r :: Held(t, r) <= Held(s, r);
  }

  lemma StampedOne(s: State, ref: Ref, rec: Record, t: State)
    requires ZeroStamps(s) && t.table == s.table[ref := rec] && ZeroMarked(rec)
    ensures ZeroStamps(t)
  {
  }

  /** A decrement always finds its record counted: the zero guard is never hit. */
  lemma DecrementNeverAtZero(s: State, o: nat, ref: Ref)
    requires RefInv(s) && o in s.ops && ref in s.ops[o].refs
    ensures ref in s.table && s.table[ref].refCount > 0
  {
    HeldByOp(s, o, ref);
  }

  lemma HandedToRecord(s: State, o: nat, op: Op, t: State)
    requires RefInv(s) && o in s.ops && s.ops[o].refs == RefsOf(op.mount) && op.refs == multiset{}
    requires op.mount.key !in s.mounts && t.mounts == s.mounts[op.mount.key := op.mount]
    requires t.table == s.table && t.content == s.content && t.ops == s.ops[o := op]
    ensures RefInv(t)
  {
    forall ref ensures Held(t, ref) == Held(s, ref) {
      ReservedPut(s.ops, o, op, ref);
      RecordedPut(s.mounts, op.mount.key, op.mount, ref);
    }
    RefFrame(s, t);
  }

  lemma HandedBack(s: State, o: nat, op: Op, t: State)
    requires RefInv(s) && o in s.ops && s.ops[o].refs == multiset{} && op.refs == RefsOf(op.mount)
    requires op.mount.key in s.mounts && s.mounts[op.mount.key] == op.mount && t.mounts == s.mounts - {op.mount.key}
    requires t.table == s.table && t.content == s.content && t.ops == s.ops[o := op]
    ensures RefInv(t)
  {
    forall ref ensures Held(t, ref) == Held(s, ref) {
      ReservedPut(s.ops, o, op, ref);
      RecordedDrop(s.mounts, op.mount.key, ref);
    }
    RefFrame(s, t);
  }

  lemma FreshFacts(s: State, ref: Ref, t: State)
    requires RefInv(s) && Unix(s.now) != 0 && ref !in s.content
    requires t.table == s.table[ref := Record(0, Unix(s.now), Unix(s.now))]
    requires t.content == s.content && t.ops == s.ops && t.mounts == s.mounts
    ensures RefInv(t)
  {
    assert Held(s, ref) == 0;
    forall r ensures Held(t, r) == Held(s, r) {
    }
  }

  /** Collection takes only what nothing holds. */
  lemma CollectedWasFree(s: State, ref: Ref, gcNow: int, ttl: int, requireExpiry: bool)
    requires RefInv(s) && Collectable(s.table, ref, gcNow, ttl, requireExpiry)
    ensures Held(s, ref) == 0
    ensures forall o | o in s.ops :: ref !in s.ops[o].refs
    ensures forall k | k in s.mounts :: ref !in RefsOf(s.mounts[k])
  {
    forall o | o in s.ops ensures ref !in s.ops[o].refs { HeldByOp(s, o, ref); }
    forall k | k in s.mounts ensures ref !in RefsOf(s.mounts[k]) { HeldByRecord(s, k, ref); }
  }

  lemma Collected(s: State, ref: Ref, t: State)
    requires RefInv(s) && Held(s, ref) == 0
    requires t.table == s.table || t.table == s.table - {ref}
    requires t.content == s.content || t.content == s.content - {ref}
    requires t.ops == s.ops && t.mounts == s.mounts
    ensures RefInv(t)
  {
    forall r ensures Held(t, r) == Held(s, r) {
    }
  }

  // ---------------------------------------------------------------------------
  // Every step keeps the counts exact
  // ---------------------------------------------------------------------------

  ghost predicate Core(s: State) {
    RefInv(s) && WorkOk(s) && OpsOk(s) && Unix(s.now) != 0
  }

  lemma LayerKeepsRefs(s: State, step: LayerStep)
    requires RefInv(s) && WorkOk(s) && Unix(s.now) != 0 && LayerEnabled(s, step)
    ensures RefInv(LayerMoved(s, step))
  {
    var t := LayerMoved(s, step);
    match step
    case LayerHit(o, ref) => OneMore(s, o, t.ops[o], ref, t.table[ref], t);
    case BeginExtract(_, _) => RefFrame(s, t);
    case PutFacts(ref) => assert WorkFits(s, ref, s.busy[ref]); FreshFacts(s, ref, t);
    case Publish(_) => RefFrame(s, t);
    case ReserveLayer(ref) =>
      assert WorkFits(s, ref, s.busy[ref]);
      OneMore(s, s.busy[ref].op, t.ops[s.busy[ref].op], ref, t.table[ref], t);
    case JobFails(o, _, _) => SameRefsOp(s, o, t.ops[o], t);
    case FinishExtract(o) => SameRefsOp(s, o, t.ops[o], t);
  }

  lemma ChainKeepsRefs(s: State, step: ChainStep)
    requires RefInv(s) && WorkOk(s) && Unix(s.now) != 0 && ChainEnabled(s, step)
    ensures RefInv(ChainMoved(s, step))
  {
    var t := ChainMoved(s, step);
    match step
    case ChainHit(o) =>
      var ref := NextChain(s.ops[o]);
      OneMore(s, o, t.ops[o], ref, t.table[ref], t);
    case BeginChain(_) => RefFrame(s, t);
    case PlaceChain(_) => RefFrame(s, t);
    case ReserveChain(ref) =>
      assert WorkFits(s, ref, s.busy[ref]);
      OneMore(s, s.busy[ref].op, t.ops[s.busy[ref].op], ref, t.table[ref], t);
  }

  lemma MountKeepsRefs(s: State, step: MountStep)
    requires RefInv(s) && OpsOk(s) && MountEnabled(s, step)
    ensures RefInv(MountMoved(s, step))
  {
    var t := MountMoved(s, step);
    match step
    case BeginMount(o, _) => SameRefsOp(s, o, t.ops[o], t);
    case WriteTxn(o) => SameRefsOp(s, o, t.ops[o], t);
    case KernelMount(o) => SameRefsOp(s, o, t.ops[o], t);
    case PutRecord(o) => assert OpFits(s.ops[o], s.mounts); HandedToRecord(s, o, t.ops[o], t);
    case DeleteTxn(o, _) => assert OpFits(s.ops[o], s.mounts); EmptyOpGone(s, o, t);
    case Fail(o, _) => SameRefsOp(s, o, t.ops[o], t);
  }

  lemma ReleaseKeepsRefs(s: State, step: ReleaseStep)
    requires RefInv(s) && OpsOk(s) && Unix(s.now) != 0 && ReleaseEnabled(s, step)
    ensures RefInv(ReleaseMoved(s, step))
  {
    var t := ReleaseMoved(s, step);
    match step
    case RollbackUnmount(_) => RefFrame(s, t);
    case ReleaseRef(o, ref) =>
      DecrementNeverAtZero(s, o, ref);
      assert ZeroMarked(s.table[ref]);
      OneLess(s, o, t.ops[o], ref, t.table[ref], t);
    case FinishRollback(o) => EmptyOpGone(s, o, t);
    case BeginUnmount(o, _) => SameRefsOp(s, o, t.ops[o], t);
    case DeleteRecord(o) => assert OpFits(s.ops[o], s.mounts); HandedBack(s, o, t.ops[o], t);
    case UnmountFails(o) => assert OpFits(s.ops[o], s.mounts); EmptyOpGone(s, o, t);
    case FinishUnmount(o) => EmptyOpGone(s, o, t);
  }

  // ---------------------------------------------------------------------------
  // Every step leaves the operations where their stage says
  // ---------------------------------------------------------------------------

  lemma OpChanged(s: State, o: nat, op: Op, t: State)
    requires OpsOk(s) && t.ops == s.ops[o := op] && t.mounts == s.mounts && OpFits(op, s.mounts)
    requires if o in s.ops then op.mount.key == s.ops[o].mount.key else KeyFree(s, op.mount.key)
    ensures OpsOk(t)
  {
  }

  lemma OpGone(s: State, o: nat, t: State)
    requires OpsOk(s) && t.ops == s.ops - {o} && t.mounts == s.mounts
    ensures OpsOk(t)
  {
  }

  lemma JobDoneFits(op: Op, mounts: map<string, Mount>, ref: Ref, reserved: bool)
    requires OpFits(op, mounts) && op.stage.Extracting? && ref in op.stage.jobs
    ensures OpFits(JobDone(op, ref, reserved), mounts)
  {
    var jobs := op.stage.jobs;
    assert jobs == jobs - multiset{ref} + multiset{ref};
    assert op.refs + jobs == op.refs + multiset{ref} + (jobs - multiset{ref});
  }

  lemma LayerKeepsOps(s: State, step: LayerStep)
    requires WorkOk(s) && OpsOk(s) && LayerEnabled(s, step)
    ensures OpsOk(LayerMoved(s, step))
  {
    var t := LayerMoved(s, step);
    match step
    case LayerHit(o, ref) => JobDoneFits(s.ops[o], s.mounts, ref, true); OpChanged(s, o, t.ops[o], t);
    case ReserveLayer(ref) =>
      assert WorkFits(s, ref, s.busy[ref]);
      JobDoneFits(s.ops[s.busy[ref].op], s.mounts, ref, true);
      OpChanged(s, s.busy[ref].op, t.ops[s.busy[ref].op], t);
    case JobFails(o, ref, _) => JobDoneFits(s.ops[o], s.mounts, ref, false); OpChanged(s, o, t.ops[o], t);
    case FinishExtract(o) =>
      assert OpFits(s.ops[o], s.mounts);
      assert s.ops[o].mount.chains[..0] == [];
      OpChanged(s, o, t.ops[o], t);
    case _ =>
  }

  lemma ChainRefsNext(chains: seq<string>, n: nat)
    requires n < |chains|
    ensures ChainRefs(chains[..n + 1]) == ChainRefs(chains[..n]) + multiset{ChainRef(chains[n])}
  {
    assert chains[..n + 1][..n] == chains[..n];
  }

  lemma ChainKeepsOps(s: State, step: ChainStep)
    requires WorkOk(s) && OpsOk(s) && ChainEnabled(s, step)
    ensures OpsOk(ChainMoved(s, step))
  {
    var t := ChainMoved(s, step);
    match step
    case ChainHit(o) =>
      ChainDoneFits(s.ops[o], s.mounts);
      OpChanged(s, o, t.ops[o], t);
    case ReserveChain(ref) =>
      assert WorkFits(s, ref, s.busy[ref]);
      var o := s.busy[ref].op;
      ChainDoneFits(s.ops[o], s.mounts);
      OpChanged(s, o, t.ops[o], t);
    case _ =>
  }

  lemma ChainDoneFits(op: Op, mounts: map<string, Mount>)
    requires op.stage.Chaining? && op.stage.next < |op.mount.chains| && OpFits(op, mounts)
    ensures OpFits(ChainDone(op, NextChain(op)), mounts)
  {
    ChainRefsNext(op.mount.chains, op.stage.next);
  }

  lemma MountKeepsOps(s: State, step: MountStep)
    requires OpsOk(s) && MountEnabled(s, step)
    ensures OpsOk(MountMoved(s, step))
  {
    var t := MountMoved(s, step);
    match step
    case BeginMount(o, m) => OpChanged(s, o, t.ops[o], t);
    case WriteTxn(o) =>
      assert OpFits(s.ops[o], s.mounts);
      assert s.ops[o].mount.chains[..|s.ops[o].mount.chains|] == s.ops[o].mount.chains;
      OpChanged(s, o, t.ops[o], t);
    case KernelMount(o) => assert OpFits(s.ops[o], s.mounts); OpChanged(s, o, t.ops[o], t);
    case PutRecord(o) => RecordChange(s, o, t.ops[o], t);
    case DeleteTxn(o, _) => OpGone(s, o, t);
    case Fail(o, _) => assert OpFits(s.ops[o], s.mounts); OpChanged(s, o, t.ops[o], t);
  }

  /** Only the operation on a key changes that key's record. */
  lemma RecordChange(s: State, o: nat, op: Op, t: State)
    requires OpsOk(s) && o in s.ops && t.ops == s.ops[o := op] && op.mount == s.ops[o].mount && OpFits(op, t.mounts)
    requires t.mounts == s.mounts[op.mount.key := op.mount] || t.mounts == s.mounts - {op.mount.key}
    ensures OpsOk(t)
  {
    forall p | p in t.ops ensures OpFits(t.ops[p], t.mounts) {
      if p != o {
        assert OpFits(s.ops[p], s.mounts) && s.ops[p].mount.key != op.mount.key;
      }
    }
  }

  lemma ReleaseKeepsOps(s: State, step: ReleaseStep)
    requires OpsOk(s) && ReleaseEnabled(s, step)
    ensures OpsOk(ReleaseMoved(s, step))
  {
    var t := ReleaseMoved(s, step);
    match step
    case RollbackUnmount(_) =>
    case ReleaseRef(o, _) => assert OpFits(s.ops[o], s.mounts); OpChanged(s, o, t.ops[o], t);
    case FinishRollback(o) => OpGone(s, o, t);
    case BeginUnmount(o, key) => OpChanged(s, o, t.ops[o], t);
    case DeleteRecord(o) => assert OpFits(s.ops[o], s.mounts); RecordChange(s, o, t.ops[o], t);
    case UnmountFails(o) => OpGone(s, o, t);
    case FinishUnmount(o) => OpGone(s, o, t);
  }

  // ---------------------------------------------------------------------------
  // Work under locks stays undisturbed
  // ---------------------------------------------------------------------------

  /** Work is undisturbed when its record, its content and its operation are. */
  lemma WorkUndisturbed(s: State, t: State, ref: Ref)
    requires ref in s.busy && WorkFits(s, ref, s.busy[ref]) && ref in t.busy && t.busy[ref] == s.busy[ref]
    requires (ref in t.table <==> ref in s.table) && (ref in s.table ==> t.table[ref] == s.table[ref])
    requires ref in t.content <==> ref in s.content
    requires var o := s.busy[ref].op;
             o in t.ops && (t.ops[o] == s.ops[o] || (s.busy[ref].Extract? && WantsLayer(t, o, ref)))
    ensures WorkFits(t, ref, t.busy[ref])
  {
  }

  lemma StartKeepsWorkAt(s: State, step: LayerStep, ref: Ref)
    requires (step.BeginExtract? || step.FinishExtract? || step.PutFacts? || step.Publish?)
    requires WorkOk(s) && LayerEnabled(s, step) && ref in LayerMoved(s, step).busy
    ensures var t := LayerMoved(s, step); WorkFits(t, ref, t.busy[ref])
  {
    var t := LayerMoved(s, step);
    if ref in s.busy {
      assert WorkFits(s, ref, s.busy[ref]);
      if t.busy[ref] == s.busy[ref] { WorkUndisturbed(s, t, ref); }
    }
  }

  lemma HitKeepsWorkAt(s: State, step: LayerStep, ref: Ref)
    requires (step.LayerHit? || step.ReserveLayer?)
    requires WorkOk(s) && LayerEnabled(s, step) && ref in LayerMoved(s, step).busy
    ensures var t := LayerMoved(s, step); WorkFits(t, ref, t.busy[ref])
  {
    assert WorkFits(s, ref, s.busy[ref]);
    WorkUndisturbed(s, LayerMoved(s, step), ref);
  }

  lemma FailureKeepsWorkAt(s: State, step: LayerStep, ref: Ref)
    requires step.JobFails? && WorkOk(s) && LayerEnabled(s, step) && ref in LayerMoved(s, step).busy
    ensures var t := LayerMoved(s, step); WorkFits(t, ref, t.busy[ref])
  {
    assert WorkFits(s, ref, s.busy[ref]);
    WorkUndisturbed(s, LayerMoved(s, step), ref);
  }

  lemma LayerKeepsWork(s: State, step: LayerStep)
    requires WorkOk(s) && LayerEnabled(s, step)
    ensures WorkOk(LayerMoved(s, step))
  {
    forall ref | ref in LayerMoved(s, step).busy ensures WorkFits(LayerMoved(s, step), ref, LayerMoved(s, step).busy[ref]) {
      if step.JobFails? {
        FailureKeepsWorkAt(s, step, ref);
      } else if step.LayerHit? || step.ReserveLayer? {
        HitKeepsWorkAt(s, step, ref);
      } else {
        StartKeepsWorkAt(s, step, ref);
      }
    }
  }

  lemma ChainKeepsWork(s: State, step: ChainStep)
    requires WorkOk(s) && RefInv(s) && ChainEnabled(s, step)
    ensures WorkOk(ChainMoved(s, step))
  {
    var t := ChainMoved(s, step);
    if step.BeginChain? { assert Held(s, NextChain(s.ops[step.o])) >= 0; }
    forall ref | ref in t.busy ensures WorkFits(t, ref, t.busy[ref]) {
      if ref in s.busy {
        assert WorkFits(s, ref, s.busy[ref]);
        if t.busy[ref] == s.busy[ref] { WorkUndisturbed(s, t, ref); }
      }
    }
  }

  lemma MountKeepsWork(s: State, step: MountStep)
    requires WorkOk(s) && MountEnabled(s, step)
    ensures WorkOk(MountMoved(s, step))
  {
    var t := MountMoved(s, step);
    forall ref | ref in t.busy ensures WorkFits(t, ref, t.busy[ref]) {
      assert WorkFits(s, ref, s.busy[ref]);
      WorkUndisturbed(s, t, ref);
    }
  }

  lemma ReleaseKeepsWork(s: State, step: ReleaseStep)
    requires WorkOk(s) && RefInv(s) && ReleaseEnabled(s, step)
    ensures WorkOk(ReleaseMoved(s, step))
  {
    if step.ReleaseRef? { DecrementNeverAtZero(s, step.o, step.ref); }
    forall ref | ref in ReleaseMoved(s, step).busy
      ensures WorkFits(ReleaseMoved(s, step), ref, ReleaseMoved(s, step).busy[ref])
    {
      ReleaseKeepsWorkAt(s, step, ref);
    }
  }

  lemma ReleaseKeepsWorkAt(s: State, step: ReleaseStep, ref: Ref)
    requires WorkOk(s) && ReleaseEnabled(s, step) && ref in ReleaseMoved(s, step).busy
    requires step.ReleaseRef? ==> step.ref in s.table && s.table[step.ref].refCount > 0
    ensures WorkFits(ReleaseMoved(s, step), ref, ReleaseMoved(s, step).busy[ref])
  {
    assert WorkFits(s, ref, s.busy[ref]);
    WorkUndisturbed(s, ReleaseMoved(s, step), ref);
  }

  // ---------------------------------------------------------------------------
  // Zero stamps and time
  // ---------------------------------------------------------------------------

  /** Records at zero are old ones untouched or were stamped just now. */
  ghost predicate StampsFresh(s: State, t: State) {
    forall ref | ref in t.table && t.table[ref].refCount == 0 ::
      (ref in s.table && s.table[ref] == t.table[ref]) || t.table[ref].refZeroAt == Unix(s.now)
  }

  lemma LayerStamps(s: State, step: LayerStep)
    requires LayerEnabled(s, step) && ZeroStamps(s)
    ensures StampsFresh(s, LayerMoved(s, step))
  {
  }

  lemma ChainStamps(s: State, step: ChainStep)
    requires ChainEnabled(s, step) && ZeroStamps(s) && WorkOk(s)
    ensures StampsFresh(s, ChainMoved(s, step))
  {
    if step.ReserveChain? { assert WorkFits(s, step.ref, s.busy[step.ref]); }
  }

  lemma ReleaseStamps(s: State, step: ReleaseStep)
    requires ReleaseEnabled(s, step) && RefInv(s)
    ensures StampsFresh(s, ReleaseMoved(s, step))
  {
    if step.ReleaseRef? { DecrementNeverAtZero(s, step.o, step.ref); }
  }

  lemma TimesKept(s: State, t: State)
    requires TimesOk(s) && StampsFresh(s, t) && s.now <= t.now && t.positiveAt == s.positiveAt
    ensures TimesOk(Observed(t))
  {
    var u := Observed(t);
    forall ref | ref in u.table && u.table[ref].refCount == 0 && ref in u.positiveAt
      ensures u.positiveAt[ref] < (u.table[ref].refZeroAt + 1) * SECOND
    {
      assert ref in s.positiveAt && s.positiveAt[ref] <= s.now;
      assert s.now < (Unix(s.now) + 1) * SECOND;
    }
  }

  // ---------------------------------------------------------------------------
  // Every run
  // ---------------------------------------------------------------------------

  lemma ObservedKeeps(t: State)
    requires RefInv(t) && WorkOk(t) && OpsOk(t)
    ensures RefInv(Observed(t)) && WorkOk(Observed(t)) && OpsOk(Observed(t))
  {
    var u := Observed(t);
    forall ref ensures Held(u, ref) == Held(t, ref) {
    }
    forall ref | ref in u.busy ensures WorkFits(u, ref, u.busy[ref]) {
      assert WorkFits(t, ref, t.busy[ref]);
    }
  }

  ghost predicate Kept(s: State, t: State) {
    RefInv(t) && WorkOk(t) && OpsOk(t) && StampsFresh(s, t) && s.now <= t.now && t.positiveAt == s.positiveAt
  }

  lemma LayerKeeps(s: State, step: LayerStep)
    requires Core(s) && LayerEnabled(s, step)
    ensures Kept(s, LayerMoved(s, step))
  {
    LayerKeepsRefs(s, step);
    LayerKeepsWork(s, step);
    LayerKeepsOps(s, step);
    LayerStamps(s, step);
  }

  lemma ChainKeeps(s: State, step: ChainStep)
    requires Core(s) && ChainEnabled(s, step)
    ensures Kept(s, ChainMoved(s, step))
  {
    ChainKeepsRefs(s, step);
    ChainKeepsWork(s, step);
    ChainKeepsOps(s, step);
    ChainStamps(s, step);
  }

  lemma MountKeeps(s: State, step: MountStep)
    requires Core(s) && MountEnabled(s, step)
    ensures Kept(s, MountMoved(s, step))
  {
    MountKeepsRefs(s, step);
    MountKeepsWork(s, step);
    MountKeepsOps(s, step);
  }

  lemma ReleaseKeeps(s: State, step: ReleaseStep)
    requires Core(s) && ReleaseEnabled(s, step)
    ensures Kept(s, ReleaseMoved(s, step))
  {
    ReleaseKeepsRefs(s, step);
    ReleaseKeepsWork(s, step);
    ReleaseKeepsOps(s, step);
    ReleaseStamps(s, step);
  }

  lemma MovedKeeps(s: State, step: Step)
    requires Core(s) && Enabled(s, step)
    ensures Kept(s, Moved(s, step))
  {
    match step
    case Tick(_) => TickKeeps(s, step);
    case OnLayer(l) => LayerKeeps(s, l);
    case OnChain(c) => ChainKeeps(s, c);
    case OnMount(m) => MountKeeps(s, m);
    case OnRelease(r) => ReleaseKeeps(s, r);
    case Collect(_, _, _, _, _, _) => CollectKeeps(s, step);
  }

  lemma TickKeeps(s: State, step: Step)
    requires RefInv(s) && WorkOk(s) && OpsOk(s) && step.Tick? && Enabled(s, step)
    ensures var t := Moved(s, step); RefInv(t) && WorkOk(t) && OpsOk(t) && StampsFresh(s, t)
  {
    var t := Moved(s, step);
    RefFrame(s, t);
    forall ref | ref in t.busy ensures WorkFits(t, ref, t.busy[ref]) {
      assert WorkFits(s, ref, s.busy[ref]);
    }
  }

  lemma CollectKeeps(s: State, step: Step)
    requires RefInv(s) && WorkOk(s) && OpsOk(s) && step.Collect? && Enabled(s, step)
    ensures var t := Moved(s, step); RefInv(t) && WorkOk(t) && OpsOk(t) && StampsFresh(s, t)
  {
    var t := Moved(s, step);
    CollectedWasFree(s, step.ref, step.gcNow, step.ttl, step.requireExpiry);
    Collected(s, step.ref, t);
    forall ref | ref in t.busy ensures WorkFits(t, ref, t.busy[ref]) {
      assert WorkFits(s, ref, s.busy[ref]);
      WorkUndisturbed(s, t, ref);
    }
  }

  lemma StepKeepsInv(s: State, step: Step)
    requires Inv(s) && Enabled(s, step)
    ensures Inv(Next(s, step))
  {
    assert Unix(s.now) != 0;
    MovedKeeps(s, step);
    ObservedKeeps(Moved(s, step));
    TimesKept(s, Moved(s, step));
  }

  /** Nothing cached, nothing mounted, at any time of day. */
  ghost predicate Fresh(s: State) {
    && s.table == map[] && s.content == {} && s.mounts == map[] && s.txns == map[] && s.kernel == {}
    && s.ops == map[] && s.busy == map[] && s.positiveAt == map[] && s.now >= SECOND
  }

  lemma FreshInv(s: State)
    requires Fresh(s)
    ensures Inv(s)
  {
    forall ref ensures Held(s, ref) == 0 {
      assert MountCounts(s.mounts, ref) == map[] && OpCounts(s.ops, ref) == map[];
    }
  }

  /** Whatever a collection removes, in any state that keeps the invariant and for any
      candidate, fresh or stale, is referenced by no record and no operation in flight; under
      a TTL it had been at zero for the TTL less than a second ago. */
  lemma CollectionIsSafe(s: State, step: Step)
    requires Inv(s) && step.Collect? && Enabled(s, step)
    ensures forall k | k in s.mounts :: step.ref !in RefsOf(s.mounts[k])
    ensures forall o | o in s.ops :: step.ref !in s.ops[o].refs
    ensures step.requireExpiry && step.ref in s.positiveAt ==> s.positiveAt[step.ref] + step.ttl < step.gcNow + SECOND
  {
    CollectedWasFree(s, step.ref, step.gcNow, step.ttl, step.requireExpiry);
  }

  /** Whole-second stamps let a record go up to, but not including, a second early: expiry is
      measured from the second in which the count reached zero. */
  lemma ExpiryMeasuredFromWholeSecond(count: Record, zeroed: int, gcNow: int, ttl: int)
    requires count.refCount == 1 && zeroed >= SECOND
    ensures Expired(Decremented(count, zeroed), gcNow, ttl) <==> gcNow - zeroed + zeroed % SECOND >= ttl
    ensures gcNow - zeroed >= ttl ==> Expired(Decremented(count, zeroed), gcNow, ttl)
  {
    assert Unix(zeroed) * SECOND == zeroed - zeroed % SECOND;
  }

  /** A count that reaches zero at 1.9 s is collected at 11 s under a TTL of 10 s. */
  lemma CollectedBeforeFullTtl()
    ensures var ttl, zeroed, gcNow := 10 * SECOND, 1_900_000_000, 11 * SECOND;
            Expired(Decremented(Record(1, 0, 0), zeroed), gcNow, ttl) && gcNow - zeroed < ttl
  {
    ExpiryMeasuredFromWholeSecond(Record(1, 0, 0), 1_900_000_000, 11 * SECOND, 10 * SECOND);
  }
}
