/** Restart after a crash: the metadata store is reconciled with the directories and mounts
    that are really there. */
module Recovery {
  import opened RefStore
  import opened MountProtocol
  import opened Sums

  // ---------------------------------------------------------------------------
  // What reconciliation computes
  // ---------------------------------------------------------------------------

  /** Records whose content is there. */
  function Live(table: Table, content: set<Ref>): Table {
    map ref | ref in table && ref in content :: table[ref]
  }

  /** Chain directories without a record are removed; layer directories are left alone. */
  function KeptContent(content: set<Ref>, live: Table): set<Ref> {
    set ref | ref in content && (ref.LayerRef? || ref in live)
  }

  predicate AllPresent(m: Mount, live: Table) {
    && m.layers != []
    && (forall layer | layer in m.layers :: LayerRef(layer) in live)
    && (forall chain | chain in m.chains :: ChainRef(chain) in live)
  }

  lemma {:induction false} LayerListed(layers: seq<string>, ref: Ref)
    ensures ref in LayerRefs(layers) <==> ref.LayerRef? && ref.digest in layers
  {
    if layers != [] {
      LayerListed(layers[..|layers| - 1], ref);
      assert layers == layers[..|layers| - 1] + [layers[|layers| - 1]];
    }
  }

  lemma {:induction false} ChainListed(chains: seq<string>, ref: Ref)
    ensures ref in ChainRefs(chains) <==> ref.ChainRef? && ref.chain in chains
  {
    if chains != [] {
      ChainListed(chains[..|chains| - 1], ref);
      assert chains == chains[..|chains| - 1] + [chains[|chains| - 1]];
    }
  }

  lemma PresentRefs(m: Mount, live: Table)
    ensures AllPresent(m, live) <==> m.layers != [] && forall ref | ref in RefsOf(m) :: ref in live
  {
    forall layer | layer in m.layers ensures LayerRef(layer) in RefsOf(m) { LayerListed(m.layers, LayerRef(layer)); }
    forall chain | chain in m.chains ensures ChainRef(chain) in RefsOf(m) { ChainListed(m.chains, ChainRef(chain)); }
    forall ref | ref in RefsOf(m)
      ensures (ref.LayerRef? && ref.digest in m.layers) || (ref.ChainRef? && ref.chain in m.chains)
    {
      LayerListed(m.layers, ref);
      ChainListed(m.chains, ref);
    }
  }

  /** A transaction without a record becomes a record when its mount exists and its layers
      and chains are there. */
  function RecoveredMounts(mounts: map<string, Mount>, txns: map<string, Mount>, kernel: set<string>, live: Table)
    : map<string, Mount>
  {
    mounts + Finishable(mounts, txns, kernel, live)
  }

  function Finishable(mounts: map<string, Mount>, txns: map<string, Mount>, kernel: set<string>, live: Table)
    : map<string, Mount>
  {
    map k | k in txns && k !in mounts && k in kernel && AllPresent(txns[k], live) :: txns[k]
  }

  function KeptMounts(mounts: map<string, Mount>, kernel: set<string>, live: Table): map<string, Mount> {
    map k | k in mounts && k in kernel && AllPresent(mounts[k], live) :: mounts[k]
  }

  function Fixed(r: Record, want: nat, now: int): Record {
    if r.refCount == want then r
    else Record(want, if want == 0 then (if r.refZeroAt == 0 then Unix(now) else r.refZeroAt) else 0, Unix(now))
  }

  ghost function FixedTable(live: Table, mounts: map<string, Mount>, now: int): Table {
    map ref | ref in live :: Fixed(live[ref], Recorded'(mounts, ref), now)
  }

  ghost function Reconciled(s: State): State {
    var live := Live(s.table, s.content);
    var mounts := KeptMounts(RecoveredMounts(s.mounts, s.txns, s.kernel, live), s.kernel, live);
    s.(table := FixedTable(live, mounts, s.now),
       content := KeptContent(s.content, live),
       mounts := mounts,
       txns := map[],
       kernel := s.kernel * mounts.Keys)
  }

  // ---------------------------------------------------------------------------
  // From any state at all
  // ---------------------------------------------------------------------------

  /** No transaction is left, kernel mounts are exactly the recorded ones, every recorded
      layer and chain is there, and each count is its occurrences in the records. */
  ghost predicate Settled(s: State) {
    && s.txns == map[]
    && s.kernel == s.mounts.Keys
    && (forall k | k in s.mounts :: AllPresent(s.mounts[k], s.table))
    && CountsAre(s.table, s.mounts)
    && (forall ref | ref in s.table :: ref in s.content)
    && (forall ref | ref in s.content && ref.ChainRef? :: ref in s.table)
  }

  ghost predicate CountsAre(table: Table, mounts: map<string, Mount>) {
    forall ref | ref in table :: table[ref].refCount == Recorded'(mounts, ref)
  }

  /** The mounts that survive: mounted, recorded or in a transaction, with everything present. */
  predicate Survives(s: State, k: string) {
    && k in s.kernel
    && (k in s.mounts || k in s.txns)
    && AllPresent(if k in s.mounts then s.mounts[k] else s.txns[k], Live(s.table, s.content))
  }

  lemma SurvivorsExact(s: State)
    ensures var live := Live(s.table, s.content);
            var kept := KeptMounts(RecoveredMounts(s.mounts, s.txns, s.kernel, live), s.kernel, live);
            && (forall k :: k in kept <==> Survives(s, k))
            && (forall k | k in kept :: kept[k] == if k in s.mounts then s.mounts[k] else s.txns[k])
  {
    var live := Live(s.table, s.content);
    var recovered := RecoveredMounts(s.mounts, s.txns, s.kernel, live);
    var kept := KeptMounts(recovered, s.kernel, live);
    forall k ensures k in kept <==> Survives(s, k)
             ensures k in kept ==> kept[k] == if k in s.mounts then s.mounts[k] else s.txns[k] {
      assert k in recovered <==> k in s.mounts || (k in s.txns && k in s.kernel && AllPresent(s.txns[k], live));
    }
  }

  lemma KeptArePresent(mounts: map<string, Mount>, kernel: set<string>, live: Table, fixed: Table)
    requires fixed.Keys == live.Keys
    ensures var kept := KeptMounts(mounts, kernel, live);
            (forall k | k in kept :: AllPresent(kept[k], fixed)) && kernel * kept.Keys == kept.Keys
  {
    var kept := KeptMounts(mounts, kernel, live);
    forall k | k in kept ensures AllPresent(kept[k], fixed) {
      assert AllPresent(kept[k], live);
    }
  }

  lemma FixedIsExact(live: Table, mounts: map<string, Mount>, now: int)
    ensures FixedTable(live, mounts, now).Keys == live.Keys
    ensures CountsAre(FixedTable(live, mounts, now), mounts)
    ensures CountsAre(live, mounts) ==> FixedTable(live, mounts, now) == live
  {
  }

  /** One reconciliation settles any state whatsoever. */
  lemma ReconcileSettles(s: State)
    ensures Settled(Reconciled(s))
    ensures forall k :: k in Reconciled(s).mounts <==> Survives(s, k)
    ensures forall k | k in Reconciled(s).mounts ::
              Reconciled(s).mounts[k] == if k in s.mounts then s.mounts[k] else s.txns[k]
  {
    var t := Reconciled(s);
    var live := Live(s.table, s.content);
    SurvivorsExact(s);
    FixedIsExact(live, t.mounts, s.now);
    KeptArePresent(RecoveredMounts(s.mounts, s.txns, s.kernel, live), s.kernel, live, t.table);
  }

  lemma PresentMountsKept(mounts: map<string, Mount>, table: Table)
    requires forall k | k in mounts :: AllPresent(mounts[k], table)
    ensures RecoveredMounts(mounts, map[], mounts.Keys, table) == mounts
    ensures KeptMounts(mounts, mounts.Keys, table) == mounts
  {
  }

  /** A settled state is left as it is, whenever it is reconciled again. */
  lemma SettledStaysPut(s: State)
    requires Settled(s)
    ensures Reconciled(s) == s
  {
    assert Live(s.table, s.content) == s.table;
    PresentMountsKept(s.mounts, s.table);
    FixedIsExact(s.table, s.mounts, s.now);
    assert KeptContent(s.content, s.table) == s.content;
  }

  lemma ReconcileIdempotent(s: State, later: int)
    ensures Reconciled(Reconciled(s).(now := later)) == Reconciled(s).(now := later)
  {
    ReconcileSettles(s);
    var t := Reconciled(s).(now := later);
    assert Settled(t);
    SettledStaysPut(t);
  }

  // ---------------------------------------------------------------------------
  // Crashes in the middle of the protocol
  // ---------------------------------------------------------------------------

  /** The process dies: operations and locks are gone, and a reboot may lose mounts. */
  function Crashed(s: State, mountsLeft: set<string>, later: int): State {
    s.(ops := map[], busy := map[], kernel := s.kernel * mountsLeft, now := later)
  }

  ghost function Restarted(s: State, mountsLeft: set<string>, later: int): State {
    Observed(Reconciled(Crashed(s, mountsLeft, later)))
  }

  predicate WellKeyed(m: Mount, k: string) {
    m.key == k && m.layers != []
  }

  /** Records and transactions sit under their own keys, and an operation that may have
      mounted has its transaction on record. */
  ghost predicate TxnsFit(s: State) {
    && (forall k | k in s.mounts :: WellKeyed(s.mounts[k], k))
    && (forall k | k in s.txns :: WellKeyed(s.txns[k], k))
    && (forall o | o in s.ops :: TxnFits(s.ops[o], s.txns, s.kernel))
  }

  predicate TxnFits(op: Op, txns: map<string, Mount>, kernel: set<string>) {
    && op.mount.layers != []
    && (op.stage.TxnWritten? || op.stage.KernelMounted? ==> op.mount.key in txns && txns[op.mount.key] == op.mount)
    && (op.stage.KernelMounted? ==> op.mount.key in kernel)
  }

  lemma NoOpsReserveNothing(ref: Ref)
    ensures Reserved(map[], ref) == 0
  {
    assert OpCounts(map[], ref) == map[];
  }

  lemma RecordedPositive(mounts: map<string, Mount>, ref: Ref)
    requires Recorded'(mounts, ref) > 0
    ensures exists k | k in mounts :: ref in RefsOf(mounts[k])
  {
    SumPositive(MountCounts(mounts, ref));
    var k :| k in MountCounts(mounts, ref) && MountCounts(mounts, ref)[k] > 0;
    assert ref in RefsOf(mounts[k]);
  }

  lemma RecordedPresent(mounts: map<string, Mount>, table: Table, ref: Ref)
    requires forall k | k in mounts :: AllPresent(mounts[k], table)
    requires Recorded'(mounts, ref) > 0
    ensures ref in table
  {
    RecordedPositive(mounts, ref);
    var k :| k in mounts && ref in RefsOf(mounts[k]);
    PresentRefs(mounts[k], table);
  }

  lemma SettledCounts(s: State)
    requires Settled(s) && s.ops == map[] && ZeroStamps(s)
    ensures RefInv(s)
  {
    forall ref ensures Held(s, ref) == Recorded'(s.mounts, ref) {
      NoOpsReserveNothing(ref);
    }
    forall ref | Held(s, ref) > 0 ensures ref in s.table {
      RecordedPresent(s.mounts, s.table, ref);
    }
  }

  lemma FixedStamps(s: State)
    requires ZeroStamps(s) && Unix(s.now) != 0
    ensures ZeroStamps(Reconciled(s)) && StampsFresh(s, Reconciled(s))
  {
    var t := Reconciled(s);
    forall ref | ref in t.table
      ensures ZeroMarked(t.table[ref])
      ensures t.table[ref].refCount == 0 ==> t.table[ref] == s.table[ref] || t.table[ref].refZeroAt == Unix(s.now)
    {
      assert ZeroMarked(s.table[ref]);
    }
  }

  lemma RestartKeyed(c: State)
    requires c.ops == map[] && TxnsFit(c)
    ensures TxnsFit(Reconciled(c)) && OpsOk(Reconciled(c))
  {
    ReconcileSettles(c);
    var r := Reconciled(c);
    forall k | k in r.mounts ensures WellKeyed(r.mounts[k], k) {
      assert Survives(c, k);
    }
  }

  lemma RestartRefs(c: State)
    requires c.ops == map[] && c.busy == map[] && ZeroStamps(c) && TimesOk(c)
    ensures var r := Reconciled(c); RefInv(r) && WorkOk(r) && TimesOk(Observed(r)) && Settled(r)
  {
    var r := Reconciled(c);
    ReconcileSettles(c);
    FixedStamps(c);
    SettledCounts(r);
    TimesKept(c, r);
  }

  /** Restarting from a crash at any point of any run restores the protocol's invariant. */
  lemma RestartRestoresInvariant(s: State, mountsLeft: set<string>, later: int)
    requires Inv(s) && TxnsFit(s) && s.now <= later
    ensures var t := Restarted(s, mountsLeft, later); Inv(t) && TxnsFit(t) && Settled(t) && t.ops == map[]
  {
    var c := Crashed(s, mountsLeft, later);
    CrashTimes(s, c);
    RestartRefs(c);
    RestartKeyed(c);
    ObservedKeeps(Reconciled(c));
    SettledObserved(Reconciled(c));
  }

  /** A recorded mount that is still mounted is kept, whatever was under way. */
  lemma RecordedMountSurvives(s: State, k: string, mountsLeft: set<string>, later: int)
    requires Inv(s) && TxnsFit(s) && k in s.mounts && k in s.kernel && k in mountsLeft
    ensures var t := Restarted(s, mountsLeft, later); k in t.mounts && t.mounts[k] == s.mounts[k]
  {
    var c := Crashed(s, mountsLeft, later);
    HeldMountPresent(s, k);
    assert Survives(c, k);
    ReconcileSettles(c);
  }

  lemma CrashTimes(s: State, c: State)
    requires TimesOk(s) && c.table == s.table && c.positiveAt == s.positiveAt && s.now <= c.now
    ensures TimesOk(c)
  {
  }

  lemma SettledObserved(r: State)
    requires Settled(r)
    ensures Settled(Observed(r))
  {
  }

  lemma HeldMountPresent(s: State, k: string)
    requires RefInv(s) && k in s.mounts && s.mounts[k].layers != []
    ensures AllPresent(s.mounts[k], Live(s.table, s.content))
  {
    forall ref | ref in RefsOf(s.mounts[k]) ensures ref in Live(s.table, s.content) {
      HeldByRecord(s, k, ref);
    }
    PresentRefs(s.mounts[k], Live(s.table, s.content));
  }

  lemma HeldOpPresent(s: State, o: nat)
    requires RefInv(s) && o in s.ops && s.ops[o].refs == RefsOf(s.ops[o].mount) && s.ops[o].mount.layers != []
    ensures AllPresent(s.ops[o].mount, Live(s.table, s.content))
  {
    var m := s.ops[o].mount;
    forall ref | ref in RefsOf(m) ensures ref in Live(s.table, s.content) {
      HeldByOp(s, o, ref);
    }
    PresentRefs(m, Live(s.table, s.content));
  }

  /** An operation that had mounted but not recorded is completed by the restart. */
  lemma MountedOperationCompletes(s: State, o: nat, mountsLeft: set<string>, later: int)
    requires Inv(s) && TxnsFit(s) && o in s.ops && s.ops[o].stage.KernelMounted? && s.ops[o].mount.key in mountsLeft
    ensures var t := Restarted(s, mountsLeft, later); var m := s.ops[o].mount;
            m.key in t.mounts && t.mounts[m.key] == m
  {
    var c, m := Crashed(s, mountsLeft, later), s.ops[o].mount;
    assert OpFits(s.ops[o], s.mounts) && TxnFits(s.ops[o], s.txns, s.kernel);
    HeldOpPresent(s, o);
    ReconcileSettles(c);
    assert Survives(c, m.key);
  }

  // ---------------------------------------------------------------------------
  // Whole lives: any interleaving of protocol steps, with crashes and restarts anywhere
  // ---------------------------------------------------------------------------

  lemma LayerKeepsTxns(s: State, step: LayerStep)
    requires TxnsFit(s) && LayerEnabled(s, step)
    ensures TxnsFit(LayerMoved(s, step))
  {
    var t := LayerMoved(s, step);
    forall o | o in t.ops ensures TxnFits(t.ops[o], t.txns, t.kernel) {
      assert TxnFits(s.ops[o], s.txns, s.kernel);
    }
  }

  lemma ChainKeepsTxns(s: State, step: ChainStep)
    requires TxnsFit(s) && ChainEnabled(s, step)
    ensures TxnsFit(ChainMoved(s, step))
  {
    var t := ChainMoved(s, step);
    forall o | o in t.ops ensures TxnFits(t.ops[o], t.txns, t.kernel) {
      assert TxnFits(s.ops[o], s.txns, s.kernel);
    }
  }

  lemma MountKeepsTxnAt(s: State, step: MountStep, o: nat)
    requires TxnsFit(s) && OpsOk(s) && MountEnabled(s, step) && o in MountMoved(s, step).ops
    ensures var t := MountMoved(s, step); TxnFits(t.ops[o], t.txns, t.kernel)
  {
    assert o in s.ops ==> TxnFits(s.ops[o], s.txns, s.kernel);
    match step
    case BeginMount(_, _) =>
    case WriteTxn(_) =>
    case KernelMount(_) =>
    case PutRecord(_) =>
    case DeleteTxn(p, _) => assert s.ops[o].mount.key != s.ops[p].mount.key;
    case Fail(_, _) =>
  }

  lemma MountKeepsKeys(s: State, step: MountStep)
    requires TxnsFit(s) && OpsOk(s) && MountEnabled(s, step)
    ensures var t := MountMoved(s, step);
            && (forall k | k in t.mounts :: WellKeyed(t.mounts[k], k))
            && (forall k | k in t.txns :: WellKeyed(t.txns[k], k))
  {
    if !step.BeginMount? {
      assert TxnFits(s.ops[step.o], s.txns, s.kernel);
    }
  }

  lemma MountKeepsTxns(s: State, step: MountStep)
    requires TxnsFit(s) && OpsOk(s) && MountEnabled(s, step)
    ensures TxnsFit(MountMoved(s, step))
  {
    var t := MountMoved(s, step);
    MountKeepsKeys(s, step);
    forall o | o in t.ops ensures TxnFits(t.ops[o], t.txns, t.kernel) {
      MountKeepsTxnAt(s, step, o);
    }
  }

  lemma ReleaseKeepsTxnAt(s: State, step: ReleaseStep, o: nat)
    requires TxnsFit(s) && OpsOk(s) && ReleaseEnabled(s, step) && o in ReleaseMoved(s, step).ops
    ensures var t := ReleaseMoved(s, step); TxnFits(t.ops[o], t.txns, t.kernel)
  {
    assert o in s.ops ==> TxnFits(s.ops[o], s.txns, s.kernel);
  }

  lemma ReleaseKeepsTxns(s: State, step: ReleaseStep)
    requires TxnsFit(s) && OpsOk(s) && ReleaseEnabled(s, step)
    ensures TxnsFit(ReleaseMoved(s, step))
  {
    var t := ReleaseMoved(s, step);
    forall o | o in t.ops ensures TxnFits(t.ops[o], t.txns, t.kernel) {
      ReleaseKeepsTxnAt(s, step, o);
    }
  }

  lemma StepKeepsTxns(s: State, step: Step)
    requires TxnsFit(s) && OpsOk(s) && Enabled(s, step)
    ensures TxnsFit(Next(s, step))
  {
    match step
    case OnLayer(l) => LayerKeepsTxns(s, l);
    case OnChain(c) => ChainKeepsTxns(s, c);
    case OnMount(m) => MountKeepsTxns(s, m);
    case OnRelease(r) => ReleaseKeepsTxns(s, r);
    case _ =>
  }

  datatype LifeStep = Working(step: Step) | Restart(mountsLeft: set<string>, later: int)

  ghost predicate LifeEnabled(s: State, step: LifeStep) {
    match step
    case Working(w) => Enabled(s, w)
    case Restart(_, later) => s.now <= later
  }

  ghost function LifeNext(s: State, step: LifeStep): State
    requires LifeEnabled(s, step)
  {
    match step
    case Working(w) => Next(s, w)
    case Restart(mountsLeft, later) => Restarted(s, mountsLeft, later)
  }

  ghost predicate ValidLife(s: State, steps: seq<LifeStep>)
    decreases |steps|
  {
    steps == [] || (LifeEnabled(s, steps[0]) && ValidLife(LifeNext(s, steps[0]), steps[1..]))
  }

  ghost function After(s: State, steps: seq<LifeStep>): State
    requires ValidLife(s, steps)
    decreases |steps|
  {
    if steps == [] then s else After(LifeNext(s, steps[0]), steps[1..])
  }

  lemma {:induction false} LifeKeepsInv(s: State, steps: seq<LifeStep>)
    requires Inv(s) && TxnsFit(s) && ValidLife(s, steps)
    ensures Inv(After(s, steps)) && TxnsFit(After(s, steps))
    decreases |steps|
  {
    if steps != [] {
      match steps[0] {
        case Working(w) => StepKeepsInv(s, w); StepKeepsTxns(s, w);
        case Restart(mountsLeft, later) => RestartRestoresInvariant(s, mountsLeft, later);
      }
      LifeKeepsInv(LifeNext(s, steps[0]), steps[1..]);
    }
  }

  /** In every state of every life, each count is the occurrences of its layer or chain in
      mount records plus outstanding reservations, what is held is present, and the zero stamp
      is set exactly at zero. */
  lemma EveryLifeCountsExactly(s: State, steps: seq<LifeStep>)
    requires Fresh(s) && ValidLife(s, steps)
    ensures var t := After(s, steps);
            && (forall ref | ref in t.table :: t.table[ref].refCount == Recorded'(t.mounts, ref) + Reserved(t.ops, ref))
            && (forall ref | ref in t.table :: t.table[ref].refCount == 0 <==> t.table[ref].refZeroAt != 0)
            && (forall o, ref | o in t.ops && ref in t.ops[o].refs ::
                  ref in t.content && ref in t.table && t.table[ref].refCount > 0)
            && (forall k, ref | k in t.mounts && ref in RefsOf(t.mounts[k]) ::
                  ref in t.content && ref in t.table && t.table[ref].refCount > 0)
  {
    FreshInv(s);
    LifeKeepsInv(s, steps);
    var t := After(s, steps);
    forall o, ref | o in t.ops && ref in t.ops[o].refs
      ensures ref in t.content && ref in t.table && t.table[ref].refCount > 0
    {
      HeldByOp(t, o, ref);
    }
    forall k, ref | k in t.mounts && ref in RefsOf(t.mounts[k])
      ensures ref in t.content && ref in t.table && t.table[ref].refCount > 0
    {
      HeldByRecord(t, k, ref);
    }
  }
}
