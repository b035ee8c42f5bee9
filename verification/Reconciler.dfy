/** The reconciler as written: loops over the store's records that delete, rewrite and count. */
module Reconciler {
  import opened RefStore
  import opened MountProtocol
  import opened Recovery
  import opened Sums

  /** References counted so far; what was never counted is zero. */
  type Counts = map<Ref, nat>

  function CountOf(counts: Counts, ref: Ref): nat {
    if ref in counts then counts[ref] else 0
  }

  ghost predicate Counted(counts: Counts, before: Counts, refs: multiset<Ref>) {
    forall ref :: CountOf(counts, ref) == CountOf(before, ref) + refs[ref]
  }

  lemma CountOneMore(counts: Counts, before: Counts, refs: multiset<Ref>, one: Ref)
    requires Counted(counts, before, refs)
    ensures Counted(counts[one := CountOf(counts, one) + 1], before, refs + multiset{one})
  {
  }

  lemma CountedBoth(counts: Counts, middle: Counts, before: Counts, first: multiset<Ref>, second: multiset<Ref>)
    requires Counted(middle, before, first) && Counted(counts, middle, second)
    ensures Counted(counts, before, first + second)
  {
  }

  method CountLayers(layers: seq<string>, before: Counts) returns (counts: Counts)
    ensures Counted(counts, before, LayerRefs(layers))
  {
    counts := before;
    for i := 0 to |layers|
      invariant Counted(counts, before, LayerRefs(layers[..i]))
    {
      assert layers[..i + 1][..i] == layers[..i];
      var ref := LayerRef(layers[i]);
      CountOneMore(counts, before, LayerRefs(layers[..i]), ref);
      counts := counts[ref := CountOf(counts, ref) + 1];
    }
    assert layers[..|layers|] == layers;
  }

  method CountChains(chains: seq<string>, before: Counts) returns (counts: Counts)
    ensures Counted(counts, before, ChainRefs(chains))
  {
    counts := before;
    for i := 0 to |chains|
      invariant Counted(counts, before, ChainRefs(chains[..i]))
    {
      assert chains[..i + 1][..i] == chains[..i];
      var ref := ChainRef(chains[i]);
      CountOneMore(counts, before, ChainRefs(chains[..i]), ref);
      counts := counts[ref := CountOf(counts, ref) + 1];
    }
    assert chains[..|chains|] == chains;
  }

  /** A reference listed twice counts twice. */
  method CountRefs(m: Mount, before: Counts) returns (counts: Counts)
    ensures Counted(counts, before, RefsOf(m))
  {
    var middle := CountLayers(m.layers, before);
    counts := CountChains(m.chains, middle);
    CountedBoth(counts, middle, before, LayerRefs(m.layers), ChainRefs(m.chains));
  }

  method ValidateRefs(m: Mount, table: Table) returns (valid: bool)
    ensures valid <==> AllPresent(m, table)
  {
    if m.layers == [] {
      return false;
    }
    for i := 0 to |m.layers|
      invariant forall layer | layer in m.layers[..i] :: LayerRef(layer) in table
    {
      if LayerRef(m.layers[i]) !in table {
        return false;
      }
    }
    for i := 0 to |m.chains|
      invariant forall chain | chain in m.chains[..i] :: ChainRef(chain) in table
    {
      if ChainRef(m.chains[i]) !in table {
        return false;
      }
    }
    return true;
  }

  ghost predicate CountsRecorded(counts: Counts, mounts: map<string, Mount>) {
    forall ref :: CountOf(counts, ref) == Recorded'(mounts, ref)
  }

  lemma NothingRecorded()
    ensures CountsRecorded(map[], map[])
  {
    forall ref ensures Recorded'(map[], ref) == 0 {
      assert MountCounts(map[], ref) == map[];
    }
  }

  lemma CountsGrow(before: Counts, counts: Counts, mounts: map<string, Mount>, key: string, m: Mount)
    requires key !in mounts && CountsRecorded(before, mounts) && Counted(counts, before, RefsOf(m))
    ensures CountsRecorded(counts, mounts[key := m])
  {
    forall ref ensures CountOf(counts, ref) == Recorded'(mounts[key := m], ref) {
      RecordedPut(mounts, key, m, ref);
    }
  }

  lemma RecoverOne(before: map<string, Mount>, done: map<string, Mount>, kernel: set<string>, table: Table,
                   key: string, txn: Mount, valid: bool)
    requires key !in done && valid == AllPresent(txn, table)
    ensures var was := RecoveredMounts(before, done, kernel, table);
            RecoveredMounts(before, done[key := txn], kernel, table)
            == if key !in was && key in kernel && valid then was[key := txn] else was
  {
    var was, now := Finishable(before, done, kernel, table), Finishable(before, done[key := txn], kernel, table);
    assert key !in was;
    if key !in before && key in kernel && valid {
      assert now == was[key := txn];
    } else {
      assert now == was;
    }
  }

  lemma KeepOne(done: map<string, Mount>, kernel: set<string>, table: Table, key: string, m: Mount, valid: bool)
    requires key !in done && valid == AllPresent(m, table)
    ensures var was := KeptMounts(done, kernel, table);
            KeptMounts(done[key := m], kernel, table)
            == if key in kernel && valid then was[key := m] else was
  {
  }

  class Manager {
    var table: Table
    var content: set<Ref>
    var mounts: map<string, Mount>
    var txns: map<string, Mount>
    var kernel: set<string>
    var containers: map<string, Mount>

    /** Records whose directory is gone are deleted. */
    method DropStaleRecords()
      modifies this`table
      ensures table == Live(old(table), content)
    {
      var todo := table.Keys;
      ghost var start := table;
      while todo != {}
        invariant todo <= start.Keys
        invariant table == map ref | ref in start && (ref in todo || ref in content) :: start[ref]
      {
        var ref :| ref in todo;
        if ref !in content {
          table := table - {ref};
        }
        todo := todo - {ref};
      }
    }

    method CleanupOrphanChainDirs()
      modifies this`content
      ensures content == KeptContent(old(content), table)
    {
      var todo := content;
      ghost var start := content;
      while todo != {}
        invariant todo <= start
        invariant content == set ref | ref in start && (ref in todo || ref.LayerRef? || ref in table)
      {
        var ref :| ref in todo;
        if ref.ChainRef? && ref !in table {
          content := content - {ref};
        }
        todo := todo - {ref};
      }
    }

    method RecoverMountTransactions()
      modifies this`mounts, this`txns
      ensures txns == map[]
      ensures mounts == RecoveredMounts(old(mounts), old(txns), kernel, table)
    {
      ghost var before, done: map<string, Mount> := mounts, map[];
      while txns != map[]
        invariant done.Keys !! txns.Keys && done + txns == old(txns)
        invariant mounts == RecoveredMounts(before, done, kernel, table)
        decreases txns.Keys
      {
        var key :| key in txns;
        var txn := txns[key];
        var valid := ValidateRefs(txn, table);
        RecoverOne(before, done, kernel, table, key, txn, valid);
        if key !in mounts && key in kernel && valid {
          mounts := mounts[key := txn];
        }
        txns := txns - {key};
        done := done[key := txn];
      }
      assert done == old(txns);
    }

    /** Records that are not mounted or miss a layer or chain are deleted; the others are
        counted and become the containers. */
    method RestoreMounts() returns (counts: Counts)
      modifies this`mounts, this`containers
      ensures mounts == KeptMounts(old(mounts), kernel, table) && containers == mounts
      ensures CountsRecorded(counts, mounts)
    {
      ghost var done: map<string, Mount> := map[];
      var todo := mounts;
      counts, containers := map[], map[];
      NothingRecorded();
      while todo != map[]
        invariant done.Keys !! todo.Keys && done + todo == old(mounts)
        invariant containers == KeptMounts(done, kernel, table) && mounts == containers + todo
        invariant CountsRecorded(counts, containers)
        decreases todo.Keys
      {
        var key :| key in todo;
        var mount := todo[key];
        var valid := ValidateRefs(mount, table);
        KeepOne(done, kernel, table, key, mount, valid);
        MoveEntry(done, todo, key);
        MoveEntry(containers, todo, key);
        todo := todo - {key};
        done := done[key := mount];
        if key !in kernel || !valid {
          mounts := mounts - {key};
        } else {
          ghost var before := counts;
          counts := CountRefs(mount, counts);
          CountsGrow(before, counts, containers, key, mount);
          containers := containers[key := mount];
        }
      }
      assert done == old(mounts);
    }

    method CleanupOrphanManagedMounts()
      modifies this`kernel
      ensures kernel == old(kernel) * mounts.Keys
    {
      var todo := kernel;
      ghost var start := kernel;
      while todo != {}
        invariant todo <= start
        invariant kernel == set k | k in start && (k in todo || k in mounts)
      {
        var point :| point in todo;
        if point !in mounts {
          kernel := kernel - {point};
        }
        todo := todo - {point};
      }
    }

    method FixCounts(counts: Counts, now: int)
      requires CountsRecorded(counts, mounts)
      modifies this`table
      ensures table == FixedTable(old(table), mounts, now)
    {
      var todo := table.Keys;
      ghost var start := table;
      while todo != {}
        invariant todo <= start.Keys && table.Keys == start.Keys
        invariant forall ref | ref in start ::
          table[ref] == if ref in todo then start[ref] else Fixed(start[ref], Recorded'(mounts, ref), now)
      {
        var ref :| ref in todo;
        var want, rec := CountOf(counts, ref), table[ref];
        if rec.refCount != want {
          var zeroAt := if want != 0 then 0 else if rec.refZeroAt == 0 then Unix(now) else rec.refZeroAt;
          table := table[ref := Record(want, zeroAt, Unix(now))];
        }
        todo := todo - {ref};
      }
    }

    ghost function Snapshot(now: int): State
      reads this
    {
      State(table, content, mounts, txns, kernel, map[], map[], now, map[])
    }

    /** One pass with an authoritative list of mounts settles whatever state it finds. */
    method ReconcileState(now: int)
      modifies this
      ensures Snapshot(now) == Reconciled(old(Snapshot(now))) && containers == mounts
      ensures Settled(Snapshot(now))
    {
      ghost var before := Snapshot(now);
      DropStaleRecords();
      CleanupOrphanChainDirs();
      RecoverMountTransactions();
      var counts := RestoreMounts();
      CleanupOrphanManagedMounts();
      FixCounts(counts, now);
      ReconcileSettles(before);
    }
  }
}
