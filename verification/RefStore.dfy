/** Reference-counted records of extracted layers and chain lower directories. */
module RefStore {
  import opened Wrappers

  /** Layers and chains follow the same rules; a reference names either. */
  datatype Ref = LayerRef(digest: string) | ChainRef(chain: string)

  datatype Record = Record(refCount: int, refZeroAt: int, lastUsed: int)

  type Table = map<Ref, Record>

  /** Clock readings are in nanoseconds, records keep whole seconds. */
  const SECOND := 1_000_000_000

  function Unix(now: int): int {
    now / SECOND
  }

  function Incremented(r: Record, now: int): Record {
    Record(r.refCount + 1, 0, Unix(now))
  }

  function Decremented(r: Record, now: int): Record {
    if r.refCount > 0 then
      Record(r.refCount - 1, if r.refCount == 1 then Unix(now) else r.refZeroAt, Unix(now))
    else
      Record(r.refCount, if r.refZeroAt == 0 then Unix(now) else r.refZeroAt, Unix(now))
  }

  /** The zero stamp is set exactly when nothing refers to the record. */
  predicate ZeroMarked(r: Record) {
    r.refCount >= 0 && (r.refCount == 0 <==> r.refZeroAt != 0)
  }

  /** A record old enough at zero to be collected. */
  predicate Expired(r: Record, now: int, ttl: int) {
    r.refZeroAt != 0 && now - r.refZeroAt * SECOND >= ttl
  }

  predicate Collectable(table: Table, candidate: Ref, now: int, ttl: int, requireExpiry: bool) {
    candidate in table && table[candidate].refCount == 0 && (requireExpiry ==> Expired(table[candidate], now, ttl))
  }

  predicate Named(ref: Ref) {
    match ref case LayerRef(d) => d != "" case ChainRef(c) => c != ""
  }

  /** Releasing a list of reservations, one decrement each; empty names stand for jobs
      that reserved nothing. */
  function Released(table: Table, refs: seq<Ref>, now: int): Table {
    if refs == [] then table
    else
      var before := Released(table, refs[..|refs| - 1], now);
      var ref := refs[|refs| - 1];
      if Named(ref) && ref in before then before[ref := Decremented(before[ref], now)] else before
  }

  /** Releasing takes off exactly the occurrences of a reference, down to zero. */
  lemma {:induction false} ReleasedCounts(table: Table, refs: seq<Ref>, now: int, ref: Ref)
    requires Named(ref) && ref in table && ZeroMarked(table[ref]) && Unix(now) != 0
    ensures ref in Released(table, refs, now)
    ensures var left := table[ref].refCount - multiset(refs)[ref];
            Released(table, refs, now)[ref].refCount == if left > 0 then left else 0
    ensures ZeroMarked(Released(table, refs, now)[ref])
  {
    if refs != [] {
      var init := refs[..|refs| - 1];
      assert refs == init + [refs[|refs| - 1]];
      ReleasedCounts(table, init, now, ref);
    }
  }

  class MetadataStore {
    var table: Table

    method IncrementRef(ref: Ref, now: int) returns (r: Result<Record>)
      modifies this
      ensures r.Ok? <==> ref in old(table)
      ensures r.Ok? ==> r.value == Incremented(old(table)[ref], now) && table == old(table)[ref := r.value]
      ensures r.Err? ==> table == old(table)
    {
      if ref !in table {
        return Err;
      }
      var rec := table[ref];
      rec := Record(rec.refCount + 1, 0, Unix(now));
      table := table[ref := rec];
      return Ok(rec);
    }

    method DecrementRef(ref: Ref, now: int) returns (r: Result<Record>)
      modifies this
      ensures r.Ok? <==> ref in old(table)
      ensures r.Ok? ==> r.value == Decremented(old(table)[ref], now) && table == old(table)[ref := r.value]
      ensures r.Err? ==> table == old(table)
    {
      if ref !in table {
        return Err;
      }
      var rec := table[ref];
      var count, zeroAt := rec.refCount, rec.refZeroAt;
      if count > 0 {
        count := count - 1;
        if count == 0 {
          zeroAt := Unix(now);
        }
      } else if zeroAt == 0 {
        zeroAt := Unix(now);
      }
      rec := Record(count, zeroAt, Unix(now));
      table := table[ref := rec];
      return Ok(rec);
    }

    method RollbackReservedRefs(refs: seq<Ref>, now: int)
      modifies this
      ensures table == Released(old(table), refs, now)
    {
      for i := 0 to |refs|
        invariant table == Released(old(table), refs[..i], now)
      {
        assert refs[..i + 1][..i] == refs[..i];
        if Named(refs[i]) {
          var _ := DecrementRef(refs[i], now);
        }
      }
      assert refs[..|refs|] == refs;
    }

    /** Re-reads the candidate before deleting it; a stale candidate is left alone. */
    method TryDeleteCandidate(candidate: Ref, now: int, ttl: int, requireExpiry: bool) returns (deleted: bool)
      modifies this
      ensures deleted <==> Collectable(old(table), candidate, now, ttl, requireExpiry)
      ensures table == if deleted then old(table) - {candidate} else old(table)
    {
      if candidate !in table || table[candidate].refCount != 0 {
        return false;
      }
      if requireExpiry && (table[candidate].refZeroAt == 0 || now - table[candidate].refZeroAt * SECOND < ttl) {
        return false;
      }
      table := table - {candidate};
      return true;
    }

    /** A collection pass over any list of candidates, fresh or stale: exactly the candidates
        that are collectable now go. */
    method CollectByTtl(candidates: seq<Ref>, now: int, ttl: int) returns (removed: nat)
      modifies this
      ensures ttl <= 0 ==> table == old(table) && removed == 0
      ensures ttl > 0 ==> table == old(table) - set c | c in candidates && Collectable(old(table), c, now, ttl, true)
      ensures removed == |old(table)| - |table|
    {
      removed := 0;
      if ttl <= 0 {
        return;
      }
      ghost var start := table;
      ghost var gone: set<Ref> := {};
      for i := 0 to |candidates|
        invariant gone == set c | c in candidates[..i] && Collectable(start, c, now, ttl, true)
        invariant table == start - gone && removed == |start| - |table|
      {
        assert candidates[..i + 1] == candidates[..i] + [candidates[i]];
        ghost var before := table;
        var deleted := TryDeleteCandidate(candidates[i], now, ttl, true);
        if deleted {
          removed := removed + 1;
          gone := gone + {candidates[i]};
          assert before.Keys == table.Keys + {candidates[i]};
          assert |before| == |before.Keys| && |table| == |table.Keys|;
        }
      }
      assert candidates[..|candidates|] == candidates;
    }
  }
}
