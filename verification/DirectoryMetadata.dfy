/** The search for the directory metadata an implied directory inherits. */
module DirectoryMetadata {
  import opened Wrappers
  import opened Paths
  import opened LayerTree
  import opened LayerView

  datatype Barrier = NoBarrier | UnqualifiedBarrier | OpaqueBarrier

  function MaxBarrier(a: Barrier, b: Barrier): Barrier {
    if a.OpaqueBarrier? || b.OpaqueBarrier? then OpaqueBarrier
    else if a.UnqualifiedBarrier? || b.UnqualifiedBarrier? then UnqualifiedBarrier
    else NoBarrier
  }

  function DirectoryOpaqueBarrier(n: Node): Result<Barrier>
    requires n.Dir?
  {
    match n.opq
    case NoAttr => Ok(NoBarrier)
    case AttrError => Err
    case Attr(value, qualified) =>
      if value == "x" then Ok(NoBarrier)
      else if value == "y" then Ok(if qualified then OpaqueBarrier else UnqualifiedBarrier)
      else Err
  }

  /** The verdict of one root about a name. */
  datatype Verdict = Found(meta: Meta) | Absent | Older | Uncertain

  /** The verdict of a non-directory met on the way. */
  function NonDirectoryVerdict(n: Node): Verdict
    requires !n.Dir?
  {
    if n.CharDevice? && n.rdev == 0 then Absent
    else if n.Regular? && n.whiteout.Attr? && n.whiteout.qualified then Absent
    else Uncertain
  }

  function MissingVerdict(barrier: Barrier): Verdict {
    match barrier
    case NoBarrier => Older
    case UnqualifiedBarrier => Uncertain
    case OpaqueBarrier => Absent
  }

  function WalkFrom(t: Tree, name: Path, k: nat, barrier: Barrier): Verdict
    requires k < |name|
    decreases |name| - k
  {
    var entry := name[..k + 1];
    if entry !in t then MissingVerdict(barrier)
    else if !t[entry].Dir? then NonDirectoryVerdict(t[entry])
    else if k == |name| - 1 then Found(t[entry].meta)
    else match DirectoryOpaqueBarrier(t[entry])
      case Err => Uncertain
      case Ok(state) => WalkFrom(t, name, k + 1, MaxBarrier(barrier, state))
  }

  function WalkRoot(t: Tree, name: Path): Verdict
    requires name != [] && WellFormed(t)
  {
    match DirectoryOpaqueBarrier(t[[]])
    case Err => Uncertain
    case Ok(barrier) => WalkFrom(t, name, 0, barrier)
  }

  ghost predicate AllWellFormed(roots: seq<Tree>) {
    forall i | 0 <= i < |roots| :: WellFormed(roots[i])
  }

  /** The newest root that has a say decides. */
  function Search(roots: seq<Tree>, name: Path): Result<Option<Meta>>
    requires name != [] && AllWellFormed(roots)
  {
    if roots == [] then Ok(None)
    else match WalkRoot(roots[|roots| - 1], name)
      case Found(meta) => Ok(Some(meta))
      case Absent => Ok(None)
      case Uncertain => Err
      case Older => Search(roots[..|roots| - 1], name)
  }

  // ---------------------------------------------------------------------------
  // One root
  // ---------------------------------------------------------------------------

  /** What a barrier records about the directories name[..0], ..., name[..k]. */
  ghost predicate BarrierFacts(t: Tree, name: Path, k: nat, barrier: Barrier)
    requires k < |name|
  {
    && (forall j | 0 <= j <= k :: name[..j] in t && t[name[..j]].Dir?)
    && (barrier.NoBarrier? ==> forall j | 0 <= j <= k :: !IsOpaque(t[name[..j]], true))
    && (barrier.OpaqueBarrier? ==> exists j | 0 <= j <= k :: IsOpaque(t[name[..j]], false))
  }

  /** A root's verdict in terms of what its tree holds, whether or not user-only
      markers count. */
  ghost predicate VerdictMeans(t: Tree, name: Path, verdict: Verdict, user: bool) {
    match verdict
    case Found(meta) => name in t && t[name].Dir? && t[name].meta == meta
    case Absent => if name in t then IsWhiteout(t[name], user) else Sealed(t, name, user)
    case Older => name !in t && !Sealed(t, name, user)
    case Uncertain => true
  }

  lemma MissingMeans(t: Tree, name: Path, k: nat, barrier: Barrier, user: bool)
    requires WellFormed(t) && k < |name| && BarrierFacts(t, name, k, barrier) && name[..k + 1] !in t
    ensures VerdictMeans(t, name, MissingVerdict(barrier), user)
  {
    forall j | k < j <= |name| ensures name[..j] !in t {
      MissingBelow(t, name, k, j);
    }
    assert name[..|name|] == name;
    match barrier
    case NoBarrier => NotSealed(t, name, k, user);
    case UnqualifiedBarrier =>
    case OpaqueBarrier => SealedAbove(t, name, k, user);
  }

  lemma MissingBelow(t: Tree, name: Path, k: nat, j: nat)
    requires WellFormed(t) && k < j <= |name| && name[..k + 1] !in t
    ensures name[..j] !in t
  {
    if name[..j] in t && j > k + 1 {
      assert name[..j][..k + 1] == name[..k + 1];
      PrefixesAreDirs(t, name[..j], k + 1);
    }
  }

  lemma NotSealed(t: Tree, name: Path, k: nat, user: bool)
    requires k < |name| && BarrierFacts(t, name, k, NoBarrier) && forall j | k < j <= |name| :: name[..j] !in t
    ensures !Sealed(t, name, user)
  {
    forall j | 0 <= j < |name| && name[..j] in t ensures t[name[..j]].Dir? && !IsOpaque(t[name[..j]], user) {
      assert j <= k;
    }
  }

  lemma SealedAbove(t: Tree, name: Path, k: nat, user: bool)
    requires k < |name| && BarrierFacts(t, name, k, OpaqueBarrier)
    ensures Sealed(t, name, user)
  {
    var j :| 0 <= j <= k && IsOpaque(t[name[..j]], false);
    assert name[..j] in t && IsOpaque(t[name[..j]], user);
  }

  lemma NonDirectoryMeans(t: Tree, name: Path, k: nat, user: bool)
    requires WellFormed(t) && k < |name| && name[..k + 1] in t && !t[name[..k + 1]].Dir?
    ensures VerdictMeans(t, name, NonDirectoryVerdict(t[name[..k + 1]]), user)
  {
    if k + 1 == |name| {
      assert name[..k + 1] == name;
    } else {
      if name in t {
        PrefixesAreDirs(t, name, k + 1);
      }
    }
  }

  lemma BarrierGrows(t: Tree, name: Path, k: nat, barrier: Barrier, state: Barrier)
    requires k + 1 < |name| && BarrierFacts(t, name, k, barrier) && name[..k + 1] in t && t[name[..k + 1]].Dir?
    requires DirectoryOpaqueBarrier(t[name[..k + 1]]) == Ok(state)
    ensures BarrierFacts(t, name, k + 1, MaxBarrier(barrier, state))
  {
    if state.OpaqueBarrier? {
      assert IsOpaque(t[name[..k + 1]], false);
    } else if barrier.OpaqueBarrier? {
      var j :| 0 <= j <= k && IsOpaque(t[name[..j]], false);
      assert 0 <= j <= k + 1;
    }
  }

  lemma {:induction false} WalkMeans(t: Tree, name: Path, k: nat, barrier: Barrier, user: bool)
    requires WellFormed(t) && k < |name| && BarrierFacts(t, name, k, barrier)
    ensures VerdictMeans(t, name, WalkFrom(t, name, k, barrier), user)
    decreases |name| - k
  {
    var entry := name[..k + 1];
    if entry !in t {
      MissingMeans(t, name, k, barrier, user);
    } else if !t[entry].Dir? {
      NonDirectoryMeans(t, name, k, user);
    } else if k == |name| - 1 {
      assert entry == name;
    } else {
      match DirectoryOpaqueBarrier(t[entry])
      case Err =>
      case Ok(state) =>
        BarrierGrows(t, name, k, barrier, state);
        WalkMeans(t, name, k + 1, MaxBarrier(barrier, state), user);
    }
  }

  lemma WalkRootMeans(t: Tree, name: Path, user: bool)
    requires WellFormed(t) && name != []
    ensures VerdictMeans(t, name, WalkRoot(t, name), user)
  {
    match DirectoryOpaqueBarrier(t[[]])
    case Err =>
    case Ok(barrier) =>
      assert name[..0] == [];
      assert barrier.OpaqueBarrier? ==> IsOpaque(t[name[..0]], false);
      WalkMeans(t, name, 0, barrier, user);
  }

  // ---------------------------------------------------------------------------
  // All roots
  // ---------------------------------------------------------------------------

  /** The metadata of the directory shown at a path, if there is one. A path that
      shows something else has no such answer. */
  ghost predicate ShowsDirectory(v: View, name: Path, answer: Option<Meta>) {
    match answer
    case Some(meta) => Lookup(v, name) == Some(VisibleDir(meta))
    case None => Lookup(v, name) == None
  }

  /** Whenever the newest-first search succeeds, its answer is what applying the roots
      one after another shows at that name, whichever way user-only markers are read. */
  lemma {:induction false} SearchFindsAppliedMetadata(roots: seq<Tree>, name: Path, user: bool)
    requires name != [] && AllWellFormed(roots)
    requires Search(roots, name).Ok?
    ensures ShowsDirectory(FoldTrees(roots, user), name, Search(roots, name).value)
  {
    if roots != [] {
      var t := roots[|roots| - 1];
      WalkRootMeans(t, name, user);
      if WalkRoot(t, name).Older? {
        SearchFindsAppliedMetadata(roots[..|roots| - 1], name, user);
      }
    }
  }

  // ---------------------------------------------------------------------------
  // The search as written: two loops and a barrier variable
  // ---------------------------------------------------------------------------

  method EffectiveDirectoryMetadata(previousRoots: seq<Tree>, name: Path) returns (r: Result<Option<Meta>>)
    requires name != [] && AllWellFormed(previousRoots)
    ensures r == Search(previousRoots, name)
    ensures forall user | r.Ok? :: ShowsDirectory(FoldTrees(previousRoots, user), name, r.value)
  {
    var i := |previousRoots| - 1;
    r := Ok(None);
    var decided := false;
    assert previousRoots[..i + 1] == previousRoots;
    while i >= 0 && !decided
      invariant -1 <= i < |previousRoots|
      invariant decided ==> r == Search(previousRoots, name)
      invariant !decided ==> r == Ok(None) && Search(previousRoots[..i + 1], name) == Search(previousRoots, name)
      decreases i + 1, !decided
    {
      var root := previousRoots[i];
      assert previousRoots[..i + 1][..i] == previousRoots[..i];
      var verdict := DecideRoot(root, name);
      match verdict {
        case Found(meta) => r := Ok(Some(meta)); decided := true;
        case Absent => r := Ok(None); decided := true;
        case Uncertain => r := Err; decided := true;
        case Older => i := i - 1;
      }
    }
    forall user | r.Ok? ensures ShowsDirectory(FoldTrees(previousRoots, user), name, r.value) {
      SearchFindsAppliedMetadata(previousRoots, name, user);
    }
  }

  method DecideRoot(root: Tree, name: Path) returns (verdict: Verdict)
    requires name != [] && WellFormed(root)
    ensures verdict == WalkRoot(root, name)
  {
    var start := DirectoryOpaqueBarrier(root[[]]);
    if start.Err? {
      return Uncertain;
    }
    var barrier := start.value;
    for part := 0 to |name|
      invariant part < |name| ==> WalkRoot(root, name) == WalkFrom(root, name, part, barrier)
      invariant part < |name|
    {
      var entry := name[..part + 1];
      if entry !in root {
        return MissingVerdict(barrier);
      }
      if !root[entry].Dir? {
        return NonDirectoryVerdict(root[entry]);
      }
      if part == |name| - 1 {
        return Found(root[entry].meta);
      }
      var state := DirectoryOpaqueBarrier(root[entry]);
      if state.Err? {
        return Uncertain;
      }
      barrier := MaxBarrier(barrier, state.value);
    }
    assert false;
  }
}
