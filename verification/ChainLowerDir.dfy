/** Building a chain of lower directories, one per layer, whose overlay behaves as if the
    layers had been applied one after another. */
module ChainLowerDir {
  import opened Wrappers
  import opened Paths
  import opened LayerTree
  import opened LayerView
  import opened DirectoryMetadata
  import opened Overlay

  const DAEMON_UID := 0
  const DAEMON_GID := 0

  /** Hard-linking a layer: files share their inode, symbolic links are made anew by the
      daemon, so their owner is the daemon's and each has an inode to itself. */
  function CloneNode(p: Path, n: Node): Node {
    match n
    case Symlink(_, meta, text) => Symlink(OwnInode(p), Meta(DAEMON_UID, DAEMON_GID, meta.mode), text)
    case _ => n
  }

  function CloneTree(t: Tree): Tree {
    map p | p in t :: CloneNode(p, t[p])
  }

  // ---------------------------------------------------------------------------
  // Which metadata an implied directory gets
  // ---------------------------------------------------------------------------

  function AncestorsFrom(t: Tree, name: Path, k: nat, barrier: Barrier): Result<Barrier>
    requires k < |name|
    decreases |name| - k
  {
    var entry := name[..k + 1];
    if entry !in t || !t[entry].Dir? then Err
    else if k == |name| - 1 then Ok(barrier)
    else match DirectoryOpaqueBarrier(t[entry])
      case Err => Err
      case Ok(state) => AncestorsFrom(t, name, k + 1, MaxBarrier(barrier, state))
  }

  function AncestorBarrier(t: Tree, name: Path): Result<Barrier>
    requires WellFormed(t) && name != []
  {
    match DirectoryOpaqueBarrier(t[[]])
    case Err => Err
    case Ok(barrier) => AncestorsFrom(t, name, 0, barrier)
  }

  function ImplicitOutcome(t: Tree, previousRoots: seq<Tree>, name: Path): Result<Option<Meta>>
    requires WellFormed(t) && AllWellFormed(previousRoots)
  {
    if name == [] then Err
    else match AncestorBarrier(t, name)
      case Err => Err
      case Ok(OpaqueBarrier) => Ok(None)
      case Ok(UnqualifiedBarrier) => Err
      case Ok(NoBarrier) => Search(previousRoots, name)
  }

  lemma {:induction false} AncestorFacts(t: Tree, name: Path, k: nat, barrier: Barrier)
    requires WellFormed(t) && k < |name| && BarrierFacts(t, name, k, barrier)
    requires AncestorsFrom(t, name, k, barrier).Ok?
    ensures BarrierFacts(t, name, |name| - 1, AncestorsFrom(t, name, k, barrier).value)
    ensures name in t && t[name].Dir?
    decreases |name| - k
  {
    if k == |name| - 1 {
      assert name[..k + 1] == name;
    } else {
      var state := DirectoryOpaqueBarrier(t[name[..k + 1]]).value;
      var next := MaxBarrier(barrier, state);
      assert BarrierFacts(t, name, k + 1, next) by {
        if state.OpaqueBarrier? {
          assert IsOpaque(t[name[..k + 1]], false);
        } else if barrier.OpaqueBarrier? {
          var j :| 0 <= j <= k && IsOpaque(t[name[..j]], false);
          assert 0 <= j <= k + 1;
        }
      }
      AncestorFacts(t, name, k + 1, next);
    }
  }

  lemma AncestorBarrierMeans(t: Tree, name: Path, user: bool)
    requires WellFormed(t) && name != [] && AncestorBarrier(t, name).Ok?
    ensures name in t && t[name].Dir?
    ensures AncestorBarrier(t, name).value.OpaqueBarrier? ==> OpaqueAbove(t, name, user)
    ensures AncestorBarrier(t, name).value.NoBarrier? ==> !OpaqueAbove(t, name, user)
  {
    var barrier := DirectoryOpaqueBarrier(t[[]]).value;
    assert name[..0] == [];
    assert barrier.OpaqueBarrier? ==> IsOpaque(t[name[..0]], false);
    AncestorFacts(t, name, 0, barrier);
    if AncestorBarrier(t, name).value.OpaqueBarrier? {
      var j :| 0 <= j <= |name| - 1 && IsOpaque(t[name[..j]], false);
      assert IsOpaque(t[name[..j]], user);
    }
  }

  // ---------------------------------------------------------------------------
  // One lower directory
  // ---------------------------------------------------------------------------

  function DirWithMeta(n: Node, meta: Meta): Node {
    match n
    case Dir(_, opq) => Dir(meta, opq)
    case _ => n
  }

  function InheritedNode(t: Tree, previousRoots: seq<Tree>, p: Path): Node
    requires WellFormed(t) && AllWellFormed(previousRoots) && p in t
  {
    match ImplicitOutcome(t, previousRoots, p)
    case Ok(Some(meta)) => DirWithMeta(t[p], meta)
    case _ => t[p]
  }

  function InheritedTree(t: Tree, previousRoots: seq<Tree>, implicit: set<Path>): Tree
    requires WellFormed(t) && AllWellFormed(previousRoots)
  {
    map p | p in t :: if p in implicit then InheritedNode(t, previousRoots, p) else t[p]
  }

  function MaterializedNode(l: Layer, previousRoots: seq<Tree>, p: Path): Node
    requires WellFormed(CloneTree(l.tree)) && AllWellFormed(previousRoots) && p in l.tree
  {
    var clone := CloneTree(l.tree);
    if p == [] then
      if l.hasRootMetadata || previousRoots == [] then clone[p]
      else DirWithMeta(clone[p], previousRoots[|previousRoots| - 1][[]].meta)
    else InheritedTree(clone, previousRoots, l.implicit)[p]
  }

  lemma CloneWellFormed(t: Tree)
    requires WellFormed(t)
    ensures WellFormed(CloneTree(t))
  {
  }

  /** The lower directory of a layer on top of the chain built so far. */
  function Materialize(l: Layer, previousRoots: seq<Tree>): (r: Result<Tree>)
    requires WellFormed(l.tree) && AllWellFormed(previousRoots)
    ensures r.Ok? ==> WellFormed(r.value) && r.value.Keys == l.tree.Keys
  {
    CloneWellFormed(l.tree);
    if exists name | name in l.implicit :: ImplicitOutcome(CloneTree(l.tree), previousRoots, name).Err? then Err
    else Ok(map p | p in l.tree :: MaterializedNode(l, previousRoots, p))
  }

  ghost predicate AllLayersWellFormed(layers: seq<Layer>) {
    forall i | 0 <= i < |layers| :: WellFormed(layers[i].tree)
  }

  function BuildChain(layers: seq<Layer>): (r: Result<seq<Tree>>)
    requires AllLayersWellFormed(layers)
    ensures r.Ok? ==> |r.value| == |layers| && AllWellFormed(r.value)
  {
    if layers == [] then Ok([])
    else
      var previous :- BuildChain(layers[..|layers| - 1]);
      var next :- Materialize(layers[|layers| - 1], previous);
      Ok(previous + [next])
  }

  method ImplicitDirectoryAncestorBarrier(root: Tree, name: Path) returns (r: Result<Barrier>)
    requires WellFormed(root) && name != []
    ensures r == AncestorBarrier(root, name)
  {
    r := DirectoryOpaqueBarrier(root[[]]);
    if r.Err? {
      return;
    }
    var barrier := r.value;
    for i := 0 to |name|
      invariant i < |name| ==> AncestorBarrier(root, name) == AncestorsFrom(root, name, i, barrier)
      invariant i == |name| ==> AncestorBarrier(root, name) == Ok(barrier)
    {
      var entry := name[..i + 1];
      if entry !in root || !root[entry].Dir? {
        return Err;
      }
      if i < |name| - 1 {
        var state := DirectoryOpaqueBarrier(root[entry]);
        if state.Err? {
          return Err;
        }
        barrier := MaxBarrier(barrier, state.value);
      }
    }
    return Ok(barrier);
  }

  method ResolveImplicit(root: Tree, previousRoots: seq<Tree>, name: Path) returns (r: Result<Option<Meta>>)
    requires WellFormed(root) && AllWellFormed(previousRoots)
    ensures r == ImplicitOutcome(root, previousRoots, name)
  {
    if name == [] {
      return Err;
    }
    var barrier := ImplicitDirectoryAncestorBarrier(root, name);
    match barrier {
      case Err => r := Err;
      case Ok(OpaqueBarrier) => r := Ok(None);
      case Ok(UnqualifiedBarrier) => r := Err;
      case Ok(NoBarrier) => r := EffectiveDirectoryMetadata(previousRoots, name);
    }
  }

  /** A lower directory under construction. */
  class LowerDir {
    var tree: Tree

    constructor (source: Tree)
      ensures tree == CloneTree(source)
    {
      tree := CloneTree(source);
    }

    /** Implied directories take the older effective metadata, in whatever order they are visited. */
    method InheritImplicitDirectoryMetadata(previousRoots: seq<Tree>, implicit: set<Path>) returns (ok: bool)
      requires WellFormed(tree) && AllWellFormed(previousRoots)
      modifies this
      ensures ok <==> forall name | name in implicit :: ImplicitOutcome(old(tree), previousRoots, name).Ok?
      ensures ok ==> tree == InheritedTree(old(tree), previousRoots, implicit)
    {
      ghost var before := tree;
      var todo := implicit;
      ghost var done: set<Path> := {};
      assert tree == InheritedTree(before, previousRoots, done);
      while todo != {}
        invariant todo + done == implicit && todo !! done
        invariant forall name | name in done :: ImplicitOutcome(before, previousRoots, name).Ok?
        invariant tree == InheritedTree(before, previousRoots, done)
      {
        var name :| name in todo;
        InheritingOne(before, previousRoots, done, name);
        var outcome := ResolveImplicit(tree, previousRoots, name);
        if outcome.Err? {
          return false;
        }
        if outcome.value.Some? {
          tree := tree[name := DirWithMeta(tree[name], outcome.value.value)];
        }
        todo, done := todo - {name}, done + {name};
      }
      assert done == implicit;
      return true;
    }

    method MaterializeChainLowerDir(layer: Layer, previousRoots: seq<Tree>) returns (ok: bool)
      requires WellFormed(layer.tree) && AllWellFormed(previousRoots)
      requires tree == CloneTree(layer.tree)
      modifies this
      ensures ok <==> Materialize(layer, previousRoots).Ok?
      ensures ok ==> tree == Materialize(layer, previousRoots).value
    {
      CloneWellFormed(layer.tree);
      ok := InheritImplicitDirectoryMetadata(previousRoots, layer.implicit);
      if !ok {
        return;
      }
      var rootMeta := if !layer.hasRootMetadata && |previousRoots| > 0
        then previousRoots[|previousRoots| - 1][[]].meta
        else layer.tree[[]].meta;
      tree := tree[[] := DirWithMeta(tree[[]], rootMeta)];
      assert ImplicitOutcome(CloneTree(layer.tree), previousRoots, []).Err?;
      var expected := Materialize(layer, previousRoots).value;
      assert tree.Keys == expected.Keys;
      forall p | p in tree ensures tree[p] == expected[p] {
        assert expected[p] == MaterializedNode(layer, previousRoots, p);
      }
    }
  }

  /** The outcome reads only kinds and opaque markers, never metadata. */
  ghost predicate SameMarkers(t: Tree, u: Tree) {
    && t.Keys == u.Keys
    && forall p | p in t :: (t[p].Dir? <==> u[p].Dir?) && (t[p].Dir? ==> t[p].opq == u[p].opq)
  }

  lemma {:induction false} SameMarkersSameAncestors(t: Tree, u: Tree, name: Path, k: nat, barrier: Barrier)
    requires SameMarkers(t, u) && k < |name|
    ensures AncestorsFrom(t, name, k, barrier) == AncestorsFrom(u, name, k, barrier)
    decreases |name| - k
  {
    var entry := name[..k + 1];
    if entry in t && t[entry].Dir? && k < |name| - 1 {
      var state := DirectoryOpaqueBarrier(t[entry]);
      if state.Ok? {
        SameMarkersSameAncestors(t, u, name, k + 1, MaxBarrier(barrier, state.value));
      }
    }
  }

  lemma SameMarkersSameOutcome(t: Tree, u: Tree, previousRoots: seq<Tree>, name: Path)
    requires WellFormed(t) && WellFormed(u) && SameMarkers(t, u) && AllWellFormed(previousRoots)
    ensures ImplicitOutcome(t, previousRoots, name) == ImplicitOutcome(u, previousRoots, name)
  {
    if name != [] {
      var state := DirectoryOpaqueBarrier(t[[]]);
      if state.Ok? {
        SameMarkersSameAncestors(t, u, name, 0, state.value);
      }
    }
  }

  /** Resolving one more directory against the partly updated tree. */
  lemma InheritingOne(t: Tree, previousRoots: seq<Tree>, done: set<Path>, name: Path)
    requires WellFormed(t) && AllWellFormed(previousRoots) && name !in done
    ensures var now := InheritedTree(t, previousRoots, done);
            && WellFormed(now)
            && ImplicitOutcome(now, previousRoots, name) == ImplicitOutcome(t, previousRoots, name)
            && match ImplicitOutcome(t, previousRoots, name)
               case Err => true
               case Ok(None) => InheritedTree(t, previousRoots, done + {name}) == now
               case Ok(Some(meta)) =>
                 name in now &&
                 InheritedTree(t, previousRoots, done + {name}) == now[name := DirWithMeta(now[name], meta)]
  {
    var now := InheritedTree(t, previousRoots, done);
    assert SameMarkers(t, now);
    assert WellFormed(now);
    SameMarkersSameOutcome(t, now, previousRoots, name);
    match ImplicitOutcome(t, previousRoots, name)
    case Ok(Some(meta)) =>
      AncestorBarrierMeans(t, name, false);
      assert now[name] == t[name];
    case _ =>
  }

  // ---------------------------------------------------------------------------
  // The chain shows what applying the layers shows
  // ---------------------------------------------------------------------------

  function CloneVisible(p: Path, v: Visible): Visible {
    if v.VisibleLeaf? then VisibleLeaf(CloneNode(p, v.node)) else v
  }

  /** Same paths, same directory metadata, same leaves up to the owner and the inode of
      symbolic links. */
  ghost predicate ShowsClone(v: View, w: View) {
    && v.Keys == w.Keys
    && forall p | p in w :: v[p] == CloneVisible(p, w[p])
  }

  /** A materialised directory carries, at every directory, the metadata its layer shows
      on top of the older layers. */
  lemma DirectoryMetadataResolved(l: Layer, previous: seq<Tree>, older: View, p: Path, user: bool)
    requires WellFormed(l.tree) && AllWellFormed(previous) && Materialize(l, previous).Ok?
    requires ShowsClone(FoldTrees(previous, user), older)
    requires p in l.tree && l.tree[p].Dir?
    ensures VisibleDir(Materialize(l, previous).value[p].meta) == Shown(older, l, p, user)
  {
    CloneWellFormed(l.tree);
    var clone := CloneTree(l.tree);
    var view := FoldTrees(previous, user);
    assert Materialize(l, previous).value[p] == MaterializedNode(l, previous, p);
    if p == [] {
      if previous != [] {
        var newest := previous[|previous| - 1];
        assert view[[]] == VisibleDir(newest[[]].meta);
      }
      assert !OpaqueAbove(l.tree, p, user);
    } else if p in l.implicit {
      assert ImplicitOutcome(clone, previous, p).Ok?;
      AncestorBarrierMeans(clone, p, user);
      assert OpaqueAbove(clone, p, user) == OpaqueAbove(l.tree, p, user) by { CloneOpaqueAbove(l.tree, p, user); }
      if AncestorBarrier(clone, p).value.NoBarrier? {
        SearchFindsAppliedMetadata(previous, p, user);
        assert p in view <==> p in older;
      }
    }
  }

  lemma CloneOpaqueAbove(t: Tree, p: Path, user: bool)
    ensures OpaqueAbove(CloneTree(t), p, user) == OpaqueAbove(t, p, user)
    ensures Sealed(CloneTree(t), p, user) == Sealed(t, p, user)
  {
    var c := CloneTree(t);
    assert forall q | q in t :: IsOpaque(c[q], user) == IsOpaque(t[q], user) && (c[q].Dir? <==> t[q].Dir?);
  }

  lemma MaterializedMarkers(l: Layer, previous: seq<Tree>, user: bool)
    requires WellFormed(l.tree) && AllWellFormed(previous) && Materialize(l, previous).Ok?
    ensures forall p | p in l.tree ::
              var m := Materialize(l, previous).value[p];
              && (m.Dir? <==> l.tree[p].Dir?)
              && (IsOpaque(m, user) <==> IsOpaque(l.tree[p], user))
              && (IsWhiteout(m, user) <==> IsWhiteout(l.tree[p], user))
              && (!m.Dir? ==> m == CloneNode(p, l.tree[p]))
    ensures forall p :: Sealed(Materialize(l, previous).value, p, user) == Sealed(l.tree, p, user)
  {
    var m := Materialize(l, previous).value;
    forall p | p in l.tree
      ensures && (m[p].Dir? <==> l.tree[p].Dir?)
              && (IsOpaque(m[p], user) <==> IsOpaque(l.tree[p], user))
              && (IsWhiteout(m[p], user) <==> IsWhiteout(l.tree[p], user))
              && (!m[p].Dir? ==> m[p] == CloneNode(p, l.tree[p]))
    {
      CloneWellFormed(l.tree);
      assert m[p] == MaterializedNode(l, previous, p);
    }
  }

  lemma ApplyingMaterialized(l: Layer, previous: seq<Tree>, older: View, user: bool)
    requires WellFormed(l.tree) && AllWellFormed(previous) && Materialize(l, previous).Ok?
    requires ShowsClone(FoldTrees(previous, user), older)
    ensures ShowsClone(ApplyLayer(FoldTrees(previous, user), Explicit(Materialize(l, previous).value), user),
                       ApplyLayer(older, l, user))
  {
    var m := Materialize(l, previous).value;
    var v := ApplyLayer(FoldTrees(previous, user), Explicit(m), user);
    var w := ApplyLayer(older, l, user);
    MaterializedMarkers(l, previous, user);
    forall p | p in w ensures p in v && v[p] == CloneVisible(p, w[p]) {
      if p in l.tree && l.tree[p].Dir? {
        DirectoryMetadataResolved(l, previous, older, p, user);
      }
    }
  }

  /** Folding the chain's trees shows what applying the layers one by one shows. */
  lemma {:induction false} ChainFoldsLikeLayers(layers: seq<Layer>, user: bool)
    requires AllLayersWellFormed(layers) && BuildChain(layers).Ok?
    ensures ShowsClone(FoldTrees(BuildChain(layers).value, user), FoldLayers(layers, user))
  {
    if layers != [] {
      var init, l := layers[..|layers| - 1], layers[|layers| - 1];
      ChainFoldsLikeLayers(init, user);
      var previous := BuildChain(init).value;
      var chain := BuildChain(layers).value;
      assert chain[..|chain| - 1] == previous && chain[|chain| - 1] == Materialize(l, previous).value;
      ApplyingMaterialized(l, previous, FoldLayers(init, user), user);
    }
  }

  /** The overlay of a chain that was built without error shows, at every path, what applying
      the layers one after another shows: the same paths, the owner and mode of every
      directory, and the same files, up to the owner and inode of symbolic links. It does so however
      user-only markers are read, and the support directory below only fills gaps. */
  lemma OverlayOfChainIsSequentialApplication(layers: seq<Layer>, support: Tree, p: Path, user: bool)
    requires AllLayersWellFormed(layers) && BuildChain(layers).Ok? && WellFormed(support)
    ensures var chain := BuildChain(layers).value;
            var applied := Lookup(FoldLayers(layers, user), p);
            && (OverlayLookup(Reverse(chain), p, user) ==
                if applied.Some? then Some(CloneVisible(p, applied.value)) else None)
            && (applied.Some? ==>
                OverlayLookup(MountLowerDirs(chain, support), p, user) == Some(CloneVisible(p, applied.value)))
  {
    var chain := BuildChain(layers).value;
    ChainFoldsLikeLayers(layers, user);
    FoldDownReversed(chain, user);
    OverlayIsFold(Reverse(chain), p, user);
    OverlayIsFold(MountLowerDirs(chain, support), p, user);
    if p in FoldLayers(layers, user) {
      SupportOnlyFillsGaps(Reverse(chain), support, p, user);
    }
  }

  // ---------------------------------------------------------------------------
  // Which names are one file
  // ---------------------------------------------------------------------------

  function TreesOf(layers: seq<Layer>): (trees: seq<Tree>)
    ensures |trees| == |layers| && forall i | 0 <= i < |layers| :: trees[i] == layers[i].tree
  {
    seq(|layers|, i requires 0 <= i < |layers| => layers[i].tree)
  }

  /** The tree, of trees oldest first, whose own entry is shown at p. */
  function Provider(trees: seq<Tree>, p: Path, user: bool): (i: Option<nat>)
    ensures i.Some? ==> i.value < |trees| && p in trees[i.value] && !IsWhiteout(trees[i.value][p], user)
  {
    if trees == [] then None
    else
      var top := trees[|trees| - 1];
      if p in top then (if IsWhiteout(top[p], user) then None else Some(|trees| - 1))
      else if Sealed(top, p, user) then None
      else Provider(trees[..|trees| - 1], p, user)
  }

  /** A shown leaf is its provider's node, whichever metadata directories take. */
  lemma {:induction false} ProviderShown(layers: seq<Layer>, p: Path, user: bool)
    ensures var i := Provider(TreesOf(layers), p, user);
            && (i.Some? <==> p in FoldLayers(layers, user))
            && (i.Some? ==> (FoldLayers(layers, user)[p].VisibleLeaf? <==> !layers[i.value].tree[p].Dir?))
            && (i.Some? && !layers[i.value].tree[p].Dir? ==>
                  FoldLayers(layers, user)[p] == VisibleLeaf(layers[i.value].tree[p]))
  {
    if layers != [] {
      var init := layers[..|layers| - 1];
      assert TreesOf(layers)[..|layers| - 1] == TreesOf(init);
      ProviderShown(init, p, user);
    }
  }

  /** Two names show one and the same file. */
  predicate SameFile(trees: seq<Tree>, p: Path, q: Path, user: bool) {
    var i := Provider(trees, p, user);
    i.Some? && Provider(trees, q, user) == i && !trees[i.value][p].Dir? && trees[i.value][p] == trees[i.value][q]
  }

  /** Tops with the same names, whiteouts and barriers provide alike. */
  lemma SameTopProvides(trees: seq<Tree>, others: seq<Tree>, p: Path, user: bool)
    requires |trees| == |others| > 0
    requires Provider(trees[..|trees| - 1], p, user) == Provider(others[..|others| - 1], p, user)
    requires var t, u := trees[|trees| - 1], others[|others| - 1];
             && (p in t <==> p in u) && Sealed(t, p, user) == Sealed(u, p, user)
             && (p in t ==> IsWhiteout(t[p], user) == IsWhiteout(u[p], user))
    ensures Provider(trees, p, user) == Provider(others, p, user)
  {
  }

  lemma ChainTop(layers: seq<Layer>)
    requires AllLayersWellFormed(layers) && BuildChain(layers).Ok? && layers != []
    ensures var init, chain := layers[..|layers| - 1], BuildChain(layers).value;
            && BuildChain(init).Ok? && chain != [] && chain[..|chain| - 1] == BuildChain(init).value
            && chain[|chain| - 1] == Materialize(layers[|layers| - 1], BuildChain(init).value).value
            && TreesOf(layers)[..|layers| - 1] == TreesOf(init)
  {
  }

  lemma {:induction false} ChainProvides(layers: seq<Layer>, p: Path, user: bool)
    requires AllLayersWellFormed(layers) && BuildChain(layers).Ok?
    ensures |BuildChain(layers).value| == |layers|
    ensures Provider(BuildChain(layers).value, p, user) == Provider(TreesOf(layers), p, user)
  {
    if layers != [] {
      var init, l := layers[..|layers| - 1], layers[|layers| - 1];
      ChainTop(layers);
      ChainProvides(init, p, user);
      MaterializedMarkers(l, BuildChain(init).value, user);
      SameTopProvides(BuildChain(layers).value, TreesOf(layers), p, user);
    }
  }

  lemma {:induction false} ChainNode(layers: seq<Layer>, i: nat, p: Path)
    requires AllLayersWellFormed(layers) && BuildChain(layers).Ok? && i < |layers| && p in layers[i].tree
    ensures i < |BuildChain(layers).value| && p in BuildChain(layers).value[i]
    ensures var n := BuildChain(layers).value[i][p];
            (n.Dir? <==> layers[i].tree[p].Dir?) && (!n.Dir? ==> n == CloneNode(p, layers[i].tree[p]))
    decreases |layers|
  {
    var init, l := layers[..|layers| - 1], layers[|layers| - 1];
    var previous := BuildChain(init).value;
    ChainTop(layers);
    ChainProvides(init, p, false);
    if i < |layers| - 1 {
      ChainNode(init, i, p);
    } else {
      MaterializedMarkers(l, previous, false);
    }
  }

  /** The overlay keeps two names of one file together exactly when it is not a symbolic link. */
  lemma ChainSharing(layers: seq<Layer>, p: Path, q: Path, user: bool)
    requires AllLayersWellFormed(layers) && BuildChain(layers).Ok?
    ensures SameFile(BuildChain(layers).value, p, q, user) <==>
            SameFile(TreesOf(layers), p, q, user) &&
            (p == q || !layers[Provider(TreesOf(layers), p, user).value].tree[p].Symlink?)
  {
    ChainProvides(layers, p, user);
    ChainProvides(layers, q, user);
    var i := Provider(TreesOf(layers), p, user);
    if i.Some? && Provider(TreesOf(layers), q, user) == i {
      ChainNode(layers, i.value, p);
      ChainNode(layers, i.value, q);
    }
  }

  /** The same but for the inode of a symbolic link. */
  predicate SameButInode(a: Option<Visible>, b: Option<Visible>) {
    if a.Some? && b.Some? && a.value.VisibleLeaf? && b.value.VisibleLeaf? && a.value.node.Symlink? && b.value.node.Symlink?
    then a.value.node.meta == b.value.node.meta && a.value.node.text == b.value.node.text
    else a == b
  }

  predicate ShowsSymlink(layers: seq<Layer>, p: Path, user: bool) {
    var applied := Lookup(FoldLayers(layers, user), p);
    applied.Some? && applied.value.VisibleLeaf? && applied.value.node.Symlink?
  }

  /** The overlay shows at p what the layers show, owner included, and the same names are the
      same file. */
  ghost predicate ExactAt(layers: seq<Layer>, p: Path, user: bool)
    requires AllLayersWellFormed(layers) && BuildChain(layers).Ok?
  {
    && SameButInode(OverlayLookup(Reverse(BuildChain(layers).value), p, user), Lookup(FoldLayers(layers, user), p))
    && forall q :: SameFile(BuildChain(layers).value, p, q, user) <==> SameFile(TreesOf(layers), p, q, user)
  }

  /** Exact at every path but symbolic links that somebody other than the daemon owns or that
      have another name. */
  lemma OverlayExactExceptForeignSymlinks(layers: seq<Layer>, p: Path, user: bool)
    requires AllLayersWellFormed(layers) && BuildChain(layers).Ok?
    ensures ExactAt(layers, p, user) <==>
            !(ShowsSymlink(layers, p, user) &&
              (var owner := FoldLayers(layers, user)[p].node.meta;
               || owner.uid != DAEMON_UID || owner.gid != DAEMON_GID
               || exists q :: q != p && SameFile(TreesOf(layers), p, q, user)))
  {
    OverlayOfChainIsSequentialApplication(layers, map[[] := Dir(Meta(0, 0, 0), NoAttr)], p, user);
    ProviderShown(layers, p, user);
    forall q ensures SameFile(BuildChain(layers).value, p, q, user) <==>
                     SameFile(TreesOf(layers), p, q, user) && (p == q || !ShowsSymlink(layers, p, user)) {
      ChainSharing(layers, p, q, user);
    }
  }

  /** A link owned by user 1000 loses that owner. */
  lemma ForeignSymlinkLosesOwner()
    ensures var tree: Tree := map[[] := Dir(Meta(0, 0, 493), NoAttr), ["l"] := Symlink(Numbered(0), Meta(1000, 1000, 511), "x")];
            var layers := [Layer(tree, {}, true)];
            && AllLayersWellFormed(layers) && BuildChain(layers).Ok?
            && !SameButInode(OverlayLookup(Reverse(BuildChain(layers).value), ["l"], false),
                             Lookup(FoldLayers(layers, false), ["l"]))
  {
    var tree: Tree := map[[] := Dir(Meta(0, 0, 493), NoAttr), ["l"] := Symlink(Numbered(0), Meta(1000, 1000, 511), "x")];
    var layers := [Layer(tree, {}, true)];
    OneLayerChain(layers[0]);
    assert Lookup(FoldLayers(layers, false), ["l"]) == Some(VisibleLeaf(tree[["l"]]));
    OverlayOfChainIsSequentialApplication(layers, map[[] := Dir(Meta(0, 0, 0), NoAttr)], ["l"], false);
  }

  /** Two names of one link of the daemon's own become two links. */
  lemma LinkedSymlinkIsSplit()
    ensures var link := Symlink(Numbered(0), Meta(DAEMON_UID, DAEMON_GID, 511), "x");
            var tree: Tree := map[[] := Dir(Meta(0, 0, 493), NoAttr), ["l"] := link, ["m"] := link];
            var layers := [Layer(tree, {}, true)];
            && AllLayersWellFormed(layers) && BuildChain(layers).Ok?
            && SameFile(TreesOf(layers), ["l"], ["m"], false)
            && !SameFile(BuildChain(layers).value, ["l"], ["m"], false)
  {
    var link := Symlink(Numbered(0), Meta(DAEMON_UID, DAEMON_GID, 511), "x");
    var tree: Tree := map[[] := Dir(Meta(0, 0, 493), NoAttr), ["l"] := link, ["m"] := link];
    var layers := [Layer(tree, {}, true)];
    OneLayerChain(layers[0]);
    assert Provider(TreesOf(layers), ["l"], false) == Some(0) && Provider(TreesOf(layers), ["m"], false) == Some(0);
    assert ["l"][0][0] != ["m"][0][0];
    ChainSharing(layers, ["l"], ["m"], false);
  }

  lemma OneLayerChain(l: Layer)
    requires WellFormed(l.tree) && l.implicit == {} && l.hasRootMetadata
    ensures AllLayersWellFormed([l]) && BuildChain([l]).Ok?
    ensures FoldLayers([l], false) == ApplyLayer(map[], l, false)
  {
    assert [l][..0] == [];
    assert Materialize(l, []).Ok?;
  }
}
