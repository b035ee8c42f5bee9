/** What a stack of layers shows: the layers applied one after another. */
module LayerView {
  import opened Wrappers
  import opened Paths
  import opened LayerTree

  datatype Visible = VisibleDir(meta: Meta) | VisibleLeaf(node: Node)

  type View = map<Path, Visible>

  /** One extracted layer. Implicit directories were only implied by their children;
      the root is implicit when the archive had no root entry. */
  datatype Layer = Layer(tree: Tree, implicit: set<Path>, hasRootMetadata: bool)

  function Lookup(v: View, p: Path): Option<Visible> {
    if p in v then Some(v[p]) else None
  }

  /** Some directory strictly above p hides older layers. */
  predicate OpaqueAbove(t: Tree, p: Path, user: bool) {
    exists k | 0 <= k < |p| :: p[..k] in t && IsOpaque(t[p[..k]], user)
  }

  /** Something strictly above p keeps older layers from showing at p. */
  predicate Sealed(t: Tree, p: Path, user: bool) {
    exists k | 0 <= k < |p| :: p[..k] in t && (!t[p[..k]].Dir? || IsOpaque(t[p[..k]], user))
  }

  predicate Inherits(l: Layer, p: Path) {
    if p == [] then !l.hasRootMetadata else p in l.implicit
  }

  /** What a layer's own entry shows at p on top of the older view: explicit headers set
      directory metadata, implied directories keep what was there unless it is hidden. */
  function Shown(older: View, l: Layer, p: Path, user: bool): Visible
    requires p in l.tree
  {
    var node := l.tree[p];
    if !node.Dir? then VisibleLeaf(node)
    else if Inherits(l, p) && !OpaqueAbove(l.tree, p, user) && p in older && older[p].VisibleDir? then older[p]
    else VisibleDir(node.meta)
  }

  /** Applying one layer: its whiteouts and opaque directories hide older entries,
      its own entries replace or merge with what remains. */
  function ApplyLayer(older: View, l: Layer, user: bool): View {
    (map p | p in older && p !in l.tree && !Sealed(l.tree, p, user) :: older[p]) +
    (map p | p in l.tree && !IsWhiteout(l.tree[p], user) :: Shown(older, l, p, user))
  }

  /** The layers, oldest first, applied one after another. */
  function FoldLayers(layers: seq<Layer>, user: bool): View {
    if layers == [] then map[]
    else ApplyLayer(FoldLayers(layers[..|layers| - 1], user), layers[|layers| - 1], user)
  }

  function Explicit(t: Tree): Layer {
    Layer(t, {}, true)
  }

  /** Trees, oldest first, applied one after another with all metadata taken as written. */
  function FoldTrees(trees: seq<Tree>, user: bool): View {
    if trees == [] then map[]
    else ApplyLayer(FoldTrees(trees[..|trees| - 1], user), Explicit(trees[|trees| - 1]), user)
  }
}
