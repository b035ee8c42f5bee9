/** Extracting one layer archive into a tree, tracking which directories were only implied. */
module LayerApply {
  import opened Wrappers
  import opened Paths
  import opened LayerTree
  import opened LayerView
  import opened Tar

  /** What the host lets the extractor do: make device nodes, set trusted or user attributes. */
  datatype Host = Host(mknod: bool, trusted: bool, user: bool)

  /** 0755 and 0600. */
  const DEFAULT_META := Meta(0, 0, 493)
  const MARKER_META := Meta(0, 0, 384)

  datatype Disk = Disk(tree: Tree, implicit: set<Path>)

  /** Permission bits with setuid, setgid and sticky. */
  function TarMeta(h: Header): Meta {
    Meta(h.meta.uid, h.meta.gid, h.meta.mode % 4096)
  }

  function EnsureDir(d: Disk, p: Path): Result<Disk>
    decreases |p|
  {
    if p == [] then Ok(d)
    else
      var above :- EnsureDir(d, Parent(p));
      if p in above.tree then
        if above.tree[p].Dir? then Ok(above) else Err
      else Ok(Disk(above.tree[p := Dir(DEFAULT_META, NoAttr)], above.implicit + {p}))
  }

  function Without(t: Tree, p: Path): Tree {
    map q | q in t && !(p <= q) :: t[q]
  }

  function Discard(implicit: set<Path>, target: Path): set<Path> {
    set q | q in implicit && !(target <= q)
  }

  /** The marker attribute the host can store, trusted before user. */
  function OverlayAttr(host: Host): Attr {
    if host.trusted then Attr("y", true) else if host.user then Attr("y", false) else NoAttr
  }

  datatype Extraction = Extraction(disk: Disk, root: Option<Meta>, needsUser: bool, next: nat)

  function WhiteoutStep(host: Host, x: Extraction, w: Whiteout, dir: Path): Result<Extraction> {
    var d :- EnsureDir(x.disk, dir);
    var attr := OverlayAttr(host);
    match w
    case HideOlder(_) =>
      if attr.NoAttr? || dir !in d.tree || !d.tree[dir].Dir? then Err
      else Ok(Extraction(Disk(d.tree[dir := Dir(d.tree[dir].meta, attr)], d.implicit),
                         x.root, x.needsUser || !attr.qualified, x.next + 1))
    case HideName(target) =>
      var cleared := Without(d.tree, target);
      var implicit := Discard(d.implicit, target);
      if host.mknod then
        Ok(Extraction(Disk(cleared[target := CharDevice(x.next, MARKER_META, 0)], implicit),
                      x.root, x.needsUser, x.next + 1))
      else if attr.NoAttr? then Err
      else
        Ok(Extraction(Disk(cleared[target := Regular(x.next, MARKER_META, EMPTY_CONTENT, attr)], implicit),
                      x.root, x.needsUser || !attr.qualified, x.next + 1))
  }

  /** The node a non-directory entry puts at p once p has been cleared. */
  function LeafNode(host: Host, cleared: Tree, h: Header, inode: nat): Result<Node> {
    match h.kind
    case RegKind => Ok(Regular(inode, TarMeta(h), h.content, NoAttr))
    case SymlinkKind => Ok(Symlink(Numbered(inode), Meta(h.meta.uid, h.meta.gid, 511), h.link))
    case LinkKind =>
      var target := CleanArchivePath(h.link);
      if target == [] || target !in cleared || cleared[target].Dir? then Err else Ok(cleared[target])
    case CharKind =>
      // Every device node is made with device number 0.
      Ok(if host.mknod then CharDevice(inode, TarMeta(h), 0)
         else Regular(inode, TarMeta(h), EMPTY_CONTENT, NoAttr))
    case BlockKind =>
      Ok(if host.mknod then OtherSpecial(inode, TarMeta(h)) else Regular(inode, TarMeta(h), EMPTY_CONTENT, NoAttr))
    case FifoKind =>
      Ok(if host.mknod then OtherSpecial(inode, TarMeta(h)) else Regular(inode, TarMeta(h), EMPTY_CONTENT, NoAttr))
    case _ => Err
  }

  function EntryStep(host: Host, x: Extraction, h: Header, p: Path): Result<Extraction>
    requires p != []
  {
    var d :- EnsureDir(x.disk, Parent(p));
    if h.kind.DirKind? then
      var own :- EnsureDir(d, p);
      if p !in own.tree || !own.tree[p].Dir? then Err
      else Ok(Extraction(Disk(own.tree[p := Dir(TarMeta(h), own.tree[p].opq)], own.implicit - {p}),
                         x.root, x.needsUser, x.next + 1))
    else
      var cleared := Without(d.tree, p);
      var node :- LeafNode(host, cleared, h, x.next);
      Ok(Extraction(Disk(cleared[p := node], Discard(d.implicit, p)), x.root, x.needsUser, x.next + 1))
  }

  function Step(host: Host, x: Extraction, h: Header): Result<Extraction> {
    var p := CleanArchivePath(h.name);
    if h.kind.PaxKind? then Ok(x)
    else if p == [] then
      if h.kind.DirKind? then Ok(x.(root := Some(TarMeta(h)))) else Err
    else if IsWhiteoutName(Base(p)) then
      var w :- WhiteoutPath(p);
      WhiteoutStep(host, x, w, Parent(p))
    else EntryStep(host, x, h, p)
  }

  const START := Extraction(Disk(map[[] := Dir(DEFAULT_META, NoAttr)], {}), None, false, 0)

  function Run(host: Host, headers: seq<Header>): Result<Extraction> {
    if headers == [] then Ok(START)
    else
      var x :- Run(host, headers[..|headers| - 1]);
      Step(host, x, headers[|headers| - 1])
  }

  /** The finished layer: the root takes its own entry's metadata, if there was one. */
  function Finish(x: Extraction): Layer {
    var tree := if x.root.Some? && [] in x.disk.tree && x.disk.tree[[]].Dir?
                then x.disk.tree[[] := Dir(x.root.value, x.disk.tree[[]].opq)]
                else x.disk.tree;
    Layer(tree, x.disk.implicit, x.root.Some?)
  }

  // ---------------------------------------------------------------------------
  // What the archive says about a directory
  // ---------------------------------------------------------------------------

  /** An entry that carries metadata for the directory p. */
  predicate Declares(h: Header, p: Path) {
    h.kind.DirKind? && CleanArchivePath(h.name) == p && p != [] && !IsWhiteoutName(Base(p))
  }

  /** The path an entry clears before anything is put there. */
  function Cleared(h: Header): Option<Path> {
    var p := CleanArchivePath(h.name);
    if h.kind.PaxKind? || p == [] then None
    else if IsWhiteoutName(Base(p)) then
      match WhiteoutPath(p)
      case Ok(HideName(target)) => Some(target)
      case _ => None
    else if h.kind.DirKind? then None else Some(p)
  }

  predicate Clears(h: Header, p: Path) {
    Cleared(h).Some? && Cleared(h).value <= p
  }

  /** The metadata of the last directory entry for p that nothing has cleared since. */
  function Declared(headers: seq<Header>, p: Path): Option<Meta> {
    if headers == [] then None
    else
      var h := headers[|headers| - 1];
      if Declares(h, p) then Some(TarMeta(h))
      else if Clears(h, p) then None
      else Declared(headers[..|headers| - 1], p)
  }

  /** A directory is either declared, and carries its entry's metadata, or implied, and
      carries the default; the implied ones are the recorded ones. */
  predicate ExplainedAt(d: Disk, declared: Option<Meta>, p: Path) {
    && (declared.Some? ==> p in d.tree && d.tree[p].Dir? && d.tree[p].meta == declared.value)
    && (p in d.tree && d.tree[p].Dir? && p != [] && declared.None? ==> d.tree[p].meta == DEFAULT_META)
    && (p in d.implicit <==> p in d.tree && d.tree[p].Dir? && p != [] && declared.None?)
  }

  ghost predicate DirectoriesExplained(d: Disk, headers: seq<Header>) {
    && WellFormed(d.tree)
    && forall p :: ExplainedAt(d, Declared(headers, p), p)
  }

  // ---------------------------------------------------------------------------
  // Steps on the tree
  // ---------------------------------------------------------------------------

  /** d' adds only default directories, all at or above p, and p is among the directories. */
  ghost predicate Extends(d: Disk, d': Disk, p: Path) {
    && WellFormed(d'.tree)
    && p in d'.tree && d'.tree[p].Dir?
    && (forall q | q in d.tree :: q in d'.tree && d'.tree[q] == d.tree[q])
    && (forall q | q in d'.tree && q !in d.tree :: q <= p && q != [] && d'.tree[q] == Dir(DEFAULT_META, NoAttr))
    && (forall q :: q in d'.implicit <==> q in d.implicit || (q in d'.tree && q !in d.tree))
  }

  lemma {:induction false} EnsureExtends(d: Disk, p: Path)
    requires WellFormed(d.tree) && EnsureDir(d, p).Ok?
    ensures Extends(d, EnsureDir(d, p).value, p)
    decreases |p|
  {
    if p != [] {
      EnsureExtends(d, Parent(p));
      var above := EnsureDir(d, Parent(p)).value;
      var after := EnsureDir(d, p).value;
      if p !in above.tree {
        assert after.tree == above.tree[p := Dir(DEFAULT_META, NoAttr)];
      }
    }
  }

  lemma {:induction false} EnsureExisting(d: Disk, p: Path)
    requires WellFormed(d.tree) && p in d.tree && d.tree[p].Dir?
    ensures EnsureDir(d, p) == Ok(d)
    decreases |p|
  {
    if p != [] {
      EnsureExisting(d, Parent(p));
    }
  }

  lemma PutWellFormed(t: Tree, p: Path, n: Node)
    requires WellFormed(t) && p != [] && Parent(p) in t && t[Parent(p)].Dir?
    ensures WellFormed(Without(t, p)[p := n])
    ensures Parent(p) in Without(t, p)
  {
    var u := Without(t, p)[p := n];
    forall q | q in u && q != [] ensures Parent(q) in u && u[Parent(q)].Dir? {
      if q != p {
        assert p <= Parent(q) ==> p <= q;
      }
    }
  }

  lemma EnsureKeepsExplained(d: Disk, headers: seq<Header>, p: Path)
    requires DirectoriesExplained(d, headers) && EnsureDir(d, p).Ok?
    ensures DirectoriesExplained(EnsureDir(d, p).value, headers)
  {
    EnsureExtends(d, p);
    var d' := EnsureDir(d, p).value;
    forall q ensures ExplainedAt(d', Declared(headers, q), q) {
      assert ExplainedAt(d, Declared(headers, q), q);
    }
  }

  lemma DeclaredStep(headers: seq<Header>, h: Header, p: Path)
    ensures Declared(headers + [h], p) ==
            if Declares(h, p) then Some(TarMeta(h)) else if Clears(h, p) then None else Declared(headers, p)
  {
    assert (headers + [h])[..|headers|] == headers;
  }

  /** Clearing a path and putting a non-directory there. */
  lemma PutKeepsExplained(d: Disk, headers: seq<Header>, h: Header, p: Path, n: Node)
    requires DirectoriesExplained(d, headers)
    requires p != [] && Parent(p) in d.tree && d.tree[Parent(p)].Dir? && !n.Dir?
    requires Cleared(h) == Some(p) && forall q :: !Declares(h, q)
    ensures DirectoriesExplained(Disk(Without(d.tree, p)[p := n], Discard(d.implicit, p)), headers + [h])
  {
    PutWellFormed(d.tree, p, n);
    var d' := Disk(Without(d.tree, p)[p := n], Discard(d.implicit, p));
    forall q ensures ExplainedAt(d', Declared(headers + [h], q), q) {
      DeclaredStep(headers, h, q);
      assert ExplainedAt(d, Declared(headers, q), q);
    }
  }

  /** Marking a directory opaque. */
  lemma MarkKeepsExplained(d: Disk, headers: seq<Header>, h: Header, dir: Path, attr: Attr)
    requires DirectoriesExplained(d, headers)
    requires dir in d.tree && d.tree[dir].Dir?
    requires forall q :: !Clears(h, q) && !Declares(h, q)
    ensures DirectoriesExplained(Disk(d.tree[dir := Dir(d.tree[dir].meta, attr)], d.implicit), headers + [h])
  {
    var d' := Disk(d.tree[dir := Dir(d.tree[dir].meta, attr)], d.implicit);
    forall q ensures ExplainedAt(d', Declared(headers + [h], q), q) {
      DeclaredStep(headers, h, q);
      assert ExplainedAt(d, Declared(headers, q), q);
    }
  }

  lemma WhiteoutKeepsExplained(host: Host, x: Extraction, headers: seq<Header>, h: Header)
    requires DirectoriesExplained(x.disk, headers)
    requires var p := CleanArchivePath(h.name);
             !h.kind.PaxKind? && p != [] && IsWhiteoutName(Base(p)) && WhiteoutPath(p).Ok?
             && WhiteoutStep(host, x, WhiteoutPath(p).value, Parent(p)).Ok?
    ensures var p := CleanArchivePath(h.name);
            DirectoriesExplained(WhiteoutStep(host, x, WhiteoutPath(p).value, Parent(p)).value.disk, headers + [h])
  {
    var p := CleanArchivePath(h.name);
    var dir := Parent(p);
    EnsureKeepsExplained(x.disk, headers, dir);
    EnsureExtends(x.disk, dir);
    var d := EnsureDir(x.disk, dir).value;
    assert forall q :: !Declares(h, q);
    match WhiteoutPath(p).value
    case HideName(target) =>
      var n := if host.mknod then CharDevice(x.next, MARKER_META, 0)
               else Regular(x.next, MARKER_META, EMPTY_CONTENT, OverlayAttr(host));
      PutKeepsExplained(d, headers, h, target, n);
    case HideOlder(_) =>
      MarkKeepsExplained(d, headers, h, dir, OverlayAttr(host));
  }

  lemma DirEntryKeepsExplained(host: Host, x: Extraction, headers: seq<Header>, h: Header, p: Path)
    requires DirectoriesExplained(x.disk, headers)
    requires p != [] && p == CleanArchivePath(h.name) && !IsWhiteoutName(Base(p)) && h.kind.DirKind?
    requires EntryStep(host, x, h, p).Ok?
    ensures DirectoriesExplained(EntryStep(host, x, h, p).value.disk, headers + [h])
  {
    EnsureKeepsExplained(x.disk, headers, Parent(p));
    var d := EnsureDir(x.disk, Parent(p)).value;
    EnsureKeepsExplained(d, headers, p);
    EnsureExtends(d, p);
    var own := EnsureDir(d, p).value;
    var d' := EntryStep(host, x, h, p).value.disk;
    assert d' == Disk(own.tree[p := Dir(TarMeta(h), own.tree[p].opq)], own.implicit - {p});
    forall q ensures ExplainedAt(d', Declared(headers + [h], q), q) {
      DeclaredStep(headers, h, q);
      assert ExplainedAt(own, Declared(headers, q), q);
    }
  }

  lemma EntryKeepsExplained(host: Host, x: Extraction, headers: seq<Header>, h: Header, p: Path)
    requires DirectoriesExplained(x.disk, headers)
    requires p != [] && p == CleanArchivePath(h.name) && !IsWhiteoutName(Base(p)) && !h.kind.PaxKind?
    requires EntryStep(host, x, h, p).Ok?
    ensures DirectoriesExplained(EntryStep(host, x, h, p).value.disk, headers + [h])
  {
    if h.kind.DirKind? {
      DirEntryKeepsExplained(host, x, headers, h, p);
    } else {
      EnsureKeepsExplained(x.disk, headers, Parent(p));
      EnsureExtends(x.disk, Parent(p));
      var d := EnsureDir(x.disk, Parent(p)).value;
      var n := LeafNode(host, Without(d.tree, p), h, x.next).value;
      PutKeepsExplained(d, headers, h, p, n);
    }
  }

  lemma StepKeepsExplained(host: Host, x: Extraction, headers: seq<Header>, h: Header)
    requires DirectoriesExplained(x.disk, headers) && Step(host, x, h).Ok?
    ensures DirectoriesExplained(Step(host, x, h).value.disk, headers + [h])
  {
    var p := CleanArchivePath(h.name);
    if h.kind.PaxKind? || p == [] {
      var d' := Step(host, x, h).value.disk;
      forall q ensures ExplainedAt(d', Declared(headers + [h], q), q) {
        DeclaredStep(headers, h, q);
        assert ExplainedAt(x.disk, Declared(headers, q), q);
      }
    } else if IsWhiteoutName(Base(p)) {
      WhiteoutKeepsExplained(host, x, headers, h);
    } else {
      EntryKeepsExplained(host, x, headers, h, p);
    }
  }

  /** After any successful extraction the implied directories are exactly those with no
      directory entry since they were last created, and every directory carries the
      metadata its entry gave it or the default. */
  lemma {:induction false} ImplicitDirectoriesExact(host: Host, headers: seq<Header>)
    requires Run(host, headers).Ok?
    ensures DirectoriesExplained(Run(host, headers).value.disk, headers)
  {
    if headers != [] {
      var init := headers[..|headers| - 1];
      ImplicitDirectoriesExact(host, init);
      StepKeepsExplained(host, Run(host, init).value, init, headers[|headers| - 1]);
      assert headers == init + [headers[|headers| - 1]];
    }
  }

  /** What the finished layer promises to the chain builder. */
  ghost predicate LayerExplained(l: Layer, headers: seq<Header>) {
    && WellFormed(l.tree)
    && (forall p :: p in l.implicit <==>
          p in l.tree && l.tree[p].Dir? && p != [] && Declared(headers, p).None?)
    && (forall p | p in l.tree && l.tree[p].Dir? && p != [] ::
          l.tree[p].meta == if Declared(headers, p).Some? then Declared(headers, p).value else DEFAULT_META)
  }

  lemma FinishedLayerExplained(host: Host, headers: seq<Header>)
    requires Run(host, headers).Ok?
    ensures LayerExplained(Finish(Run(host, headers).value), headers)
  {
    ImplicitDirectoriesExact(host, headers);
    var d := Run(host, headers).value.disk;
    var l := Finish(Run(host, headers).value);
    forall p ensures p in l.implicit <==> p in l.tree && l.tree[p].Dir? && p != [] && Declared(headers, p).None? {
      assert ExplainedAt(d, Declared(headers, p), p);
    }
    forall p | p in l.tree && l.tree[p].Dir? && p != []
      ensures l.tree[p].meta == if Declared(headers, p).Some? then Declared(headers, p).value else DEFAULT_META
    {
      assert ExplainedAt(d, Declared(headers, p), p);
    }
  }

  // ---------------------------------------------------------------------------
  // Published layers: every marker is qualified
  // ---------------------------------------------------------------------------

  predicate QualifiedNode(n: Node) {
    match n
    case Dir(_, opq) => opq == NoAttr || opq == Attr("y", true)
    case Regular(_, _, _, whiteout) => whiteout == NoAttr || whiteout == Attr("y", true)
    case _ => true
  }

  predicate Qualified(t: Tree) {
    forall p | p in t :: QualifiedNode(t[p])
  }

  lemma {:induction false} EnsureKeepsQualified(d: Disk, p: Path)
    requires Qualified(d.tree) && EnsureDir(d, p).Ok?
    ensures Qualified(EnsureDir(d, p).value.tree)
    decreases |p|
  {
    if p != [] {
      EnsureKeepsQualified(d, Parent(p));
    }
  }

  /** A layer that did not need user attributes holds only qualified markers, which is
      why the publisher can refuse exactly the layers that did. */
  lemma {:induction false} UnflaggedLayerIsQualified(host: Host, headers: seq<Header>)
    requires Run(host, headers).Ok? && !Run(host, headers).value.needsUser
    ensures Qualified(Run(host, headers).value.disk.tree)
    decreases |headers|
  {
    if headers != [] {
      var init, h := headers[..|headers| - 1], headers[|headers| - 1];
      UnflaggedLayerIsQualified(host, init);
      StepKeepsQualified(host, Run(host, init).value, h);
    }
  }

  lemma StepKeepsQualified(host: Host, x: Extraction, h: Header)
    requires Step(host, x, h).Ok? && !Step(host, x, h).value.needsUser && Qualified(x.disk.tree)
    ensures Qualified(Step(host, x, h).value.disk.tree)
  {
    var p := CleanArchivePath(h.name);
    if !h.kind.PaxKind? && p != [] {
      if IsWhiteoutName(Base(p)) {
        WhiteoutKeepsQualified(host, x, WhiteoutPath(p).value, Parent(p));
      } else {
        EntryKeepsQualified(host, x, h, p);
      }
    }
  }

  lemma WhiteoutKeepsQualified(host: Host, x: Extraction, w: Whiteout, dir: Path)
    requires Qualified(x.disk.tree) && WhiteoutStep(host, x, w, dir).Ok? && !WhiteoutStep(host, x, w, dir).value.needsUser
    ensures Qualified(WhiteoutStep(host, x, w, dir).value.disk.tree)
  {
    EnsureKeepsQualified(x.disk, dir);
  }

  lemma EntryKeepsQualified(host: Host, x: Extraction, h: Header, p: Path)
    requires p != [] && Qualified(x.disk.tree) && EntryStep(host, x, h, p).Ok?
    ensures Qualified(EntryStep(host, x, h, p).value.disk.tree)
  {
    EnsureKeepsQualified(x.disk, Parent(p));
    if h.kind.DirKind? {
      EnsureKeepsQualified(EnsureDir(x.disk, Parent(p)).value, p);
    }
  }

  /** With qualified markers only, it does not matter whether user markers are honoured. */
  lemma {:induction false} QualifiedLayersReadOneWay(layers: seq<Layer>)
    requires forall i | 0 <= i < |layers| :: Qualified(layers[i].tree)
    ensures FoldLayers(layers, true) == FoldLayers(layers, false)
  {
    if layers != [] {
      var init, l := layers[..|layers| - 1], layers[|layers| - 1];
      QualifiedLayersReadOneWay(init);
      QualifiedLayerReadsOneWay(FoldLayers(init, false), l);
    }
  }

  lemma QualifiedLayerReadsOneWay(older: View, l: Layer)
    requires Qualified(l.tree)
    ensures ApplyLayer(older, l, true) == ApplyLayer(older, l, false)
  {
    forall p ensures Sealed(l.tree, p, true) == Sealed(l.tree, p, false) {
      QualifiedPathReadsOneWay(l.tree, p);
    }
    forall p | p in l.tree
      ensures IsWhiteout(l.tree[p], true) == IsWhiteout(l.tree[p], false)
      ensures Shown(older, l, p, true) == Shown(older, l, p, false)
    {
      assert QualifiedNode(l.tree[p]);
      QualifiedPathReadsOneWay(l.tree, p);
    }
  }

  lemma QualifiedPathReadsOneWay(t: Tree, p: Path)
    requires Qualified(t)
    ensures Sealed(t, p, true) == Sealed(t, p, false)
    ensures OpaqueAbove(t, p, true) == OpaqueAbove(t, p, false)
  {
    forall k | 0 <= k < |p| && p[..k] in t ensures IsOpaque(t[p[..k]], true) == IsOpaque(t[p[..k]], false) {
      assert QualifiedNode(t[p[..k]]);
    }
  }

  // ---------------------------------------------------------------------------
  // Which names an archive deletes
  // ---------------------------------------------------------------------------

  /** An entry that decides what is at p: p's own, or one that clears it. */
  predicate Governs(h: Header, p: Path) {
    Declares(h, p) || Clears(h, p)
  }

  function LastGoverning(headers: seq<Header>, p: Path): (i: Option<nat>)
    ensures i.Some? ==> i.value < |headers| && Governs(headers[i.value], p)
  {
    if headers == [] then None
    else if Governs(headers[|headers| - 1], p) then Some(|headers| - 1)
    else LastGoverning(headers[..|headers| - 1], p)
  }

  predicate IsWhiteoutEntry(h: Header) {
    var p := CleanArchivePath(h.name);
    p != [] && IsWhiteoutName(Base(p))
  }

  /** The archive makes p a deletion: the last entry that governs p is a whiteout of it, or a
      character device where device nodes can be made, or a hard link to a name that was a
      deletion when the link was made. */
  predicate Hides(host: Host, headers: seq<Header>, p: Path, user: bool)
    decreases |headers|
  {
    var i := LastGoverning(headers, p);
    i.Some? && Cleared(headers[i.value]) == Some(p) &&
    var h := headers[i.value];
    if IsWhiteoutEntry(h) then host.mknod || host.trusted || user
    else match h.kind
      case CharKind => host.mknod
      case LinkKind => Hides(host, headers[..i.value], CleanArchivePath(h.link), user)
      case _ => false
  }

  predicate IsHidden(tree: Tree, p: Path, user: bool) {
    p in tree && IsWhiteout(tree[p], user)
  }

  /** The deletions in a tree are exactly those the archive makes. */
  ghost predicate HidingExplained(host: Host, tree: Tree, headers: seq<Header>, user: bool) {
    forall p :: IsHidden(tree, p, user) <==> Hides(host, headers, p, user)
  }

  lemma HidesNext(host: Host, headers: seq<Header>, h: Header, p: Path, user: bool)
    ensures !Governs(h, p) ==> (Hides(host, headers + [h], p, user) <==> Hides(host, headers, p, user))
    ensures Governs(h, p) && Cleared(h) != Some(p) ==> !Hides(host, headers + [h], p, user)
    ensures Cleared(h) == Some(p) ==>
              (Hides(host, headers + [h], p, user) <==>
               if IsWhiteoutEntry(h) then host.mknod || host.trusted || user
               else (h.kind.CharKind? && host.mknod)
                    || (h.kind.LinkKind? && Hides(host, headers, CleanArchivePath(h.link), user)))
  {
    var more := headers + [h];
    assert more[..|headers|] == headers;
    if !Governs(h, p) {
      var i := LastGoverning(headers, p);
      assert LastGoverning(more, p) == i;
      assert i.Some? ==> more[..i.value] == headers[..i.value] && more[i.value] == headers[i.value];
    }
  }

  lemma EnsureHidesNothing(d: Disk, p: Path, q: Path, user: bool)
    requires WellFormed(d.tree) && EnsureDir(d, p).Ok?
    ensures IsHidden(EnsureDir(d, p).value.tree, q, user) <==> IsHidden(d.tree, q, user)
  {
    EnsureExtends(d, p);
  }

  lemma WhiteoutHides(host: Host, x: Extraction, headers: seq<Header>, h: Header, user: bool)
    requires WellFormed(x.disk.tree) && HidingExplained(host, x.disk.tree, headers, user)
    requires var p := CleanArchivePath(h.name);
             !h.kind.PaxKind? && p != [] && IsWhiteoutName(Base(p)) && WhiteoutPath(p).Ok?
             && WhiteoutStep(host, x, WhiteoutPath(p).value, Parent(p)).Ok?
    ensures var p := CleanArchivePath(h.name);
            HidingExplained(host, WhiteoutStep(host, x, WhiteoutPath(p).value, Parent(p)).value.disk.tree, headers + [h], user)
  {
    var p := CleanArchivePath(h.name);
    var w, dir := WhiteoutPath(p).value, Parent(p);
    var d, t := EnsureDir(x.disk, dir).value, WhiteoutStep(host, x, w, dir).value.disk.tree;
    forall q ensures IsHidden(t, q, user) <==> Hides(host, headers + [h], q, user) {
      assert IsHidden(x.disk.tree, q, user) <==> Hides(host, headers, q, user);
      EnsureHidesNothing(x.disk, dir, q, user);
      HidesNext(host, headers, h, q, user);
      match w
      case HideOlder(_) => assert q != dir ==> (IsHidden(t, q, user) <==> IsHidden(d.tree, q, user));
      case HideName(target) =>
        assert target != q && !(target <= q) ==> (IsHidden(t, q, user) <==> IsHidden(d.tree, q, user));
    }
  }

  lemma DirEntryHides(host: Host, x: Extraction, headers: seq<Header>, h: Header, p: Path, user: bool)
    requires WellFormed(x.disk.tree) && HidingExplained(host, x.disk.tree, headers, user)
    requires p != [] && p == CleanArchivePath(h.name) && !IsWhiteoutName(Base(p)) && h.kind.DirKind?
    requires EntryStep(host, x, h, p).Ok?
    ensures HidingExplained(host, EntryStep(host, x, h, p).value.disk.tree, headers + [h], user)
  {
    var d := EnsureDir(x.disk, Parent(p)).value;
    EnsureExtends(x.disk, Parent(p));
    var own := EnsureDir(d, p).value;
    var t := EntryStep(host, x, h, p).value.disk.tree;
    forall q ensures IsHidden(t, q, user) <==> Hides(host, headers + [h], q, user) {
      assert IsHidden(x.disk.tree, q, user) <==> Hides(host, headers, q, user);
      EnsureHidesNothing(x.disk, Parent(p), q, user);
      EnsureHidesNothing(d, p, q, user);
      HidesNext(host, headers, h, q, user);
      assert q != p ==> (IsHidden(t, q, user) <==> IsHidden(own.tree, q, user));
    }
  }

  lemma FileEntryHides(host: Host, x: Extraction, headers: seq<Header>, h: Header, p: Path, user: bool)
    requires WellFormed(x.disk.tree) && HidingExplained(host, x.disk.tree, headers, user)
    requires p != [] && p == CleanArchivePath(h.name) && !IsWhiteoutName(Base(p)) && !h.kind.DirKind? && !h.kind.PaxKind?
    requires EntryStep(host, x, h, p).Ok?
    ensures HidingExplained(host, EntryStep(host, x, h, p).value.disk.tree, headers + [h], user)
  {
    var d := EnsureDir(x.disk, Parent(p)).value;
    var n := LeafNode(host, Without(d.tree, p), h, x.next).value;
    var t := EntryStep(host, x, h, p).value.disk.tree;
    assert t == Without(d.tree, p)[p := n];
    forall q ensures IsHidden(t, q, user) <==> Hides(host, headers + [h], q, user) {
      assert IsHidden(x.disk.tree, q, user) <==> Hides(host, headers, q, user);
      EnsureHidesNothing(x.disk, Parent(p), q, user);
      HidesNext(host, headers, h, q, user);
      if q == p && h.kind.LinkKind? {
        var target := CleanArchivePath(h.link);
        EnsureHidesNothing(x.disk, Parent(p), target, user);
        assert IsHidden(x.disk.tree, target, user) <==> Hides(host, headers, target, user);
      }
    }
  }

  lemma StepHides(host: Host, x: Extraction, headers: seq<Header>, h: Header, user: bool)
    requires WellFormed(x.disk.tree) && HidingExplained(host, x.disk.tree, headers, user) && Step(host, x, h).Ok?
    ensures HidingExplained(host, Step(host, x, h).value.disk.tree, headers + [h], user)
  {
    var p := CleanArchivePath(h.name);
    if h.kind.PaxKind? || p == [] {
      forall q ensures IsHidden(x.disk.tree, q, user) <==> Hides(host, headers + [h], q, user) {
        assert IsHidden(x.disk.tree, q, user) <==> Hides(host, headers, q, user);
        HidesNext(host, headers, h, q, user);
      }
    } else if IsWhiteoutName(Base(p)) {
      WhiteoutHides(host, x, headers, h, user);
    } else if h.kind.DirKind? {
      DirEntryHides(host, x, headers, h, p, user);
    } else {
      FileEntryHides(host, x, headers, h, p, user);
    }
  }

  /** After any successful extraction a path is a deletion if and only if the archive makes it
      one: a whiteout, a character device, or a hard link whose chain of links ends at either. */
  lemma {:induction false} DeletionsExact(host: Host, headers: seq<Header>, user: bool)
    requires Run(host, headers).Ok?
    ensures HidingExplained(host, Run(host, headers).value.disk.tree, headers, user)
  {
    if headers != [] {
      var init, h := headers[..|headers| - 1], headers[|headers| - 1];
      DeletionsExact(host, init, user);
      ImplicitDirectoriesExact(host, init);
      StepHides(host, Run(host, init).value, init, h, user);
      assert headers == init + [h];
    }
  }

  lemma PlainNames()
    ensures CleanArchivePath("null") == ["null"] && CleanArchivePath("a") == ["a"]
    ensures !IsWhiteoutName("null") && !IsWhiteoutName("a")
  {
    assert ['n', 'u', 'l', 'l'] == "null" && ['a'] == "a";
    assert ValidPath(["null"]) && ValidPath(["a"]);
    CleanJoin(["null"]);
    CleanJoin(["a"]);
    assert "null"[0] != WHITEOUT_PREFIX[0] && "a"[0] != WHITEOUT_PREFIX[0];
  }

  lemma DeviceRun(h: Header)
    requires h.name == "null" && h.kind == CharKind
    ensures var r := Run(Host(true, true, true), [h]);
            && r.Ok? && [] in r.value.disk.tree
            && ["null"] in r.value.disk.tree && r.value.disk.tree[["null"]].CharDevice?
            && IsWhiteout(r.value.disk.tree[["null"]], false)
  {
    var host := Host(true, true, true);
    PlainNames();
    assert Parent(["null"]) == [];
    assert [h][..0] == [];
    assert Run(host, []) == Ok(START);
    assert Step(host, START, h) == EntryStep(host, START, h, ["null"]);
    var tree := EntryStep(host, START, h, ["null"]).value.disk.tree;
    assert tree[["null"]] == CharDevice(0, TarMeta(h), 0);
  }

  /** Extracting the device 1:3 over a layer that has a file of that name removes the file. */
  lemma DeviceEntryDeletesOlderFile()
    ensures var h := Header("null", CharKind, "", Meta(0, 0, 438), 0, 1, 3, map[], map[]);
            var host := Host(true, true, true);
            var older := Layer(map[[] := Dir(DEFAULT_META, NoAttr), ["null"] := Regular(0, DEFAULT_META, 7, NoAttr)], {}, true);
            && Run(host, [h]).Ok?
            && Lookup(FoldLayers([older, Finish(Run(host, [h]).value)], false), ["null"]) == None
  {
    var h := Header("null", CharKind, "", Meta(0, 0, 438), 0, 1, 3, map[], map[]);
    DeviceRun(h);
  }

  lemma LinkStepTo(host: Host, x: Extraction, link: Header)
    requires [] in x.disk.tree && link.name == "a" && link.kind == LinkKind && link.link == "null"
    requires ["null"] in x.disk.tree && x.disk.tree[["null"]].CharDevice?
    ensures Step(host, x, link).Ok?
    ensures var t := Step(host, x, link).value.disk.tree; ["a"] in t && t[["a"]] == x.disk.tree[["null"]]
  {
    PlainNames();
    assert !(["a"] <= ["null"]) by { assert ["a"][0][0] != ["null"][0][0]; }
    assert Step(host, x, link) == EntryStep(host, x, link, ["a"]);
  }

  /** A hard link to that device removes an older file of the link's name too. */
  lemma LinkedDeviceDeletesOlderFile()
    ensures var device := Header("null", CharKind, "", Meta(0, 0, 438), 0, 1, 3, map[], map[]);
            var link := Header("a", LinkKind, "null", Meta(0, 0, 438), 0, 0, 0, map[], map[]);
            var host := Host(true, true, true);
            var older := Layer(map[[] := Dir(DEFAULT_META, NoAttr), ["a"] := Regular(0, DEFAULT_META, 7, NoAttr)], {}, true);
            && Run(host, [device, link]).Ok?
            && Lookup(FoldLayers([older, Finish(Run(host, [device, link]).value)], false), ["a"]) == None
  {
    var device := Header("null", CharKind, "", Meta(0, 0, 438), 0, 1, 3, map[], map[]);
    var link := Header("a", LinkKind, "null", Meta(0, 0, 438), 0, 0, 0, map[], map[]);
    var host := Host(true, true, true);
    var older := Layer(map[[] := Dir(DEFAULT_META, NoAttr), ["a"] := Regular(0, DEFAULT_META, 7, NoAttr)], {}, true);
    DeviceRun(device);
    assert [device, link][..1] == [device];
    LinkStepTo(host, Run(host, [device]).value, link);
  }

  // ---------------------------------------------------------------------------
  // The extractor as written: one loop over the entries, one tree changed in place
  // ---------------------------------------------------------------------------

  class LayerRoot {
    var tree: Tree
    var implicit: set<Path>

    function Contents(): Disk
      reads this
    {
      Disk(tree, implicit)
    }

    constructor ()
      ensures Contents() == START.disk
    {
      tree := map[[] := Dir(DEFAULT_META, NoAttr)];
      implicit := {};
    }

    method EnsureLayerDirectory(name: Path) returns (ok: bool)
      modifies this
      ensures ok <==> EnsureDir(old(Contents()), name).Ok?
      ensures ok ==> Contents() == EnsureDir(old(Contents()), name).value
      decreases |name|
    {
      if name == [] {
        return true;
      }
      ok := EnsureLayerDirectory(Parent(name));
      if !ok {
        return;
      }
      if name in tree {
        return tree[name].Dir?;
      }
      tree := tree[name := Dir(DEFAULT_META, NoAttr)];
      implicit := implicit + {name};
    }

    method DiscardImplicitDirectories(target: Path)
      modifies this`implicit
      ensures implicit == Discard(old(implicit), target)
    {
      var todo := implicit;
      ghost var start := implicit;
      while todo != {}
        invariant todo <= start
        invariant implicit == set q | q in start && (q in todo || !(target <= q))
      {
        var name :| name in todo;
        if target <= name {
          implicit := implicit - {name};
        }
        todo := todo - {name};
      }
    }

    method RemoveAll(target: Path)
      modifies this`tree
      ensures tree == Without(old(tree), target)
    {
      tree := map q | q in tree && !(target <= q) :: tree[q];
    }

    method ApplyOciWhiteout(host: Host, w: Whiteout, dir: Path, inode: nat) returns (ok: bool, usedUser: bool)
      requires dir in tree && tree[dir].Dir?
      modifies this`tree
      ensures w.HideOlder? ==> (ok <==> OverlayAttr(host).Attr?)
      ensures w.HideOlder? && ok ==> tree == old(tree)[dir := Dir(old(tree)[dir].meta, OverlayAttr(host))]
      ensures w.HideName? ==> (ok <==> host.mknod || OverlayAttr(host).Attr?)
      ensures w.HideName? && ok ==>
        tree == Without(old(tree), w.target)[w.target :=
          if host.mknod then CharDevice(inode, MARKER_META, 0)
          else Regular(inode, MARKER_META, EMPTY_CONTENT, OverlayAttr(host))]
      ensures ok ==> (usedUser <==> !(w.HideName? && host.mknod) && !OverlayAttr(host).qualified)
    {
      var attr := OverlayAttr(host);
      usedUser := false;
      if w.HideOlder? {
        if attr.NoAttr? {
          return false, false;
        }
        tree := tree[dir := Dir(tree[dir].meta, attr)];
        return true, !attr.qualified;
      }
      RemoveAll(w.target);
      if host.mknod {
        tree := tree[w.target := CharDevice(inode, MARKER_META, 0)];
        return true, false;
      }
      if attr.NoAttr? {
        return false, false;
      }
      tree := tree[w.target := Regular(inode, MARKER_META, EMPTY_CONTENT, attr)];
      return true, !attr.qualified;
    }
  }

  method ExtractEntry(host: Host, root: LayerRoot, x: Extraction, h: Header) returns (r: Result<Extraction>)
    requires root.Contents() == x.disk && WellFormed(x.disk.tree)
    modifies root
    ensures r == Step(host, x, h)
    ensures r.Ok? ==> root.Contents() == r.value.disk
  {
    var p := CleanArchivePath(h.name);
    if h.kind.PaxKind? {
      return Ok(x);
    }
    if p == [] {
      return if h.kind.DirKind? then Ok(x.(root := Some(TarMeta(h)))) else Err;
    }
    if IsWhiteoutName(Base(p)) {
      var w := WhiteoutPath(p);
      if w.Err? {
        return Err;
      }
      r := ExtractWhiteout(host, root, x, w.value, Parent(p));
    } else {
      r := ExtractFile(host, root, x, h, p);
    }
  }

  method ExtractWhiteout(host: Host, root: LayerRoot, x: Extraction, w: Whiteout, dir: Path) returns (r: Result<Extraction>)
    requires root.Contents() == x.disk && WellFormed(x.disk.tree)
    modifies root
    ensures r == WhiteoutStep(host, x, w, dir)
    ensures r.Ok? ==> root.Contents() == r.value.disk
  {
    var made := root.EnsureLayerDirectory(dir);
    if !made {
      return Err;
    }
    EnsureExtends(x.disk, dir);
    if w.HideName? {
      root.DiscardImplicitDirectories(w.target);
    }
    var applied, usedUser := root.ApplyOciWhiteout(host, w, dir, x.next);
    if !applied {
      return Err;
    }
    return Ok(Extraction(root.Contents(), x.root, x.needsUser || usedUser, x.next + 1));
  }

  method ExtractFile(host: Host, root: LayerRoot, x: Extraction, h: Header, p: Path) returns (r: Result<Extraction>)
    requires p != [] && root.Contents() == x.disk && WellFormed(x.disk.tree)
    modifies root
    ensures r == EntryStep(host, x, h, p)
    ensures r.Ok? ==> root.Contents() == r.value.disk
  {
    var ok := root.EnsureLayerDirectory(Parent(p));
    if !ok {
      return Err;
    }
    EnsureExtends(x.disk, Parent(p));
    if h.kind.DirKind? {
      ok := root.EnsureLayerDirectory(p);
      if !ok {
        return Err;
      }
      EnsureExtends(EnsureDir(x.disk, Parent(p)).value, p);
      root.tree := root.tree[p := Dir(TarMeta(h), root.tree[p].opq)];
      root.implicit := root.implicit - {p};
    } else {
      root.DiscardImplicitDirectories(p);
      root.RemoveAll(p);
      var node := LeafNode(host, root.tree, h, x.next);
      if node.Err? {
        return Err;
      }
      root.tree := root.tree[p := node.value];
    }
    return Ok(Extraction(root.Contents(), x.root, x.needsUser, x.next + 1));
  }

  method ExtractEntries(host: Host, headers: seq<Header>) returns (r: Result<Extraction>)
    ensures r == Run(host, headers)
  {
    var root := new LayerRoot();
    var x := START;
    for i := 0 to |headers|
      invariant Run(host, headers[..i]) == Ok(x) && root.Contents() == x.disk
      invariant fresh(root)
    {
      ImplicitDirectoriesExact(host, headers[..i]);
      RunStep(host, headers, i);
      var next := ExtractEntry(host, root, x, headers[i]);
      if next.Err? {
        RunFailsOnward(host, headers, i + 1);
        return Err;
      }
      x := next.value;
    }
    assert headers[..|headers|] == headers;
    return Ok(x);
  }

  /** Extraction of a whole archive: the layer, and whether it depends on user attributes.
      The layer's facts are exact. */
  method ExtractLayerTar(host: Host, headers: seq<Header>) returns (r: Result<(Layer, bool)>)
    ensures r.Ok? <==> Run(host, headers).Ok?
    ensures r.Ok? ==> r.value.0 == Finish(Run(host, headers).value) && LayerExplained(r.value.0, headers)
    ensures r.Ok? && !r.value.1 ==> Qualified(Run(host, headers).value.disk.tree)
  {
    var done := ExtractEntries(host, headers);
    if done.Err? {
      return Err;
    }
    FinishedLayerExplained(host, headers);
    if !done.value.needsUser {
      UnflaggedLayerIsQualified(host, headers);
    }
    return Ok((Finish(done.value), done.value.needsUser));
  }

  lemma RunStep(host: Host, headers: seq<Header>, i: nat)
    requires i < |headers| && Run(host, headers[..i]).Ok?
    ensures Run(host, headers[..i + 1]) == Step(host, Run(host, headers[..i]).value, headers[i])
  {
    assert headers[..i + 1][..i] == headers[..i];
  }

  lemma {:induction false} RunFailsOnward(host: Host, headers: seq<Header>, i: nat)
    requires i <= |headers| && Run(host, headers[..i]).Err?
    ensures Run(host, headers).Err?
    decreases |headers| - i
  {
    if i == |headers| {
      assert headers[..i] == headers;
    } else {
      assert headers[..i + 1][..i] == headers[..i];
      RunFailsOnward(host, headers, i + 1);
    }
  }
}
