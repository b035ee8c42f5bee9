/** Extracting a translated snapshot layer gives back the sandbox's upper layer. */
module SnapshotRoundTrip {
  import opened Wrappers
  import opened Paths
  import opened LayerTree
  import opened LayerView
  import opened Tar
  import LayerApply
  import opened SnapshotItems
  import opened RootfsSnapshot

  // ---------------------------------------------------------------------------
  // The uppers in question
  // ---------------------------------------------------------------------------

  /** What reading an entry establishes. */
  predicate Sound(item: Item) {
    && ValidPath(item.path)
    && (item.path == [] ==> item.what.Directory?)
    && (match item.what
        case Deletion => item.header.kind.CharKind?
        case HardLink(target) => item.header.kind.LinkKind? && ValidPath(target)
        case Directory(_) => item.header.kind.DirKind?
        case Leaf => item.header.kind.RegKind? || item.header.kind.SymlinkKind?)
  }

  lemma ReadItemsAreSound(h: Header)
    requires Parse(h).Ok?
    ensures Sound(Parse(h).value)
  {
  }

  predicate HasDirectory(items: seq<Item>, p: Path) {
    exists d | d in items :: d.path == p && d.what.Directory?
  }

  /** Every entry sits in a directory of the upper, wherever that directory's entry comes. */
  ghost predicate TreeShaped(items: seq<Item>) {
    forall item | item in items && item.path != [] && Parent(item.path) != [] :: HasDirectory(items, Parent(item.path))
  }

  /** The chain that starts at p ends at a deleted inode. */
  ghost predicate Deleted(items: seq<Item>, p: Path) {
    exists e :: EndsAt(items, p, e) && e.what.Deletion?
  }

  /** A name that survives does not look like a whiteout, and a deleted name's whiteout does not
      look like an opaque marker. */
  ghost predicate PlainName(items: seq<Item>, p: Path) {
    p != [] ==> if Deleted(items, p) then Base(p) != MARKER_TAIL else !IsWhiteoutName(Base(p))
  }

  const MARKER_TAIL := ".wh..opq"

  ghost predicate PlainNames(items: seq<Item>) {
    forall item | item in items :: PlainName(items, item.path)
  }

  ghost predicate NoNuls(items: seq<Item>) {
    forall item | item in items :: NoNul(item.path)
  }

  ghost predicate Upright(items: seq<Item>) {
    UniquePaths(items) && TreeShaped(items) && NoNuls(items) && PlainNames(items) && forall item | item in items :: Sound(item)
  }

  /** No hard link names a directory. */
  ghost predicate NoLinkToDirectory(items: seq<Item>) {
    forall item | item in items && item.what.HardLink? :: !HasDirectory(items, item.what.target)
  }

  lemma {:induction false} AncestorsAreDirectories(items: seq<Item>, p: Path, k: nat)
    requires TreeShaped(items) && 0 < k < |p| && exists item | item in items :: item.path == p
    ensures HasDirectory(items, p[..k])
    decreases |p|
  {
    var up := Parent(p);
    assert HasDirectory(items, up);
    if k == |p| - 1 {
      assert p[..k] == up;
    } else {
      AncestorsAreDirectories(items, up, k);
      assert up[..k] == p[..k];
    }
  }

  lemma DirectoryItem(items: seq<Item>, item: Item)
    requires UniquePaths(items) && item in items && HasDirectory(items, item.path)
    ensures item.what.Directory?
  {
    var d :| d in items && d.path == item.path && d.what.Directory?;
    FindUnique(items, d);
    FindUnique(items, item);
  }

  // ---------------------------------------------------------------------------
  // The tree mirrors what has been written so far
  // ---------------------------------------------------------------------------

  predicate IsMarker(host: LayerApply.Host, n: Node) {
    if host.mknod then n.CharDevice? && n.meta == LayerApply.MARKER_META && n.rdev == 0
    else n.Regular? && n.meta == LayerApply.MARKER_META && n.whiteout == LayerApply.OverlayAttr(host)
  }

  /** The node an own file or symbolic link comes out as, up to its inode. */
  predicate IsLeafOf(n: Node, h: Header) {
    if h.kind.RegKind?
    then n.Regular? && n.meta == LayerApply.TarMeta(h) && n.content == h.content && n.whiteout == NoAttr
    else n.Symlink? && n.link.Numbered? && n.meta == Meta(h.meta.uid, h.meta.gid, 511) && n.text == h.link
  }

  function Inode(n: Node): nat {
    match n
    case Dir(_, _) => 0
    case Regular(i, _, _, _) => i
    case Symlink(Numbered(i), _, _) => i
    case Symlink(OwnInode(_), _, _) => 0
    case CharDevice(i, _, _) => i
    case OtherSpecial(i, _) => i
  }

  function MarkAttr(host: LayerApply.Host, events: seq<Event>, item: Item): Attr {
    if OpaqueMark(item) in events then LayerApply.OverlayAttr(host) else NoAttr
  }

  predicate NodeMirrors(host: LayerApply.Host, events: seq<Event>, tree: Tree, item: Item, deleted: bool) {
    item.path in tree &&
    if deleted then IsMarker(host, tree[item.path])
    else match item.what
      case Deletion => false
      case Directory(_) => tree[item.path] == Dir(LayerApply.TarMeta(item.header), MarkAttr(host, events, item))
      case Leaf => IsLeafOf(tree[item.path], item.header)
      case HardLink(target) => target in tree && tree[item.path] == tree[target] && !tree[item.path].Dir?
  }

  /** Written entries are in place. */
  ghost predicate EntriesInPlace(host: LayerApply.Host, events: seq<Event>, tree: Tree) {
    forall item, deleted | Entry(item, deleted) in events && item.path != [] :: NodeMirrors(host, events, tree, item, deleted)
  }

  /** Anything else in the tree is a directory implied ahead of its own entry. */
  ghost predicate RestIsImplied(items: seq<Item>, events: seq<Event>, d: LayerApply.Disk) {
    && (forall p | p in d.tree && p != [] && !HasEntry(events, p) ::
          d.tree[p] == Dir(LayerApply.DEFAULT_META, NoAttr) && HasDirectory(items, p))
    && (forall p :: p in d.implicit <==> p in d.tree && p != [] && !HasEntry(events, p))
  }

  /** Different files have different inodes. */
  ghost predicate InodesDistinct(events: seq<Event>, tree: Tree, next: nat) {
    forall a | Entry(a, false) in events && a.what.Leaf? && a.path in tree ::
      && Inode(tree[a.path]) < next
      && forall b | Entry(b, false) in events && b.what.Leaf? && b.path in tree && b != a ::
           Inode(tree[a.path]) != Inode(tree[b.path])
  }

  ghost predicate RootInPlace(host: LayerApply.Host, items: seq<Item>, events: seq<Event>, x: LayerApply.Extraction) {
    && [] in x.disk.tree
    && match Find(items, [])
       case None => x.root == None && x.disk.tree[[]] == Dir(LayerApply.DEFAULT_META, NoAttr)
       case Some(r) =>
         && x.root == (if HasEntry(events, []) then Some(LayerApply.TarMeta(r.header)) else None)
         && x.disk.tree[[]] == Dir(LayerApply.DEFAULT_META, MarkAttr(host, events, r))
  }

  ghost predicate Mirrors(host: LayerApply.Host, items: seq<Item>, events: seq<Event>, x: LayerApply.Extraction) {
    && WellFormed(x.disk.tree)
    && EntriesInPlace(host, events, x.disk.tree)
    && RestIsImplied(items, events, x.disk)
    && InodesDistinct(events, x.disk.tree, x.next)
    && RootInPlace(host, items, events, x)
  }

  // ---------------------------------------------------------------------------
  // Making room
  // ---------------------------------------------------------------------------

  lemma {:induction false} EnsureSucceeds(d: LayerApply.Disk, p: Path)
    requires WellFormed(d.tree) && forall k | 0 <= k <= |p| :: p[..k] in d.tree ==> d.tree[p[..k]].Dir?
    ensures LayerApply.EnsureDir(d, p).Ok?
    decreases |p|
  {
    if p != [] {
      var up := Parent(p);
      assert forall k | 0 <= k <= |up| :: up[..k] == p[..k];
      EnsureSucceeds(d, up);
      LayerApply.EnsureExtends(d, up);
      assert p[..|p|] == p;
    }
  }

  ghost predicate AllDirectories(items: seq<Item>, p: Path) {
    forall k | 0 < k <= |p| :: HasDirectory(items, p[..k])
  }

  lemma DirectoryNodeIsDir(host: LayerApply.Host, items: seq<Item>, events: seq<Event>, x: LayerApply.Extraction, p: Path)
    requires UniquePaths(items) && Orderly(events) && DrawnFrom(events, items) && Mirrors(host, items, events, x)
    requires p in x.disk.tree && p != [] && HasDirectory(items, p)
    ensures x.disk.tree[p].Dir?
  {
    if HasEntry(events, p) {
      var ev :| ev in events && ev.Entry? && ev.item.path == p;
      DirectoryItem(items, ev.item);
      var i :| 0 <= i < |events| && events[i] == ev;
      assert MayFollow(events[..i], events[i]);
      assert Entry(ev.item, false) in events;
    }
  }

  lemma MakingRoom(host: LayerApply.Host, items: seq<Item>, events: seq<Event>, x: LayerApply.Extraction, dir: Path)
    requires UniquePaths(items) && Orderly(events) && DrawnFrom(events, items) && Mirrors(host, items, events, x)
    requires AllDirectories(items, dir)
    ensures LayerApply.EnsureDir(x.disk, dir).Ok?
    ensures var d := LayerApply.EnsureDir(x.disk, dir).value;
            && LayerApply.Extends(x.disk, d, dir)
            && Mirrors(host, items, events, x.(disk := d))
  {
    forall k | 0 <= k <= |dir| ensures dir[..k] in x.disk.tree ==> x.disk.tree[dir[..k]].Dir? {
      if k > 0 && dir[..k] in x.disk.tree {
        DirectoryNodeIsDir(host, items, events, x, dir[..k]);
      }
    }
    EnsureSucceeds(x.disk, dir);
    LayerApply.EnsureExtends(x.disk, dir);
    RoomMirrors(host, items, events, x, LayerApply.EnsureDir(x.disk, dir).value, dir);
  }

  lemma RoomMirrors(host: LayerApply.Host, items: seq<Item>, events: seq<Event>, x: LayerApply.Extraction,
                    d: LayerApply.Disk, dir: Path)
    requires Mirrors(host, items, events, x) && AllDirectories(items, dir) && LayerApply.Extends(x.disk, d, dir)
    ensures Mirrors(host, items, events, x.(disk := d))
  {
    assert EntriesInPlace(host, events, d.tree) by {
      forall item, deleted | Entry(item, deleted) in events && item.path != []
        ensures NodeMirrors(host, events, d.tree, item, deleted)
      {
        assert NodeMirrors(host, events, x.disk.tree, item, deleted);
      }
    }
    assert RestIsImplied(items, events, d) by {
      forall p | p in d.tree && p !in x.disk.tree ensures HasDirectory(items, p) && !HasEntry(events, p) {
        assert p == dir[..|p|];
        assert forall ev | ev in events && ev.Entry? && ev.item.path != [] ::
            ev == Entry(ev.item, ev.deleted) && ev.item.path in x.disk.tree;
      }
    }
    assert InodesDistinct(events, d.tree, x.next) by {
      forall a | Entry(a, false) in events && a.what.Leaf? && a.path in d.tree
        ensures a.path in x.disk.tree && d.tree[a.path] == x.disk.tree[a.path]
      {
        if a.path != [] { assert NodeMirrors(host, events, x.disk.tree, a, false); }
      }
    }
  }

  /** Where a new file goes there is nothing yet. */
  lemma NothingThere(host: LayerApply.Host, items: seq<Item>, events: seq<Event>, x: LayerApply.Extraction, item: Item)
    requires UniquePaths(items) && Mirrors(host, items, events, x)
    requires item in items && item.path != [] && !HasEntry(events, item.path) && !item.what.Directory?
    ensures item.path !in x.disk.tree
    ensures LayerApply.Without(x.disk.tree, item.path) == x.disk.tree
    ensures LayerApply.Discard(x.disk.implicit, item.path) == x.disk.implicit
  {
    var p := item.path;
    assert p !in x.disk.tree by {
      if p in x.disk.tree { DirectoryItem(items, item); }
    }
    forall q | q in x.disk.tree ensures !(p <= q) {
      if p <= q && p != q {
        assert q[..|p|] == p;
        PrefixesAreDirs(x.disk.tree, q, |p|);
      }
    }
  }

  // ---------------------------------------------------------------------------
  // Each event keeps the mirror
  // ---------------------------------------------------------------------------

  lemma EntriesKept(host: LayerApply.Host, events: seq<Event>, tree: Tree, item: Item, deleted: bool, n: Node)
    requires EntriesInPlace(host, events, tree) && item.path !in tree
    requires NodeMirrors(host, events, tree[item.path := n], item, deleted) && !n.Dir?
    ensures EntriesInPlace(host, events + [Entry(item, deleted)], tree[item.path := n])
  {
    var longer := events + [Entry(item, deleted)];
    assert forall other :: OpaqueMark(other) in longer <==> OpaqueMark(other) in events;
    forall other, d | Entry(other, d) in longer && other.path != []
      ensures NodeMirrors(host, longer, tree[item.path := n], other, d)
    {
      if Entry(other, d) in events {
        assert NodeMirrors(host, events, tree, other, d);
      }
    }
  }

  lemma InodesKept(events: seq<Event>, tree: Tree, next: nat, item: Item, deleted: bool, n: Node)
    requires InodesDistinct(events, tree, next) && item.path !in tree
    requires forall a | Entry(a, false) in events && a.what.Leaf? :: a.path in tree
    requires item.what.Leaf? ==> Inode(n) == next
    ensures InodesDistinct(events + [Entry(item, deleted)], tree[item.path := n], next + 1)
  {
    var longer, after := events + [Entry(item, deleted)], tree[item.path := n];
    forall a | Entry(a, false) in longer && a.what.Leaf? && a.path in after
      ensures if a == item then Inode(after[a.path]) == next
              else Entry(a, false) in events && a.path in tree && after[a.path] == tree[a.path] && Inode(tree[a.path]) < next
    {
    }
  }

  lemma RestKept(items: seq<Item>, events: seq<Event>, d: LayerApply.Disk, item: Item, deleted: bool, n: Node)
    requires RestIsImplied(items, events, d) && item.path !in d.tree
    ensures RestIsImplied(items, events + [Entry(item, deleted)], LayerApply.Disk(d.tree[item.path := n], d.implicit))
  {
    forall q ensures HasEntry(events + [Entry(item, deleted)], q) <==> HasEntry(events, q) || q == item.path {
      HasEntryExtend(events, Entry(item, deleted), q);
    }
  }

  lemma RootKept(host: LayerApply.Host, items: seq<Item>, events: seq<Event>, x: LayerApply.Extraction,
                 item: Item, deleted: bool, y: LayerApply.Extraction)
    requires RootInPlace(host, items, events, x) && item.path != []
    requires [] in y.disk.tree && y.disk.tree[[]] == x.disk.tree[[]] && y.root == x.root
    ensures RootInPlace(host, items, events + [Entry(item, deleted)], y)
  {
    HasEntryExtend(events, Entry(item, deleted), []);
  }

  lemma LeavesAreInTree(host: LayerApply.Host, items: seq<Item>, events: seq<Event>, tree: Tree)
    requires Upright(items) && DrawnFrom(events, items) && EntriesInPlace(host, events, tree)
    ensures forall a | Entry(a, false) in events && a.what.Leaf? :: a.path in tree
  {
    forall a | Entry(a, false) in events && a.what.Leaf? ensures a.path in tree {
      assert Entry(a, false).item in items && Sound(a);
      assert NodeMirrors(host, events, tree, a, false);
    }
  }

  lemma FreshPutWellFormed(t: Tree, p: Path, n: Node)
    requires WellFormed(t) && p !in t && p != [] && Parent(p) in t && t[Parent(p)].Dir?
    ensures WellFormed(t[p := n])
  {
  }

  lemma PlacedNode(host: LayerApply.Host, items: seq<Item>, events: seq<Event>, x: LayerApply.Extraction,
                   item: Item, deleted: bool, n: Node, needsUser: bool)
    requires Upright(items) && DrawnFrom(events, items) && Mirrors(host, items, events, x)
    requires item.path != [] && item.path !in x.disk.tree
    requires Parent(item.path) in x.disk.tree && x.disk.tree[Parent(item.path)].Dir?
    requires NodeMirrors(host, events, x.disk.tree[item.path := n], item, deleted) && !n.Dir?
    requires item.what.Leaf? ==> Inode(n) == x.next
    ensures Mirrors(host, items, events + [Entry(item, deleted)],
                    LayerApply.Extraction(LayerApply.Disk(x.disk.tree[item.path := n], x.disk.implicit),
                                          x.root, needsUser, x.next + 1))
  {
    FreshPutWellFormed(x.disk.tree, item.path, n);
    EntriesKept(host, events, x.disk.tree, item, deleted, n);
    LeavesAreInTree(host, items, events, x.disk.tree);
    InodesKept(events, x.disk.tree, x.next, item, deleted, n);
    RestKept(items, events, x.disk, item, deleted, n);
    RootKept(host, items, events, x, item, deleted,
             LayerApply.Extraction(LayerApply.Disk(x.disk.tree[item.path := n], x.disk.implicit), x.root, needsUser, x.next + 1));
  }

  // ---------------------------------------------------------------------------
  // Reading rendered headers back
  // ---------------------------------------------------------------------------

  lemma StrippedReadsBack(item: Item)
    requires Sound(item)
    ensures CleanArchivePath(Stripped(item).name) == item.path
    ensures item.what.HardLink? ==> CleanArchivePath(Stripped(item).link) == item.what.target
    ensures LayerApply.TarMeta(Stripped(item)) == LayerApply.TarMeta(item.header)
  {
    CleanJoin(item.path);
    assert Join(item.path) + "" == Join(item.path);
    if item.what.HardLink? { CleanJoin(item.what.target); }
  }

  lemma WhiteoutReadsBack(item: Item)
    requires Sound(item) && item.path != [] && NoNul(item.path) && Base(item.path) != MARKER_TAIL
    ensures var p := CleanArchivePath(WhiteoutHeader(item).name);
            p != [] && IsWhiteoutName(Base(p)) && Parent(p) == Parent(item.path) && WhiteoutPath(p) == Ok(HideName(item.path))
  {
    WhiteoutNameInverts(item.path);
    CleanJoin(WhiteoutNameOf(item.path));
  }

  lemma MarkerReadsBack(item: Item)
    requires Sound(item) && NoNul(item.path)
    ensures var p := CleanArchivePath(MarkerHeader(item).name);
            p != [] && IsWhiteoutName(Base(p)) && Parent(p) == item.path && WhiteoutPath(p) == Ok(HideOlder(item.path))
  {
    OpaqueMarkerReadsBack(item.path);
    CleanJoin(item.path + [OPAQUE_MARKER]);
  }

  // ---------------------------------------------------------------------------
  // One event at a time
  // ---------------------------------------------------------------------------

  /** The events so far, and the next one. */
  ghost predicate AtEvent(host: LayerApply.Host, items: seq<Item>, events: seq<Event>, x: LayerApply.Extraction, ev: Event) {
    && Upright(items) && Orderly(events) && DrawnFrom(events, items) && Mirrors(host, items, events, x)
    && LayerApply.OverlayAttr(host).Attr?
    && ev.item in items && MayFollow(events, ev)
  }

  /** An entry is written as a deletion exactly when its chain ends at one, so its name is plain. */
  lemma EventName(host: LayerApply.Host, items: seq<Item>, events: seq<Event>, x: LayerApply.Extraction, ev: Event)
    requires AtEvent(host, items, events, x, ev) && ev.Entry? && ev.item.path != []
    ensures NoNul(ev.item.path)
    ensures if ev.deleted then Base(ev.item.path) != MARKER_TAIL else !IsWhiteoutName(Base(ev.item.path))
  {
    var more := events + [ev];
    OrderlyExtend(events, ev);
    WrittenMeansChainEnd(items, more, |events|);
    var e :| EndsAt(items, ev.item.path, e) && (ev.deleted <==> e.what.Deletion?);
    forall f | EndsAt(items, ev.item.path, f) ensures f == e { EndUnique(items, ev.item.path, e, f); }
    assert PlainName(items, ev.item.path);
  }

  lemma ParentsAreDirectories(items: seq<Item>, item: Item)
    requires TreeShaped(items) && item in items && item.path != []
    ensures AllDirectories(items, Parent(item.path))
    ensures item.what.Directory? ==> AllDirectories(items, item.path)
  {
    var up := Parent(item.path);
    forall k | 0 < k <= |up| ensures HasDirectory(items, up[..k]) {
      AncestorsAreDirectories(items, item.path, k);
      assert up[..k] == item.path[..k];
    }
    if item.what.Directory? {
      forall k | 0 < k <= |item.path| ensures HasDirectory(items, item.path[..k]) {
        if k < |item.path| { AncestorsAreDirectories(items, item.path, k); } else { assert item.path[..k] == item.path; }
      }
    }
  }

  /** The state with the parents of a new name in place, and nothing at the name itself. */
  lemma RoomForFile(host: LayerApply.Host, items: seq<Item>, events: seq<Event>, x: LayerApply.Extraction, ev: Event)
    requires AtEvent(host, items, events, x, ev) && ev.Entry? && ev.item.path != [] && !ev.item.what.Directory?
    ensures LayerApply.EnsureDir(x.disk, Parent(ev.item.path)).Ok?
    ensures var d := LayerApply.EnsureDir(x.disk, Parent(ev.item.path)).value;
            var p := ev.item.path;
            && Mirrors(host, items, events, x.(disk := d))
            && Parent(p) in d.tree && d.tree[Parent(p)].Dir? && p !in d.tree
            && LayerApply.Without(d.tree, p) == d.tree && LayerApply.Discard(d.implicit, p) == d.implicit
  {
    ParentsAreDirectories(items, ev.item);
    MakingRoom(host, items, events, x, Parent(ev.item.path));
    var d := LayerApply.EnsureDir(x.disk, Parent(ev.item.path)).value;
    NothingThere(host, items, events, x.(disk := d), ev.item);
  }

  lemma DeletionStep(host: LayerApply.Host, items: seq<Item>, events: seq<Event>, x: LayerApply.Extraction, ev: Event)
    requires AtEvent(host, items, events, x, ev) && ev.Entry? && ev.deleted && ev.item.path != []
    ensures var r := LayerApply.Step(host, x, Render(ev)); r.Ok? && Mirrors(host, items, events + [ev], r.value)
  {
    var item := ev.item;
    RoomForFile(host, items, events, x, ev);
    var d := LayerApply.EnsureDir(x.disk, Parent(item.path)).value;
    var attr := LayerApply.OverlayAttr(host);
    var n := if host.mknod then CharDevice(x.next, LayerApply.MARKER_META, 0)
             else Regular(x.next, LayerApply.MARKER_META, EMPTY_CONTENT, attr);
    assert !item.what.Leaf?;
    PlacedNode(host, items, events, x.(disk := d), item, true, n,
               if host.mknod then x.needsUser else x.needsUser || !attr.qualified);
    WhiteoutSteps(host, x, item, d);
  }

  /** The whiteout of a name that is not there puts a marker there. */
  lemma WhiteoutSteps(host: LayerApply.Host, x: LayerApply.Extraction, item: Item, d: LayerApply.Disk)
    requires Sound(item) && item.path != [] && NoNul(item.path) && Base(item.path) != MARKER_TAIL
    requires LayerApply.OverlayAttr(host).Attr? && LayerApply.EnsureDir(x.disk, Parent(item.path)) == Ok(d)
    requires LayerApply.Without(d.tree, item.path) == d.tree && LayerApply.Discard(d.implicit, item.path) == d.implicit
    ensures var attr := LayerApply.OverlayAttr(host);
            var n := if host.mknod then CharDevice(x.next, LayerApply.MARKER_META, 0)
                     else Regular(x.next, LayerApply.MARKER_META, EMPTY_CONTENT, attr);
            LayerApply.Step(host, x, WhiteoutHeader(item)) ==
            Ok(LayerApply.Extraction(LayerApply.Disk(d.tree[item.path := n], d.implicit), x.root,
                                     if host.mknod then x.needsUser else x.needsUser || !attr.qualified, x.next + 1))
  {
    WhiteoutReadsBack(item);
    assert LayerApply.Step(host, x, WhiteoutHeader(item)) ==
           LayerApply.WhiteoutStep(host, x, HideName(item.path), Parent(item.path));
  }

  /** A name that is no whiteout is read as an entry. */
  lemma EntrySteps(host: LayerApply.Host, items: seq<Item>, events: seq<Event>, x: LayerApply.Extraction, ev: Event)
    requires AtEvent(host, items, events, x, ev) && ev.Entry? && !ev.deleted && ev.item.path != []
    ensures LayerApply.Step(host, x, Render(ev)) == LayerApply.EntryStep(host, x, Stripped(ev.item), ev.item.path)
  {
    EventName(host, items, events, x, ev);
    assert Sound(ev.item);
    StepsAsEntry(host, x, ev.item);
  }

  lemma StepsAsEntry(host: LayerApply.Host, x: LayerApply.Extraction, item: Item)
    requires Sound(item) && item.path != [] && !IsWhiteoutName(Base(item.path))
    ensures LayerApply.Step(host, x, Stripped(item)) == LayerApply.EntryStep(host, x, Stripped(item), item.path)
  {
    StrippedReadsBack(item);
  }

  lemma FileStep(host: LayerApply.Host, items: seq<Item>, events: seq<Event>, x: LayerApply.Extraction, ev: Event, n: Node)
    requires AtEvent(host, items, events, x, ev) && ev.Entry? && !ev.deleted && ev.item.path != [] && !ev.item.what.Directory?
    requires var d := LayerApply.EnsureDir(x.disk, Parent(ev.item.path));
             d.Ok? && LayerApply.LeafNode(host, d.value.tree, Stripped(ev.item), x.next) == Ok(n)
             && NodeMirrors(host, events, d.value.tree[ev.item.path := n], ev.item, false)
    requires !n.Dir? && (ev.item.what.Leaf? ==> Inode(n) == x.next)
    ensures var r := LayerApply.Step(host, x, Render(ev)); r.Ok? && Mirrors(host, items, events + [ev], r.value)
  {
    var item := ev.item;
    RoomForFile(host, items, events, x, ev);
    StrippedReadsBack(item);
    var d := LayerApply.EnsureDir(x.disk, Parent(item.path)).value;
    PlacedNode(host, items, events, x.(disk := d), item, false, n, x.needsUser);
    EntrySteps(host, items, events, x, ev);
  }

  lemma LeafStep(host: LayerApply.Host, items: seq<Item>, events: seq<Event>, x: LayerApply.Extraction, ev: Event)
    requires AtEvent(host, items, events, x, ev) && ev.Entry? && ev.item.what.Leaf?
    ensures var r := LayerApply.Step(host, x, Render(ev)); r.Ok? && Mirrors(host, items, events + [ev], r.value)
  {
    assert Sound(ev.item);
    RoomForFile(host, items, events, x, ev);
    StrippedReadsBack(ev.item);
    var d := LayerApply.EnsureDir(x.disk, Parent(ev.item.path)).value;
    var n := LayerApply.LeafNode(host, d.tree, Stripped(ev.item), x.next).value;
    FileStep(host, items, events, x, ev, n);
  }

  /** The entry a link follows. */
  lemma LinkTargetWritten(host: LayerApply.Host, items: seq<Item>, events: seq<Event>, x: LayerApply.Extraction, ev: Event)
    returns (before: Item)
    requires AtEvent(host, items, events, x, ev) && ev.Entry? && !ev.deleted && ev.item.what.HardLink?
    ensures before in items && before.path == ev.item.what.target && Entry(before, false) in events
    ensures !before.what.Deletion?
  {
    var b :| b in events && b.Entry? && b.item.path == ev.item.what.target && b.deleted == ev.deleted;
    before := b.item;
    var i :| 0 <= i < |events| && events[i] == b;
    assert MayFollow(events[..i], events[i]);
    assert b == Entry(before, false);
  }

  lemma LinkStep(host: LayerApply.Host, items: seq<Item>, events: seq<Event>, x: LayerApply.Extraction, ev: Event)
    requires AtEvent(host, items, events, x, ev) && ev.Entry? && !ev.deleted && ev.item.what.HardLink?
    requires !HasDirectory(items, ev.item.what.target)
    ensures var r := LayerApply.Step(host, x, Render(ev)); r.Ok? && Mirrors(host, items, events + [ev], r.value)
  {
    assert Sound(ev.item);
    var before := LinkTargetWritten(host, items, events, x, ev);
    assert Sound(before) && !before.what.Directory?;
    RoomForFile(host, items, events, x, ev);
    StrippedReadsBack(ev.item);
    var d := LayerApply.EnsureDir(x.disk, Parent(ev.item.path)).value;
    assert NodeMirrors(host, events, d.tree, before, false);
    var n := d.tree[before.path];
    FileStep(host, items, events, x, ev, n);
  }

  /** A link to a directory cannot be extracted. */
  lemma LinkToDirectoryFails(host: LayerApply.Host, items: seq<Item>, events: seq<Event>, x: LayerApply.Extraction, ev: Event)
    requires AtEvent(host, items, events, x, ev) && ev.Entry? && !ev.deleted && ev.item.what.HardLink?
    requires HasDirectory(items, ev.item.what.target)
    ensures LayerApply.Step(host, x, Render(ev)).Err?
  {
    assert Sound(ev.item);
    var before := LinkTargetWritten(host, items, events, x, ev);
    DirectoryItem(items, before);
    RoomForFile(host, items, events, x, ev);
    StrippedReadsBack(ev.item);
    var d := LayerApply.EnsureDir(x.disk, Parent(ev.item.path)).value;
    if before.path != [] {
      assert NodeMirrors(host, events, d.tree, before, false);
    }
    EntrySteps(host, items, events, x, ev);
  }

  lemma NoMarkBeforeEntry(events: seq<Event>, item: Item)
    requires Orderly(events) && !HasEntry(events, item.path)
    ensures OpaqueMark(item) !in events
  {
    forall i | 0 <= i < |events| ensures events[i] != OpaqueMark(item) {
      assert MayFollow(events[..i], events[i]);
      assert Entry(item, false) in events ==> HasEntry(events, item.path);
    }
  }

  /** Giving a directory its metadata or its marker leaves the other entries in place. */
  lemma DirUpdateKeepsEntries(host: LayerApply.Host, events: seq<Event>, later: seq<Event>, tree: Tree, item: Item, n: Node)
    requires EntriesInPlace(host, events, tree) && item.path in tree && tree[item.path].Dir? && n.Dir?
    requires forall other, d :: Entry(other, d) in later ==> other == item || Entry(other, d) in events
    requires forall other :: OpaqueMark(other) in later ==> other == item || OpaqueMark(other) in events
    requires forall ev :: ev in events ==> ev in later
    requires forall other, d | Entry(other, d) in events && other != item :: other.path != item.path
    requires Entry(item, true) !in later && item.what.Directory?
    requires n == Dir(LayerApply.TarMeta(item.header), MarkAttr(host, later, item))
    ensures EntriesInPlace(host, later, tree[item.path := n])
  {
    forall other, d | Entry(other, d) in later && other.path != []
      ensures NodeMirrors(host, later, tree[item.path := n], other, d)
    {
      if other != item {
        assert NodeMirrors(host, events, tree, other, d);
      }
    }
  }

  lemma DirUpdateKeepsInodes(events: seq<Event>, later: seq<Event>, tree: Tree, next: nat, item: Item, n: Node)
    requires InodesDistinct(events, tree, next) && item.path in tree && item.what.Directory?
    requires forall other :: Entry(other, false) in later ==> other == item || Entry(other, false) in events
    requires forall other | Entry(other, false) in events && other.what.Leaf? :: other.path != item.path
    ensures InodesDistinct(later, tree[item.path := n], next + 1)
  {
  }

  lemma OthersElsewhere(items: seq<Item>, events: seq<Event>, item: Item)
    requires UniquePaths(items) && DrawnFrom(events, items) && item in items
    ensures forall other, d | Entry(other, d) in events && other != item :: other.path != item.path
  {
    forall other, d | Entry(other, d) in events && other != item ensures other.path != item.path {
      assert Entry(other, d).item in items;
      FindUnique(items, other);
      FindUnique(items, item);
    }
  }

  lemma NeverDeleted(items: seq<Item>, events: seq<Event>, item: Item)
    requires Orderly(events) && item.what.Directory?
    ensures Entry(item, true) !in events
  {
    forall i | 0 <= i < |events| ensures events[i] != Entry(item, true) {
      assert MayFollow(events[..i], events[i]);
    }
  }

  lemma PlacedDirectory(host: LayerApply.Host, items: seq<Item>, events: seq<Event>, x: LayerApply.Extraction, item: Item)
    requires Upright(items) && Orderly(events) && DrawnFrom(events, items) && Mirrors(host, items, events, x)
    requires item in items && item.what.Directory? && item.path != [] && item.path in x.disk.tree
    requires !HasEntry(events, item.path)
    ensures x.disk.tree[item.path] == Dir(LayerApply.DEFAULT_META, NoAttr)
    ensures Mirrors(host, items, events + [Entry(item, false)],
                    LayerApply.Extraction(
                      LayerApply.Disk(x.disk.tree[item.path := Dir(LayerApply.TarMeta(item.header), NoAttr)],
                                      x.disk.implicit - {item.path}),
                      x.root, x.needsUser, x.next + 1))
  {
    var p, later := item.path, events + [Entry(item, false)];
    var n := Dir(LayerApply.TarMeta(item.header), NoAttr);
    NoMarkBeforeEntry(events, item);
    NeverDeleted(items, events, item);
    OthersElsewhere(items, events, item);
    DirUpdateKeepsEntries(host, events, later, x.disk.tree, item, n);
    DirUpdateKeepsInodes(events, later, x.disk.tree, x.next, item, n);
    forall q ensures HasEntry(later, q) <==> HasEntry(events, q) || q == p {
      HasEntryExtend(events, Entry(item, false), q);
    }
    DirUpdateWellFormed(x.disk.tree, p, n);
    assert RestIsImplied(items, later, LayerApply.Disk(x.disk.tree[p := n], x.disk.implicit - {p}));
    RootKept(host, items, events, x, item, false,
             LayerApply.Extraction(LayerApply.Disk(x.disk.tree[p := n], x.disk.implicit - {p}), x.root, x.needsUser, x.next + 1));
  }

  lemma DirUpdateWellFormed(t: Tree, p: Path, n: Node)
    requires WellFormed(t) && p in t && t[p].Dir? && n.Dir?
    ensures WellFormed(t[p := n])
  {
  }

  lemma DirectoryStep(host: LayerApply.Host, items: seq<Item>, events: seq<Event>, x: LayerApply.Extraction, ev: Event)
    requires AtEvent(host, items, events, x, ev) && ev.Entry? && ev.item.what.Directory? && ev.item.path != []
    ensures var r := LayerApply.Step(host, x, Render(ev)); r.Ok? && Mirrors(host, items, events + [ev], r.value)
  {
    var item := ev.item;
    assert Sound(item);
    ParentsAreDirectories(items, item);
    MakingRoom(host, items, events, x, Parent(item.path));
    var d := LayerApply.EnsureDir(x.disk, Parent(item.path)).value;
    MakingRoom(host, items, events, x.(disk := d), item.path);
    var own := LayerApply.EnsureDir(d, item.path).value;
    PlacedDirectory(host, items, events, x.(disk := own), item);
    StrippedReadsBack(item);
    assert ev == Entry(item, false);
    EntrySteps(host, items, events, x, ev);
  }

  lemma RootStep(host: LayerApply.Host, items: seq<Item>, events: seq<Event>, x: LayerApply.Extraction, ev: Event)
    requires AtEvent(host, items, events, x, ev) && ev.Entry? && ev.item.path == []
    ensures var r := LayerApply.Step(host, x, Render(ev)); r.Ok? && Mirrors(host, items, events + [ev], r.value)
  {
    var item := ev.item;
    assert Sound(item);
    StrippedReadsBack(item);
    FindUnique(items, item);
    var later := events + [ev];
    forall q ensures HasEntry(later, q) <==> HasEntry(events, q) || q == [] {
      HasEntryExtend(events, ev, q);
    }
    var y := x.(root := Some(LayerApply.TarMeta(item.header)));
    assert LayerApply.Step(host, x, Render(ev)) == Ok(y);
    assert forall other :: OpaqueMark(other) in later <==> OpaqueMark(other) in events;
    forall other, d | Entry(other, d) in later && other.path != []
      ensures NodeMirrors(host, later, x.disk.tree, other, d)
    {
      assert NodeMirrors(host, events, x.disk.tree, other, d);
    }
  }

  /** The marker of a directory that is there sets its attribute. */
  lemma MarkerSteps(host: LayerApply.Host, x: LayerApply.Extraction, item: Item)
    requires Sound(item) && NoNul(item.path) && LayerApply.OverlayAttr(host).Attr?
    requires WellFormed(x.disk.tree) && item.path in x.disk.tree && x.disk.tree[item.path].Dir?
    ensures var p, attr := item.path, LayerApply.OverlayAttr(host);
            LayerApply.Step(host, x, MarkerHeader(item)) ==
            Ok(LayerApply.Extraction(LayerApply.Disk(x.disk.tree[p := Dir(x.disk.tree[p].meta, attr)], x.disk.implicit), x.root,
                                     x.needsUser || !attr.qualified, x.next + 1))
  {
    MarkerReadsBack(item);
    LayerApply.EnsureExisting(x.disk, item.path);
    assert LayerApply.Step(host, x, MarkerHeader(item)) == LayerApply.WhiteoutStep(host, x, HideOlder(item.path), item.path);
  }

  lemma MarkStep(host: LayerApply.Host, items: seq<Item>, events: seq<Event>, x: LayerApply.Extraction, ev: Event)
    requires AtEvent(host, items, events, x, ev) && ev.OpaqueMark?
    ensures var r := LayerApply.Step(host, x, Render(ev)); r.Ok? && Mirrors(host, items, events + [ev], r.value)
  {
    var item, attr := ev.item, LayerApply.OverlayAttr(host);
    assert Sound(item);
    var p := item.path;
    if p != [] { assert NodeMirrors(host, events, x.disk.tree, item, false); }
    var n := Dir(x.disk.tree[p].meta, attr);
    var y := LayerApply.Extraction(LayerApply.Disk(x.disk.tree[p := n], x.disk.implicit), x.root,
                                   x.needsUser || !attr.qualified, x.next + 1);
    MarkerSteps(host, x, item);
    MarkKeepsMirror(host, items, events, x, item, n, y);
  }

  lemma MarkKeepsMirror(host: LayerApply.Host, items: seq<Item>, events: seq<Event>, x: LayerApply.Extraction,
                        item: Item, n: Node, y: LayerApply.Extraction)
    requires AtEvent(host, items, events, x, OpaqueMark(item))
    requires item.path in x.disk.tree && x.disk.tree[item.path].Dir?
    requires n == Dir(x.disk.tree[item.path].meta, LayerApply.OverlayAttr(host))
    requires y.disk == LayerApply.Disk(x.disk.tree[item.path := n], x.disk.implicit) && y.root == x.root && y.next == x.next + 1
    ensures Mirrors(host, items, events + [OpaqueMark(item)], y)
  {
    var later := events + [OpaqueMark(item)];
    assert Sound(item);
    NeverDeleted(items, events, item);
    OthersElsewhere(items, events, item);
    DirUpdateWellFormed(x.disk.tree, item.path, n);
    DirUpdateKeepsInodes(events, later, x.disk.tree, x.next, item, n);
    MarkKeepsRest(items, events, x.disk, item, n);
    if item.path != [] {
      assert NodeMirrors(host, events, x.disk.tree, item, false);
      DirUpdateKeepsEntries(host, events, later, x.disk.tree, item, n);
      MarkKeepsRoot(host, items, events, x, item, y);
    } else {
      RootMarkKeepsEntries(host, events, x.disk.tree, item, n);
      RootMarked(host, items, events, x, item, y);
    }
  }

  lemma MarkKeepsRest(items: seq<Item>, events: seq<Event>, d: LayerApply.Disk, item: Item, n: Node)
    requires RestIsImplied(items, events, d) && item.path in d.tree && Entry(item, false) in events
    ensures RestIsImplied(items, events + [OpaqueMark(item)], LayerApply.Disk(d.tree[item.path := n], d.implicit))
  {
    assert HasEntry(events, item.path);
    forall q ensures HasEntry(events + [OpaqueMark(item)], q) <==> HasEntry(events, q) {
      HasEntryExtend(events, OpaqueMark(item), q);
    }
  }

  lemma RootMarkKeepsEntries(host: LayerApply.Host, events: seq<Event>, tree: Tree, item: Item, n: Node)
    requires EntriesInPlace(host, events, tree) && item.path == [] && [] in tree && tree[[]].Dir?
    ensures EntriesInPlace(host, events + [OpaqueMark(item)], tree[[] := n])
  {
    var later := events + [OpaqueMark(item)];
    forall other, d | Entry(other, d) in later && other.path != []
      ensures NodeMirrors(host, later, tree[[] := n], other, d)
    {
      assert NodeMirrors(host, events, tree, other, d);
    }
  }

  lemma RootMarked(host: LayerApply.Host, items: seq<Item>, events: seq<Event>, x: LayerApply.Extraction,
                   item: Item, y: LayerApply.Extraction)
    requires UniquePaths(items) && item in items && item.path == [] && RootInPlace(host, items, events, x)
    requires y.root == x.root && [] in y.disk.tree
    requires y.disk.tree[[]] == Dir(x.disk.tree[[]].meta, LayerApply.OverlayAttr(host))
    requires MarkAttr(host, events + [OpaqueMark(item)], item) == LayerApply.OverlayAttr(host)
    ensures RootInPlace(host, items, events + [OpaqueMark(item)], y)
  {
    FindUnique(items, item);
    HasEntryExtend(events, OpaqueMark(item), []);
  }

  lemma MarkKeepsRoot(host: LayerApply.Host, items: seq<Item>, events: seq<Event>, x: LayerApply.Extraction,
                      item: Item, y: LayerApply.Extraction)
    requires RootInPlace(host, items, events, x) && item.path != []
    requires [] in y.disk.tree && y.disk.tree[[]] == x.disk.tree[[]] && y.root == x.root
    ensures RootInPlace(host, items, events + [OpaqueMark(item)], y)
  {
    HasEntryExtend(events, OpaqueMark(item), []);
    FindMember(items, []);
  }

  // ---------------------------------------------------------------------------
  // The whole layer
  // ---------------------------------------------------------------------------

  lemma PrefixOrderly(events: seq<Event>, n: nat)
    requires Orderly(events) && n <= |events|
    ensures Orderly(events[..n])
  {
    forall i | 0 <= i < n ensures MayFollow(events[..n][..i], events[..n][i]) {
      assert events[..n][..i] == events[..i];
      assert MayFollow(events[..i], events[i]);
    }
  }

  /** Extraction fails at this event. */
  predicate LinksDirectory(items: seq<Item>, ev: Event) {
    ev.Entry? && ev.item.what.HardLink? && !ev.deleted && HasDirectory(items, ev.item.what.target)
  }

  lemma EventStep(host: LayerApply.Host, items: seq<Item>, events: seq<Event>, x: LayerApply.Extraction, ev: Event)
    requires AtEvent(host, items, events, x, ev)
    ensures var r := LayerApply.Step(host, x, Render(ev));
            if LinksDirectory(items, ev) then r.Err? else r.Ok? && Mirrors(host, items, events + [ev], r.value)
  {
    assert Sound(ev.item);
    if ev.OpaqueMark? {
      MarkStep(host, items, events, x, ev);
    } else if ev.item.path == [] {
      RootStep(host, items, events, x, ev);
    } else if ev.deleted {
      DeletionStep(host, items, events, x, ev);
    } else {
      match ev.item.what
      case Directory(_) => DirectoryStep(host, items, events, x, ev);
      case Leaf => LeafStep(host, items, events, x, ev);
      case HardLink(target) =>
        if HasDirectory(items, target) { LinkToDirectoryFails(host, items, events, x, ev); }
        else { LinkStep(host, items, events, x, ev); }
      case Deletion =>
        assert false;
    }
  }

  lemma NothingExtractedYet(host: LayerApply.Host, items: seq<Item>)
    ensures Mirrors(host, items, [], LayerApply.START)
  {
    FindMember(items, []);
  }

  lemma NextEvent(host: LayerApply.Host, items: seq<Item>, events: seq<Event>, n: nat, x: LayerApply.Extraction)
    requires Upright(items) && IsTranslation(items, events) && LayerApply.OverlayAttr(host).Attr? && n < |events|
    requires Mirrors(host, items, events[..n], x)
    ensures var r := LayerApply.Step(host, x, Render(events[n]));
            if LinksDirectory(items, events[n]) then r.Err? else r.Ok? && Mirrors(host, items, events[..n + 1], r.value)
  {
    PrefixAtEvent(host, items, events, n, x);
    OneEventMore(events, n);
    EventStepTo(host, items, events[..n], x, events[n], events[..n + 1]);
  }

  lemma OneEventMore(events: seq<Event>, n: nat)
    requires n < |events|
    ensures events[..n + 1] == events[..n] + [events[n]]
  {
  }

  lemma EventStepTo(host: LayerApply.Host, items: seq<Item>, events: seq<Event>, x: LayerApply.Extraction, ev: Event,
                    later: seq<Event>)
    requires AtEvent(host, items, events, x, ev) && later == events + [ev]
    ensures var r := LayerApply.Step(host, x, Render(ev));
            if LinksDirectory(items, ev) then r.Err? else r.Ok? && Mirrors(host, items, later, r.value)
  {
    EventStep(host, items, events, x, ev);
  }

  lemma PrefixAtEvent(host: LayerApply.Host, items: seq<Item>, events: seq<Event>, n: nat, x: LayerApply.Extraction)
    requires Upright(items) && IsTranslation(items, events) && LayerApply.OverlayAttr(host).Attr? && n < |events|
    requires Mirrors(host, items, events[..n], x)
    ensures AtEvent(host, items, events[..n], x, events[n])
  {
    PrefixOrderly(events, n);
    PrefixDrawn(items, events, n);
    assert MayFollow(events[..n], events[n]);
  }

  lemma PrefixDrawn(items: seq<Item>, events: seq<Event>, n: nat)
    requires DrawnFrom(events, items) && n < |events|
    ensures DrawnFrom(events[..n], items) && events[n].item in items
  {
    assert events[n] in events;
    assert forall ev | ev in events[..n] :: ev in events;
  }

  /** None of the first `n` events links to a directory. */
  ghost predicate NoLinkBefore(items: seq<Item>, events: seq<Event>, n: nat)
    requires n <= |events|
  {
    forall i | 0 <= i < n :: !LinksDirectory(items, events[i])
  }

  lemma RunsOn(host: LayerApply.Host, events: seq<Event>, n: nat, x: LayerApply.Extraction)
    requires n < |events| && LayerApply.Run(host, RenderAll(events)[..n]) == Ok(x)
    ensures LayerApply.Run(host, RenderAll(events)[..n + 1]) == LayerApply.Step(host, x, Render(events[n]))
  {
    LayerApply.RunStep(host, RenderAll(events), n);
  }

  /** What holds after the first `n` headers. */
  ghost predicate Extracted(host: LayerApply.Host, items: seq<Item>, events: seq<Event>, n: nat, x: LayerApply.Extraction)
    requires n <= |events|
  {
    LayerApply.Run(host, RenderAll(events)[..n]) == Ok(x) && Mirrors(host, items, events[..n], x)
  }

  lemma NoneExtracted(host: LayerApply.Host, items: seq<Item>, events: seq<Event>)
    ensures Extracted(host, items, events, 0, LayerApply.START)
  {
    NothingExtractedYet(host, items);
  }

  /** The first `n` headers extract to what the first `n` events say. */
  lemma {:induction false} ExtractedSoFar(host: LayerApply.Host, items: seq<Item>, events: seq<Event>, n: nat)
    returns (x: LayerApply.Extraction)
    requires Upright(items) && IsTranslation(items, events) && LayerApply.OverlayAttr(host).Attr? && n <= |events|
    requires NoLinkBefore(items, events, n)
    ensures Extracted(host, items, events, n, x)
  {
    if n == 0 {
      NoneExtracted(host, items, events);
      x := LayerApply.START;
    } else {
      var before := ExtractedSoFar(host, items, events, n - 1);
      x := ExtractNext(host, items, events, n - 1, before);
    }
  }

  lemma ExtractNext(host: LayerApply.Host, items: seq<Item>, events: seq<Event>, n: nat, x: LayerApply.Extraction)
    returns (y: LayerApply.Extraction)
    requires Upright(items) && IsTranslation(items, events) && LayerApply.OverlayAttr(host).Attr? && n < |events|
    requires Extracted(host, items, events, n, x) && !LinksDirectory(items, events[n])
    ensures Extracted(host, items, events, n + 1, y)
  {
    NextEvent(host, items, events, n, x);
    RunsOn(host, events, n, x);
    y := LayerApply.Step(host, x, Render(events[n])).value;
  }

  /** The first link to a directory stops the extraction. */
  lemma ExtractionStops(host: LayerApply.Host, items: seq<Item>, events: seq<Event>, n: nat)
    requires Upright(items) && IsTranslation(items, events) && LayerApply.OverlayAttr(host).Attr? && n < |events|
    requires LinksDirectory(items, events[n]) && NoLinkBefore(items, events, n)
    ensures LayerApply.Run(host, RenderAll(events)).Err?
  {
    StopsAt(host, items, events, n);
    NoRunPast(host, events, n);
  }

  lemma NoRunPast(host: LayerApply.Host, events: seq<Event>, n: nat)
    requires n < |events| && LayerApply.Run(host, RenderAll(events)[..n + 1]).Err?
    ensures LayerApply.Run(host, RenderAll(events)).Err?
  {
    LayerApply.RunFailsOnward(host, RenderAll(events), n + 1);
  }

  lemma StopsAt(host: LayerApply.Host, items: seq<Item>, events: seq<Event>, n: nat)
    requires Upright(items) && IsTranslation(items, events) && LayerApply.OverlayAttr(host).Attr? && n < |events|
    requires LinksDirectory(items, events[n]) && NoLinkBefore(items, events, n)
    ensures LayerApply.Run(host, RenderAll(events)[..n + 1]).Err?
  {
    var x := ExtractedSoFar(host, items, events, n);
    NextEvent(host, items, events, n, x);
    RunsOn(host, events, n, x);
  }

  lemma {:induction false} FirstLinkToDirectory(items: seq<Item>, events: seq<Event>, k: nat) returns (n: nat)
    requires k < |events| && LinksDirectory(items, events[k])
    ensures n < |events| && LinksDirectory(items, events[n]) && forall i | 0 <= i < n :: !LinksDirectory(items, events[i])
  {
    n := k;
    while exists i | 0 <= i < n :: LinksDirectory(items, events[i])
      invariant n < |events| && LinksDirectory(items, events[n])
      decreases n
    {
      var i :| 0 <= i < n && LinksDirectory(items, events[i]);
      n := i;
    }
  }

  /** The node of a name whose chain ends at e. */
  predicate RestoredNode(host: LayerApply.Host, n: Node, e: Item) {
    match e.what
    case Deletion => IsMarker(host, n)
    case Directory(older) =>
      n == Dir(LayerApply.TarMeta(e.header), if older then LayerApply.OverlayAttr(host) else NoAttr)
    case Leaf => IsLeafOf(n, e.header)
    case HardLink(_) => false
  }

  ghost predicate RestoresNames(items: seq<Item>, l: Layer) {
    && (forall p :: p in l.tree <==> p == [] || exists item | item in items :: item.path == p)
    && l.implicit == {}
  }

  ghost predicate RestoresNodes(host: LayerApply.Host, items: seq<Item>, l: Layer) {
    forall item, e | item in items && item.path != [] && EndsAt(items, item.path, e) ::
      item.path in l.tree && RestoredNode(host, l.tree[item.path], e)
  }

  ghost predicate RestoresSharing(items: seq<Item>, l: Layer) {
    forall a, b, e, f :: SharingAt(items, l.tree, a, b, e, f)
  }

  ghost predicate SharingAt(items: seq<Item>, tree: Tree, a: Item, b: Item, e: Item, f: Item) {
    a in items && b in items && EndsAt(items, a.path, e) && EndsAt(items, b.path, f) && e.what.Leaf? && f.what.Leaf? ==>
      SharedAs(tree, a.path, b.path, e == f)
  }

  predicate SharedAs(tree: Tree, p: Path, q: Path, same: bool) {
    p in tree && q in tree && (tree[p] == tree[q] <==> same)
  }

  ghost predicate RestoresRoot(host: LayerApply.Host, items: seq<Item>, l: Layer) {
    [] in l.tree &&
    match Find(items, [])
    case None => !l.hasRootMetadata && l.tree[[]] == Dir(LayerApply.DEFAULT_META, NoAttr)
    case Some(r) => l.hasRootMetadata && RestoredNode(host, l.tree[[]], r)
  }

  /** The layer is the upper: a name whose chain ends at a deletion is a whiteout and nothing
      else is, files share a node exactly when their chains end at the same entry, directories
      carry their metadata and are opaque exactly when the upper's were, nothing is implied. */
  ghost predicate RestoresUpper(host: LayerApply.Host, items: seq<Item>, l: Layer) {
    RestoresNames(items, l) && RestoresNodes(host, items, l) && RestoresSharing(items, l) && RestoresRoot(host, items, l)
  }

  lemma RootLinkNamesDirectory(items: seq<Item>, events: seq<Event>, i: nat, j: nat)
    requires Upright(items) && Orderly(events) && DrawnFrom(events, items)
    requires j < i < |events| && events[j].Entry? && events[j].item.path == []
    requires events[i].Entry? && events[i].item.what == HardLink([]) && events[i].deleted == events[j].deleted
    ensures LinksDirectory(items, events[i])
  {
    assert events[j] in events && Sound(events[j].item);
    assert MayFollow(events[..j], events[j]);
  }

  /** The tree at a written name is the tree at the end of its chain. */
  lemma {:induction false} NodeAtChainEnd(host: LayerApply.Host, items: seq<Item>, events: seq<Event>, x: LayerApply.Extraction, i: nat, e: Item)
    requires Upright(items) && Orderly(events) && DrawnFrom(events, items) && Mirrors(host, items, events, x)
    requires i < |events| && events[i].Entry? && events[i].item.path != [] && EndsAt(items, events[i].item.path, e)
    requires !LinksSomeDirectory(items, events)
    ensures var p := events[i].item.path;
            && p in x.disk.tree
            && (events[i].deleted <==> e.what.Deletion?)
            && (events[i].deleted ==> IsMarker(host, x.disk.tree[p]))
            && (!events[i].deleted ==>
                  e.path != [] && Entry(e, false) in events && e.path in x.disk.tree && x.disk.tree[p] == x.disk.tree[e.path])
    decreases i
  {
    var item := events[i].item;
    assert events[i] in events && Sound(item);
    assert events[i] == Entry(item, events[i].deleted);
    assert NodeMirrors(host, events, x.disk.tree, item, events[i].deleted);
    assert MayFollow(events[..i], events[i]);
    match item.what
    case HardLink(target) =>
      EndsThroughLink(items, item, e);
      var before :| before in events[..i] && before.Entry? && before.item.path == target && before.deleted == events[i].deleted;
      var j :| 0 <= j < i && events[j] == before;
      assert events[j] in events;
      if target == [] {
        RootLinkNamesDirectory(items, events, i, j);
        assert false;
      }
      NodeAtChainEnd(host, items, events, x, j, e);
    case _ =>
      EndsAtSelf(items, item);
      EndUnique(items, item.path, item, e);
  }

  ghost predicate LinksSomeDirectory(items: seq<Item>, events: seq<Event>) {
    exists i | 0 <= i < |events| :: LinksDirectory(items, events[i])
  }

  lemma EveryItemWritten(items: seq<Item>, events: seq<Event>, item: Item) returns (i: nat)
    requires UniquePaths(items) && IsTranslation(items, events) && item in items
    ensures i < |events| && events[i].Entry? && events[i].item == item
  {
    var ev :| ev in events && ev.Entry? && ev.item.path == item.path;
    FindUnique(items, ev.item);
    FindUnique(items, item);
    i :| 0 <= i < |events| && events[i] == ev;
  }

  lemma MarkedExactly(items: seq<Item>, events: seq<Event>, item: Item)
    requires IsTranslation(items, events) && item in items
    ensures OpaqueMark(item) in events <==> item.what == Directory(true)
  {
    if OpaqueMark(item) in events {
      var i :| 0 <= i < |events| && events[i] == OpaqueMark(item);
      assert MayFollow(events[..i], events[i]);
    }
  }

  /** The node restored at one name. */
  lemma RestoredAt(host: LayerApply.Host, items: seq<Item>, events: seq<Event>, x: LayerApply.Extraction, item: Item, e: Item)
    requires Upright(items) && IsTranslation(items, events) && Mirrors(host, items, events, x)
    requires !LinksSomeDirectory(items, events)
    requires item in items && item.path != [] && EndsAt(items, item.path, e)
    ensures item.path in x.disk.tree && RestoredNode(host, x.disk.tree[item.path], e)
    ensures e.what.Leaf? ==> Entry(e, false) in events && e.path in x.disk.tree && x.disk.tree[item.path] == x.disk.tree[e.path]
  {
    var i := EveryItemWritten(items, events, item);
    NodeAtChainEnd(host, items, events, x, i, e);
    var hops: nat :| End(items, item.path, hops) == Some(e);
    EndIsMember(items, item.path, hops);
    if !e.what.Deletion? {
      assert NodeMirrors(host, events, x.disk.tree, e, false);
      MarkedExactly(items, events, e);
    }
  }

  lemma DirectoryLinkIsWritten(items: seq<Item>, events: seq<Event>)
    requires Upright(items) && IsTranslation(items, events)
    ensures LinksSomeDirectory(items, events) <==> !NoLinkToDirectory(items)
  {
    if !NoLinkToDirectory(items) {
      var link :| link in items && link.what.HardLink? && HasDirectory(items, link.what.target);
      var i := EveryItemWritten(items, events, link);
      assert MayFollow(events[..i], events[i]);
      if events[i].deleted {
        var before :| before in events[..i] && before.Entry? && before.item.path == link.what.target && before.deleted;
        assert before in events;
        DirectoryItem(items, before.item);
        NeverDeleted(items, events, before.item);
      }
      assert LinksDirectory(items, events[i]);
    }
    if LinksSomeDirectory(items, events) {
      var i :| 0 <= i < |events| && LinksDirectory(items, events[i]);
      assert events[i] in events;
    }
  }

  lemma RestoredNames(host: LayerApply.Host, items: seq<Item>, events: seq<Event>, x: LayerApply.Extraction)
    requires Upright(items) && IsTranslation(items, events) && Mirrors(host, items, events, x)
    ensures forall p :: p in x.disk.tree <==> p == [] || exists item | item in items :: item.path == p
    ensures x.disk.implicit == {}
  {
    forall p | p != [] && p in x.disk.tree ensures HasEntry(events, p) && exists item | item in items :: item.path == p {
      assert !HasEntry(events, p) ==> HasDirectory(items, p);
      var ev :| ev in events && ev.Entry? && ev.item.path == p;
      assert ev.item in items;
    }
    forall item | item in items && item.path != [] ensures item.path in x.disk.tree {
      var i := EveryItemWritten(items, events, item);
      assert events[i] == Entry(item, events[i].deleted);
      assert NodeMirrors(host, events, x.disk.tree, item, events[i].deleted);
    }
  }

  lemma RestoredSharing(host: LayerApply.Host, items: seq<Item>, events: seq<Event>, x: LayerApply.Extraction,
                        a: Item, b: Item, e: Item, f: Item)
    requires Upright(items) && IsTranslation(items, events) && Mirrors(host, items, events, x)
    requires !LinksSomeDirectory(items, events)
    requires a in items && b in items && EndsAt(items, a.path, e) && EndsAt(items, b.path, f) && e.what.Leaf? && f.what.Leaf?
    ensures a.path != [] && b.path != [] && SharedAs(x.disk.tree, a.path, b.path, e == f)
  {
    LeafIsNotRoot(items, a, e);
    LeafIsNotRoot(items, b, f);
    RestoredAt(host, items, events, x, a, e);
    RestoredAt(host, items, events, x, b, f);
    if e != f {
      assert Inode(x.disk.tree[e.path]) != Inode(x.disk.tree[f.path]);
    }
  }

  lemma LeafIsNotRoot(items: seq<Item>, a: Item, e: Item)
    requires Upright(items) && a in items && EndsAt(items, a.path, e) && e.what.Leaf?
    ensures a.path != []
  {
    assert Sound(a);
    if a.path == [] {
      EndsAtSelf(items, a);
      EndUnique(items, a.path, a, e);
    }
  }

  /** Extracting a translated upper succeeds exactly when no hard link names a directory, and
      then gives back the upper. */
  lemma SnapshotLayerRestoresUpper(host: LayerApply.Host, items: seq<Item>, events: seq<Event>)
    requires Upright(items) && IsTranslation(items, events) && LayerApply.OverlayAttr(host).Attr?
    ensures LayerApply.Run(host, RenderAll(events)).Ok? <==> NoLinkToDirectory(items)
    ensures NoLinkToDirectory(items) ==>
              RestoresUpper(host, items, LayerApply.Finish(LayerApply.Run(host, RenderAll(events)).value))
  {
    DirectoryLinkIsWritten(items, events);
    if LinksSomeDirectory(items, events) {
      var k :| 0 <= k < |events| && LinksDirectory(items, events[k]);
      var n := FirstLinkToDirectory(items, events, k);
      ExtractionStops(host, items, events, n);
    } else {
      var x := ExtractedSoFar(host, items, events, |events|);
      assert events[..|events|] == events && RenderAll(events)[..|events|] == RenderAll(events);
      UpperRestored(host, items, events, x);
    }
  }

  lemma UpperRestored(host: LayerApply.Host, items: seq<Item>, events: seq<Event>, x: LayerApply.Extraction)
    requires Upright(items) && IsTranslation(items, events) && Mirrors(host, items, events, x)
    requires !LinksSomeDirectory(items, events)
    ensures RestoresUpper(host, items, LayerApply.Finish(x))
  {
    RestoredNames(host, items, events, x);
    NodesRestored(host, items, events, x);
    SharingRestored(host, items, events, x);
    RootRestored(host, items, events, x);
  }

  lemma NodesRestored(host: LayerApply.Host, items: seq<Item>, events: seq<Event>, x: LayerApply.Extraction)
    requires Upright(items) && IsTranslation(items, events) && Mirrors(host, items, events, x)
    requires !LinksSomeDirectory(items, events)
    ensures RestoresNodes(host, items, LayerApply.Finish(x))
  {
    var l := LayerApply.Finish(x);
    forall item, e | item in items && item.path != [] && EndsAt(items, item.path, e)
      ensures item.path in l.tree && RestoredNode(host, l.tree[item.path], e)
    {
      RestoredAt(host, items, events, x, item, e);
    }
  }

  lemma SharingRestored(host: LayerApply.Host, items: seq<Item>, events: seq<Event>, x: LayerApply.Extraction)
    requires Upright(items) && IsTranslation(items, events) && Mirrors(host, items, events, x)
    requires !LinksSomeDirectory(items, events)
    ensures RestoresSharing(items, LayerApply.Finish(x))
  {
    forall a, b, e, f ensures SharingAt(items, LayerApply.Finish(x).tree, a, b, e, f) {
      SharingRestoredAt(host, items, events, x, a, b, e, f);
    }
  }

  lemma SharingRestoredAt(host: LayerApply.Host, items: seq<Item>, events: seq<Event>, x: LayerApply.Extraction,
                          a: Item, b: Item, e: Item, f: Item)
    requires Upright(items) && IsTranslation(items, events) && Mirrors(host, items, events, x)
    requires !LinksSomeDirectory(items, events)
    ensures SharingAt(items, LayerApply.Finish(x).tree, a, b, e, f)
  {
    if a in items && b in items && EndsAt(items, a.path, e) && EndsAt(items, b.path, f) && e.what.Leaf? && f.what.Leaf? {
      RestoredSharing(host, items, events, x, a, b, e, f);
      FinishKeeps(x, a.path, b.path, e == f);
    }
  }

  /** Finishing a layer touches its root alone. */
  lemma FinishKeeps(x: LayerApply.Extraction, p: Path, q: Path, same: bool)
    requires SharedAs(x.disk.tree, p, q, same) && p != [] && q != []
    ensures SharedAs(LayerApply.Finish(x).tree, p, q, same)
  {
  }

  lemma RootRestored(host: LayerApply.Host, items: seq<Item>, events: seq<Event>, x: LayerApply.Extraction)
    requires Upright(items) && IsTranslation(items, events) && RootInPlace(host, items, events, x)
    ensures RestoresRoot(host, items, LayerApply.Finish(x))
  {
    FindMember(items, []);
    if Find(items, []).Some? {
      var r := Find(items, []).value;
      assert Sound(r);
      MarkedExactly(items, events, r);
      assert HasEntry(events, r.path);
    }
  }

  /** The same for the headers themselves: whatever the translator writes for a tree-shaped
      upper with plain names extracts to that upper. */
  lemma WrittenLayerRestoresUpper(host: LayerApply.Host, headers: seq<Header>, out: seq<Header>)
    requires AllRead(ReadUpper(headers)) && LayerApply.OverlayAttr(host).Attr?
    requires var items := ItemsOf(ReadUpper(headers));
             && UniquePaths(items) && TreeShaped(items) && NoNuls(items) && PlainNames(items)
             && exists events :: IsTranslation(items, events) && out == RenderAll(events)
    ensures var items := ItemsOf(ReadUpper(headers));
            && (LayerApply.Run(host, out).Ok? <==> NoLinkToDirectory(items))
            && (NoLinkToDirectory(items) ==> RestoresUpper(host, items, LayerApply.Finish(LayerApply.Run(host, out).value)))
  {
    var items := ItemsOf(ReadUpper(headers));
    forall item | item in items ensures Sound(item) {
      var i :| 0 <= i < |items| && items[i] == item;
      assert ReadUpper(headers)[i] == Ok(item);
      ReadItemsAreSound(headers[i]);
    }
    var events :| IsTranslation(items, events) && out == RenderAll(events);
    SnapshotLayerRestoresUpper(host, items, events);
  }

  // ---------------------------------------------------------------------------
  // A link to a directory
  // ---------------------------------------------------------------------------

  const SOME_DIRECTORY := Item(["d"], Directory(false), Header("d", DirKind, "", Meta(0, 0, 493), 0, 0, 0, map[], map[]))
  const LINK_TO_IT := Item(["k"], HardLink(["d"]), Header("k", LinkKind, "d", Meta(0, 0, 420), 0, 0, 0, map[], map[]))
  const ITS_EVENTS := [Entry(SOME_DIRECTORY, false), Entry(LINK_TO_IT, false)]

  lemma LinkToDirectoryUpright()
    ensures Upright([SOME_DIRECTORY, LINK_TO_IT])
  {
    assert "d"[0] != WHITEOUT_PREFIX[0] && "k"[0] != WHITEOUT_PREFIX[0];
    var items := [SOME_DIRECTORY, LINK_TO_IT];
    assert forall item | item in items :: item == SOME_DIRECTORY || item == LINK_TO_IT;
    assert SOME_DIRECTORY.path[0] == "d" && LINK_TO_IT.path[0] == "k";
    assert Base(["d"]) == "d" && Base(["k"]) == "k";
  }

  lemma LinkToDirectoryTranslated()
    ensures IsTranslation([SOME_DIRECTORY, LINK_TO_IT], ITS_EVENTS)
  {
    assert ITS_EVENTS[..0] == [] && ITS_EVENTS[..1] == [Entry(SOME_DIRECTORY, false)];
    assert SOME_DIRECTORY.path[0] == "d" && LINK_TO_IT.path[0] == "k";
    assert MayFollow([], ITS_EVENTS[0]);
    assert Entry(SOME_DIRECTORY, false) in ITS_EVENTS[..1];
    assert MayFollow(ITS_EVENTS[..1], ITS_EVENTS[1]);
    assert Entry(SOME_DIRECTORY, false) in ITS_EVENTS && Entry(LINK_TO_IT, false) in ITS_EVENTS;
  }

  lemma DirectoryLinkStopsExtraction(host: LayerApply.Host, items: seq<Item>, events: seq<Event>, d: Item, link: Item)
    requires Upright(items) && IsTranslation(items, events) && LayerApply.OverlayAttr(host).Attr?
    requires d in items && link in items && d.what.Directory? && link.what == HardLink(d.path)
    ensures LayerApply.Run(host, RenderAll(events)).Err?
  {
    assert HasDirectory(items, link.what.target);
    SnapshotLayerRestoresUpper(host, items, events);
  }

  lemma LetterName(name: string)
    requires |name| == 1 && 'a' <= name[0] <= 'z'
    ensures SafeSnapshotPath(name) == Ok([name])
  {
    var slashed := ReplaceChar(name, '\\', '/');
    assert slashed == name by {
      assert ReplaceChar(name[1..], '\\', '/') == "";
      assert slashed == [name[0]] + "";
    }
    SplitWithout(name, '/');
    assert name != "." && name != "..";
    assert [name][1..] == [] && [] + [name] == [name];
    assert CleanRelative([], [name]) == CleanRelative([name], []) == Ok([name]);
  }

  lemma LinkToDirectoryRead()
    ensures var upper := ReadUpper([SOME_DIRECTORY.header, LINK_TO_IT.header]);
            AllRead(upper) && ItemsOf(upper) == [SOME_DIRECTORY, LINK_TO_IT]
  {
    LetterName("d");
    LetterName("k");
  }

  lemma LinkToDirectoryResolved(n: nat)
    requires n <= 2
    ensures Unresolved([SOME_DIRECTORY, LINK_TO_IT][..n]) == {}
  {
    var items := [SOME_DIRECTORY, LINK_TO_IT];
    var some := items[..n];
    if LINK_TO_IT in some {
      LinkToDirectoryUpright();
      assert n == 2 && some == items;
      FindUnique(items, LINK_TO_IT);
      FindUnique(items, SOME_DIRECTORY);
      assert End(items, ["k"], 1) == Some(SOME_DIRECTORY);
    }
    assert forall item | item in some :: item == SOME_DIRECTORY || item == LINK_TO_IT;
  }

  /** The two headers of an upper whose only link names its only directory: they are read and
      translated, and what is written cannot be extracted. */
  lemma LinkToDirectoryNotExtracted(host: LayerApply.Host)
    requires LayerApply.OverlayAttr(host).Attr?
    ensures Translatable(ReadUpper([SOME_DIRECTORY.header, LINK_TO_IT.header]))
    ensures var upper := ReadUpper([SOME_DIRECTORY.header, LINK_TO_IT.header]);
            AllRead(upper) && IsTranslation(ItemsOf(upper), ITS_EVENTS)
    ensures LayerApply.Run(host, RenderAll(ITS_EVENTS)).Err?
  {
    LinkToDirectoryRead();
    forall n: nat | n <= 2 ensures Unresolved([SOME_DIRECTORY, LINK_TO_IT][..n]) == {} {
      LinkToDirectoryResolved(n);
    }
    assert [SOME_DIRECTORY, LINK_TO_IT][..2] == [SOME_DIRECTORY, LINK_TO_IT];
    LinkToDirectoryUpright();
    LinkToDirectoryTranslated();
    DirectoryLinkStopsExtraction(host, [SOME_DIRECTORY, LINK_TO_IT], ITS_EVENTS, SOME_DIRECTORY, LINK_TO_IT);
  }
}
