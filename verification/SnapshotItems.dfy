/** A sandbox's upper layer as a stream of items, and what its hard-link chains mean. */
module SnapshotItems {
  import opened Wrappers
  import opened Paths
  import opened Tar

  datatype What = Deletion | HardLink(target: Path) | Directory(hidesOlder: bool) | Leaf

  datatype Item = Item(path: Path, what: What, header: Header)

  predicate OpaqueKey(key: string) {
    || key == "SCHILY.xattr.trusted.overlay.opaque" || key == "SCHILY.xattr.user.overlay.opaque"
    || key == "trusted.overlay.opaque" || key == "user.overlay.opaque"
  }

  predicate DirectoryIsOpaque(h: Header) {
    h.kind.DirKind? &&
    ((exists key | key in h.pax ::
        (key == "SCHILY.xattr.trusted.overlay.opaque" || key == "SCHILY.xattr.user.overlay.opaque") && h.pax[key] == "y") ||
     (exists key | key in h.xattrs ::
        (key == "trusted.overlay.opaque" || key == "user.overlay.opaque") && h.xattrs[key] == "y"))
  }

  function WithoutOpaque(records: map<string, string>): map<string, string> {
    map key | key in records && !OpaqueKey(key) :: records[key]
  }

  /** One upper entry under a name and a link target, as far as they could be read; special
      files and a root that is not a directory are refused. */
  function ParseAs(h: Header, name: Result<Path>, link: Result<Path>): (r: Result<Item>)
    requires (name.Ok? ==> ValidPath(name.value)) && (link.Ok? ==> ValidPath(link.value))
    ensures r.Ok? ==> ValidPath(r.value.path) && r.value.header == h
    ensures r.Ok? && r.value.what.HardLink? ==> ValidPath(r.value.what.target)
    ensures r.Ok? && r.value.path == [] ==> r.value.what.Directory?
  {
    var clean :- name;
    if clean == [] && !h.kind.DirKind? then Err
    else match h.kind
      case CharKind => if h.major == 0 && h.minor == 0 then Ok(Item(clean, Deletion, h)) else Err
      case LinkKind =>
        var target :- link;
        Ok(Item(clean, HardLink(target), h))
      case DirKind => Ok(Item(clean, Directory(DirectoryIsOpaque(h)), h))
      case RegKind => Ok(Item(clean, Leaf, h))
      case SymlinkKind => Ok(Item(clean, Leaf, h))
      case _ => Err
  }

  /** Reads one upper entry as the translator does; escaping names are refused. */
  function Parse(h: Header): Result<Item> {
    ParseAs(h, SafeSnapshotPath(h.name), SafeSnapshotPath(h.link))
  }

  ghost predicate UniquePaths(items: seq<Item>) {
    forall i, j | 0 <= i < j < |items| :: items[i].path != items[j].path
  }

  function Find(items: seq<Item>, p: Path): Option<Item> {
    if items == [] then None
    else if items[|items| - 1].path == p then Some(items[|items| - 1])
    else Find(items[..|items| - 1], p)
  }

  /** Follows at most `hops` hard links from p to an entry that is not a link. */
  function End(items: seq<Item>, p: Path, hops: nat): Option<Item>
    decreases hops
  {
    match Find(items, p)
    case None => None
    case Some(item) =>
      if !item.what.HardLink? then Some(item)
      else if hops == 0 then None
      else End(items, item.what.target, hops - 1)
  }

  /** The chain of hard links that starts at p ends at e. */
  ghost predicate EndsAt(items: seq<Item>, p: Path, e: Item) {
    exists hops: nat :: End(items, p, hops) == Some(e)
  }

  ghost predicate Ends(items: seq<Item>, p: Path) {
    exists hops: nat :: End(items, p, hops).Some?
  }

  /** The names of links whose chain does not end within the items. */
  ghost function Unresolved(items: seq<Item>): set<Path> {
    set item | item in items && item.what.HardLink? && !Ends(items, item.path) :: item.path
  }

  // ---------------------------------------------------------------------------
  // Basic facts
  // ---------------------------------------------------------------------------

  lemma {:induction false} FindMember(items: seq<Item>, p: Path)
    ensures Find(items, p).Some? ==> Find(items, p).value in items && Find(items, p).value.path == p
    ensures Find(items, p).None? ==> forall item | item in items :: item.path != p
  {
    if items != [] {
      var init := items[..|items| - 1];
      FindMember(init, p);
      assert forall item | item in items :: item in init || item == items[|items| - 1];
    }
  }

  lemma {:induction false} FindUnique(items: seq<Item>, item: Item)
    requires UniquePaths(items) && item in items
    ensures Find(items, item.path) == Some(item)
  {
    var init, last := items[..|items| - 1], items[|items| - 1];
    if last != item {
      assert item in init;
      var i :| 0 <= i < |init| && init[i] == item;
      assert items[i].path != last.path;
      FindUnique(init, item);
    }
  }

  lemma {:induction false} EndMonotone(items: seq<Item>, p: Path, hops: nat, more: nat)
    requires End(items, p, hops).Some? && hops <= more
    ensures End(items, p, more) == End(items, p, hops)
    decreases hops
  {
    var item := Find(items, p).value;
    if item.what.HardLink? {
      EndMonotone(items, item.what.target, hops - 1, more - 1);
    }
  }

  /** A chain ends in at most one place. */
  lemma EndUnique(items: seq<Item>, p: Path, e: Item, f: Item)
    requires EndsAt(items, p, e) && EndsAt(items, p, f)
    ensures e == f
  {
    var h: nat :| End(items, p, h) == Some(e);
    var g: nat :| End(items, p, g) == Some(f);
    if h <= g { EndMonotone(items, p, h, g); } else { EndMonotone(items, p, g, h); }
  }

  lemma EndsThroughLink(items: seq<Item>, link: Item, e: Item)
    requires UniquePaths(items) && link in items && link.what.HardLink?
    ensures EndsAt(items, link.path, e) <==> EndsAt(items, link.what.target, e)
  {
    FindUnique(items, link);
    if EndsAt(items, link.path, e) {
      var hops: nat :| End(items, link.path, hops) == Some(e);
      assert End(items, link.what.target, hops - 1) == Some(e);
    }
    if EndsAt(items, link.what.target, e) {
      var hops: nat :| End(items, link.what.target, hops) == Some(e);
      assert End(items, link.path, hops + 1) == Some(e);
    }
  }

  lemma EndsAtSelf(items: seq<Item>, item: Item)
    requires UniquePaths(items) && item in items && !item.what.HardLink?
    ensures EndsAt(items, item.path, item)
  {
    FindUnique(items, item);
    assert End(items, item.path, 0) == Some(item);
  }

  lemma {:induction false} EndIsMember(items: seq<Item>, p: Path, hops: nat)
    requires End(items, p, hops).Some?
    ensures End(items, p, hops).value in items && !End(items, p, hops).value.what.HardLink?
    decreases hops
  {
    FindMember(items, p);
    var item := Find(items, p).value;
    if item.what.HardLink? {
      EndIsMember(items, item.what.target, hops - 1);
    }
  }
}
