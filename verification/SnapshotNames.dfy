/** The names of a snapshot's upper layer: what the archive says, split at slashes only, against
    what is published and extracted again. */
module SnapshotNames {
  import opened Wrappers
  import opened Paths
  import opened LayerTree
  import opened LayerView
  import opened Tar
  import LayerApply
  import opened SnapshotItems
  import opened RootfsSnapshot
  import opened SnapshotRoundTrip

  // ---------------------------------------------------------------------------
  // Backslashes in names
  // ---------------------------------------------------------------------------

  /** A name below the root, without steps up. */
  predicate ForwardName(name: string) {
    (name == "" || name[0] != '/') && ".." !in Split(name, '/')
  }

  predicate Avoids(p: Path, c: char) {
    forall part | part in p :: c !in part
  }

  function Components(parts: seq<string>): Path {
    if parts == [] then []
    else (if parts[0] == "" || parts[0] == "." then [] else [parts[0]]) + Components(parts[1..])
  }

  lemma {:induction false} CleanIsComponents(above: Path, parts: seq<string>)
    requires ValidPath(above) && ".." !in parts && forall c | c in parts :: '/' !in c
    ensures CleanRooted(above, parts) == above + Components(parts)
    ensures CleanRelative(above, parts) == Ok(above + Components(parts))
    decreases |parts|
  {
    if parts == [] {
      assert above + [] == above;
    } else if parts[0] == "" || parts[0] == "." {
      CleanIsComponents(above, parts[1..]);
      assert [] + Components(parts[1..]) == Components(parts[1..]);
    } else {
      CleanIsComponents(above + [parts[0]], parts[1..]);
      assert above + [parts[0]] + Components(parts[1..]) == above + ([parts[0]] + Components(parts[1..]));
    }
  }

  lemma {:induction false} ComponentsHold(parts: seq<string>, part: string)
    requires part in parts && part != "" && part != "."
    ensures part in Components(parts)
  {
    if parts[0] != part {
      assert parts == [parts[0]] + parts[1..];
      ComponentsHold(parts[1..], part);
    }
  }

  lemma {:induction false} CleanAvoids(above: Path, parts: seq<string>, c: char)
    requires ValidPath(above) && Avoids(above, c) && Avoids(parts, c) && forall x | x in parts :: '/' !in x
    ensures Avoids(CleanRooted(above, parts), c)
    ensures CleanRelative(above, parts).Ok? ==> Avoids(CleanRelative(above, parts).value, c)
    decreases |parts|
  {
    if parts != [] {
      assert parts[0] in parts;
      if parts[0] == "" || parts[0] == "." {
        CleanAvoids(above, parts[1..], c);
      } else if parts[0] == ".." {
        CleanAvoids(if above == [] then [] else Parent(above), parts[1..], c);
      } else {
        CleanAvoids(above + [parts[0]], parts[1..], c);
      }
    }
  }

  lemma {:induction false} SplitAvoids(s: string, sep: char, c: char)
    requires c != sep
    ensures Avoids(Split(s, sep), c) <==> c !in s
  {
    if s != "" {
      SplitAvoids(s[1..], sep, c);
      assert s == [s[0]] + s[1..];
      var rest, parts := Split(s[1..], sep), Split(s, sep);
      assert rest == [rest[0]] + rest[1..];
      if s[0] == sep {
        assert parts == [""] + rest;
      } else {
        assert parts == [[s[0]] + rest[0]] + rest[1..];
        assert c in parts[0] <==> c == s[0] || c in rest[0];
      }
    }
  }

  lemma {:induction false} ReplaceRemoves(s: string, from: char, to: char)
    requires from != to
    ensures from !in ReplaceChar(s, from, to)
    ensures from !in s ==> ReplaceChar(s, from, to) == s
  {
    if s != "" {
      ReplaceRemoves(s[1..], from, to);
      assert s == [s[0]] + s[1..];
    }
  }

  /** No backslash is left in what the translator reads. */
  lemma SafePathAvoids(name: string)
    requires SafeSnapshotPath(name).Ok?
    ensures Avoids(SafeSnapshotPath(name).value, '\\')
  {
    var slashed := ReplaceChar(name, '\\', '/');
    ReplaceRemoves(name, '\\', '/');
    SplitPieces(slashed, '/');
    SplitAvoids(slashed, '/', '\\');
    CleanAvoids([], Split(slashed, '/'), '\\');
  }

  /** Without one, the translator reads the name as it is. */
  lemma SafePathIsOwn(name: string)
    requires ForwardName(name) && '\\' !in name
    ensures SafeSnapshotPath(name) == Ok(CleanArchivePath(name))
  {
    ReplaceRemoves(name, '\\', '/');
    SplitPieces(name, '/');
    CleanIsComponents([], Split(name, '/'));
  }

  lemma BackslashStays(name: string)
    requires ForwardName(name) && '\\' in name
    ensures !Avoids(CleanArchivePath(name), '\\')
  {
    var parts := Split(name, '/');
    SplitPieces(name, '/');
    SplitAvoids(name, '/', '\\');
    var part :| part in parts && '\\' in part;
    CleanIsComponents([], parts);
    ComponentsHold(parts, part);
    assert [] + Components(parts) == Components(parts);
  }

  // ---------------------------------------------------------------------------
  // Names that extraction can leave
  // ---------------------------------------------------------------------------

  lemma {:induction false} JoinAvoids(p: Path, c: char)
    requires Avoids(p, c) && c != '/' && c != '.'
    ensures c !in Join(p)
  {
    if p != [] {
      assert p[0] in p;
      if |p| > 1 { JoinAvoids(p[1..], c); }
    }
  }

  /** What is written of an item whose name has no backslash has none in its name. */
  lemma RenderAvoids(ev: Event)
    requires Avoids(ev.item.path, '\\')
    ensures '\\' !in Render(ev).name
  {
    var p := ev.item.path;
    JoinAvoids(p, '\\');
    if p != [] {
      assert Base(p) in p;
      JoinAvoids(WhiteoutNameOf(p), '\\');
    }
    JoinAvoids(p + [OPAQUE_MARKER], '\\');
  }

  lemma ArchivePathAvoids(name: string)
    requires '\\' !in name
    ensures Avoids(CleanArchivePath(name), '\\')
  {
    SplitPieces(name, '/');
    SplitAvoids(name, '/', '\\');
    CleanAvoids([], Split(name, '/'), '\\');
  }

  ghost predicate TreeAvoids(t: Tree) {
    forall p | p in t :: Avoids(p, '\\')
  }

  lemma EnsureAvoids(d: LayerApply.Disk, p: Path)
    requires WellFormed(d.tree) && TreeAvoids(d.tree) && Avoids(p, '\\') && LayerApply.EnsureDir(d, p).Ok?
    ensures TreeAvoids(LayerApply.EnsureDir(d, p).value.tree) && WellFormed(LayerApply.EnsureDir(d, p).value.tree)
  {
    LayerApply.EnsureExtends(d, p);
    var t := LayerApply.EnsureDir(d, p).value.tree;
    forall q | q in t ensures Avoids(q, '\\') {
      if q !in d.tree {
        forall part | part in q ensures '\\' !in part { assert part in p; }
      }
    }
  }

  lemma WhiteoutTargetAvoids(p: Path)
    requires p != [] && Avoids(p, '\\') && WhiteoutPath(p).Ok? && WhiteoutPath(p).value.HideName?
    ensures Avoids(WhiteoutPath(p).value.target, '\\')
  {
    assert Base(p) in p;
  }

  lemma StepAvoids(host: LayerApply.Host, x: LayerApply.Extraction, h: Header)
    requires WellFormed(x.disk.tree) && TreeAvoids(x.disk.tree) && '\\' !in h.name && LayerApply.Step(host, x, h).Ok?
    ensures TreeAvoids(LayerApply.Step(host, x, h).value.disk.tree)
  {
    var p := CleanArchivePath(h.name);
    ArchivePathAvoids(h.name);
    if !h.kind.PaxKind? && p != [] {
      EnsureAvoids(x.disk, Parent(p));
      var d := LayerApply.EnsureDir(x.disk, Parent(p)).value;
      if IsWhiteoutName(Base(p)) {
        if WhiteoutPath(p).value.HideName? { WhiteoutTargetAvoids(p); }
      } else if h.kind.DirKind? {
        EnsureAvoids(d, p);
      }
    }
  }

  lemma {:induction false} RunAvoids(host: LayerApply.Host, headers: seq<Header>)
    requires LayerApply.Run(host, headers).Ok? && forall h | h in headers :: '\\' !in h.name
    ensures TreeAvoids(LayerApply.Run(host, headers).value.disk.tree)
  {
    if headers != [] {
      var init, h := headers[..|headers| - 1], headers[|headers| - 1];
      RunAvoids(host, init);
      LayerApply.ImplicitDirectoriesExact(host, init);
      StepAvoids(host, LayerApply.Run(host, init).value, h);
    }
  }

  /** A name that looks like a whiteout is an implied directory or a deletion, and never a
      deletion of the opaque marker's tail. */
  ghost predicate OddNames(host: LayerApply.Host, d: LayerApply.Disk) {
    forall p | p in d.tree && p != [] && IsWhiteoutName(Base(p)) ::
      p in d.implicit || (IsMarker(host, d.tree[p]) && Base(p) != MARKER_TAIL)
  }

  lemma EnsureOdd(host: LayerApply.Host, d: LayerApply.Disk, p: Path)
    requires WellFormed(d.tree) && OddNames(host, d) && LayerApply.EnsureDir(d, p).Ok?
    ensures OddNames(host, LayerApply.EnsureDir(d, p).value)
    ensures WellFormed(LayerApply.EnsureDir(d, p).value.tree)
  {
    LayerApply.EnsureExtends(d, p);
  }

  lemma HiddenNameIsNoTail(p: Path)
    requires p != [] && WhiteoutPath(p).Ok? && WhiteoutPath(p).value.HideName?
    ensures Base(WhiteoutPath(p).value.target) != MARKER_TAIL
  {
    var base := Base(p);
    var tail := base[|WHITEOUT_PREFIX|..];
    assert base == WHITEOUT_PREFIX + tail;
    assert OPAQUE_MARKER == WHITEOUT_PREFIX + MARKER_TAIL;
  }

  lemma WhiteoutOdd(host: LayerApply.Host, x: LayerApply.Extraction, p: Path)
    requires WellFormed(x.disk.tree) && OddNames(host, x.disk) && p != [] && WhiteoutPath(p).Ok?
    requires LayerApply.WhiteoutStep(host, x, WhiteoutPath(p).value, Parent(p)).Ok?
    ensures OddNames(host, LayerApply.WhiteoutStep(host, x, WhiteoutPath(p).value, Parent(p)).value.disk)
  {
    EnsureOdd(host, x.disk, Parent(p));
    var d := LayerApply.EnsureDir(x.disk, Parent(p)).value;
    var after := LayerApply.WhiteoutStep(host, x, WhiteoutPath(p).value, Parent(p)).value.disk;
    match WhiteoutPath(p).value
    case HideName(target) =>
      HiddenNameIsNoTail(p);
      assert IsMarker(host, after.tree[target]);
    case HideOlder(dir) =>
      assert !IsMarker(host, d.tree[dir]);
  }

  lemma EntryOdd(host: LayerApply.Host, x: LayerApply.Extraction, h: Header, p: Path)
    requires WellFormed(x.disk.tree) && OddNames(host, x.disk) && p != [] && !IsWhiteoutName(Base(p))
    requires LayerApply.EntryStep(host, x, h, p).Ok?
    ensures OddNames(host, LayerApply.EntryStep(host, x, h, p).value.disk)
  {
    EnsureOdd(host, x.disk, Parent(p));
    var d := LayerApply.EnsureDir(x.disk, Parent(p)).value;
    if h.kind.DirKind? {
      EnsureOdd(host, d, p);
    }
  }

  lemma {:induction false} RunOdd(host: LayerApply.Host, headers: seq<Header>)
    requires LayerApply.Run(host, headers).Ok?
    ensures OddNames(host, LayerApply.Run(host, headers).value.disk)
  {
    if headers != [] {
      var init, h := headers[..|headers| - 1], headers[|headers| - 1];
      RunOdd(host, init);
      LayerApply.ImplicitDirectoriesExact(host, init);
      var x, p := LayerApply.Run(host, init).value, CleanArchivePath(h.name);
      if !h.kind.PaxKind? && p != [] {
        if IsWhiteoutName(Base(p)) {
          WhiteoutOdd(host, x, p);
        } else {
          EntryOdd(host, x, h, p);
        }
      }
    }
  }

  // ---------------------------------------------------------------------------
  // The upper the archive describes
  // ---------------------------------------------------------------------------

  function OwnName(name: string): (r: Result<Path>)
    ensures r.Ok? ==> ValidPath(r.value)
  {
    if ForwardName(name) then Ok(CleanArchivePath(name)) else Err
  }

  /** One entry by its own name and link target. */
  function OwnParse(h: Header): Result<Item> {
    ParseAs(h, OwnName(h.name), OwnName(h.link))
  }

  function OwnUpper(headers: seq<Header>): (upper: Upper)
    ensures |upper| == |headers|
    ensures forall i | 0 <= i < |headers| :: upper[i] == OwnParse(headers[i])
  {
    seq(|headers|, i requires 0 <= i < |headers| => OwnParse(headers[i]))
  }

  function OwnItems(headers: seq<Header>): (items: seq<Item>)
    requires AllRead(OwnUpper(headers))
    ensures |items| == |headers| && forall i | 0 <= i < |headers| :: OwnParse(headers[i]) == Ok(items[i])
  {
    ItemsOf(OwnUpper(headers))
  }

  /** An archive of an overlay upper: files, links, directories and deletions, each name once and
      in a directory, each link to an entry. */
  ghost predicate IsUpper(headers: seq<Header>) {
    && AllRead(OwnUpper(headers))
    && var own := OwnItems(headers);
       UniquePaths(own) && TreeShaped(own) && NoNuls(own) && Unresolved(own) == {}
  }

  predicate NoBackslash(headers: seq<Header>) {
    forall h | h in headers :: '\\' !in h.name && (h.kind.LinkKind? ==> '\\' !in h.link)
  }

  /** The layer extracted from what was written. */
  function Published(host: LayerApply.Host, r: Result<seq<Header>>): Result<Layer> {
    var out :- r;
    var x :- LayerApply.Run(host, out);
    Ok(LayerApply.Finish(x))
  }

  /** The archive is written, extracted, and gives back the upper by its own names. */
  ghost predicate ComesBack(host: LayerApply.Host, headers: seq<Header>, r: Result<seq<Header>>)
    requires AllRead(OwnUpper(headers))
  {
    Published(host, r).Ok? && RestoresUpper(host, OwnItems(headers), Published(host, r).value)
  }

  lemma ReadAsOwn(headers: seq<Header>)
    requires AllRead(OwnUpper(headers)) && NoBackslash(headers)
    ensures ReadUpper(headers) == OwnUpper(headers)
  {
    forall i | 0 <= i < |headers| ensures Parse(headers[i]) == OwnParse(headers[i]) {
      var h := headers[i];
      assert h in headers && OwnUpper(headers)[i].Ok?;
      SafePathIsOwn(h.name);
      if h.kind.LinkKind? { SafePathIsOwn(h.link); }
    }
  }

  lemma OwnBackslash(h: Header)
    requires OwnParse(h).Ok?
    ensures '\\' in h.name ==> !Avoids(OwnParse(h).value.path, '\\')
    ensures h.kind.LinkKind? && '\\' in h.link ==>
              OwnParse(h).value.what.HardLink? && !Avoids(OwnParse(h).value.what.target, '\\')
  {
    if '\\' in h.name { BackslashStays(h.name); }
    if h.kind.LinkKind? && '\\' in h.link { BackslashStays(h.link); }
  }

  /** A backslash in a link target is one in the name of an entry. */
  lemma BackslashedItem(headers: seq<Header>, own: seq<Item>) returns (item: Item)
    requires AllRead(OwnUpper(headers)) && own == OwnItems(headers)
    requires UniquePaths(own) && Unresolved(own) == {} && !NoBackslash(headers)
    ensures item in own && !Avoids(item.path, '\\')
  {
    var h :| h in headers && ('\\' in h.name || (h.kind.LinkKind? && '\\' in h.link));
    var i :| 0 <= i < |headers| && headers[i] == h;
    assert OwnParse(h) == Ok(own[i]);
    OwnBackslash(h);
    item := own[i];
    if '\\' !in h.name {
      item := LinkEndsSomewhere(own, item);
    }
  }

  lemma LinkEndsSomewhere(items: seq<Item>, link: Item) returns (target: Item)
    requires UniquePaths(items) && Unresolved(items) == {} && link in items && link.what.HardLink?
    ensures target in items && target.path == link.what.target
  {
    assert Ends(items, link.path) by {
      assert link.path !in Unresolved(items);
    }
    var hops: nat :| End(items, link.path, hops).Some?;
    FindUnique(items, link);
    assert End(items, link.path, hops) == End(items, link.what.target, hops - 1);
    FindMember(items, link.what.target);
    target := Find(items, link.what.target).value;
  }

  /** No name with a backslash is ever extracted from what the translator writes. */
  lemma BackslashIsLost(host: LayerApply.Host, headers: seq<Header>, r: Result<seq<Header>>)
    requires IsUpper(headers) && !NoBackslash(headers) && WritesAs(headers, r)
    ensures !ComesBack(host, headers, r)
  {
    var item := BackslashedItem(headers, OwnItems(headers));
    if Published(host, r).Ok? {
      WrittenAvoids(headers, r.value);
      PublishedAvoids(host, r.value, item.path);
      NameLost(host, OwnItems(headers), Published(host, r).value, item);
    }
  }

  lemma NameLost(host: LayerApply.Host, items: seq<Item>, l: Layer, item: Item)
    requires item in items && item.path !in l.tree
    ensures !RestoresUpper(host, items, l)
  {
  }

  lemma PublishedAvoids(host: LayerApply.Host, out: seq<Header>, p: Path)
    requires LayerApply.Run(host, out).Ok? && (forall h | h in out :: '\\' !in h.name) && !Avoids(p, '\\')
    ensures p !in LayerApply.Finish(LayerApply.Run(host, out).value).tree
  {
    RunAvoids(host, out);
    assert p != [];
  }

  lemma EventAvoids(headers: seq<Header>, events: seq<Event>, ev: Event)
    requires AllRead(ReadUpper(headers)) && DrawnFrom(events, ItemsOf(ReadUpper(headers))) && ev in events
    ensures '\\' !in Render(ev).name
  {
    var items := ItemsOf(ReadUpper(headers));
    assert ev.item in items;
    var k :| 0 <= k < |items| && items[k] == ev.item;
    assert Parse(headers[k]) == Ok(ev.item);
    SafePathAvoids(headers[k].name);
    RenderAvoids(ev);
  }

  lemma WrittenAvoids(headers: seq<Header>, out: seq<Header>)
    requires WritesAs(headers, Ok(out))
    ensures forall h | h in out :: '\\' !in h.name
  {
    var events: seq<Event> :| out == RenderAll(events) && Translates(ReadUpper(headers), Ok(events));
    RenditionAvoids(headers, events);
  }

  lemma RenditionAvoids(headers: seq<Header>, events: seq<Event>)
    requires AllRead(ReadUpper(headers)) && DrawnFrom(events, ItemsOf(ReadUpper(headers)))
    ensures forall h | h in RenderAll(events) :: '\\' !in h.name
  {
    forall h | h in RenderAll(events) ensures '\\' !in h.name {
      var i :| 0 <= i < |events| && RenderAll(events)[i] == h;
      EventAvoids(headers, events, events[i]);
    }
  }

  /** A name that is not plain does not come back, whatever is extracted. */
  lemma OddNameIsLost(host: LayerApply.Host, items: seq<Item>, out: seq<Header>)
    requires UniquePaths(items) && Unresolved(items) == {} && !PlainNames(items) && LayerApply.OverlayAttr(host).Attr?
    requires LayerApply.Run(host, out).Ok?
    ensures !RestoresUpper(host, items, LayerApply.Finish(LayerApply.Run(host, out).value))
  {
    var item :| item in items && !PlainName(items, item.path);
    var e := ChainEnd(items, item);
    DeletedEnd(items, item.path, e);
    RunOdd(host, out);
    assert WHITEOUT_PREFIX <= MARKER_TAIL;
    OddNodeDiffers(host, LayerApply.Run(host, out).value, item.path, e);
    NodeLost(host, items, LayerApply.Finish(LayerApply.Run(host, out).value), item, e);
  }

  /** An odd name is implied, or not the node its chain's end asks for. */
  lemma OddNodeDiffers(host: LayerApply.Host, x: LayerApply.Extraction, p: Path, e: Item)
    requires OddNames(host, x.disk) && LayerApply.OverlayAttr(host).Attr? && p != [] && IsWhiteoutName(Base(p))
    requires e.what.Deletion? ==> Base(p) == MARKER_TAIL
    ensures var l := LayerApply.Finish(x); l.implicit != {} || p !in l.tree || !RestoredNode(host, l.tree[p], e)
  {
    if p in x.disk.implicit {
      assert LayerApply.Finish(x).implicit != {};
    }
  }

  lemma NodeLost(host: LayerApply.Host, items: seq<Item>, l: Layer, item: Item, e: Item)
    requires item in items && item.path != [] && EndsAt(items, item.path, e)
    requires l.implicit != {} || item.path !in l.tree || !RestoredNode(host, l.tree[item.path], e)
    ensures !RestoresUpper(host, items, l)
  {
  }

  lemma ChainEnd(items: seq<Item>, item: Item) returns (e: Item)
    requires UniquePaths(items) && Unresolved(items) == {} && item in items
    ensures EndsAt(items, item.path, e)
  {
    if item.what.HardLink? {
      assert item.path !in Unresolved(items);
      var hops: nat :| End(items, item.path, hops).Some?;
      e := End(items, item.path, hops).value;
    } else {
      EndsAtSelf(items, item);
      e := item;
    }
  }

  lemma DeletedEnd(items: seq<Item>, p: Path, e: Item)
    requires EndsAt(items, p, e)
    ensures Deleted(items, p) <==> e.what.Deletion?
  {
    if Deleted(items, p) {
      var f :| EndsAt(items, p, f) && f.what.Deletion?;
      EndUnique(items, p, e, f);
    }
  }

  // ---------------------------------------------------------------------------
  // Exactly the uppers that come back
  // ---------------------------------------------------------------------------

  /** Names that neither backslashes nor whiteout prefixes change, links to files and deletions
      only, and at no point too many links before their targets. */
  ghost predicate Publishable(headers: seq<Header>)
    requires AllRead(OwnUpper(headers))
  {
    var own := OwnItems(headers);
    NoBackslash(headers) && PlainNames(own) && NoLinkToDirectory(own) && WithinLimit(own)
  }

  lemma PlainUpperComesBack(host: LayerApply.Host, headers: seq<Header>, r: Result<seq<Header>>)
    requires IsUpper(headers) && NoBackslash(headers) && PlainNames(OwnItems(headers)) && LayerApply.OverlayAttr(host).Attr?
    requires WritesAs(headers, r)
    ensures ComesBack(host, headers, r) <==> NoLinkToDirectory(OwnItems(headers)) && WithinLimit(OwnItems(headers))
  {
    ReadAsOwn(headers);
    OwnNamesUnique(headers);
    if r.Ok? {
      var events: seq<Event> :| r.value == RenderAll(events) && Translates(ReadUpper(headers), Ok(events));
      OwnTranslationRestores(host, headers, events);
    }
  }

  lemma OwnNamesUnique(headers: seq<Header>)
    requires AllRead(OwnUpper(headers)) && UniquePaths(OwnItems(headers))
    ensures UniqueNames(OwnUpper(headers))
  {
    forall i, j | 0 <= i < j < |headers| ensures OwnUpper(headers)[i].value.path != OwnUpper(headers)[j].value.path {
      assert OwnItems(headers)[i].path != OwnItems(headers)[j].path;
    }
  }

  lemma OwnTranslationRestores(host: LayerApply.Host, headers: seq<Header>, events: seq<Event>)
    requires IsUpper(headers) && PlainNames(OwnItems(headers)) && LayerApply.OverlayAttr(host).Attr?
    requires ReadUpper(headers) == OwnUpper(headers) && IsTranslation(OwnItems(headers), events)
    ensures ComesBack(host, headers, Ok(RenderAll(events))) <==> NoLinkToDirectory(OwnItems(headers))
  {
    WrittenLayerRestoresUpper(host, headers, RenderAll(events));
  }

  /** For every archive of an overlay upper and whatever the translator makes of it: it comes
      back if and only if it is publishable. */
  lemma ComesBackIffPublishable(host: LayerApply.Host, headers: seq<Header>, r: Result<seq<Header>>)
    requires IsUpper(headers) && LayerApply.OverlayAttr(host).Attr? && WritesAs(headers, r)
    ensures ComesBack(host, headers, r) <==> Publishable(headers)
  {
    if !NoBackslash(headers) {
      BackslashIsLost(host, headers, r);
    } else if PlainNames(OwnItems(headers)) {
      PlainUpperComesBack(host, headers, r);
    } else if Published(host, r).Ok? {
      OddNameIsLost(host, OwnItems(headers), r.value);
    }
  }

  // ---------------------------------------------------------------------------
  // Inputs
  // ---------------------------------------------------------------------------

  const FOLDER := Header("a", DirKind, "", Meta(0, 0, 493), 0, 0, 0, map[], map[])
  const BACKSLASHED := "a\\b"

  /** One backslash at the start, or after two dots, and the whole snapshot is refused. */
  lemma BackslashRefusesSnapshot(headers: seq<Header>, h: Header, r: Result<seq<Header>>)
    requires h in headers && WritesAs(headers, r)
    requires (|h.name| >= 1 && h.name[0] == '\\') || (|h.name| >= 3 && h.name[..3] == "..\\")
    ensures r.Err?
  {
    var i :| 0 <= i < |headers| && headers[i] == h;
    if h.name[0] != '\\' {
      StepsUp(h.name);
    }
    assert Parse(h).Err?;
    assert ReadUpper(headers)[i].Err?;
  }

  lemma ReplaceFirst(s: string, from: char, to: char)
    requires s != ""
    ensures ReplaceChar(s, from, to) == [if s[0] == from then to else s[0]] + ReplaceChar(s[1..], from, to)
  {
  }

  lemma StepsUp(name: string)
    requires |name| >= 3 && name[..3] == "..\\"
    ensures SafeSnapshotPath(name) == Err
  {
    var slashed, rest := ReplaceChar(name, '\\', '/'), ReplaceChar(name[3..], '\\', '/');
    assert name[..3][0] == '.' && name[..3][1] == '.' && name[..3][2] == '\\';
    ReplaceFirst(name, '\\', '/');
    ReplaceFirst(name[1..], '\\', '/');
    ReplaceFirst(name[2..], '\\', '/');
    assert name[1..][1..] == name[2..] && name[2..][1..] == name[3..];
    assert slashed == ".." + ['/'] + rest;
    SplitWithout("..", '/');
    SplitConcat("..", rest, '/');
    assert Split(slashed, '/')[0] == "..";
  }

  lemma BackslashedRead()
    ensures SafeSnapshotPath(BACKSLASHED) == Ok(["a", "b"])
  {
    var slashed := ReplaceChar(BACKSLASHED, '\\', '/');
    assert BACKSLASHED[1..] == "\\b" && "\\b"[1..] == "b" && "b"[1..] == "";
    ReplaceFirst(BACKSLASHED, '\\', '/');
    ReplaceFirst("\\b", '\\', '/');
    ReplaceFirst("b", '\\', '/');
    assert slashed == "a" + ['/'] + "b";
    SplitWithout("a", '/');
    SplitWithout("b", '/');
    SplitConcat("a", "b", '/');
    var parts := ["a", "b"];
    assert Split(slashed, '/') == parts;
    CleanIsComponents([], parts);
    assert parts[1..] == ["b"] && ["b"][1..] == [];
    assert Components(["b"]) == ["b"] && Components(parts) == ["a", "b"];
    assert [] + ["a", "b"] == ["a", "b"];
    assert slashed[0] == 'a';
  }

  lemma LettersRead()
    ensures SafeSnapshotPath("a") == Ok(["a"]) && OwnName("a") == Ok(["a"]) && OwnName(BACKSLASHED) == Ok([BACKSLASHED])
  {
    LetterName("a");
    SplitWithout("a", '/');
    CleanIsComponents([], ["a"]);
    SplitWithout(BACKSLASHED, '/');
    CleanIsComponents([], [BACKSLASHED]);
    assert BACKSLASHED[0] == 'a' && |BACKSLASHED| == 3 && |".."| == 2;
    assert Components(["a"]) == ["a"] && Components([BACKSLASHED]) == [BACKSLASHED];
    assert [] + [BACKSLASHED] == [BACKSLASHED] && [] + ["a"] == ["a"];
  }

  /** A folder and an entry a\b beside it. */
  ghost predicate Beside(h: Header) {
    h.name == BACKSLASHED && (h.kind.RegKind? || (h.kind.CharKind? && h.major == 0 && h.minor == 0))
  }

  function Moved(h: Header): seq<Item> {
    [Item(["a"], Directory(false), FOLDER), Item(["a", "b"], if h.kind.RegKind? then Leaf else Deletion, h)]
  }

  lemma MovedRead(h: Header)
    requires Beside(h)
    ensures AllRead(ReadUpper([FOLDER, h])) && ItemsOf(ReadUpper([FOLDER, h])) == Moved(h)
  {
    LettersRead();
    BackslashedRead();
  }

  lemma MovedTranslatable(h: Header)
    requires Beside(h)
    ensures UniqueNames(ReadUpper([FOLDER, h])) && Translatable(ReadUpper([FOLDER, h]))
  {
    MovedRead(h);
    forall n: nat | n <= 2 ensures Unresolved(Moved(h)[..n]) == {} {
      forall item | item in Moved(h)[..n] ensures !item.what.HardLink? { assert item in Moved(h); }
    }
    assert Moved(h)[..2] == Moved(h);
  }

  lemma MovedUpright(h: Header)
    requires Beside(h)
    ensures Upright(Moved(h)) && NoLinkToDirectory(Moved(h))
  {
    var items := Moved(h);
    assert items[0].path == ["a"] && items[1].path == ["a", "b"];
    assert forall item | item in items :: item == items[0] || item == items[1];
    assert "a"[0] != WHITEOUT_PREFIX[0] && "b"[0] != WHITEOUT_PREFIX[0];
    assert Parent(["a", "b"]) == ["a"] && HasDirectory(items, ["a"]);
    assert |MARKER_TAIL| != 1;
  }

  /** They are an upper. */
  lemma BesideIsUpper(h: Header)
    requires Beside(h)
    ensures IsUpper([FOLDER, h]) && OwnItems([FOLDER, h])[1].path == [BACKSLASHED]
  {
    LettersRead();
    var headers := [FOLDER, h];
    assert OwnUpper(headers)[0] == OwnParse(FOLDER) && OwnUpper(headers)[1] == OwnParse(h);
    var own := OwnItems(headers);
    BesideIsTree(own);
  }

  lemma BesideIsTree(own: seq<Item>)
    requires |own| == 2 && own[0].path == ["a"] && own[1].path == [BACKSLASHED]
    requires !own[0].what.HardLink? && !own[1].what.HardLink?
    ensures UniquePaths(own) && TreeShaped(own) && NoNuls(own) && Unresolved(own) == {}
  {
    assert |BACKSLASHED| != |"a"|;
    assert forall item | item in own :: item == own[0] || item == own[1];
    assert Parent(["a"]) == [] && Parent([BACKSLASHED]) == [];
  }

  /** They are published as an entry b inside the folder, extracted as that, and the name a\b is
      nowhere. */
  lemma BackslashMovesEntry(host: LayerApply.Host, h: Header, r: Result<seq<Header>>)
    requires Beside(h) && LayerApply.OverlayAttr(host).Attr? && WritesAs([FOLDER, h], r)
    ensures Published(host, r).Ok?
    ensures var tree := Published(host, r).value.tree;
            ["a", "b"] in tree && RestoredNode(host, tree[["a", "b"]], Moved(h)[1]) && [BACKSLASHED] !in tree
  {
    MovedRead(h);
    MovedTranslatable(h);
    MovedUpright(h);
    var events: seq<Event> :| r.value == RenderAll(events) && Translates(ReadUpper([FOLDER, h]), Ok(events));
    SnapshotLayerRestoresUpper(host, Moved(h), events);
    MovedRestored(host, h, Published(host, r).value);
  }

  lemma MovedRestored(host: LayerApply.Host, h: Header, l: Layer)
    requires UniquePaths(Moved(h)) && RestoresUpper(host, Moved(h), l)
    ensures ["a", "b"] in l.tree && RestoredNode(host, l.tree[["a", "b"]], Moved(h)[1]) && [BACKSLASHED] !in l.tree
  {
    var items := Moved(h);
    assert items[1] in items;
    EndsAtSelf(items, items[1]);
    assert forall item | item in items :: item == items[0] || item == items[1];
    assert |BACKSLASHED| != |"a"|;
  }

  /** A file a\b becomes the file b of folder a. */
  lemma BackslashMovesFile(host: LayerApply.Host, r: Result<seq<Header>>)
    requires LayerApply.OverlayAttr(host).Attr?
    requires WritesAs([FOLDER, Header(BACKSLASHED, RegKind, "", Meta(0, 0, 420), 7, 0, 0, map[], map[])], r)
    ensures Published(host, r).Ok?
    ensures var tree := Published(host, r).value.tree;
            ["a", "b"] in tree && tree[["a", "b"]].Regular? && tree[["a", "b"]].content == 7 && [BACKSLASHED] !in tree
  {
    BackslashMovesEntry(host, Header(BACKSLASHED, RegKind, "", Meta(0, 0, 420), 7, 0, 0, map[], map[]), r);
  }

  /** The deletion of a\b deletes the b of folder a instead. */
  lemma BackslashMovesDeletion(host: LayerApply.Host, r: Result<seq<Header>>)
    requires LayerApply.OverlayAttr(host).Attr?
    requires WritesAs([FOLDER, Header(BACKSLASHED, CharKind, "", Meta(0, 0, 0), 0, 0, 0, map[], map[])], r)
    ensures Published(host, r).Ok?
    ensures var tree := Published(host, r).value.tree;
            ["a", "b"] in tree && IsMarker(host, tree[["a", "b"]]) && [BACKSLASHED] !in tree
  {
    BackslashMovesEntry(host, Header(BACKSLASHED, CharKind, "", Meta(0, 0, 0), 0, 0, 0, map[], map[]), r);
  }
}
