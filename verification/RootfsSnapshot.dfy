/** Translating a sandbox's upper layer into an image layer, in one pass with deferred links. */
module RootfsSnapshot {
  import opened Wrappers
  import opened Paths
  import opened LayerTree
  import opened Tar
  import opened SnapshotItems

  const MAX_PENDING_LINKS := 65536
  const MARKER_MODE := 384

  /** One header handed to the writer: an item as it stands or as a deletion of its name,
      or the marker of an opaque directory. */
  datatype Event = Entry(item: Item, deleted: bool) | OpaqueMark(item: Item)

  function Stripped(item: Item): Header {
    var h := item.header;
    Header(Join(item.path) + (if h.kind.DirKind? && item.path != [] then "/" else ""), h.kind,
           if item.what.HardLink? then Join(item.what.target) else h.link,
           h.meta, h.content, h.major, h.minor, WithoutOpaque(h.pax), WithoutOpaque(h.xattrs))
  }

  function WhiteoutHeader(item: Item): Header
    requires item.path != []
  {
    var h := item.header;
    Header(Join(WhiteoutNameOf(item.path)), RegKind, "", Meta(h.meta.uid, h.meta.gid, MARKER_MODE), EMPTY_CONTENT,
           0, 0, WithoutOpaque(h.pax), WithoutOpaque(h.xattrs))
  }

  function MarkerHeader(item: Item): Header {
    Header(Join(item.path + [OPAQUE_MARKER]), RegKind, "",
           Meta(item.header.meta.uid, item.header.meta.gid, MARKER_MODE), EMPTY_CONTENT, 0, 0, map[], map[])
  }

  function Render(ev: Event): Header {
    match ev
    case Entry(item, deleted) => if deleted && item.path != [] then WhiteoutHeader(item) else Stripped(item)
    case OpaqueMark(item) => MarkerHeader(item)
  }

  function RenderAll(events: seq<Event>): (out: seq<Header>)
    ensures |out| == |events|
    ensures forall i | 0 <= i < |events| :: out[i] == Render(events[i])
  {
    seq(|events|, i requires 0 <= i < |events| => Render(events[i]))
  }

  // ---------------------------------------------------------------------------
  // What a translation is
  // ---------------------------------------------------------------------------

  predicate HasEntry(events: seq<Event>, p: Path) {
    exists ev | ev in events :: ev.Entry? && ev.item.path == p
  }

  /** An event that comes after what it needs: an entry that is deleted as an entry of its link
      target's name was, or the marker of a written opaque directory. */
  predicate ComesAfter(events: seq<Event>, ev: Event) {
    match ev
    case Entry(item, deleted) =>
      (match item.what
       case Deletion => deleted
       case HardLink(target) =>
         exists before | before in events :: before.Entry? && before.item.path == target && before.deleted == deleted
       case _ => !deleted)
    case OpaqueMark(item) => item.what == Directory(true) && Entry(item, false) in events
  }

  /** ... and is new: no entry of its name, and no marker of its directory, was written before. */
  predicate MayFollow(events: seq<Event>, ev: Event) {
    && ComesAfter(events, ev)
    && if ev.Entry? then !HasEntry(events, ev.item.path) else ev !in events
  }

  ghost predicate InSequence(events: seq<Event>) {
    forall i | 0 <= i < |events| :: ComesAfter(events[..i], events[i])
  }

  ghost predicate Orderly(events: seq<Event>) {
    forall i | 0 <= i < |events| :: MayFollow(events[..i], events[i])
  }

  ghost predicate DrawnFrom(events: seq<Event>, items: seq<Item>) {
    forall ev | ev in events :: ev.item in items
  }

  /** Every item is written once, opaque directories get their marker, in an orderly way. */
  ghost predicate IsTranslation(items: seq<Item>, events: seq<Event>) {
    && Orderly(events)
    && DrawnFrom(events, items)
    && (forall item | item in items :: HasEntry(events, item.path))
    && (forall item | item in items && item.what == Directory(true) :: OpaqueMark(item) in events)
  }

  /** Every item is written and every opaque directory marked, each after what it needs. Names
      may repeat. */
  ghost predicate IsRendition(items: seq<Item>, events: seq<Event>) {
    && InSequence(events)
    && DrawnFrom(events, items)
    && (forall item | item in items :: Wrote(events, item))
    && (forall item | item in items && item.what == Directory(true) :: OpaqueMark(item) in events)
  }

  ghost predicate Wrote(events: seq<Event>, item: Item) {
    exists deleted :: Entry(item, deleted) in events
  }

  lemma SequenceExtend(events: seq<Event>, ev: Event)
    requires InSequence(events) && ComesAfter(events, ev)
    ensures InSequence(events + [ev])
  {
    var longer := events + [ev];
    forall i | 0 <= i < |longer| ensures ComesAfter(longer[..i], longer[i]) {
      if i < |events| {
        assert longer[..i] == events[..i];
      } else {
        assert longer[..i] == events;
      }
    }
  }

  lemma OrderlyExtend(events: seq<Event>, ev: Event)
    requires Orderly(events) && MayFollow(events, ev)
    ensures Orderly(events + [ev])
  {
    var longer := events + [ev];
    forall i | 0 <= i < |longer| ensures MayFollow(longer[..i], longer[i]) {
      if i < |events| {
        assert longer[..i] == events[..i];
      } else {
        assert longer[..i] == events;
      }
    }
  }

  lemma HasEntryExtend(events: seq<Event>, ev: Event, p: Path)
    ensures HasEntry(events + [ev], p) <==> HasEntry(events, p) || (ev.Entry? && ev.item.path == p)
  {
    if HasEntry(events, p) {
      var e :| e in events && e.Entry? && e.item.path == p;
      assert e in events + [ev];
    }
    assert ev in events + [ev];
  }

  /** A written name is a deletion exactly when its chain ends at a deleted inode, in
      whatever order links and targets arrived. */
  lemma {:induction false} WrittenMeansChainEnd(items: seq<Item>, events: seq<Event>, i: nat)
    requires UniquePaths(items) && Orderly(events) && DrawnFrom(events, items)
    requires i < |events| && events[i].Entry?
    ensures exists e :: EndsAt(items, events[i].item.path, e) && (events[i].deleted <==> e.what.Deletion?)
    decreases i
  {
    var item := events[i].item;
    assert MayFollow(events[..i], events[i]);
    assert events[i] in events;
    match item.what
    case HardLink(target) =>
      var before :| before in events[..i] && before.Entry? && before.item.path == target && before.deleted == events[i].deleted;
      var j :| 0 <= j < i && events[j] == before;
      WrittenMeansChainEnd(items, events, j);
      var e :| EndsAt(items, events[j].item.path, e) && (events[j].deleted <==> e.what.Deletion?);
      EndsThroughLink(items, item, e);
    case _ =>
      EndsAtSelf(items, item);
  }

  // ---------------------------------------------------------------------------
  // Pending links
  // ---------------------------------------------------------------------------

  type Pending = map<Path, seq<Item>>

  ghost function Total(pending: Pending): nat {
    if pending == map[] then 0
    else
      var t :| t in pending;
      |pending[t]| + Total(pending - {t})
  }

  lemma {:induction false} TotalRemove(pending: Pending, t: Path)
    requires t in pending
    ensures Total(pending) == |pending[t]| + Total(pending - {t})
    decreases |pending|
  {
    var u :| u in pending && Total(pending) == |pending[u]| + Total(pending - {u});
    if u != t {
      TotalRemove(pending - {u}, t);
      TotalRemove(pending - {t}, u);
      assert pending - {u} - {t} == pending - {t} - {u};
    }
  }

  lemma TotalAppend(pending: Pending, t: Path, item: Item)
    ensures var old' := if t in pending then pending[t] else [];
            Total(pending[t := old' + [item]]) == Total(pending) + 1
  {
    var old' := if t in pending then pending[t] else [];
    var longer := pending[t := old' + [item]];
    TotalRemove(longer, t);
    assert longer - {t} == pending - {t};
    if t in pending { TotalRemove(pending, t); } else { assert pending - {t} == pending; }
  }

  ghost predicate DistinctPaths(links: seq<Item>) {
    forall i, j | 0 <= i < j < |links| :: links[i].path != links[j].path
  }

  /** Each list holds links that wait for its key, and is never empty. */
  ghost predicate Lists(pending: Pending, items: seq<Item>) {
    forall t | t in pending ::
      && pending[t] != [] && DistinctPaths(pending[t])
      && forall link | link in pending[t] :: link in items && link.what == HardLink(t)
  }

  ghost function Names(links: seq<Item>): set<Path> {
    set link | link in links :: link.path
  }

  ghost function Waiting(pending: Pending): set<Path> {
    set t, link | t in pending && link in pending[t] :: link.path
  }

  lemma {:induction false} NamesCount(links: seq<Item>)
    requires DistinctPaths(links)
    ensures |Names(links)| == |links|
  {
    if links != [] {
      var init, last := links[..|links| - 1], links[|links| - 1];
      NamesCount(init);
      assert links == init + [last];
      assert Names(links) == Names(init) + {last.path};
      assert forall i | 0 <= i < |init| :: init[i].path != last.path;
    }
  }

  lemma WaitingSplit(pending: Pending, t: Path)
    requires t in pending
    ensures Waiting(pending) == Waiting(pending - {t}) + Names(pending[t])
  {
    var rest := pending - {t};
    forall p | p in Waiting(pending) ensures p in Waiting(rest) || p in Names(pending[t]) {
      var u: Path, a: Item :| u in pending && a in pending[u] && a.path == p;
      if u != t {
        assert u in rest && a in rest[u];
      }
    }
    forall p | p in Waiting(rest) ensures p in Waiting(pending) {
      var u: Path, a: Item :| u in rest && a in rest[u] && a.path == p;
      assert a in pending[u];
    }
  }

  lemma WaitingDisjoint(pending: Pending, items: seq<Item>, t: Path)
    requires UniquePaths(items) && Lists(pending, items) && t in pending
    ensures Waiting(pending - {t}) !! Names(pending[t])
  {
    var rest := pending - {t};
    forall p | p in Waiting(rest) ensures p !in Names(pending[t]) {
      var u: Path, a: Item :| u in rest && a in rest[u] && a.path == p;
      FindUnique(items, a);
      forall b | b in pending[t] ensures b.path != p {
        FindUnique(items, b);
        assert a.what == HardLink(u) && b.what == HardLink(t);
      }
    }
  }

  /** The counter is the number of names that wait. */
  lemma {:induction false} TotalIsWaiting(pending: Pending, items: seq<Item>)
    requires UniquePaths(items) && Lists(pending, items)
    ensures Total(pending) == |Waiting(pending)|
    decreases |pending|
  {
    if pending == map[] {
      assert Waiting(pending) == {};
    } else {
      var t :| t in pending;
      TotalRemove(pending, t);
      TotalIsWaiting(pending - {t}, items);
      NamesCount(pending[t]);
      WaitingSplit(pending, t);
      WaitingDisjoint(pending, items, t);
    }
  }

  // ---------------------------------------------------------------------------
  // The translator's state
  // ---------------------------------------------------------------------------

  /** The resolved names are the written ones. */
  ghost predicate Tracks(resolved: map<Path, bool>, events: seq<Event>) {
    && (forall p :: p in resolved <==> HasEntry(events, p))
    && (forall ev | ev in events && ev.Entry? ::
          ev.item.path in resolved && resolved[ev.item.path] == ev.deleted)
  }

  /** Every item is written, or is a link that waits in its target's list or in hand. */
  ghost predicate Accounted(items: seq<Item>, resolved: map<Path, bool>, pending: Pending, held: seq<Item>) {
    && (forall item | item in items && item.path !in resolved ::
          item.what.HardLink? &&
          ((item.what.target in pending && item in pending[item.what.target]) || item in held))
    && (forall t, link | t in pending && link in pending[t] :: link.path !in resolved)
    && (forall link | link in held :: link.path !in resolved)
  }

  /** Links wait for a written target only while it is queued. */
  ghost predicate Settled(resolved: map<Path, bool>, pending: Pending, queue: seq<Path>) {
    forall t | t in pending && t in resolved :: t in queue
  }

  lemma TracksWrite(resolved: map<Path, bool>, events: seq<Event>, item: Item, deleted: bool)
    requires Tracks(resolved, events) && item.path !in resolved
    ensures Tracks(resolved[item.path := deleted], events + [Entry(item, deleted)])
  {
    var longer := events + [Entry(item, deleted)];
    forall p ensures p in resolved[item.path := deleted] <==> HasEntry(longer, p) {
      HasEntryExtend(events, Entry(item, deleted), p);
    }
    forall ev | ev in longer && ev.Entry?
      ensures ev.item.path in resolved[item.path := deleted] && resolved[item.path := deleted][ev.item.path] == ev.deleted
    {
      if ev in events {
        assert ev.item.path in resolved;
      }
    }
  }

  lemma TracksMark(resolved: map<Path, bool>, events: seq<Event>, item: Item)
    requires Tracks(resolved, events)
    ensures Tracks(resolved, events + [OpaqueMark(item)])
  {
    forall p ensures p in resolved <==> HasEntry(events + [OpaqueMark(item)], p) {
      HasEntryExtend(events, OpaqueMark(item), p);
    }
  }

  /** A link may be written once its target is. */
  lemma LinkMayFollow(resolved: map<Path, bool>, events: seq<Event>, link: Item)
    requires Tracks(resolved, events) && link.what.HardLink? && link.what.target in resolved && link.path !in resolved
    ensures MayFollow(events, Entry(link, resolved[link.what.target]))
  {
    var target := link.what.target;
    assert HasEntry(events, target);
    var before :| before in events && before.Entry? && before.item.path == target;
    assert before.deleted == resolved[target];
  }

  /** At rest every name whose chain ends has been written. */
  lemma {:induction false} ChainEndsAreWritten(items: seq<Item>, resolved: map<Path, bool>, pending: Pending, p: Path, hops: nat)
    requires Accounted(items, resolved, pending, []) && Settled(resolved, pending, [])
    requires End(items, p, hops).Some?
    ensures p in resolved
    decreases hops
  {
    FindMember(items, p);
    var item := Find(items, p).value;
    if item.what.HardLink? {
      ChainEndsAreWritten(items, resolved, pending, item.what.target, hops - 1);
    }
  }

  /** Entries of items keep their meaning when another item arrives. */
  lemma NewItemWaits(seen: seq<Item>, item: Item, resolved: map<Path, bool>, pending: Pending, events: seq<Event>)
    requires UniquePaths(seen + [item]) && DrawnFrom(events, seen) && Tracks(resolved, events)
    requires Lists(pending, seen) && Accounted(seen, resolved, pending, [])
    ensures UniquePaths(seen) && item.path !in resolved
    ensures DrawnFrom(events, seen + [item]) && Lists(pending, seen + [item])
    ensures forall link | link in seen :: link.path != item.path
  {
    var items := seen + [item];
    assert forall i | 0 <= i < |seen| :: items[i] == seen[i];
    assert items[|seen|] == item;
    forall link | link in seen ensures link.path != item.path {
      var i :| 0 <= i < |seen| && seen[i] == link;
      assert items[i].path != items[|seen|].path;
    }
    assert forall ev | ev in events && ev.Entry? :: ev.item in seen;
  }

  /** Writing the next link in hand. */
  lemma HeldToWritten(items: seq<Item>, resolved: map<Path, bool>, pending: Pending, links: seq<Item>, j: nat,
                      target: Path, deleted: bool, queue: seq<Path>)
    requires UniquePaths(items) && Lists(pending, items) && j < |links|
    requires DistinctPaths(links) && target !in pending
    requires forall link | link in links :: link in items && link.what == HardLink(target)
    requires Accounted(items, resolved, pending, links[j..]) && Settled(resolved, pending, queue)
    ensures links[j].path !in resolved
    ensures Accounted(items, resolved[links[j].path := deleted], pending, links[j + 1..])
    ensures Settled(resolved[links[j].path := deleted], pending, queue + [links[j].path])
  {
    var link := links[j];
    assert link in links[j..] && link in links;
    assert links[j..] == [link] + links[j + 1..];
    forall item | item in items && item.path == link.path ensures item == link {
      FindUnique(items, item);
      FindUnique(items, link);
    }
    forall t, other | t in pending && other in pending[t] ensures other.path != link.path {
      assert other in items && other.what == HardLink(t);
    }
    forall other | other in links[j + 1..] ensures other.path != link.path {
      var k :| j + 1 <= k < |links| && links[k] == other;
    }
    var after := resolved[link.path := deleted];
    forall t | t in pending && t in after ensures t in queue + [link.path] {
      if t != link.path { assert t in queue; }
    }
  }

  /** Taking a target's list in hand. */
  lemma TakingLinks(items: seq<Item>, resolved: map<Path, bool>, pending: Pending, next: Path, queue: seq<Path>)
    requires Lists(pending, items) && Accounted(items, resolved, pending, [])
    requires Settled(resolved, pending, [next] + queue)
    ensures var links := if next in pending then pending[next] else [];
            && DistinctPaths(links) && (forall link | link in links :: link in items && link.what == HardLink(next))
            && Lists(pending - {next}, items) && Total(pending) == |links| + Total(pending - {next})
            && Accounted(items, resolved, pending - {next}, links)
            && Settled(resolved, pending - {next}, queue)
  {
    if next in pending {
      TotalRemove(pending, next);
    } else {
      assert pending - {next} == pending;
    }
    forall t | t in pending - {next} && t in resolved ensures t in queue {
      assert t in [next] + queue;
    }
  }

  lemma DeferringLink(seen: seq<Item>, link: Item, resolved: map<Path, bool>, pending: Pending)
    requires Lists(pending, seen) && Accounted(seen, resolved, pending, [])
    requires link.what.HardLink? && link.path !in resolved
    requires forall other | other in seen :: other.path != link.path
    ensures var target := link.what.target;
            var longer := pending[target := (if target in pending then pending[target] else []) + [link]];
            && Lists(longer, seen + [link]) && Total(longer) == Total(pending) + 1
            && Accounted(seen + [link], resolved, longer, [])
  {
    var target := link.what.target;
    var waiting := if target in pending then pending[target] else [];
    var longer := pending[target := waiting + [link]];
    TotalAppend(pending, target, link);
    assert DistinctPaths(waiting + [link]) by {
      forall i, j | 0 <= i < j < |waiting + [link]| ensures (waiting + [link])[i].path != (waiting + [link])[j].path {
        assert (waiting + [link])[i] in waiting;
      }
    }
    forall item | item in seen + [link] && item.path !in resolved
      ensures item.what.HardLink? && item.what.target in longer && item in longer[item.what.target]
    {
    }
  }

  lemma WritingNew(seen: seq<Item>, item: Item, resolved: map<Path, bool>, pending: Pending, deleted: bool)
    requires Lists(pending, seen) && Accounted(seen, resolved, pending, []) && Settled(resolved, pending, [])
    requires forall other | other in seen :: other.path != item.path
    ensures Accounted(seen + [item], resolved[item.path := deleted], pending, [])
    ensures Settled(resolved[item.path := deleted], pending, [item.path])
  {
  }

  /** The translator's working state; the events stand for what was written. */
  datatype Work = Work(resolved: map<Path, bool>, pending: Pending, count: int, events: seq<Event>)

  ghost predicate Consistent(items: seq<Item>, w: Work, held: seq<Item>, queue: seq<Path>) {
    && UniquePaths(items)
    && Logged(items, w.resolved, w.events)
    && Lists(w.pending, items) && w.count == Total(w.pending)
    && Accounted(items, w.resolved, w.pending, held)
    && Settled(w.resolved, w.pending, queue)
    && Done(w.resolved, queue)
  }

  /** What holds whether or not names repeat: every item is written or waits, the resolved names
      are the written ones, and the counter counts what waits. */
  ghost predicate Kept(items: seq<Item>, w: Work, held: seq<Item>, queue: seq<Path>) {
    && InSequence(w.events) && DrawnFrom(w.events, items) && Resolves(w.resolved, w.events)
    && AllWait(w.pending, items) && w.count == Total(w.pending)
    && Covers(items, w.events, w.pending, held)
    && Done(w.resolved, queue)
  }

  /** A resolved name is deleted as some entry of that name was. */
  ghost predicate Resolves(resolved: map<Path, bool>, events: seq<Event>) {
    forall p | p in resolved :: exists ev | ev in events :: ev.Entry? && ev.item.path == p && ev.deleted == resolved[p]
  }

  ghost predicate AllWait(pending: Pending, items: seq<Item>) {
    forall t | t in pending :: pending[t] != [] && LinksTo(pending[t], items, t)
  }

  ghost predicate LinksTo(links: seq<Item>, items: seq<Item>, target: Path) {
    forall link | link in links :: link in items && link.what == HardLink(target)
  }

  ghost predicate Covers(items: seq<Item>, events: seq<Event>, pending: Pending, held: seq<Item>) {
    forall item | item in items :: Wrote(events, item) || item in held || Waits(pending, item)
  }

  predicate Waits(pending: Pending, item: Item) {
    item.what.HardLink? && item.what.target in pending && item in pending[item.what.target]
  }

  /** The translator between two actions: all of the above when no two items share a path. */
  ghost predicate Working(items: seq<Item>, w: Work, held: seq<Item>, queue: seq<Path>) {
    Kept(items, w, held, queue) && (UniquePaths(items) ==> Consistent(items, w, held, queue))
  }

  /** What was written is orderly, comes from the items, and is what counts as resolved. */
  ghost predicate Logged(items: seq<Item>, resolved: map<Path, bool>, events: seq<Event>) {
    Orderly(events) && DrawnFrom(events, items) && Tracks(resolved, events)
  }

  ghost predicate Done(resolved: map<Path, bool>, queue: seq<Path>) {
    forall t | t in queue :: t in resolved
  }

  /** Every opaque directory among the items has its marker. */
  ghost predicate Marked(items: seq<Item>, events: seq<Event>) {
    forall item | item in items && item.what == Directory(true) :: OpaqueMark(item) in events
  }

  /** Later events only add entries. */
  ghost predicate AddsEntries(events: seq<Event>, later: seq<Event>) {
    && events <= later
    && forall i | |events| <= i < |later| :: later[i].Entry?
  }

  function Written(w: Work, item: Item, deleted: bool): Work {
    Work(w.resolved[item.path := deleted], w.pending, w.count, w.events + [Entry(item, deleted)])
  }

  function Taken(w: Work, next: Path): Work {
    Work(w.resolved, w.pending - {next}, w.count - |if next in w.pending then w.pending[next] else []|, w.events)
  }

  function Deferred(w: Work, link: Item): Work
    requires link.what.HardLink?
  {
    var target := link.what.target;
    Work(w.resolved, w.pending[target := (if target in w.pending then w.pending[target] else []) + [link]],
         w.count + 1, w.events)
  }

  lemma LogTakesLink(items: seq<Item>, resolved: map<Path, bool>, events: seq<Event>, link: Item)
    requires Logged(items, resolved, events) && link in items
    requires link.what.HardLink? && link.what.target in resolved && link.path !in resolved
    ensures var deleted := resolved[link.what.target];
            Logged(items, resolved[link.path := deleted], events + [Entry(link, deleted)])
  {
    LinkMayFollow(resolved, events, link);
    OrderlyExtend(events, Entry(link, resolved[link.what.target]));
    TracksWrite(resolved, events, link, resolved[link.what.target]);
  }

  lemma DoneWrites(resolved: map<Path, bool>, queue: seq<Path>, path: Path, deleted: bool)
    requires Done(resolved, queue)
    ensures Done(resolved[path := deleted], queue + [path])
  {
  }

  lemma LinkWritten(items: seq<Item>, w: Work, links: seq<Item>, j: nat, target: Path, queue: seq<Path>)
    requires j < |links| && Consistent(items, w, links[j..], queue) && target in w.resolved && target !in w.pending
    requires DistinctPaths(links) && forall link | link in links :: link in items && link.what == HardLink(target)
    ensures Consistent(items, Written(w, links[j], w.resolved[target]), links[j + 1..], queue + [links[j].path])
  {
    var link := links[j];
    assert link in links;
    HeldToWritten(items, w.resolved, w.pending, links, j, target, w.resolved[target], queue);
    LogTakesLink(items, w.resolved, w.events, link);
    DoneWrites(w.resolved, queue, link.path, w.resolved[target]);
  }

  lemma AddsOn(first: seq<Event>, second: seq<Event>, third: seq<Event>)
    requires AddsEntries(first, second) && AddsEntries(second, third)
    ensures AddsEntries(first, third)
  {
  }

  lemma AddsOneEntry(before: seq<Event>, events: seq<Event>, item: Item, deleted: bool)
    requires AddsEntries(before, events)
    ensures AddsEntries(before, events + [Entry(item, deleted)])
  {
  }

  lemma ListTaken(items: seq<Item>, w: Work, queue: seq<Path>)
    requires queue != [] && Consistent(items, w, [], queue)
    ensures var links := if queue[0] in w.pending then w.pending[queue[0]] else [];
            && Consistent(items, Taken(w, queue[0]), links, queue[1..])
            && DistinctPaths(links) && (forall link | link in links :: link in items && link.what == HardLink(queue[0]))
            && Total(w.pending) == |links| + Total(Taken(w, queue[0]).pending)
  {
    assert queue == [queue[0]] + queue[1..];
    TakingLinks(items, w.resolved, w.pending, queue[0], queue[1..]);
  }

  lemma ItemDeferred(seen: seq<Item>, w: Work, item: Item)
    requires Consistent(seen, w, [], []) && UniquePaths(seen + [item])
    requires item.what.HardLink? && item.what.target !in w.resolved
    ensures Consistent(seen + [item], Deferred(w, item), [], [])
  {
    NewItemWaits(seen, item, w.resolved, w.pending, w.events);
    DeferringLink(seen, item, w.resolved, w.pending);
  }

  function DeletedBy(w: Work, item: Item): bool
    requires item.what.HardLink? ==> item.what.target in w.resolved
  {
    item.what.Deletion? || (item.what.HardLink? && w.resolved[item.what.target])
  }

  lemma LogTakesItem(items: seq<Item>, w: Work, item: Item)
    requires Logged(items, w.resolved, w.events) && item in items && item.path !in w.resolved
    requires item.what.HardLink? ==> item.what.target in w.resolved
    ensures Logged(items, w.resolved[item.path := DeletedBy(w, item)], w.events + [Entry(item, DeletedBy(w, item))])
  {
    if item.what.HardLink? { LinkMayFollow(w.resolved, w.events, item); }
    OrderlyExtend(w.events, Entry(item, DeletedBy(w, item)));
    TracksWrite(w.resolved, w.events, item, DeletedBy(w, item));
  }

  lemma ItemWritten(seen: seq<Item>, w: Work, item: Item)
    requires Consistent(seen, w, [], []) && UniquePaths(seen + [item])
    requires item.what.HardLink? ==> item.what.target in w.resolved
    ensures Consistent(seen + [item], Written(w, item, DeletedBy(w, item)), [], [item.path])
    ensures item !in seen && DrawnFrom(w.events, seen)
  {
    NewItemWaits(seen, item, w.resolved, w.pending, w.events);
    WritingNew(seen, item, w.resolved, w.pending, DeletedBy(w, item));
    LogTakesItem(seen + [item], w, item);
  }

  lemma MarkedKept(seen: seq<Item>, events: seq<Event>, item: Item, later: seq<Event>)
    requires Marked(seen, events) && events <= later
    requires item.what == Directory(true) ==> OpaqueMark(item) in later
    ensures Marked(seen + [item], later)
  {
    forall i | i in seen + [item] && i.what == Directory(true) ensures OpaqueMark(i) in later {
      if i in seen {
        var k :| 0 <= k < |events| && events[k] == OpaqueMark(i);
        assert later[k] == events[k];
      }
    }
  }

  lemma MarkWritten(seen: seq<Item>, before: seq<Event>, items: seq<Item>, w: Work, item: Item)
    requires Consistent(items, w, [], []) && item in items && item.what == Directory(true)
    requires DrawnFrom(before, seen) && item !in seen
    requires AddsEntries(before + [Entry(item, false)], w.events)
    ensures Consistent(items, w.(events := w.events + [OpaqueMark(item)]), [], [])
  {
    assert Entry(item, false) == w.events[|before|];
    forall i | 0 <= i < |w.events| ensures w.events[i] != OpaqueMark(item) {
      if i < |before| {
        assert w.events[i] == before[i] && before[i] in before;
      }
    }
    OrderlyExtend(w.events, OpaqueMark(item));
    TracksMark(w.resolved, w.events, item);
  }

  /** At rest, the names that wait are the links whose chain does not end, and the counter
      counts them. */
  lemma CounterExact(items: seq<Item>, w: Work)
    requires Consistent(items, w, [], [])
    ensures Waiting(w.pending) == Unresolved(items) && w.count == |Unresolved(items)|
    ensures forall p :: p in w.resolved <==> Ends(items, p)
    ensures w.pending == map[] <==> Unresolved(items) == {}
  {
    forall p ensures p in w.resolved <==> Ends(items, p) {
      if p in w.resolved {
        var ev :| ev in w.events && ev.Entry? && ev.item.path == p;
        var i :| 0 <= i < |w.events| && w.events[i] == ev;
        WrittenMeansChainEnd(items, w.events, i);
      }
      if Ends(items, p) {
        var hops: nat :| End(items, p, hops).Some?;
        ChainEndsAreWritten(items, w.resolved, w.pending, p, hops);
      }
    }
    forall p | p in Unresolved(items) ensures p in Waiting(w.pending) {
      var item :| item in items && item.what.HardLink? && !Ends(items, item.path) && item.path == p;
      assert item in w.pending[item.what.target];
    }
    forall p | p in Waiting(w.pending) ensures p in Unresolved(items) {
      var t: Path, link: Item :| t in w.pending && link in w.pending[t] && link.path == p;
      assert link in items && link.path !in w.resolved;
    }
    TotalIsWaiting(w.pending, items);
    if w.pending != map[] {
      var t :| t in w.pending;
      assert w.pending[t][0].path in Waiting(w.pending);
    }
  }

  // ---------------------------------------------------------------------------
  // The same steps when names may repeat
  // ---------------------------------------------------------------------------

  lemma ResolvesWrite(resolved: map<Path, bool>, events: seq<Event>, item: Item, deleted: bool)
    requires Resolves(resolved, events)
    ensures Resolves(resolved[item.path := deleted], events + [Entry(item, deleted)])
  {
    var longer := events + [Entry(item, deleted)];
    assert Entry(item, deleted) in longer;
    forall p | p in resolved && p != item.path
      ensures exists ev | ev in longer :: ev.Entry? && ev.item.path == p && ev.deleted == resolved[p]
    {
      var ev :| ev in events && ev.Entry? && ev.item.path == p && ev.deleted == resolved[p];
      assert ev in longer;
    }
  }

  lemma WroteMore(events: seq<Event>, more: seq<Event>, item: Item)
    requires Wrote(events, item) && forall ev | ev in events :: ev in more
    ensures Wrote(more, item)
  {
    var deleted :| Entry(item, deleted) in events;
    assert Entry(item, deleted) in more;
  }

  /** An item is written: a new one, or the first of those in hand. */
  lemma WritingKeeps(items: seq<Item>, more: seq<Item>, w: Work, held: seq<Item>, rest: seq<Item>, item: Item, deleted: bool, queue: seq<Path>)
    requires Kept(items, w, held, queue) && item in more && (forall i | i in items :: i in more)
    requires forall i | i in more :: i in items || i == item
    requires forall i | i in held :: i in rest || i == item
    requires ComesAfter(w.events, Entry(item, deleted))
    ensures Kept(more, Written(w, item, deleted), rest, queue + [item.path])
  {
    var after := Written(w, item, deleted);
    SequenceExtend(w.events, Entry(item, deleted));
    ResolvesWrite(w.resolved, w.events, item, deleted);
    DoneWrites(w.resolved, queue, item.path, deleted);
    assert Entry(item, deleted) in after.events;
    forall i | i in more ensures Wrote(after.events, i) || i in rest || Waits(after.pending, i) {
      if i != item && Wrote(w.events, i) { WroteMore(w.events, after.events, i); }
    }
  }

  lemma TargetComesBefore(w: Work, link: Item)
    requires Resolves(w.resolved, w.events) && link.what.HardLink? && link.what.target in w.resolved
    ensures ComesAfter(w.events, Entry(link, w.resolved[link.what.target]))
  {
  }

  lemma LinkKeeps(items: seq<Item>, w: Work, links: seq<Item>, j: nat, target: Path, queue: seq<Path>)
    requires j < |links| && Kept(items, w, links[j..], queue) && target in w.resolved
    requires LinksTo(links, items, target)
    ensures Kept(items, Written(w, links[j], w.resolved[target]), links[j + 1..], queue + [links[j].path])
  {
    var link := links[j];
    assert link in links;
    assert links[j..] == [link] + links[j + 1..];
    TargetComesBefore(w, link);
    WritingKeeps(items, items, w, links[j..], links[j + 1..], link, w.resolved[target], queue);
  }

  lemma WorkingLink(items: seq<Item>, w: Work, links: seq<Item>, j: nat, target: Path, queue: seq<Path>)
    requires j < |links| && Working(items, w, links[j..], queue) && target in w.resolved && target !in w.pending
    requires LinksTo(links, items, target) && (UniquePaths(items) ==> DistinctPaths(links))
    ensures Working(items, Written(w, links[j], w.resolved[target]), links[j + 1..], queue + [links[j].path])
  {
    LinkKeeps(items, w, links, j, target, queue);
    if UniquePaths(items) {
      LinkWritten(items, w, links, j, target, queue);
    }
  }

  lemma TotalTaken(w: Work, next: Path)
    ensures var links := if next in w.pending then w.pending[next] else [];
            Total(w.pending) == |links| + Total(Taken(w, next).pending)
  {
    if next in w.pending {
      TotalRemove(w.pending, next);
    } else {
      assert w.pending - {next} == w.pending;
    }
  }

  lemma CoversTaken(items: seq<Item>, w: Work, next: Path)
    requires Covers(items, w.events, w.pending, [])
    ensures Covers(items, w.events, w.pending - {next}, if next in w.pending then w.pending[next] else [])
  {
    forall item | item in items && !Wrote(w.events, item)
      ensures item in (if next in w.pending then w.pending[next] else []) || Waits(w.pending - {next}, item)
    {
      assert Waits(w.pending, item);
    }
  }

  lemma TakingKeeps(items: seq<Item>, w: Work, queue: seq<Path>)
    requires queue != [] && Kept(items, w, [], queue)
    ensures var links := if queue[0] in w.pending then w.pending[queue[0]] else [];
            && Kept(items, Taken(w, queue[0]), links, queue[1..]) && LinksTo(links, items, queue[0])
  {
    TotalTaken(w, queue[0]);
    CoversTaken(items, w, queue[0]);
    assert forall t | t in queue[1..] :: t in queue;
  }

  lemma WorkingTaken(items: seq<Item>, w: Work, queue: seq<Path>)
    requires queue != [] && Working(items, w, [], queue)
    ensures var links := if queue[0] in w.pending then w.pending[queue[0]] else [];
            && Working(items, Taken(w, queue[0]), links, queue[1..]) && LinksTo(links, items, queue[0])
            && (UniquePaths(items) ==> DistinctPaths(links))
            && Total(w.pending) == |links| + Total(Taken(w, queue[0]).pending)
  {
    TakingKeeps(items, w, queue);
    TotalTaken(w, queue[0]);
    if UniquePaths(items) {
      ListTaken(items, w, queue);
    }
  }

  lemma UniquePrefix(seen: seq<Item>, item: Item)
    requires UniquePaths(seen + [item])
    ensures UniquePaths(seen)
  {
    assert forall i | 0 <= i < |seen| :: (seen + [item])[i] == seen[i];
  }

  lemma DeferringKeeps(seen: seq<Item>, w: Work, item: Item)
    requires Kept(seen, w, [], []) && item.what.HardLink?
    ensures Kept(seen + [item], Deferred(w, item), [], [])
  {
    TotalAppend(w.pending, item.what.target, item);
    var after := Deferred(w, item);
    forall i | i in seen + [item] ensures Wrote(after.events, i) || Waits(after.pending, i) {
      if i in seen && Waits(w.pending, i) {
        assert i in after.pending[i.what.target];
      }
    }
  }

  lemma WorkingDeferred(seen: seq<Item>, w: Work, item: Item)
    requires Working(seen, w, [], []) && item.what.HardLink? && item.what.target !in w.resolved
    ensures Working(seen + [item], Deferred(w, item), [], [])
  {
    DeferringKeeps(seen, w, item);
    if UniquePaths(seen + [item]) {
      UniquePrefix(seen, item);
      ItemDeferred(seen, w, item);
    }
  }

  lemma WorkingWritten(seen: seq<Item>, w: Work, item: Item)
    requires Working(seen, w, [], [])
    requires item.what.HardLink? ==> item.what.target in w.resolved
    ensures Working(seen + [item], Written(w, item, DeletedBy(w, item)), [], [item.path])
    ensures DrawnFrom(w.events, seen) && (UniquePaths(seen + [item]) ==> item !in seen)
  {
    if item.what.HardLink? { TargetComesBefore(w, item); }
    WritingKeeps(seen, seen + [item], w, [], [], item, DeletedBy(w, item), []);
    assert [] + [item.path] == [item.path];
    if UniquePaths(seen + [item]) {
      UniquePrefix(seen, item);
      ItemWritten(seen, w, item);
    }
  }

  lemma MarkingKeeps(items: seq<Item>, w: Work, item: Item)
    requires Kept(items, w, [], []) && item in items && item.what == Directory(true) && Entry(item, false) in w.events
    ensures Kept(items, w.(events := w.events + [OpaqueMark(item)]), [], [])
  {
    var longer := w.events + [OpaqueMark(item)];
    SequenceExtend(w.events, OpaqueMark(item));
    forall i | i in items && Wrote(w.events, i) ensures Wrote(longer, i) { WroteMore(w.events, longer, i); }
    forall p | p in w.resolved
      ensures exists ev | ev in longer :: ev.Entry? && ev.item.path == p && ev.deleted == w.resolved[p]
    {
      var ev :| ev in w.events && ev.Entry? && ev.item.path == p && ev.deleted == w.resolved[p];
      assert ev in longer;
    }
  }

  lemma WorkingMarked(seen: seq<Item>, before: seq<Event>, w: Work, item: Item)
    requires Working(seen + [item], w, [], []) && item.what == Directory(true)
    requires DrawnFrom(before, seen) && (UniquePaths(seen + [item]) ==> item !in seen)
    requires AddsEntries(before + [Entry(item, false)], w.events)
    ensures Working(seen + [item], w.(events := w.events + [OpaqueMark(item)]), [], [])
  {
    assert w.events[|before|] == Entry(item, false);
    MarkingKeeps(seen + [item], w, item);
    if UniquePaths(seen + [item]) {
      MarkWritten(seen, before, seen + [item], w, item);
    }
  }

  // ---------------------------------------------------------------------------
  // The translator as written
  // ---------------------------------------------------------------------------

  class SnapshotWriter {
    var resolved: map<Path, bool>
    var pending: Pending
    var pendingCount: int
    var events: seq<Event>  // written so far; Render gives the header of each

    ghost function State(): Work
      reads this
    {
      Work(resolved, pending, pendingCount, events)
    }

    constructor ()
      ensures State() == Work(map[], map[], 0, [])
    {
      resolved, pending, pendingCount, events := map[], map[], 0, [];
    }

    method WriteEntry(item: Item, deleted: bool)
      modifies this`events, this`resolved
      ensures State() == Written(old(State()), item, deleted)
    {
      events := events + [Entry(item, deleted)];
      resolved := resolved[item.path := deleted];
    }

    method WriteLink(target: Path, links: seq<Item>, j: nat, queue: seq<Path>, ghost items: seq<Item>) returns (longer: seq<Path>)
      requires j < |links| && Working(items, State(), links[j..], queue) && target in resolved && target !in pending
      requires LinksTo(links, items, target) && (UniquePaths(items) ==> DistinctPaths(links))
      modifies this`events, this`resolved
      ensures Working(items, State(), links[j + 1..], longer) && target in resolved && |longer| == |queue| + 1
      ensures events == old(events) + [Entry(links[j], old(resolved)[target])]
    {
      WorkingLink(items, State(), links, j, target, queue);
      WriteEntry(links[j], resolved[target]);
      longer := queue + [links[j].path];
    }

    /** Writes the links that waited for one target and queues their names. */
    method WriteLinks(target: Path, links: seq<Item>, queue: seq<Path>, ghost items: seq<Item>) returns (longer: seq<Path>)
      requires Working(items, State(), links, queue)
      requires target in resolved && target !in pending
      requires LinksTo(links, items, target) && (UniquePaths(items) ==> DistinctPaths(links))
      modifies this`events, this`resolved
      ensures Working(items, State(), [], longer)
      ensures |longer| == |queue| + |links| && AddsEntries(old(events), events)
    {
      longer := queue;
      assert links[0..] == links;
      for j := 0 to |links|
        invariant Working(items, State(), links[j..], longer)
        invariant target in resolved && |longer| == |queue| + j && AddsEntries(old(events), events)
      {
        AddsOneEntry(old(events), events, links[j], resolved[target]);
        longer := WriteLink(target, links, j, longer, items);
      }
      assert links[|links|..] == [];
    }

    /** Breadth-first: everything that waited, directly or not, for the target is written. */
    method FlushPendingLinks(target: Path, ghost items: seq<Item>)
      requires Working(items, State(), [], [target])
      modifies this
      ensures Working(items, State(), [], [])
      ensures AddsEntries(old(events), events) && pendingCount <= old(pendingCount)
    {
      var queue := [target];
      while |queue| != 0
        invariant Working(items, State(), [], queue)
        invariant AddsEntries(old(events), events) && pendingCount <= old(pendingCount)
        decreases Total(pending) + |queue|
      {
        ghost var before := events;
        queue := FlushNext(queue, items);
        AddsOn(old(events), before, events);
      }
      assert queue == [];
    }

    /** Takes the list of the first name in the queue and writes it. */
    method FlushNext(queue: seq<Path>, ghost items: seq<Item>) returns (longer: seq<Path>)
      requires queue != [] && Working(items, State(), [], queue)
      modifies this
      ensures Working(items, State(), [], longer)
      ensures AddsEntries(old(events), events) && pendingCount <= old(pendingCount)
      ensures Total(pending) + |longer| < Total(old(pending)) + |queue|
    {
      WorkingTaken(items, State(), queue);
      var next := queue[0];
      assert next in queue;
      var links := if next in pending then pending[next] else [];
      pending := pending - {next};
      pendingCount := pendingCount - |links|;
      longer := WriteLinks(next, links, queue[1..], items);
    }

    method WriteItem(item: Item, ghost seen: seq<Item>)
      requires Working(seen, State(), [], []) && Marked(seen, events)
      requires item.what.HardLink? ==> item.what.target in resolved
      modifies this
      ensures Working(seen + [item], State(), [], []) && Marked(seen + [item], events)
      ensures pendingCount <= old(pendingCount)
    {
      ghost var before := events;
      var deleted := item.what.Deletion? || (item.what.HardLink? && resolved[item.what.target]);
      WriteFirst(item, deleted, seen);
      FlushPendingLinks(item.path, seen + [item]);
      WriteMarker(item, deleted, seen, before);
    }

    method WriteFirst(item: Item, deleted: bool, ghost seen: seq<Item>)
      requires Working(seen, State(), [], [])
      requires item.what.HardLink? ==> item.what.target in resolved
      requires deleted == DeletedBy(State(), item)
      modifies this`events, this`resolved
      ensures Working(seen + [item], State(), [], [item.path]) && events == old(events) + [Entry(item, deleted)]
      ensures DrawnFrom(old(events), seen) && (UniquePaths(seen + [item]) ==> item !in seen)
    {
      WorkingWritten(seen, State(), item);
      WriteEntry(item, deleted);
    }

    /** After a directory and the links to it, its opaque marker. */
    method WriteMarker(item: Item, ghost deleted: bool, ghost seen: seq<Item>, ghost before: seq<Event>)
      requires Working(seen + [item], State(), [], []) && Marked(seen, before)
      requires DrawnFrom(before, seen) && (UniquePaths(seen + [item]) ==> item !in seen)
      requires AddsEntries(before + [Entry(item, deleted)], events) && (item.what.Directory? ==> !deleted)
      modifies this`events
      ensures Working(seen + [item], State(), [], []) && Marked(seen + [item], events)
    {
      assert before <= events;
      if item.what == Directory(true) {
        WorkingMarked(seen, before, State(), item);
        events := events + [OpaqueMark(item)];
      }
      MarkedKept(seen, before, item, events);
    }

    /** Takes one upper item. Refuses only a link that would wait beyond the limit. */
    method Add(item: Item, ghost seen: seq<Item>) returns (ok: bool)
      requires Working(seen, State(), [], []) && Marked(seen, events)
      modifies this
      ensures ok <==> !(item.what.HardLink? && item.what.target !in old(resolved) && old(pendingCount) >= MAX_PENDING_LINKS)
      ensures ok ==> Working(seen + [item], State(), [], []) && Marked(seen + [item], events)
      ensures ok && old(pendingCount) <= MAX_PENDING_LINKS ==> pendingCount <= MAX_PENDING_LINKS
    {
      if item.what.HardLink? && item.what.target !in resolved {
        if pendingCount >= MAX_PENDING_LINKS {
          return false;
        }
        WorkingDeferred(seen, State(), item);
        var target := item.what.target;
        pending := pending[target := (if target in pending then pending[target] else []) + [item]];
        pendingCount := pendingCount + 1;
        MarkedKept(seen, events, item, events);
        return true;
      }
      WriteItem(item, seen);
      return true;
    }
  }

  /** The upper's entries, each read or refused. */
  type Upper = seq<Result<Item>>

  function ReadUpper(headers: seq<Header>): (upper: Upper)
    ensures |upper| == |headers|
    ensures forall i | 0 <= i < |headers| :: upper[i] == Parse(headers[i])
  {
    seq(|headers|, i requires 0 <= i < |headers| => Parse(headers[i]))
  }

  predicate AllRead(upper: Upper) {
    forall i | 0 <= i < |upper| :: upper[i].Ok?
  }

  function ItemsOf(upper: Upper): (items: seq<Item>)
    requires AllRead(upper)
    ensures |items| == |upper|
    ensures forall i | 0 <= i < |upper| :: upper[i] == Ok(items[i])
  {
    seq(|upper|, i requires 0 <= i < |upper| => upper[i].value)
  }

  /** No two entries name the same path. */
  ghost predicate UniqueNames(upper: Upper) {
    forall i, j | 0 <= i < j < |upper| && upper[i].Ok? && upper[j].Ok? :: upper[i].value.path != upper[j].value.path
  }

  ghost predicate WithinLimit(items: seq<Item>) {
    forall n | 0 <= n <= |items| :: |Unresolved(items[..n])| <= MAX_PENDING_LINKS
  }

  /** Exactly the uppers that can be translated: every entry is supported, at no point do
      too many links wait, and every link's chain ends at an entry that is not a link. */
  ghost predicate Translatable(upper: Upper) {
    AllRead(upper) && WithinLimit(ItemsOf(upper)) && Unresolved(ItemsOf(upper)) == {}
  }

  lemma ItemsStep(upper: Upper, n: nat)
    requires n < |upper| && AllRead(upper[..n + 1])
    ensures AllRead(upper[..n])
    ensures ItemsOf(upper[..n + 1]) == ItemsOf(upper[..n]) + [upper[n].value]
    ensures UniqueNames(upper) ==> UniquePaths(ItemsOf(upper[..n + 1]))
  {
    assert forall i | 0 <= i < n :: upper[..n][i] == upper[..n + 1][i];
  }

  lemma LimitStep(items: seq<Item>, item: Item)
    requires WithinLimit(items)
    ensures WithinLimit(items + [item]) <==> |Unresolved(items + [item])| <= MAX_PENDING_LINKS
  {
    var longer := items + [item];
    assert longer[..|longer|] == longer;
    forall n | 0 <= n <= |items| ensures longer[..n] == items[..n] {
    }
  }

  lemma LimitPrefix(items: seq<Item>, n: nat)
    requires n <= |items| && !WithinLimit(items[..n])
    ensures !WithinLimit(items)
  {
    var k :| 0 <= k <= n && |Unresolved(items[..n][..k])| > MAX_PENDING_LINKS;
    assert items[..n][..k] == items[..k];
  }

  lemma RefusedLinkExceeds(seen: seq<Item>, w: Work, item: Item)
    requires Consistent(seen, w, [], []) && UniquePaths(seen + [item])
    requires item.what.HardLink? && item.what.target !in w.resolved
    ensures |Unresolved(seen + [item])| == w.count + 1
  {
    ItemDeferred(seen, w, item);
    CounterExact(seen + [item], Deferred(w, item));
  }

  lemma AllWritten(items: seq<Item>, w: Work)
    requires Working(items, w, [], []) && w.pending == map[] && Marked(items, w.events)
    ensures IsRendition(items, w.events)
    ensures UniquePaths(items) ==> IsTranslation(items, w.events)
  {
    if UniquePaths(items) {
      forall item | item in items ensures HasEntry(w.events, item.path) {
        assert item.path in w.resolved;
      }
    }
  }

  /** Whatever is written holds every entry, each after what it needs. When no two entries share
      a path, translation succeeds exactly on the translatable uppers, and then writes every
      item once, with a marker for every opaque directory. */
  ghost predicate Translates(upper: Upper, r: Result<seq<Event>>) {
    match r
    case Ok(events) =>
      && AllRead(upper) && IsRendition(ItemsOf(upper), events)
      && (UniqueNames(upper) ==> Translatable(upper) && IsTranslation(ItemsOf(upper), events))
    case Err => UniqueNames(upper) ==> !Translatable(upper)
  }

  /** What the loop knows of the limit when no two entries share a path. */
  ghost predicate Counted(upper: Upper, seen: seq<Item>, count: int) {
    UniqueNames(upper) ==> UniquePaths(seen) && WithinLimit(seen) && count == |Unresolved(seen)|
  }

  /** Before entry i. */
  ghost predicate Reading(upper: Upper, i: nat, seen: seq<Item>, w: Work) {
    && i <= |upper| && AllRead(upper[..i]) && seen == ItemsOf(upper[..i])
    && Working(seen, w, [], []) && Marked(seen, w.events)
    && w.count <= MAX_PENDING_LINKS && Counted(upper, seen, w.count)
  }

  lemma ReadingStarts(upper: Upper)
    ensures Reading(upper, 0, [], Work(map[], map[], 0, []))
  {
    assert Unresolved([]) == {};
    assert forall items: seq<Item>, n | items == [] && 0 <= n <= |items| :: items[..n] == [];
  }

  lemma ReadingNext(upper: Upper, i: nat, seen: seq<Item>, w: Work, item: Item, after: Work)
    requires Reading(upper, i, seen, w) && i < |upper| && upper[i] == Ok(item)
    requires Working(seen + [item], after, [], []) && Marked(seen + [item], after.events) && after.count <= MAX_PENDING_LINKS
    ensures Reading(upper, i + 1, seen + [item], after)
  {
    assert AllRead(upper[..i + 1]);
    ItemsStep(upper, i);
    if UniqueNames(upper) {
      LimitStep(seen, item);
      CounterExact(seen + [item], after);
    }
  }

  lemma Refused(upper: Upper, i: nat, seen: seq<Item>, item: Item, w: Work)
    requires Reading(upper, i, seen, w) && i < |upper| && upper[i] == Ok(item) && UniqueNames(upper)
    requires item.what.HardLink? && item.what.target !in w.resolved && w.count >= MAX_PENDING_LINKS
    ensures !Translatable(upper)
  {
    assert AllRead(upper[..i + 1]);
    ItemsStep(upper, i);
    UniquePrefix(seen, item);
    RefusedLinkExceeds(seen, w, item);
    if AllRead(upper) {
      assert ItemsOf(upper)[..i + 1] == seen + [item];
      assert (seen + [item])[..i + 1] == seen + [item];
      assert !WithinLimit(seen + [item]);
      LimitPrefix(ItemsOf(upper), i + 1);
    }
  }

  /** The end of the archive: links still wait, or everything is written. */
  lemma AtEnd(upper: Upper, seen: seq<Item>, w: Work)
    requires Reading(upper, |upper|, seen, w)
    ensures Translates(upper, if w.pending != map[] then Err else Ok(w.events))
  {
    assert upper[..|upper|] == upper;
    if UniqueNames(upper) {
      CounterExact(seen, w);
    }
    if w.pending == map[] {
      AllWritten(seen, w);
    }
  }

  lemma Unread(upper: Upper, i: nat)
    requires i < |upper| && upper[i].Err?
    ensures Translates(upper, Err)
  {
  }

  /** Takes entry i, unless it could not be read. */
  method TakeEntry(writer: SnapshotWriter, upper: Upper, i: nat, ghost seen: seq<Item>) returns (ok: bool)
    requires i < |upper| && Reading(upper, i, seen, writer.State())
    modifies writer
    ensures ok ==> upper[i].Ok? && Reading(upper, i + 1, seen + [upper[i].value], writer.State())
    ensures !ok ==> Translates(upper, Err)
  {
    if upper[i].Err? {
      Unread(upper, i);
      return false;
    }
    var item := upper[i].value;
    ghost var before := writer.State();
    ok := writer.Add(item, seen);
    if ok {
      ReadingNext(upper, i, seen, before, item, writer.State());
    } else {
      ghost var unique := UniqueNames(upper);
      if unique {
        Refused(upper, i, seen, item, before);
      }
    }
  }

  method ReadEntries(writer: SnapshotWriter, upper: Upper) returns (ok: bool, ghost seen: seq<Item>)
    requires writer.State() == Work(map[], map[], 0, [])
    modifies writer
    ensures ok ==> Reading(upper, |upper|, seen, writer.State())
    ensures !ok ==> Translates(upper, Err)
  {
    seen := [];
    ReadingStarts(upper);
    for i := 0 to |upper|
      invariant Reading(upper, i, seen, writer.State())
    {
      ok := TakeEntry(writer, upper, i, seen);
      if !ok {
        return;
      }
      seen := seen + [upper[i].value];
    }
    return true, seen;
  }

  method TranslateUpper(upper: Upper) returns (r: Result<seq<Event>>)
    ensures Translates(upper, r)
  {
    var writer := new SnapshotWriter();
    ghost var seen;
    var ok;
    ok, seen := ReadEntries(writer, upper);
    if !ok {
      return Err;
    }
    AtEnd(upper, seen, writer.State());
    return if writer.pending != map[] then Err else Ok(writer.events);
  }

  /** What the translator may make of an archive. */
  ghost predicate WritesAs(headers: seq<Header>, r: Result<seq<Header>>) {
    match r
    case Ok(out) => exists events :: out == RenderAll(events) && Translates(ReadUpper(headers), Ok(events))
    case Err => Translates(ReadUpper(headers), Err)
  }

  method WriteOciRootfsSnapshotLayer(headers: seq<Header>) returns (r: Result<seq<Header>>)
    ensures WritesAs(headers, r)
  {
    var events := TranslateUpper(ReadUpper(headers));
    match events {
      case Ok(written) => return Ok(RenderAll(written));
      case Err => return Err;
    }
  }

  // ---------------------------------------------------------------------------
  // One output per input
  // ---------------------------------------------------------------------------

  function EntryItems(events: seq<Event>): seq<Item> {
    if events == [] then []
    else
      var init, last := EntryItems(events[..|events| - 1]), events[|events| - 1];
      if last.Entry? then init + [last.item] else init
  }

  function MarkedItems(events: seq<Event>): seq<Item> {
    if events == [] then []
    else
      var init, last := MarkedItems(events[..|events| - 1]), events[|events| - 1];
      if last.Entry? then init else init + [last.item]
  }

  function OpaqueItems(items: seq<Item>): seq<Item> {
    if items == [] then []
    else
      var init, last := OpaqueItems(items[..|items| - 1]), items[|items| - 1];
      if last.what == Directory(true) then init + [last] else init
  }

  ghost predicate NoRepeats(s: seq<Item>) {
    forall i, j | 0 <= i < j < |s| :: s[i] != s[j]
  }

  lemma {:induction false} NoRepeatsCount(s: seq<Item>, x: Item)
    requires NoRepeats(s)
    ensures multiset(s)[x] == if x in s then 1 else 0
  {
    if s != [] {
      var init, last := s[..|s| - 1], s[|s| - 1];
      NoRepeatsCount(init, x);
      assert s == init + [last];
      assert last !in init;
    }
  }

  lemma SameMembersSameMultiset(s: seq<Item>, t: seq<Item>)
    requires NoRepeats(s) && NoRepeats(t) && forall x :: x in s <==> x in t
    ensures multiset(s) == multiset(t) && |s| == |t|
  {
    forall x ensures multiset(s)[x] == multiset(t)[x] {
      NoRepeatsCount(s, x);
      NoRepeatsCount(t, x);
    }
    assert |s| == |multiset(s)| && |t| == |multiset(t)|;
  }

  lemma NoRepeatsAppend(s: seq<Item>, x: Item)
    requires NoRepeats(s) && x !in s
    ensures NoRepeats(s + [x])
  {
  }

  lemma {:induction false} EventItems(events: seq<Event>)
    requires Orderly(events)
    ensures NoRepeats(EntryItems(events)) && NoRepeats(MarkedItems(events))
    ensures forall x :: x in EntryItems(events) <==> exists d :: Entry(x, d) in events
    ensures forall x :: x in MarkedItems(events) <==> OpaqueMark(x) in events
    ensures |events| == |EntryItems(events)| + |MarkedItems(events)|
  {
    if events != [] {
      var init, last := events[..|events| - 1], events[|events| - 1];
      assert events == init + [last];
      assert Orderly(init) by {
        forall i | 0 <= i < |init| ensures MayFollow(init[..i], init[i]) {
          assert init[..i] == events[..i] && MayFollow(events[..i], events[i]);
        }
      }
      EventItems(init);
      assert MayFollow(init, last);
      if last.Entry? {
        forall x | x in EntryItems(init) ensures x != last.item {
          var d :| Entry(x, d) in init;
          assert HasEntry(init, x.path);
        }
        NoRepeatsAppend(EntryItems(init), last.item);
      } else {
        assert last == OpaqueMark(last.item);
        NoRepeatsAppend(MarkedItems(init), last.item);
      }
    }
  }

  lemma {:induction false} OpaqueItemsExact(items: seq<Item>)
    requires UniquePaths(items)
    ensures NoRepeats(OpaqueItems(items))
    ensures forall x :: x in OpaqueItems(items) <==> x in items && x.what == Directory(true)
  {
    if items != [] {
      var init, last := items[..|items| - 1], items[|items| - 1];
      OpaqueItemsExact(init);
      assert items == init + [last];
      assert last !in init;
    }
  }

  /** Each input entry yields exactly one output entry, and each opaque directory one marker. */
  lemma OneOutputPerInput(items: seq<Item>, events: seq<Event>)
    requires UniquePaths(items) && IsTranslation(items, events)
    ensures multiset(EntryItems(events)) == multiset(items)
    ensures multiset(MarkedItems(events)) == multiset(OpaqueItems(items))
    ensures |RenderAll(events)| == |items| + |OpaqueItems(items)|
  {
    EventItems(events);
    OpaqueItemsExact(items);
    forall x ensures x in EntryItems(events) <==> x in items {
      if x in items {
        var ev :| ev in events && ev.Entry? && ev.item.path == x.path;
        FindUnique(items, x);
        FindUnique(items, ev.item);
        assert Entry(x, ev.deleted) in events;
      }
      if x in EntryItems(events) {
        var d :| Entry(x, d) in events;
      }
    }
    forall x ensures x in MarkedItems(events) <==> x in OpaqueItems(items) {
      if OpaqueMark(x) in events {
        var i :| 0 <= i < |events| && events[i] == OpaqueMark(x);
        assert MayFollow(events[..i], events[i]);
      }
    }
    SameMembersSameMultiset(EntryItems(events), items);
    SameMembersSameMultiset(MarkedItems(events), OpaqueItems(items));
  }
}
