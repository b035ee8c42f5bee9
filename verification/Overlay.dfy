/** A read-only overlay of directory trees, resolved one path component at a time. */
module Overlay {
  import opened Wrappers
  import opened Paths
  import opened LayerTree
  import opened LayerView
  import opened DirectoryMetadata

  /** The trees, topmost first, that take part in the merged directory q, given those
      that take part in its parent. A non-directory or an opaque directory ends the merge. */
  function Participants(trees: seq<Tree>, q: Path, user: bool): seq<Tree> {
    if trees == [] then []
    else if q !in trees[0] then Participants(trees[1..], q, user)
    else if !trees[0][q].Dir? then []
    else if IsOpaque(trees[0][q], user) then [trees[0]]
    else [trees[0]] + Participants(trees[1..], q, user)
  }

  /** The topmost entry of that name; a whiteout shows nothing. */
  function Topmost(trees: seq<Tree>, q: Path, user: bool): Option<Visible> {
    if trees == [] then None
    else if q !in trees[0] then Topmost(trees[1..], q, user)
    else if IsWhiteout(trees[0][q], user) then None
    else if trees[0][q].Dir? then Some(VisibleDir(trees[0][q].meta))
    else Some(VisibleLeaf(trees[0][q]))
  }

  function MergedDir(lowers: seq<Tree>, d: Path, user: bool): seq<Tree>
    decreases |d|
  {
    if d == [] then Participants(lowers, [], user)
    else Participants(MergedDir(lowers, Parent(d), user), d, user)
  }

  /** What an overlay of the lower directories, topmost first, shows at p. */
  function OverlayLookup(lowers: seq<Tree>, p: Path, user: bool): Option<Visible> {
    if p == [] then Topmost(lowers, [], user)
    else Topmost(MergedDir(lowers, Parent(p), user), p, user)
  }

  /** Trees, topmost first, applied one after another from the bottom. */
  function FoldDown(lowers: seq<Tree>, user: bool): View {
    if lowers == [] then map[] else ApplyLayer(FoldDown(lowers[1..], user), Explicit(lowers[0]), user)
  }

  predicate OpaqueAtOrAbove(t: Tree, d: Path, user: bool) {
    OpaqueAbove(t, d, user) || (d in t && IsOpaque(t[d], user))
  }

  /** How the topmost tree joins a merged directory. */
  ghost predicate JoinsMerge(t: Tree, rest: seq<Tree>, d: Path, user: bool) {
    var merged := MergedDir([t] + rest, d, user);
    if d in t then
      if !t[d].Dir? then merged == []
      else if OpaqueAtOrAbove(t, d, user) then merged == [t]
      else merged == [t] + MergedDir(rest, d, user)
    else
      if Sealed(t, d, user) then merged == [] else merged == MergedDir(rest, d, user)
  }

  lemma SealedStep(t: Tree, d: Path, user: bool)
    requires WellFormed(t) && d != []
    ensures d in t ==> Parent(d) in t && t[Parent(d)].Dir?
    ensures OpaqueAbove(t, d, user) <==> OpaqueAtOrAbove(t, Parent(d), user)
    ensures Sealed(t, d, user) <==>
            Sealed(t, Parent(d), user) ||
            (Parent(d) in t && (!t[Parent(d)].Dir? || IsOpaque(t[Parent(d)], user)))
    ensures Parent(d) in t ==> (Sealed(t, Parent(d), user) <==> OpaqueAbove(t, Parent(d), user))
  {
    var e := Parent(d);
    assert forall k | 0 <= k < |e| :: e[..k] == d[..k];
    assert d[..|e|] == e;
    if e in t {
      forall k | 0 <= k < |e| ensures e[..k] in t && t[e[..k]].Dir? {
        PrefixesAreDirs(t, e, k);
      }
    }
  }

  lemma {:induction false} TopTreeJoins(t: Tree, rest: seq<Tree>, d: Path, user: bool)
    requires WellFormed(t)
    ensures JoinsMerge(t, rest, d, user)
    decreases |d|
  {
    var all := [t] + rest;
    assert all[0] == t && all[1..] == rest;
    if d != [] {
      var e := Parent(d);
      TopTreeJoins(t, rest, e, user);
      SealedStep(t, d, user);
      var above := MergedDir(all, e, user);
      if e in t && t[e].Dir? {
        assert above != [] && above[0] == t;
        assert above[1..] == (if OpaqueAtOrAbove(t, e, user) then [] else MergedDir(rest, e, user));
        assert Participants(above[1..], d, user) ==
               (if OpaqueAtOrAbove(t, e, user) then [] else MergedDir(rest, d, user));
      }
    }
  }

  lemma {:induction false} TopmostStep(t: Tree, rest: seq<Tree>, p: Path, user: bool)
    requires WellFormed(t)
    ensures OverlayLookup([t] + rest, p, user) ==
            if p in t then
              (if IsWhiteout(t[p], user) then None
               else if t[p].Dir? then Some(VisibleDir(t[p].meta)) else Some(VisibleLeaf(t[p])))
            else if Sealed(t, p, user) then None
            else OverlayLookup(rest, p, user)
  {
    var all := [t] + rest;
    assert all[0] == t && all[1..] == rest;
    if p != [] {
      var e := Parent(p);
      TopTreeJoins(t, rest, e, user);
      SealedStep(t, p, user);
      var above := MergedDir(all, e, user);
      if e in t && t[e].Dir? {
        assert above != [] && above[0] == t;
        assert above[1..] == (if OpaqueAtOrAbove(t, e, user) then [] else MergedDir(rest, e, user));
        assert Topmost(above[1..], p, user) ==
               (if OpaqueAtOrAbove(t, e, user) then None else OverlayLookup(rest, p, user));
      }
    }
  }

  /** Merging directories component by component shows exactly what applying the trees
      one after another, bottom first, shows. */
  lemma {:induction false} OverlayIsFold(lowers: seq<Tree>, p: Path, user: bool)
    requires AllWellFormed(lowers)
    ensures OverlayLookup(lowers, p, user) == Lookup(FoldDown(lowers, user), p)
    decreases |lowers|
  {
    if lowers == [] {
      NothingMerges(p, user);
    } else {
      assert lowers == [lowers[0]] + lowers[1..];
      TopmostStep(lowers[0], lowers[1..], p, user);
      OverlayIsFold(lowers[1..], p, user);
    }
  }

  lemma {:induction false} NothingMerges(p: Path, user: bool)
    ensures MergedDir([], p, user) == []
    ensures OverlayLookup([], p, user) == None
    decreases |p|
  {
    if p != [] {
      NothingMerges(Parent(p), user);
    }
  }

  // ---------------------------------------------------------------------------
  // Mount order
  // ---------------------------------------------------------------------------

  function Reverse<T>(s: seq<T>): (r: seq<T>)
    ensures |r| == |s|
    ensures forall i | 0 <= i < |s| :: r[i] == s[|s| - 1 - i]
  {
    if s == [] then [] else [s[|s| - 1]] + Reverse(s[..|s| - 1])
  }

  lemma {:induction false} FoldDownReversed(trees: seq<Tree>, user: bool)
    ensures FoldDown(Reverse(trees), user) == FoldTrees(trees, user)
  {
    if trees != [] {
      FoldDownReversed(trees[..|trees| - 1], user);
      assert Reverse(trees)[1..] == Reverse(trees[..|trees| - 1]);
    }
  }

  /** The lower directories of a mount: the chain newest first, the support directory last. */
  function MountLowerDirs(chain: seq<Tree>, support: Tree): seq<Tree> {
    Reverse(chain) + [support]
  }

  /** What one more tree on top shows does not depend on entries that were not there. */
  lemma ApplyAgrees(older: View, more: View, l: Layer, p: Path, user: bool)
    requires p in older ==> Lookup(more, p) == Lookup(older, p)
    requires l.hasRootMetadata && l.implicit == {} && p in ApplyLayer(older, l, user)
    ensures Lookup(ApplyLayer(more, l, user), p) == Lookup(ApplyLayer(older, l, user), p)
  {
  }

  lemma {:induction false} SupportOnlyFillsGaps(lowers: seq<Tree>, support: Tree, p: Path, user: bool)
    requires p in FoldDown(lowers, user)
    ensures Lookup(FoldDown(lowers + [support], user), p) == Lookup(FoldDown(lowers, user), p)
    decreases |lowers|
  {
    assert (lowers + [support])[1..] == lowers[1..] + [support] && (lowers + [support])[0] == lowers[0];
    if p in FoldDown(lowers[1..], user) {
      SupportOnlyFillsGaps(lowers[1..], support, p, user);
    }
    ApplyAgrees(FoldDown(lowers[1..], user), FoldDown(lowers[1..] + [support], user), Explicit(lowers[0]), p, user);
  }
}
