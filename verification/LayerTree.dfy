/** A directory tree on disk, as left by extraction: nodes by path, with overlay markers. */
module LayerTree {
  import opened Paths

  datatype Meta = Meta(uid: int, gid: int, mode: int)

  /** An overlay attribute as its reader reports it. A marker is qualified when it
      sits in the trusted namespace; a user-only marker is readable but unqualified. */
  datatype Attr = NoAttr | Attr(value: string, qualified: bool) | AttrError

  /** The inode of a symbolic link: one of the layer, or one that a path has to itself. */
  datatype Inode = Numbered(n: nat) | OwnInode(path: Path)

  /** Names of one file have equal nodes. */
  datatype Node =
    | Dir(meta: Meta, opq: Attr)
    | Regular(inode: nat, meta: Meta, content: int, whiteout: Attr)
    | Symlink(link: Inode, meta: Meta, text: string)
    | CharDevice(inode: nat, meta: Meta, rdev: nat)
    | OtherSpecial(inode: nat, meta: Meta)

  type Tree = map<Path, Node>

  /** Rooted at a directory, and every entry sits inside a directory. */
  ghost predicate WellFormed(t: Tree) {
    && [] in t && t[[]].Dir?
    && forall p | p in t && p != [] :: Parent(p) in t && t[Parent(p)].Dir?
  }

  lemma {:induction false} PrefixesAreDirs(t: Tree, p: Path, k: nat)
    requires WellFormed(t) && p in t && k < |p|
    ensures p[..k] in t && t[p[..k]].Dir?
  {
    if k < |p| - 1 {
      PrefixesAreDirs(t, Parent(p), k);
      assert Parent(p)[..k] == p[..k];
    }
  }

  /** Whether a directory hides older layers. The flag says whether markers that
      exist only in the user namespace are honoured. */
  predicate IsOpaque(n: Node, user: bool) {
    n.Dir? && n.opq.Attr? && n.opq.value == "y" && (n.opq.qualified || user)
  }

  predicate IsWhiteout(n: Node, user: bool) {
    || (n.CharDevice? && n.rdev == 0)
    || (n.Regular? && n.whiteout.Attr? && (n.whiteout.qualified || user))
  }
}
