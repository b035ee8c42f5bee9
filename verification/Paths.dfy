/** Archive names and the cleaned, component-wise paths the image manager works on. */
module Paths {
  import opened Wrappers

  /** A cleaned path: its components, outermost first. The empty path is the tree's root. */
  type Path = seq<string>

  function Parent(p: Path): Path
    requires p != []
  {
    p[..|p| - 1]
  }

  function Base(p: Path): string
    requires p != []
  {
    p[|p| - 1]
  }

  predicate ValidComponent(c: string) {
    c != "" && c != "." && c != ".." && '/' !in c
  }

  predicate ValidPath(p: Path) {
    forall i | 0 <= i < |p| :: ValidComponent(p[i])
  }

  // ---------------------------------------------------------------------------
  // Splitting and joining
  // ---------------------------------------------------------------------------

  function Split(s: string, sep: char): (parts: seq<string>)
    ensures |parts| >= 1
  {
    if s == "" then [""]
    else if s[0] == sep then [""] + Split(s[1..], sep)
    else
      var rest := Split(s[1..], sep);
      [[s[0]] + rest[0]] + rest[1..]
  }

  /** The archive name of a cleaned path; the root is written ".". */
  function Join(p: Path): string {
    if p == [] then "."
    else if |p| == 1 then p[0]
    else p[0] + "/" + Join(p[1..])
  }

  lemma {:induction false} SplitWithout(s: string, sep: char)
    requires sep !in s
    ensures Split(s, sep) == [s]
  {
    if s != "" {
      SplitWithout(s[1..], sep);
      assert s == [s[0]] + s[1..];
    }
  }

  lemma {:induction false} SplitConcat(a: string, b: string, sep: char)
    ensures Split(a + [sep] + b, sep) == Split(a, sep) + Split(b, sep)
  {
    var whole := a + [sep] + b;
    if a == "" {
      assert whole[1..] == b;
    } else {
      var tail := a[1..] + [sep] + b;
      assert whole[0] == a[0] && whole[1..] == tail;
      SplitConcat(a[1..], b, sep);
      SplitHeadTail(Split(a[1..], sep), Split(b, sep), a[0]);
    }
  }

  lemma SplitHeadTail(xs: seq<string>, ys: seq<string>, c: char)
    requires xs != []
    ensures [[c] + (xs + ys)[0]] + (xs + ys)[1..] == [[c] + xs[0]] + xs[1..] + ys
    ensures [""] + (xs + ys) == [""] + xs + ys
  {
  }

  lemma {:induction false} SplitJoin(p: Path)
    requires ValidPath(p) && p != []
    ensures Split(Join(p), '/') == p
  {
    SplitWithout(p[0], '/');
    if |p| > 1 {
      SplitJoin(p[1..]);
      SplitConcat(p[0], Join(p[1..]), '/');
      assert p == [p[0]] + p[1..];
    }
  }

  function Unsplit(parts: seq<string>, sep: char): string
    requires parts != []
  {
    if |parts| == 1 then parts[0] else parts[0] + [sep] + Unsplit(parts[1..], sep)
  }

  lemma {:induction false} UnsplitSplit(s: string, sep: char)
    ensures Unsplit(Split(s, sep), sep) == s
  {
    if s != "" {
      UnsplitSplit(s[1..], sep);
      var rest, parts := Split(s[1..], sep), Split(s, sep);
      if s[0] == sep {
        assert parts[1..] == rest;
      } else {
        assert parts[1..] == rest[1..];
        if |rest| > 1 {
          assert ([s[0]] + rest[0]) + [sep] + Unsplit(rest[1..], sep) == [s[0]] + (rest[0] + [sep] + Unsplit(rest[1..], sep));
        }
      }
    }
  }

  lemma {:induction false} SplitPieces(s: string, sep: char)
    ensures forall c | c in Split(s, sep) :: sep !in c
  {
    if s != "" {
      SplitPieces(s[1..], sep);
    }
  }

  // ---------------------------------------------------------------------------
  // Cleaning
  // ---------------------------------------------------------------------------

  /** Cleaning a rooted name: ".." above the root is dropped. */
  function CleanRooted(above: Path, parts: seq<string>): (p: Path)
    requires ValidPath(above)
    requires forall c | c in parts :: '/' !in c
    ensures ValidPath(p)
    decreases |parts|
  {
    if parts == [] then above
    else if parts[0] == "" || parts[0] == "." then CleanRooted(above, parts[1..])
    else if parts[0] == ".." then CleanRooted(if above == [] then [] else Parent(above), parts[1..])
    else CleanRooted(above + [parts[0]], parts[1..])
  }

  /** Cleaning a relative name: ".." above the root is an escape. */
  function CleanRelative(above: Path, parts: seq<string>): (r: Result<Path>)
    requires ValidPath(above)
    requires forall c | c in parts :: '/' !in c
    ensures r.Ok? ==> ValidPath(r.value)
    decreases |parts|
  {
    if parts == [] then Ok(above)
    else if parts[0] == "" || parts[0] == "." then CleanRelative(above, parts[1..])
    else if parts[0] == ".." then (if above == [] then Err else CleanRelative(Parent(above), parts[1..]))
    else CleanRelative(above + [parts[0]], parts[1..])
  }

  /** Every archive name is confined to the extraction root: cleaning it cannot fail. */
  function CleanArchivePath(raw: string): (p: Path)
    ensures ValidPath(p)
  {
    SplitPieces(raw, '/');
    CleanRooted([], Split(raw, '/'))
  }

  function ReplaceChar(s: string, from: char, to: char): string {
    if s == "" then "" else [if s[0] == from then to else s[0]] + ReplaceChar(s[1..], from, to)
  }

  function SafeSnapshotPath(name: string): (r: Result<Path>)
    ensures r.Ok? ==> ValidPath(r.value)
  {
    var slashed := ReplaceChar(name, '\\', '/');
    SplitPieces(slashed, '/');
    if slashed != "" && slashed[0] == '/' then Err else CleanRelative([], Split(slashed, '/'))
  }

  lemma {:induction false} CleanKeepsValid(above: Path, p: Path, slash: bool)
    requires ValidPath(above) && ValidPath(p)
    ensures CleanRooted(above, if slash then p + [""] else p) == above + p
    decreases |p|
  {
    var parts := if slash then p + [""] else p;
    if p == [] {
      if slash {
        assert parts[1..] == [];
      }
    } else {
      CleanKeepsValid(above + [p[0]], p[1..], slash);
      assert parts[1..] == if slash then p[1..] + [""] else p[1..];
      assert above + [p[0]] + p[1..] == above + p;
    }
  }

  /** Cleaning undoes joining, with or without the trailing separator of a directory entry. */
  lemma CleanJoin(p: Path)
    requires ValidPath(p)
    ensures CleanArchivePath(Join(p)) == p
    ensures p != [] ==> CleanArchivePath(Join(p) + "/") == p
  {
    if p == [] {
      SplitWithout(".", '/');
    } else {
      SplitJoin(p);
      CleanKeepsValid([], p, false);
      SplitConcat(Join(p), "", '/');
      assert Join(p) + ['/'] + "" == Join(p) + "/";
      SplitWithout("", '/');
      CleanKeepsValid([], p, true);
    }
  }

  // ---------------------------------------------------------------------------
  // Whiteout names
  // ---------------------------------------------------------------------------

  const WHITEOUT_PREFIX := ".wh."
  const OPAQUE_MARKER := ".wh..wh..opq"

  predicate IsWhiteoutName(name: string) {
    WHITEOUT_PREFIX <= name
  }

  /** What a whiteout entry hides: one name, or everything older inside a directory. */
  datatype Whiteout = HideName(target: Path) | HideOlder(dir: Path)

  function WhiteoutPath(p: Path): (r: Result<Whiteout>)
    requires p != []
    ensures r.Ok? ==> IsWhiteoutName(Base(p))
    ensures r.Ok? && r.value.HideName? ==> r.value.target != [] && Parent(r.value.target) == Parent(p)
    ensures r.Ok? && r.value.HideOlder? ==> r.value.dir == Parent(p)
  {
    var base := Base(p);
    if exists c | c in p :: '\0' in c then Err
    else if base == OPAQUE_MARKER then Ok(HideOlder(Parent(p)))
    else if !IsWhiteoutName(base) then Err
    else
      var name := base[|WHITEOUT_PREFIX|..];
      if name == "" || name == "." || name == ".." then Err else Ok(HideName(Parent(p) + [name]))
  }

  /** The name under which a deletion of p is published. */
  function WhiteoutNameOf(p: Path): (w: Path)
    requires p != []
  {
    Parent(p) + [WHITEOUT_PREFIX + Base(p)]
  }

  predicate NoNul(p: Path) {
    forall c | c in p :: '\0' !in c
  }

  /** Reading a published whiteout name gives back the deleted path, for every path
      that is not itself named like a whiteout marker's tail. */
  lemma WhiteoutNameInverts(p: Path)
    requires p != [] && ValidPath(p) && NoNul(p)
    ensures ValidPath(WhiteoutNameOf(p)) && IsWhiteoutName(Base(WhiteoutNameOf(p)))
    ensures WhiteoutPath(WhiteoutNameOf(p)) ==
            (if Base(p) == ".wh..opq" then Ok(HideOlder(Parent(p))) else Ok(HideName(p)))
  {
    var w := WhiteoutNameOf(p);
    assert Base(w) == WHITEOUT_PREFIX + Base(p) && Parent(w) == Parent(p);
    assert OPAQUE_MARKER == WHITEOUT_PREFIX + ".wh..opq";
    assert Base(w)[|WHITEOUT_PREFIX|..] == Base(p);
    assert OPAQUE_MARKER[|WHITEOUT_PREFIX|..] == ".wh..opq";
    assert p == Parent(p) + [Base(p)];
    assert NoNul(w) by {
      forall c | c in w ensures '\0' !in c {
        assert c in Parent(p) || c == WHITEOUT_PREFIX + Base(p);
        assert Base(p) in p;
      }
    }
    forall i | 0 <= i < |w| ensures ValidComponent(w[i]) {
      if i < |w| - 1 { assert w[i] == p[i]; }
    }
  }

  /** Opaque markers read back as "hide everything older in this directory". */
  lemma OpaqueMarkerReadsBack(dir: Path)
    requires ValidPath(dir) && NoNul(dir)
    ensures ValidPath(dir + [OPAQUE_MARKER])
    ensures WhiteoutPath(dir + [OPAQUE_MARKER]) == Ok(HideOlder(dir))
  {
    var w := dir + [OPAQUE_MARKER];
    assert Base(w) == OPAQUE_MARKER && Parent(w) == dir;
    assert forall c | c in w :: c in dir || c == OPAQUE_MARKER;
  }
}
