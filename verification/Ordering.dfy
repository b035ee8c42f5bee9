/** Strict total orders, ascending lists, and the order of texts. */
module Ordering {

  ghost predicate StrictOrder<T(!new)>(less: (T, T) -> bool) {
    && (forall a :: !less(a, a))
    && (forall a, b, c :: less(a, b) && less(b, c) ==> less(a, c))
    && (forall a, b :: less(a, b) || less(b, a) || a == b)
  }

  predicate Ascending<T>(s: seq<T>, less: (T, T) -> bool) {
    forall i, j | 0 <= i < j < |s| :: less(s[i], s[j])
  }

  /** A set has one ascending list. */
  lemma {:induction false} AscendingUnique<T(!new)>(a: seq<T>, b: seq<T>, less: (T, T) -> bool)
    requires StrictOrder(less) && Ascending(a, less) && Ascending(b, less)
    requires forall x :: x in a <==> x in b
    ensures a == b
    decreases |a|
  {
    assert b != [] ==> b[0] in a;
    if a != [] {
      assert a[0] in b;
      assert b[0] in a;
      assert forall x | x in a :: x == a[0] || less(a[0], x);
      assert forall x | x in b :: x == b[0] || less(b[0], x);
      assert a[0] == b[0];
      forall x ensures x in a[1..] <==> x in b[1..] {
        assert x in a <==> x == a[0] || x in a[1..];
        assert x in b <==> x == b[0] || x in b[1..];
        assert a[0] !in a[1..] && b[0] !in b[1..];
      }
      AscendingUnique(a[1..], b[1..], less);
      assert a == [a[0]] + a[1..] && b == [b[0]] + b[1..];
    }
  }

  /** The place of a new element: everything before it is smaller, everything after it larger. */
  method InsertAscending<T(!new, ==)>(s: seq<T>, x: T, less: (T, T) -> bool) returns (r: seq<T>)
    requires StrictOrder(less) && Ascending(s, less) && x !in s
    ensures Ascending(r, less)
    ensures forall y :: y in r <==> y == x || y in s
  {
    var i := 0;
    while i < |s| && less(s[i], x)
      invariant i <= |s|
      invariant forall j | 0 <= j < i :: less(s[j], x)
    {
      i := i + 1;
    }
    r := s[..i] + [x] + s[i..];
    assert i < |s| ==> less(x, s[i]);
    assert s == s[..i] + s[i..];
  }

  /** The elements of a set in ascending order, in whatever order the set is walked. */
  method SortSet<T(!new, ==)>(elements: set<T>, less: (T, T) -> bool) returns (s: seq<T>)
    requires StrictOrder(less)
    ensures Ascending(s, less)
    ensures forall x :: x in s <==> x in elements
  {
    s := [];
    var todo := elements;
    while todo != {}
      invariant todo <= elements && Ascending(s, less)
      invariant forall x :: x in s <==> x in elements && x !in todo
    {
      var x :| x in todo;
      s := InsertAscending(s, x, less);
      todo := todo - {x};
    }
  }

  // ---------------------------------------------------------------------------
  // Texts, character by character
  // ---------------------------------------------------------------------------

  predicate TextLess(a: string, b: string) {
    if b == "" then false
    else if a == "" then true
    else if a[0] != b[0] then a[0] < b[0]
    else TextLess(a[1..], b[1..])
  }

  lemma {:induction false} TextIrreflexive(a: string)
    ensures !TextLess(a, a)
  {
    if a != "" { TextIrreflexive(a[1..]); }
  }

  lemma {:induction false} TextTransitive(a: string, b: string, c: string)
    requires TextLess(a, b) && TextLess(b, c)
    ensures TextLess(a, c)
  {
    if a != "" && a[0] == b[0] && b[0] == c[0] {
      TextTransitive(a[1..], b[1..], c[1..]);
    }
  }

  lemma {:induction false} TextTotal(a: string, b: string)
    ensures TextLess(a, b) || TextLess(b, a) || a == b
  {
    if a != "" && b != "" && a[0] == b[0] {
      TextTotal(a[1..], b[1..]);
      assert a == [a[0]] + a[1..] && b == [b[0]] + b[1..];
    }
  }

  lemma TextOrder()
    ensures StrictOrder(TextLess)
  {
    forall a: string ensures !TextLess(a, a) { TextIrreflexive(a); }
    forall a: string, b: string, c: string | TextLess(a, b) && TextLess(b, c) ensures TextLess(a, c) {
      TextTransitive(a, b, c);
    }
    forall a: string, b: string ensures TextLess(a, b) || TextLess(b, a) || a == b { TextTotal(a, b); }
  }
}
