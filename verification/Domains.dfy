/** Domain rules: one canonical text each, sorted without repetition. */
module Domains {
  import opened Wrappers
  import opened Ordering
  import opened Text
  import Paths

  const MAX_NAME := 253
  const MAX_LABEL := 63

  /** Name conversion and the recognition of addresses are given by libraries. */
  datatype Names = Names(idna: string -> Option<string>, isAddress: string -> bool)

  function TrimDot(s: string): string {
    if s != "" && s[|s| - 1] == '.' then s[..|s| - 1] else s
  }

  predicate IsWildcard(s: string) {
    |s| >= 2 && s[..2] == "*."
  }

  function Body(s: string): string {
    if IsWildcard(s) then s[2..] else s
  }

  predicate Plain(s: string) {
    s != "" && forall c | c in s :: c !in "*/:@?#[]%"
  }

  predicate LabelsFit(s: string) {
    forall part | part in Paths.Split(s, '.') :: part != "" && |part| <= MAX_LABEL
  }

  /** The rule for a cleaned name, with or without a leading wildcard. */
  function Converted(names: Names, wildcard: bool, body: string): Result<string> {
    if !Plain(body) then Err
    else match names.idna(body)
         case None => Err
         case Some(converted) =>
           var name := Lower(converted);
           if |name| > MAX_NAME || !LabelsFit(name) || names.isAddress(name) then Err
           else Ok(if wildcard then "*." + name else name)
  }

  function NormalizeDomain(names: Names, raw: string): Result<string> {
    var value := TrimDot(TrimSpace(raw));
    Converted(names, IsWildcard(value), Body(value))
  }

  // ---------------------------------------------------------------------------
  // A normalised name is left as it is
  // ---------------------------------------------------------------------------

  predicate NameChar(c: char) {
    'a' <= c <= 'z' || 'A' <= c <= 'Z' || '0' <= c <= '9' || c == '-' || c == '.'
  }

  /** Conversion gives letters, digits, hyphens and dots, and converting again what it gave
      changes nothing. */
  ghost predicate Settles(names: Names) {
    forall s | names.idna(s).Some? ::
      && (forall c | c in names.idna(s).value :: NameChar(c))
      && names.idna(Lower(names.idna(s).value)) == Some(Lower(names.idna(s).value))
  }

  lemma {:induction false} LowerKeeps(s: string)
    requires forall c | c in s :: NameChar(c)
    ensures Lower(Lower(s)) == Lower(s)
    ensures forall c | c in Lower(s) :: NameChar(c)
  {
    if s != "" {
      LowerKeeps(s[1..]);
    }
  }

  lemma {:induction false} SplitEnds(s: string)
    ensures s == "" || s[|s| - 1] == '.' ==> "" in Paths.Split(s, '.')
    ensures Paths.Split(s, '.')[0] == "" ==> s == "" || s[0] == '.'
  {
    if s != "" {
      SplitEnds(s[1..]);
      var rest := Paths.Split(s[1..], '.');
      if s[|s| - 1] == '.' && s[0] != '.' {
        assert "" in rest;
        if rest[0] == "" {
          LastDotLater(s[1..]);
        }
      }
    }
  }

  /** When the first label is empty but the text goes on, the last dot leaves another. */
  lemma {:induction false} LastDotLater(s: string)
    requires s != "" && s[|s| - 1] == '.'
    ensures "" in Paths.Split(s, '.')[1..]
  {
    var rest := Paths.Split(s[1..], '.');
    if |s| == 1 {
      assert s[1..] == "";
      assert Paths.Split(s, '.') == ["", ""];
    } else {
      LastDotLater(s[1..]);
      assert Paths.Split(s, '.')[1..] == if s[0] == '.' then rest else rest[1..];
    }
  }

  lemma TrimKeeps(s: string)
    requires s != "" && !IsSpace(s[0]) && !IsSpace(s[|s| - 1]) && s[|s| - 1] != '.'
    ensures TrimDot(TrimSpace(s)) == s
  {
  }

  /** What a conversion gives is clean, plain and converts to itself. */
  lemma ConvertedAgain(names: Names, wildcard: bool, body: string)
    requires Settles(names) && Converted(names, wildcard, body).Ok?
    ensures var out := Converted(names, wildcard, body).value;
            && TrimDot(TrimSpace(out)) == out && IsWildcard(out) == wildcard
            && Converted(names, wildcard, Body(out)) == Ok(out)
  {
    var converted := names.idna(body).value;
    var name := Lower(converted);
    var out := Converted(names, wildcard, body).value;
    LowerKeeps(converted);
    NameIsPlain(name);
    assert out == if wildcard then "*." + name else name;
    assert out[|out| - 1] == name[|name| - 1];
    TrimKeeps(out);
    assert Body(out) == name by {
      if wildcard { assert out[..2] == "*." && out[2..] == name; }
    }
    assert names.idna(name) == Some(name);
  }

  lemma NameIsPlain(name: string)
    requires LabelsFit(name) && forall c | c in name :: NameChar(c)
    ensures Plain(name) && name[|name| - 1] != '.' && !IsWildcard(name)
    ensures !IsSpace(name[0]) && !IsSpace(name[|name| - 1])
  {
    SplitEnds(name);
    assert name != "";
    assert name[0] in name && name[|name| - 1] in name;
  }

  lemma DomainIdempotent(names: Names, raw: string)
    requires Settles(names) && NormalizeDomain(names, raw).Ok?
    ensures NormalizeDomain(names, NormalizeDomain(names, raw).value) == NormalizeDomain(names, raw)
  {
    var value := TrimDot(TrimSpace(raw));
    ConvertedAgain(names, IsWildcard(value), Body(value));
  }

  // ---------------------------------------------------------------------------
  // Lists of rules, whatever normalises one
  // ---------------------------------------------------------------------------

  /** Fails exactly when a rule does; otherwise the normalised rules, each once, in order. */
  ghost predicate ListResult(one: string -> Result<string>, raw: seq<string>, r: Result<seq<string>>) {
    && (r.Ok? <==> forall d | d in raw :: one(d).Ok?)
    && (r.Ok? ==>
          && Ascending(r.value, TextLess)
          && (forall d | d in raw :: one(d).value in r.value)
          && (forall n | n in r.value :: exists d | d in raw :: one(d) == Ok(n)))
  }

  lemma ListIdempotent(one: string -> Result<string>, raw: seq<string>, out: seq<string>, again: Result<seq<string>>)
    requires forall d | one(d).Ok? :: one(one(d).value) == one(d)
    requires ListResult(one, raw, Ok(out)) && ListResult(one, out, again)
    ensures again == Ok(out)
  {
    forall n | n in out ensures one(n) == Ok(n) {
      var d :| d in raw && one(d) == Ok(n);
    }
    forall n ensures n in again.value <==> n in out {
      if n in again.value {
        var d :| d in out && one(d) == Ok(n);
      }
    }
    TextOrder();
    AscendingUnique(again.value, out, TextLess);
  }

  /** Order and repetition of the rules make no difference. */
  lemma SameListSameResult(one: string -> Result<string>, a: seq<string>, b: seq<string>, ra: seq<string>, rb: seq<string>)
    requires ListResult(one, a, Ok(ra)) && ListResult(one, b, Ok(rb))
    requires forall d :: d in a <==> d in b
    ensures ra == rb
  {
    forall n ensures n in ra <==> n in rb {
      if n in ra {
        var d :| d in a && one(d) == Ok(n);
        assert d in b;
      }
      if n in rb {
        var d :| d in b && one(d) == Ok(n);
        assert d in a;
      }
    }
    TextOrder();
    AscendingUnique(ra, rb, TextLess);
  }

  method NormalizeList(one: string -> Result<string>, raw: seq<string>) returns (r: Result<seq<string>>)
    ensures ListResult(one, raw, r)
  {
    var seen: set<string> := {};
    for i := 0 to |raw|
      invariant forall d | d in raw[..i] :: one(d).Ok? && one(d).value in seen
      invariant forall n | n in seen :: exists d | d in raw :: one(d) == Ok(n)
    {
      var next := one(raw[i]);
      if next.Err? {
        return Err;
      }
      assert raw[i] in raw;
      seen := seen + {next.value};
    }
    assert raw[..|raw|] == raw;
    TextOrder();
    var out := SortSet(seen, TextLess);
    return Ok(out);
  }

  // ---------------------------------------------------------------------------
  // Lists of domains
  // ---------------------------------------------------------------------------

  function One(names: Names): string -> Result<string> {
    (d: string) => NormalizeDomain(names, d)
  }

  ghost predicate DomainsResult(names: Names, raw: seq<string>, r: Result<seq<string>>) {
    ListResult(One(names), raw, r)
  }

  lemma DomainsIdempotent(names: Names, raw: seq<string>, out: seq<string>, again: Result<seq<string>>)
    requires Settles(names) && DomainsResult(names, raw, Ok(out)) && DomainsResult(names, out, again)
    ensures again == Ok(out)
  {
    forall d: string | One(names)(d).Ok? ensures One(names)(One(names)(d).value) == One(names)(d) {
      DomainIdempotent(names, d);
    }
    ListIdempotent(One(names), raw, out, again);
  }

  method NormalizeDomains(names: Names, raw: seq<string>) returns (r: Result<seq<string>>)
    ensures DomainsResult(names, raw, r)
  {
    r := NormalizeList(One(names), raw);
  }
}
