/** Address rules, grouped by masked prefix and protocol, with merged port ranges. */
module CidrRules {
  import opened Wrappers
  import opened Ordering
  import opened Ports
  import opened Cidrs

  const TCP := 1
  const UDP := 2

  datatype Rule = Rule(cidr: string, protocol: int, ports: seq<PortRange>)

  datatype Key = Key(cidr: string, protocol: int)

  /** How prefixes are read and written. Reading ignores surrounding white space. */
  datatype Notation = Notation(parse: string -> Option<Prefix>, render: Prefix -> string)

  /** What is written reads back. */
  ghost predicate Faithful(net: Notation) {
    && (forall s :: net.parse(s).Some? ==> ValidPrefix(net.parse(s).value))
    && (forall p | ValidPrefix(p) :: net.parse(net.render(p)) == Some(p))
  }

  // ---------------------------------------------------------------------------
  // What a rule list grants
  // ---------------------------------------------------------------------------

  predicate Readable(net: Notation, cidr: string) {
    net.parse(cidr).Some? && ValidPrefix(net.parse(cidr).value)
  }

  function PrefixOf(net: Notation, rule: Rule): Prefix
    requires Readable(net, rule.cidr)
  {
    Masked(net.parse(rule.cidr).value)
  }

  function KeyOf(net: Notation, rule: Rule): Key
    requires Readable(net, rule.cidr)
  {
    Key(net.render(PrefixOf(net, rule)), rule.protocol)
  }

  /** What is checked of a rule before its ports. */
  predicate Addressed(net: Notation, rule: Rule) {
    && Readable(net, rule.cidr)
    && !Is4In6(net.parse(rule.cidr).value)
    && !Forbidden(PrefixOf(net, rule))
    && (rule.protocol == TCP || rule.protocol == UDP)
    && rule.ports != []
  }

  predicate Acceptable(net: Notation, rule: Rule) {
    Addressed(net, rule) && AllValid(rule.ports)
  }

  predicate GrantsBy(net: Notation, rule: Rule, prefix: Prefix, protocol: int, port: nat) {
    Readable(net, rule.cidr) && PrefixOf(net, rule) == prefix && rule.protocol == protocol && Covers(rule.ports, port)
  }

  /** Traffic to a masked prefix, of a protocol, to a port. */
  predicate Grants(net: Notation, rules: seq<Rule>, prefix: Prefix, protocol: int, port: nat) {
    exists rule | rule in rules :: GrantsBy(net, rule, prefix, protocol, port)
  }

  ghost predicate SameGrants(net: Notation, a: seq<Rule>, b: seq<Rule>) {
    forall prefix, protocol, port: nat :: Grants(net, a, prefix, protocol, port) <==> Grants(net, b, prefix, protocol, port)
  }

  // ---------------------------------------------------------------------------
  // The canonical list
  // ---------------------------------------------------------------------------

  predicate KeyLess(a: Key, b: Key) {
    if a.cidr == b.cidr then a.protocol < b.protocol else TextLess(a.cidr, b.cidr)
  }

  lemma KeyOrder()
    ensures StrictOrder(KeyLess)
  {
    forall a: Key, b: Key, c: Key | KeyLess(a, b) && KeyLess(b, c) ensures KeyLess(a, c) {
      if a.cidr != b.cidr && b.cidr != c.cidr {
        TextTransitive(a.cidr, b.cidr, c.cidr);
        TextIrreflexive(a.cidr);
      }
    }
    forall a: Key, b: Key ensures KeyLess(a, b) || KeyLess(b, a) || a == b { TextTotal(a.cidr, b.cidr); }
  }

  function Keys(rules: seq<Rule>): seq<Key> {
    seq(|rules|, i requires 0 <= i < |rules| => Key(rules[i].cidr, rules[i].protocol))
  }

  /** The text is the one written for a masked prefix. */
  predicate CanonicalText(net: Notation, cidr: string) {
    Readable(net, cidr) && Masked(net.parse(cidr).value) == net.parse(cidr).value && net.render(net.parse(cidr).value) == cidr
  }

  /** One acceptable rule per prefix and protocol, in order, each with its canonical ports. */
  ghost predicate CanonicalRules(net: Notation, rules: seq<Rule>) {
    && Ascending(Keys(rules), KeyLess)
    && forall rule | rule in rules :: Acceptable(net, rule) && CanonicalText(net, rule.cidr) && Canonical(rule.ports)
  }

  /** In a canonical list a rule says all there is about its prefix and protocol. */
  lemma GrantsOfRule(net: Notation, rules: seq<Rule>, i: nat, port: nat)
    requires CanonicalRules(net, rules) && i < |rules|
    ensures Grants(net, rules, net.parse(rules[i].cidr).value, rules[i].protocol, port) <==> Covers(rules[i].ports, port)
  {
    KeyOrder();
    var p, protocol := net.parse(rules[i].cidr).value, rules[i].protocol;
    if Covers(rules[i].ports, port) {
      assert GrantsBy(net, rules[i], p, protocol, port);
    }
    forall j | 0 <= j < |rules| && GrantsBy(net, rules[j], p, protocol, port) ensures j == i {
      assert rules[j] in rules && CanonicalText(net, rules[j].cidr);
      assert Keys(rules)[j] == Keys(rules)[i];
    }
  }

  lemma KeyCarriesOver(net: Notation, a: seq<Rule>, b: seq<Rule>, i: nat)
    requires CanonicalRules(net, a) && CanonicalRules(net, b) && SameGrants(net, a, b) && i < |a|
    ensures Keys(a)[i] in Keys(b)
  {
    var r := a[i];
    assert r in a && Acceptable(net, r) && r.ports[0] in r.ports;
    var p, port := net.parse(r.cidr).value, r.ports[0].start;
    assert In(r.ports[0], port);
    assert GrantsBy(net, r, p, r.protocol, port);
    assert Grants(net, b, p, r.protocol, port);
    var s :| s in b && GrantsBy(net, s, p, r.protocol, port);
    var j :| 0 <= j < |b| && b[j] == s;
    assert CanonicalText(net, s.cidr);
    assert Keys(b)[j] == Keys(a)[i];
  }

  /** Lists that grant the same are the same, once canonical. */
  lemma CanonicalRulesUnique(net: Notation, a: seq<Rule>, b: seq<Rule>)
    requires CanonicalRules(net, a) && CanonicalRules(net, b) && SameGrants(net, a, b)
    ensures a == b
  {
    KeyOrder();
    forall k ensures k in Keys(a) <==> k in Keys(b) {
      if k in Keys(a) {
        var i :| 0 <= i < |a| && Keys(a)[i] == k;
        KeyCarriesOver(net, a, b, i);
      }
      if k in Keys(b) {
        var i :| 0 <= i < |b| && Keys(b)[i] == k;
        KeyCarriesOver(net, b, a, i);
      }
    }
    AscendingUnique(Keys(a), Keys(b), KeyLess);
    assert |Keys(a)| == |a| && |Keys(b)| == |b|;
    forall i | 0 <= i < |a| ensures a[i] == b[i] {
      assert Keys(a)[i] == Keys(b)[i];
      forall port: nat ensures Covers(a[i].ports, port) <==> Covers(b[i].ports, port) {
        GrantsOfRule(net, a, i, port);
        GrantsOfRule(net, b, i, port);
      }
      assert a[i] in a && b[i] in b;
      CanonicalUnique(a[i].ports, b[i].ports);
    }
  }

  // ---------------------------------------------------------------------------
  // What normalising means
  // ---------------------------------------------------------------------------

  /** Fails exactly when a rule is not acceptable; otherwise the canonical list that grants
      the same. */
  ghost predicate CidrResult(net: Notation, rules: seq<Rule>, r: Result<seq<Rule>>) {
    && (r.Ok? <==> forall rule | rule in rules :: Acceptable(net, rule))
    && (r.Ok? ==> CanonicalRules(net, r.value) && SameGrants(net, rules, r.value))
  }

  /** Order, repetition and the way ranges are cut make no difference. */
  lemma SameGrantsSameResult(net: Notation, a: seq<Rule>, b: seq<Rule>, ra: seq<Rule>, rb: seq<Rule>)
    requires CidrResult(net, a, Ok(ra)) && CidrResult(net, b, Ok(rb)) && SameGrants(net, a, b)
    ensures ra == rb
  {
    forall prefix, protocol, port: nat
      ensures Grants(net, ra, prefix, protocol, port) <==> Grants(net, rb, prefix, protocol, port)
    {
      assert Grants(net, a, prefix, protocol, port) <==> Grants(net, b, prefix, protocol, port);
    }
    CanonicalRulesUnique(net, ra, rb);
  }

  lemma CidrsIdempotent(net: Notation, rules: seq<Rule>, out: seq<Rule>, again: Result<seq<Rule>>)
    requires CidrResult(net, rules, Ok(out)) && CidrResult(net, out, again)
    ensures again == Ok(out)
  {
    assert forall rule | rule in out :: Acceptable(net, rule);
    CanonicalRulesUnique(net, again.value, out);
  }

  lemma CidrsEmptiness(net: Notation, rules: seq<Rule>, out: seq<Rule>)
    requires CidrResult(net, rules, Ok(out))
    ensures out == [] <==> rules == []
  {
    if rules != [] {
      var r := rules[0];
      assert r in rules && Acceptable(net, r) && r.ports[0] in r.ports && In(r.ports[0], r.ports[0].start);
      assert GrantsBy(net, r, PrefixOf(net, r), r.protocol, r.ports[0].start);
      assert Grants(net, out, PrefixOf(net, r), r.protocol, r.ports[0].start);
    }
    if out != [] {
      var r := out[0];
      assert r in out && Acceptable(net, r) && r.ports[0] in r.ports && In(r.ports[0], r.ports[0].start);
      assert GrantsBy(net, r, PrefixOf(net, r), r.protocol, r.ports[0].start);
      assert Grants(net, rules, PrefixOf(net, r), r.protocol, r.ports[0].start);
    }
  }

  // ---------------------------------------------------------------------------
  // Grouping
  // ---------------------------------------------------------------------------

  predicate InGroup(net: Notation, rule: Rule, key: Key) {
    Readable(net, rule.cidr) && KeyOf(net, rule) == key
  }

  /** The port ranges of one group, in the order of the rules. */
  function Gathered(net: Notation, rules: seq<Rule>, key: Key): seq<PortRange> {
    if rules == [] then []
    else
      var last := rules[|rules| - 1];
      Gathered(net, rules[..|rules| - 1], key) + if InGroup(net, last, key) then last.ports else []
  }

  lemma {:induction false} GatheredRange(net: Notation, rules: seq<Rule>, key: Key, range: PortRange)
    ensures range in Gathered(net, rules, key) <==> exists rule | rule in rules :: InGroup(net, rule, key) && range in rule.ports
    decreases |rules|
  {
    if rules != [] {
      var init, last := rules[..|rules| - 1], rules[|rules| - 1];
      GatheredRange(net, init, key, range);
      assert rules == init + [last];
    }
  }

  lemma GatheredGrants(net: Notation, rules: seq<Rule>, prefix: Prefix, protocol: int, port: nat)
    requires Faithful(net) && ValidPrefix(prefix)
    ensures Covers(Gathered(net, rules, Key(net.render(prefix), protocol)), port) <==> Grants(net, rules, prefix, protocol, port)
  {
    var key := Key(net.render(prefix), protocol);
    if Covers(Gathered(net, rules, key), port) {
      var range :| range in Gathered(net, rules, key) && In(range, port);
      GatheredRange(net, rules, key, range);
      var rule :| rule in rules && InGroup(net, rule, key) && range in rule.ports;
      assert net.parse(net.render(prefix)) == Some(prefix);
      assert net.parse(net.render(PrefixOf(net, rule))) == Some(PrefixOf(net, rule));
      assert GrantsBy(net, rule, prefix, protocol, port);
    }
    if Grants(net, rules, prefix, protocol, port) {
      var rule :| rule in rules && GrantsBy(net, rule, prefix, protocol, port);
      var range :| range in rule.ports && In(range, port);
      GatheredRange(net, rules, key, range);
    }
  }

  lemma GatheredValid(net: Notation, rules: seq<Rule>, key: Key)
    ensures AllValid(Gathered(net, rules, key)) <==> forall rule | rule in rules && InGroup(net, rule, key) :: AllValid(rule.ports)
  {
    forall range ensures range in Gathered(net, rules, key) <==>
                         exists rule | rule in rules :: InGroup(net, rule, key) && range in rule.ports {
      GatheredRange(net, rules, key, range);
    }
  }

  predicate Named(net: Notation, rules: seq<Rule>, key: Key) {
    exists rule | rule in rules :: InGroup(net, rule, key)
  }

  /** The groups are the prefixes and protocols named, each with its ranges. */
  ghost predicate Grouped(net: Notation, rules: seq<Rule>, groups: map<Key, seq<PortRange>>) {
    forall key :: GroupedAt(net, rules, groups, key)
  }

  lemma NamedMore(net: Notation, rules: seq<Rule>, rule: Rule, key: Key)
    ensures Named(net, rules + [rule], key) <==> Named(net, rules, key) || InGroup(net, rule, key)
  {
    assert forall r :: r in rules + [rule] <==> r in rules || r == rule;
    if InGroup(net, rule, key) { assert rule in rules + [rule]; }
  }

  lemma GatheredMore(net: Notation, rules: seq<Rule>, rule: Rule, key: Key)
    ensures Gathered(net, rules + [rule], key) == Gathered(net, rules, key) + if InGroup(net, rule, key) then rule.ports else []
  {
    assert (rules + [rule])[..|rules|] == rules;
  }

  ghost predicate GroupedAt(net: Notation, rules: seq<Rule>, groups: map<Key, seq<PortRange>>, key: Key) {
    && (key in groups <==> Named(net, rules, key))
    && (key in groups ==> groups[key] == Gathered(net, rules, key) && groups[key] != [])
  }

  lemma GroupOneAt(net: Notation, rules: seq<Rule>, groups: map<Key, seq<PortRange>>, rule: Rule, key: Key, at: Key)
    requires GroupedAt(net, rules, groups, at) && (InGroup(net, rule, at) <==> at == key) && rule.ports != []
    ensures GroupedAt(net, rules + [rule], groups[key := (if key in groups then groups[key] else []) + rule.ports], at)
  {
    NamedMore(net, rules, rule, at);
    GatheredMore(net, rules, rule, at);
    if at !in groups {
      NothingGathered(net, rules, at);
    }
  }

  lemma GroupOne(net: Notation, rules: seq<Rule>, groups: map<Key, seq<PortRange>>, rule: Rule)
    requires Grouped(net, rules, groups) && Addressed(net, rule)
    ensures var key := KeyOf(net, rule);
            Grouped(net, rules + [rule], groups[key := (if key in groups then groups[key] else []) + rule.ports])
  {
    var key := KeyOf(net, rule);
    var more := groups[key := (if key in groups then groups[key] else []) + rule.ports];
    forall at ensures GroupedAt(net, rules + [rule], more, at) {
      assert GroupedAt(net, rules, groups, at);
      GroupOneAt(net, rules, groups, rule, key, at);
    }
  }

  lemma {:induction false} NothingGathered(net: Notation, rules: seq<Rule>, key: Key)
    requires !Named(net, rules, key)
    ensures Gathered(net, rules, key) == []
    decreases |rules|
  {
    if rules != [] {
      assert !InGroup(net, rules[|rules| - 1], key);
      NothingGathered(net, rules[..|rules| - 1], key);
    }
  }

  method GroupRules(net: Notation, rules: seq<Rule>) returns (r: Result<map<Key, seq<PortRange>>>)
    requires Faithful(net)
    ensures r.Ok? <==> forall rule | rule in rules :: Addressed(net, rule)
    ensures r.Ok? ==> Grouped(net, rules, r.value)
  {
    var groups: map<Key, seq<PortRange>> := map[];
    for i := 0 to |rules|
      invariant forall rule | rule in rules[..i] :: Addressed(net, rule)
      invariant Grouped(net, rules[..i], groups)
    {
      var rule := rules[i];
      assert rules[..i + 1] == rules[..i] + [rule] && rule in rules;
      if net.parse(rule.cidr).None? {
        return Err;
      }
      var prefix := net.parse(rule.cidr).value;
      if Is4In6(prefix) {
        return Err;
      }
      prefix := Masked(prefix);
      var forbidden := FindInside(prefix, FORBIDDEN);
      if forbidden || (rule.protocol != TCP && rule.protocol != UDP) || rule.ports == [] {
        return Err;
      }
      var key := Key(net.render(prefix), rule.protocol);
      GroupOne(net, rules[..i], groups, rule);
      groups := groups[key := (if key in groups then groups[key] else []) + rule.ports];
    }
    assert rules[..|rules|] == rules;
    return Ok(groups);
  }

  // ---------------------------------------------------------------------------
  // One rule per group
  // ---------------------------------------------------------------------------

  /** The rule made of a group. */
  ghost predicate MadeOf(net: Notation, rules: seq<Rule>, key: Key, out: Rule) {
    && out.cidr == key.cidr && out.protocol == key.protocol
    && AllValid(Gathered(net, rules, key)) && Canonical(out.ports)
    && forall port: nat :: Covers(out.ports, port) <==> Covers(Gathered(net, rules, key), port)
  }

  lemma MadePorts(net: Notation, rules: seq<Rule>, key: Key, out: Rule)
    requires MadeOf(net, rules, key, out) && Gathered(net, rules, key) != []
    ensures out.ports != [] && AllValid(out.ports)
  {
    var from := Gathered(net, rules, key);
    assert from[0] in from && ValidRange(from[0]) && In(from[0], from[0].start);
    assert Covers(out.ports, from[0].start);
    forall r | r in out.ports ensures ValidRange(r) {
      assert In(r, r.start) && In(r, r.end);
      assert Covers(from, r.start) && Covers(from, r.end);
    }
  }

  /** A group carries the address checks of the rules it came from. */
  lemma MadeAcceptable(net: Notation, rules: seq<Rule>, key: Key, out: Rule)
    requires Faithful(net) && MadeOf(net, rules, key, out) && Gathered(net, rules, key) != [] && Named(net, rules, key)
    requires forall rule | rule in rules :: Addressed(net, rule)
    ensures Acceptable(net, out) && CanonicalText(net, out.cidr)
  {
    MadePorts(net, rules, key, out);
    var rule :| rule in rules && InGroup(net, rule, key);
    var was, p := net.parse(rule.cidr).value, PrefixOf(net, rule);
    assert net.parse(net.render(p)) == Some(p);
    MaskedIdempotent(was);
    MaskedNotMapped(was);
  }

  lemma MadeGrants(net: Notation, rules: seq<Rule>, keys: seq<Key>, out: seq<Rule>, prefix: Prefix, protocol: int, port: nat)
    requires Faithful(net) && |keys| == |out|
    requires forall i | 0 <= i < |out| :: MadeOf(net, rules, keys[i], out[i]) && CanonicalText(net, out[i].cidr)
    requires forall key :: key in keys <==> Named(net, rules, key)
    ensures Grants(net, out, prefix, protocol, port) <==> Grants(net, rules, prefix, protocol, port)
  {
    if Grants(net, out, prefix, protocol, port) {
      var o :| o in out && GrantsBy(net, o, prefix, protocol, port);
      var i :| 0 <= i < |out| && out[i] == o;
      assert MadeOf(net, rules, keys[i], o) && CanonicalText(net, o.cidr);
      assert keys[i] == Key(net.render(prefix), protocol);
      GatheredGrants(net, rules, prefix, protocol, port);
    }
    if Grants(net, rules, prefix, protocol, port) {
      var rule :| rule in rules && GrantsBy(net, rule, prefix, protocol, port);
      var key := Key(net.render(prefix), protocol);
      assert InGroup(net, rule, key);
      assert Named(net, rules, key);
      var i :| 0 <= i < |keys| && keys[i] == key;
      GatheredGrants(net, rules, prefix, protocol, port);
      assert MadeOf(net, rules, key, out[i]) && CanonicalText(net, out[i].cidr);
      assert net.parse(net.render(prefix)) == Some(prefix);
      assert GrantsBy(net, out[i], prefix, protocol, port);
    }
  }

  lemma MadeResult(net: Notation, rules: seq<Rule>, groups: map<Key, seq<PortRange>>, keys: seq<Key>, out: seq<Rule>)
    requires Faithful(net) && Grouped(net, rules, groups) && |keys| == |out| && Ascending(keys, KeyLess)
    requires forall rule | rule in rules :: Addressed(net, rule)
    requires forall key :: key in keys <==> key in groups
    requires forall i | 0 <= i < |out| :: MadeOf(net, rules, keys[i], out[i])
    ensures CidrResult(net, rules, Ok(out))
  {
    forall key ensures key in keys <==> Named(net, rules, key) {
      assert GroupedAt(net, rules, groups, key);
    }
    forall i | 0 <= i < |out| ensures Acceptable(net, out[i]) && CanonicalText(net, out[i].cidr) {
      assert keys[i] in keys && GroupedAt(net, rules, groups, keys[i]);
      MadeAcceptable(net, rules, keys[i], out[i]);
    }
    assert Keys(out) == keys;
    forall prefix, protocol, port: nat ensures Grants(net, rules, prefix, protocol, port) <==> Grants(net, out, prefix, protocol, port) {
      MadeGrants(net, rules, keys, out, prefix, protocol, port);
    }
    forall rule | rule in rules ensures AllValid(rule.ports) {
      var key := KeyOf(net, rule);
      assert InGroup(net, rule, key);
      assert Named(net, rules, key);
      var i :| 0 <= i < |keys| && keys[i] == key;
      assert MadeOf(net, rules, keys[i], out[i]);
      GatheredValid(net, rules, key);
    }
  }

  method NormalizeCidrs(net: Notation, rules: seq<Rule>) returns (r: Result<seq<Rule>>)
    requires Faithful(net)
    ensures CidrResult(net, rules, r)
  {
    var grouped := GroupRules(net, rules);
    if grouped.Err? {
      return Err;
    }
    var groups := grouped.value;
    KeyOrder();
    var keys := SortSet(groups.Keys, KeyLess);
    var made := MakeRules(net, rules, groups, keys);
    if made.Ok? {
      MadeResult(net, rules, groups, keys, made.value);
    }
    return made;
  }

  /** One rule per group, in the order of the keys, unless a group has an invalid range. */
  method MakeRules(net: Notation, ghost rules: seq<Rule>, groups: map<Key, seq<PortRange>>, keys: seq<Key>)
    returns (r: Result<seq<Rule>>)
    requires Grouped(net, rules, groups) && forall key | key in keys :: key in groups
    ensures r.Err? ==> exists rule | rule in rules :: !AllValid(rule.ports)
    ensures r.Ok? ==> |r.value| == |keys| && forall i | 0 <= i < |keys| :: MadeOf(net, rules, keys[i], r.value[i])
  {
    var out := [];
    for i := 0 to |keys|
      invariant |out| == i
      invariant forall j | 0 <= j < i :: MadeOf(net, rules, keys[j], out[j])
    {
      var key := keys[i];
      assert key in keys && GroupedAt(net, rules, groups, key);
      var ports := NormalizePorts(groups[key]);
      if ports.Err? {
        GatheredValid(net, rules, key);
        return Err;
      }
      out := out + [Rule(key.cidr, key.protocol, ports.value)];
    }
    return Ok(out);
  }
}
