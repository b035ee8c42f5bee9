/** The network policy of a sandbox: validation, the canonical form, and what enforcing it
    needs. */
module NetworkPolicy {
  import opened Wrappers
  import opened CidrRules
  import opened Domains

  const MAX_RULES := 256

  datatype Mode = Unspecified | Default | Isolated | Host | Unknown(number: int)

  datatype StrictPolicy = StrictPolicy(domains: seq<string>, cidrs: seq<Rule>)

  /** A kind may be set without a body, and a policy without a kind. */
  datatype Egress = Strict(strict: Option<StrictPolicy>) | DnsDeny(denied: Option<seq<string>>) | NoKind

  datatype NetworkSpec = NetworkSpec(mode: Mode, egress: Option<Egress>)

  // ---------------------------------------------------------------------------
  // What a policy asks for
  // ---------------------------------------------------------------------------

  datatype Enforcement = NoEnforcement | DnsDenying | StrictEnforcement

  function StrictOf(egress: Option<Egress>): Option<StrictPolicy> {
    if egress.Some? && egress.value.Strict? then egress.value.strict else None
  }

  predicate HasDnsDeny(egress: Option<Egress>) {
    egress.Some? && egress.value.DnsDeny? && egress.value.denied.Some?
  }

  function EnforcementMode(spec: Option<NetworkSpec>): Enforcement {
    if spec.None? then NoEnforcement
    else if spec.value.mode == Isolated || StrictOf(spec.value.egress).Some? then StrictEnforcement
    else if HasDnsDeny(spec.value.egress) then DnsDenying
    else NoEnforcement
  }

  predicate NoRules(strict: StrictPolicy) {
    strict.domains == [] && strict.cidrs == []
  }

  predicate StrictNeedsEgressd(spec: Option<NetworkSpec>) {
    spec.Some? && var strict := StrictOf(spec.value.egress); strict.Some? && !NoRules(strict.value)
  }

  predicate IsStrictDenyAll(spec: Option<NetworkSpec>) {
    spec.Some? &&
    (spec.value.mode == Isolated || var strict := StrictOf(spec.value.egress); strict.Some? && NoRules(strict.value))
  }

  predicate RequiresDnsUpstreams(egress: Option<Egress>) {
    egress.Some? && (HasDnsDeny(egress) || (StrictOf(egress).Some? && StrictOf(egress).value.domains != []))
  }

  // ---------------------------------------------------------------------------
  // Normalising
  // ---------------------------------------------------------------------------

  function JoinStrict(domains: Result<seq<string>>, cidrs: Result<seq<Rule>>): Result<StrictPolicy> {
    if domains.Err? || cidrs.Err? || |domains.value| + |cidrs.value| > MAX_RULES then Err
    else Ok(StrictPolicy(domains.value, cidrs.value))
  }

  ghost predicate StrictResult(names: Names, net: Notation, strict: Option<StrictPolicy>, r: Result<StrictPolicy>) {
    if strict.None? then r == Err
    else exists domains, cidrs ::
           && DomainsResult(names, strict.value.domains, domains) && CidrResult(net, strict.value.cidrs, cidrs)
           && r == JoinStrict(domains, cidrs)
  }

  function LimitDenied(domains: Result<seq<string>>): Result<seq<string>> {
    if domains.Err? || domains.value == [] || |domains.value| > MAX_RULES then Err else domains
  }

  ghost predicate DeniedResult(names: Names, denied: Option<seq<string>>, r: Result<seq<string>>) {
    if denied.None? then r == Err
    else exists domains :: DomainsResult(names, denied.value, domains) && r == LimitDenied(domains)
  }

  /** A strict policy without rules is the isolated mode. */
  function ShownStrict(mode: Mode, strict: Result<StrictPolicy>): Result<Option<NetworkSpec>> {
    if strict.Err? then Err
    else if NoRules(strict.value) then Ok(Some(NetworkSpec(Isolated, None)))
    else Ok(Some(NetworkSpec(mode, Some(Strict(Some(strict.value))))))
  }

  function ShownDenied(mode: Mode, domains: Result<seq<string>>): Result<Option<NetworkSpec>> {
    if domains.Err? then Err else Ok(Some(NetworkSpec(mode, Some(DnsDeny(Some(domains.value))))))
  }

  /** The result for a mode that takes an egress policy. */
  ghost predicate EgressResult(names: Names, net: Notation, mode: Mode, egress: Egress, r: Result<Option<NetworkSpec>>) {
    match egress
    case Strict(strict) => exists out :: StrictResult(names, net, strict, out) && r == ShownStrict(mode, out)
    case DnsDeny(denied) => exists out :: DeniedResult(names, denied, out) && r == ShownDenied(mode, out)
    case NoKind => r == Err
  }

  predicate DenyAll(egress: Egress) {
    StrictOf(Some(egress)).Some? && NoRules(StrictOf(Some(egress)).value)
  }

  /** The whole of validation and canonicalisation. */
  ghost predicate NormalResult(names: Names, net: Notation, spec: Option<NetworkSpec>, r: Result<Option<NetworkSpec>>) {
    if spec.None? then r == Ok(None)
    else
      var mode, egress := spec.value.mode, spec.value.egress;
      if mode.Unknown? || (mode == Host && egress.Some?) then r == Err
      else if mode == Isolated then
        r == if egress.Some? && !DenyAll(egress.value) then Err else Ok(Some(NetworkSpec(mode, None)))
      else if egress.None? then r == Ok(Some(NetworkSpec(mode, None)))
      else EgressResult(names, net, mode, egress.value, r)
  }

  method NormalizeStrict(names: Names, net: Notation, strict: Option<StrictPolicy>) returns (r: Result<StrictPolicy>)
    requires Faithful(net)
    ensures StrictResult(names, net, strict, r)
  {
    if strict.None? {
      return Err;
    }
    var domains := NormalizeDomains(names, strict.value.domains);
    var cidrs := NormalizeCidrs(net, strict.value.cidrs);
    r := JoinStrict(domains, cidrs);
  }

  method NormalizeDnsDeny(names: Names, denied: Option<seq<string>>) returns (r: Result<seq<string>>)
    ensures DeniedResult(names, denied, r)
  {
    if denied.None? {
      return Err;
    }
    var domains := NormalizeDomains(names, denied.value);
    r := LimitDenied(domains);
  }

  method Normalize(names: Names, net: Notation, spec: Option<NetworkSpec>) returns (r: Result<Option<NetworkSpec>>)
    requires Faithful(net)
    ensures NormalResult(names, net, spec, r)
  {
    if spec.None? {
      return Ok(None);
    }
    var mode, egress := spec.value.mode, spec.value.egress;
    if mode.Unknown? || (mode == Host && egress.Some?) {
      return Err;
    }
    if mode == Isolated {
      if egress.Some? && !DenyAll(egress.value) {
        return Err;
      }
      return Ok(Some(NetworkSpec(mode, None)));
    }
    if egress.None? {
      return Ok(Some(NetworkSpec(mode, None)));
    }
    match egress.value
    case Strict(strict) =>
      var out := NormalizeStrict(names, net, strict);
      return ShownStrict(mode, out);
    case DnsDeny(denied) =>
      var out := NormalizeDnsDeny(names, denied);
      return ShownDenied(mode, out);
    case NoKind =>
      return Err;
  }

  // ---------------------------------------------------------------------------
  // What normalising keeps
  // ---------------------------------------------------------------------------

  lemma DomainsEmptiness(names: Names, raw: seq<string>, out: seq<string>)
    requires DomainsResult(names, raw, Ok(out))
    ensures out == [] <==> raw == []
  {
    assert raw != [] ==> raw[0] in raw;
    assert out != [] ==> out[0] in out;
  }

  /** A list stays empty or not empty. */
  lemma StrictEmptiness(names: Names, net: Notation, strict: Option<StrictPolicy>, out: StrictPolicy)
    requires StrictResult(names, net, strict, Ok(out))
    ensures strict.Some?
    ensures out.domains == [] <==> strict.value.domains == []
    ensures out.cidrs == [] <==> strict.value.cidrs == []
  {
    var domains, cidrs :| DomainsResult(names, strict.value.domains, domains)
      && CidrResult(net, strict.value.cidrs, cidrs) && Ok(out) == JoinStrict(domains, cidrs);
    DomainsEmptiness(names, strict.value.domains, domains.value);
    CidrsEmptiness(net, strict.value.cidrs, cidrs.value);
  }

  /** The canonical form is enforced in the same mode, denies all or not, and needs the
      enforcement daemon and a resolver or not, as the policy it came from. */
  lemma NormalizeKeepsMeaning(names: Names, net: Notation, spec: Option<NetworkSpec>, out: Option<NetworkSpec>)
    requires NormalResult(names, net, spec, Ok(out))
    ensures EnforcementMode(out) == EnforcementMode(spec)
    ensures IsStrictDenyAll(out) == IsStrictDenyAll(spec)
    ensures StrictNeedsEgressd(out) == StrictNeedsEgressd(spec)
    ensures spec.Some? <==> out.Some?
    ensures spec.Some? ==> RequiresDnsUpstreams(out.value.egress) == RequiresDnsUpstreams(spec.value.egress)
  {
    if spec.Some? && spec.value.mode != Isolated && spec.value.egress.Some? && spec.value.egress.value.Strict? {
      var strict := spec.value.egress.value.strict;
      var policy :| StrictResult(names, net, strict, policy) && Ok(out) == ShownStrict(spec.value.mode, policy);
      StrictEmptiness(names, net, strict, policy.value);
    }
  }

  lemma StrictIdempotent(names: Names, net: Notation, strict: Option<StrictPolicy>, out: StrictPolicy, again: Result<StrictPolicy>)
    requires Settles(names) && StrictResult(names, net, strict, Ok(out)) && StrictResult(names, net, Some(out), again)
    ensures again == Ok(out)
  {
    var domains, cidrs :| DomainsResult(names, strict.value.domains, domains)
      && CidrResult(net, strict.value.cidrs, cidrs) && Ok(out) == JoinStrict(domains, cidrs);
    var domains', cidrs' :| DomainsResult(names, out.domains, domains')
      && CidrResult(net, out.cidrs, cidrs') && again == JoinStrict(domains', cidrs');
    DomainsIdempotent(names, strict.value.domains, out.domains, domains');
    CidrsIdempotent(net, strict.value.cidrs, out.cidrs, cidrs');
  }

  lemma DeniedIdempotent(names: Names, denied: Option<seq<string>>, out: seq<string>, again: Result<seq<string>>)
    requires Settles(names) && DeniedResult(names, denied, Ok(out)) && DeniedResult(names, Some(out), again)
    ensures again == Ok(out)
  {
    var domains :| DomainsResult(names, denied.value, domains) && Ok(out) == LimitDenied(domains);
    var domains' :| DomainsResult(names, out, domains') && again == LimitDenied(domains');
    DomainsIdempotent(names, denied.value, out, domains');
  }

  /** A canonical policy is its own canonical form. */
  lemma NormalizeIdempotent(names: Names, net: Notation, spec: Option<NetworkSpec>, out: Option<NetworkSpec>,
                            again: Result<Option<NetworkSpec>>)
    requires Settles(names) && NormalResult(names, net, spec, Ok(out)) && NormalResult(names, net, out, again)
    ensures again == Ok(out)
  {
    if out.Some? && out.value.egress.Some? {
      var mode := spec.value.mode;
      match spec.value.egress.value
      case Strict(strict) =>
        var policy :| StrictResult(names, net, strict, policy) && Ok(out) == ShownStrict(mode, policy);
        var policy' :| StrictResult(names, net, Some(policy.value), policy') && again == ShownStrict(mode, policy');
        StrictIdempotent(names, net, strict, policy.value, policy');
      case DnsDeny(denied) =>
        var domains :| DeniedResult(names, denied, domains) && Ok(out) == ShownDenied(mode, domains);
        var domains' :| DeniedResult(names, Some(domains.value), domains') && again == ShownDenied(mode, domains');
        DeniedIdempotent(names, denied, domains.value, domains');
    }
  }
}
