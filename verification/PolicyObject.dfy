/**
 * The policy object of policy.go: rules filed by kind as the descriptor is
 * read, then scanned for each request. Its answers are those of the plain list
 * of entries in Policies.
 */
module PolicyObject {
  import opened AddressTables
  import opened Descriptors
  import opened HostPorts
  import opened Labels
  import opened Netip
  import opened Policies
  import opened Text
  import opened Wrappers

  // ---- reading the fields of a rule ----

  method ParsePorts(values: Option<seq<PortValue>>) returns (r: Option<PortSet>)
    ensures r == LoadPorts(values)
  {
    if values.None? {
      return Some(PortSet(true, []));
    }
    if values.value == [] {
      return None;
    }
    var ranges: seq<(nat, nat)> := [];
    for i := 0 to |values.value|
      invariant |ranges| == i
      invariant forall j | 0 <= j < i :: EntryRange(values.value[j]) == Some(ranges[j])
    {
      var range := EntryRange(values.value[i]);
      if range.None? {
        return None;
      }
      ranges := ranges + [range.value];
    }
    r := Some(PortSet(false, ranges));
    assert ranges == LoadPorts(values).value.ranges;
  }

  method ParseTransports(values: Option<seq<string>>) returns (r: Option<TransportSet>)
    ensures r == LoadTransports(values)
  {
    if values.None? {
      return Some(TransportSet(true, false));
    }
    if values.value == [] {
      return None;
    }
    var tcp, udp := false, false;
    for i := 0 to |values.value|
      invariant forall j | 0 <= j < i :: values.value[j] in {"tcp", "udp"}
      invariant tcp <==> "tcp" in values.value[..i]
      invariant udp <==> "udp" in values.value[..i]
    {
      assert values.value[..i + 1] == values.value[..i] + [values.value[i]];
      if values.value[i] == "tcp" {
        tcp := true;
      } else if values.value[i] == "udp" {
        udp := true;
      } else {
        return None;
      }
    }
    assert values.value[..|values.value|] == values.value;
    r := Some(TransportSet(tcp, udp));
  }

  method ParseResolve(lib: Library, dr: DescriptorRule) returns (r: Option<seq<Addr>>)
    ensures r.Some? <==> ResolveLoads(lib, dr)
    ensures r.Some? ==> r.value == LoadResolve(lib, dr)
  {
    if dr.resolve.None? {
      return Some([]);
    }
    if dr.name == "" || dr.name == "*" || dr.resolve.value == [] {
      return None;
    }
    var raw, addresses: seq<Addr> := dr.resolve.value, [];
    for i := 0 to |raw|
      invariant |addresses| == i
      invariant forall j | 0 <= j < i :: LoadAddr(lib, raw[j]) == Some(addresses[j])
    {
      var a := LoadAddr(lib, raw[i]);
      if a.None? {
        return None;
      }
      addresses := addresses + [a.value];
    }
    assert addresses == LoadResolve(lib, dr);
    r := Some(addresses);
  }

  // ---- scanning candidates ----

  /** The selection loop: the reason of a refusal is kept up as the candidates go by. */
  method Select(candidates: seq<Rule>, port: nat, network: string) returns (s: Selection)
    ensures s == SelectRule(candidates, port, network)
  {
    var reason := "";
    for i := 0 to |candidates|
      invariant forall j | 0 <= j < i :: !Allows(candidates[j], port, network)
      invariant reason == if exists j :: 0 <= j < i && Permits(candidates[j].ports, port) then "transport-not-allowed"
        else if i > 0 then "port-not-allowed" else ""
    {
      var r := candidates[i];
      if !Permits(r.ports, port) {
        if reason == "" {
          reason := "port-not-allowed";
        }
      } else if !HasTransport(r.transports, network) {
        reason := "transport-not-allowed";
      } else {
        return Selected(r);
      }
    }
    return Refused(reason);
  }

  /** Whether some rule covers the address on the port: literalRule and excepted. */
  method CoversOnPort(rules: seq<Rule>, a: Addr, port: nat) returns (found: bool)
    ensures found <==> exists r :: r in rules && RuleCovers(r, a) && Permits(r.ports, port)
  {
    for i := 0 to |rules|
      invariant forall j | 0 <= j < i :: !(RuleCovers(rules[j], a) && Permits(rules[j].ports, port))
    {
      if RuleCovers(rules[i], a) && Permits(rules[i].ports, port) {
        return true;
      }
    }
    return false;
  }

  datatype SuffixRule = SuffixRule(suffix: string, depth: int, rule: Rule)

  function Matching(suffixes: seq<SuffixRule>, name: string): seq<Rule> {
    if suffixes == [] then []
    else
      var last := suffixes[|suffixes| - 1];
      Matching(suffixes[..|suffixes| - 1], name)
      + if SuffixMatches(name, last.suffix, last.depth) then [last.rule] else []
  }

  lemma RulesAtAppend(entries: seq<Entry>, e: Entry, target: Target)
    ensures RulesAt(entries + [e], target) ==
      RulesAt(entries, target) + if e.target == target then [e.rule] else []
  {
    assert (entries + [e])[..|entries|] == entries;
  }

  lemma SuffixRulesAppend(entries: seq<Entry>, e: Entry, name: string)
    ensures SuffixRules(entries + [e], name) ==
      SuffixRules(entries, name) + if EntrySuffixMatches(e, name) then [e.rule] else []
  {
    assert (entries + [e])[..|entries|] == entries;
  }

  lemma MatchingAppend(suffixes: seq<SuffixRule>, s: SuffixRule, name: string)
    ensures Matching(suffixes + [s], name) ==
      Matching(suffixes, name) + if SuffixMatches(name, s.suffix, s.depth) then [s.rule] else []
  {
    assert (suffixes + [s])[..|suffixes|] == suffixes;
  }

  datatype LoadError = BadHeader | BadRule(index: nat) | BadException(index: nat)

  class LoadedPolicy {
    var version: string
    var sandbox: string
    var generation: string
    var udp: bool
    var names: map<string, seq<Rule>>
    var suffixes: seq<SuffixRule>
    var wildcard: seq<Rule>
    var literals: seq<Rule>
    var exceptions: seq<Rule>
    ghost var entries: seq<Entry>  // the rules added so far, in order

    function NamedRules(name: string): seq<Rule>
      reads this
    {
      if name in names then names[name] else []
    }

    ghost predicate Valid()
      reads this
    {
      && (forall name :: NamedRules(name) == RulesAt(entries, Exact(name)))
      && (forall name :: Matching(suffixes, name) == SuffixRules(entries, name))
      && wildcard == RulesAt(entries, Wildcard)
      && literals == RulesAt(entries, Literal)
    }

    ghost function View(): Policy
      reads this
    {
      Policy(version, sandbox, generation, udp, entries, exceptions)
    }

    constructor (version: string, sandbox: string, generation: string, udp: bool)
      ensures Valid()
      ensures View() == Policy(version, sandbox, generation, udp, [], [])
    {
      this.version := version;
      this.sandbox := sandbox;
      this.generation := generation;
      this.udp := udp;
      names := map[];
      suffixes := [];
      wildcard := [];
      literals := [];
      exceptions := [];
      entries := [];
    }

    /** Files one loaded rule by its kind. */
    method File(e: Entry)
      requires Valid()
      modifies this
      ensures Valid()
      ensures View() == old(View()).(entries := old(entries) + [e])
    {
      hide SuffixMatches, RulesAt, SuffixRules, Matching;
      forall target {
        RulesAtAppend(entries, e, target);
      }
      forall name {
        SuffixRulesAppend(entries, e, name);
      }
      if e.target.Suffix? {
        forall name {
          MatchingAppend(suffixes, SuffixRule(e.target.suffix, e.target.depth, e.rule), name);
        }
      }
      match e.target {
        case Wildcard => wildcard := wildcard + [e.rule];
        case Exact(name) => names := names[name := NamedRules(name) + [e.rule]];
        case Suffix(suffix, depth) => suffixes := suffixes + [SuffixRule(suffix, depth, e.rule)];
        case Literal => literals := literals + [e.rule];
      }
      entries := entries + [e];
    }

    /** addRule: reads one descriptor rule and files it; false when the schema forbids it. */
    method AddRule(lib: Library, dr: DescriptorRule) returns (ok: bool)
      requires Valid()
      modifies this
      ensures Valid()
      ensures ok <==> LoadRule(lib, dr).Some?
      ensures View() == if ok then old(View()).(entries := old(entries) + [LoadRule(lib, dr).value]) else old(View())
    {
      hide LoadPorts, LoadTransports, LoadResolve, ResolveLoads, LoadAddr, LoadPrefix, NormalizeName,
        KindCount, DepthLoads, HostPrefix, RulesAt, SuffixRules, Matching, Valid;
      if KindCount(dr) != 1 || |dr.id| > 64 {
        return false;
      }
      var ports := ParsePorts(dr.ports);
      if ports.None? {
        return false;
      }
      var transports := ParseTransports(dr.transports);
      if transports.None? {
        return false;
      }
      var resolve := ParseResolve(lib, dr);
      if resolve.None? || !DepthLoads(dr) {
        return false;
      }
      var r := Rule(dr.id, ports.value, transports.value, resolve.value, None);
      if dr.name == "*" {
        File(Entry(Wildcard, r));
        return true;
      }
      if dr.name != "" {
        var name := NormalizeName(lib, dr.name);
        if name.None? {
          return false;
        }
        File(Entry(Exact(name.value), r));
        return true;
      }
      if dr.suffix != "" {
        var suffix := NormalizeName(lib, dr.suffix);
        if suffix.None? {
          return false;
        }
        File(Entry(Suffix(suffix.value, dr.depth), r));
        return true;
      }
      var prefix: Option<Prefix> := None;
      if dr.ip != "" {
        var a := LoadAddr(lib, dr.ip);
        if a.None? {
          return false;
        }
        prefix := Some(HostPrefix(a.value));
      } else {
        prefix := LoadPrefix(lib, dr.cidr);
        if prefix.None? {
          return false;
        }
      }
      File(Entry(Literal, r.(prefix := prefix)));
      return true;
    }

    /** The first rule that does not load, or none when all are filed. */
    method AddRules(lib: Library, rules: seq<DescriptorRule>) returns (bad: Option<nat>)
      requires Valid() && entries == []
      modifies this
      ensures bad.Some? ==>
        bad.value < |rules| && RulesLoad(lib, rules[..bad.value]) && LoadRule(lib, rules[bad.value]).None?
      ensures bad.None? ==>
        RulesLoad(lib, rules) && Valid() && View() == old(View()).(entries := EntriesOf(lib, rules))
    {
      hide LoadRule, RulesAt, SuffixRules, Matching;
      for i := 0 to |rules|
        invariant Valid() && RulesLoad(lib, rules[..i])
        invariant View() == old(View()).(entries := EntriesOf(lib, rules[..i]))
      {
        var ok := AddRule(lib, rules[i]);
        if !ok {
          return Some(i);
        }
        assert EntriesOf(lib, rules[..i + 1]) == EntriesOf(lib, rules[..i]) + [LoadRule(lib, rules[i]).value];
      }
      assert rules[..|rules|] == rules;
      return None;
    }

    method AddExceptions(lib: Library, rules: seq<DescriptorRule>) returns (bad: Option<nat>)
      requires Valid() && exceptions == []
      modifies this`exceptions
      ensures Valid()
      ensures bad.Some? ==>
        bad.value < |rules| && ExceptionsLoad(lib, rules[..bad.value]) && LoadException(lib, rules[bad.value]).None?
      ensures bad.None? ==>
        ExceptionsLoad(lib, rules) && View() == old(View()).(exceptions := ExceptionsOf(lib, rules))
    {
      hide LoadException, RulesAt, SuffixRules, Matching;
      for i := 0 to |rules|
        invariant Valid() && ExceptionsLoad(lib, rules[..i])
        invariant View() == old(View()).(exceptions := ExceptionsOf(lib, rules[..i]))
      {
        var exception := LoadException(lib, rules[i]);
        if exception.None? {
          return Some(i);
        }
        exceptions := exceptions + [exception.value];
        assert ExceptionsOf(lib, rules[..i + 1]) == ExceptionsOf(lib, rules[..i]) + [exception.value];
      }
      assert rules[..|rules|] == rules;
      return None;
    }

    /** authorize, loop by loop. */
    method AuthorizeRequest(lib: Library, lookup: Resolver, host: string, port: string, network: string)
      returns (v: Verdict)
      requires Valid()
      ensures v == Authorize(View(), lib, lookup, host, port, network)
    {
      hide RulesAt, SuffixRules, Covering, Admitted, SelectRule, NormalizeName;
      v := Verdict(JoinHostPort(host, port), [], "", "", 403, None);
      var number := ParsePort(port);
      if number.None? {
        return Deny(v, 400, "malformed-port");
      }
      var parsed := lib.parseAddr(ToLower(host));
      if parsed.Some? {
        if Zone(parsed.value) != "" {
          return Deny(v, 403, "scoped-ip");
        }
        var a := Unmap(parsed.value);
        v := v.(destination := JoinHostPort(lib.formatAddr(a), port));
        var candidates := LiteralsCovering(a);
        var selection := Select(candidates, number.value, network);
        match selection {
          case Selected(r) => return v.(addresses := [a], rule := r.id);
          case Refused(reason) => return Deny(v, 403, if reason != "" then reason else "ip-not-on-allowlist");
        }
      }
      var name := NormalizeName(lib, host);
      if name.None? {
        return Deny(v, 400, "malformed-target");
      }
      v := v.(destination := JoinHostPort(name.value, port));
      var candidates := CandidatesFor(name.value);
      var selection := Select(candidates, number.value, network);
      if selection.Refused? {
        return Deny(v, 403, if selection.reason != "" then selection.reason else "not-on-allowlist");
      }
      var r := selection.rule;
      v := v.(rule := r.id);
      var resolved := r.resolve;
      if resolved == [] {
        var answers := lookup(name.value);
        if answers.Failure? {
          return v.(error := Some(answers.error));
        }
        resolved := answers.value;
      }
      var addresses := Filter(r, resolved, number.value);
      v := v.(addresses := addresses);
      if v.addresses == [] {
        return Deny(v, 403, "resolved-address-denied");
      }
    }

    method LiteralsCovering(a: Addr) returns (candidates: seq<Rule>)
      requires Valid()
      ensures candidates == LiteralCandidates(View(), a)
    {
      hide RulesAt, RuleCovers;
      candidates := [];
      for i := 0 to |literals|
        invariant candidates == Covering(literals[..i], a)
      {
        assert literals[..i + 1][..i] == literals[..i];
        if RuleCovers(literals[i], a) {
          candidates := candidates + [literals[i]];
        }
      }
      assert literals[..|literals|] == literals;
    }

    method CandidatesFor(name: string) returns (candidates: seq<Rule>)
      requires Valid()
      ensures candidates == NameCandidates(View(), name)
    {
      hide RulesAt, SuffixRules, SuffixMatches;
      candidates := NamedRules(name);
      for i := 0 to |suffixes|
        invariant candidates == NamedRules(name) + Matching(suffixes[..i], name)
      {
        assert suffixes[..i + 1][..i] == suffixes[..i];
        if SuffixMatches(name, suffixes[i].suffix, suffixes[i].depth) {
          candidates := candidates + [suffixes[i].rule];
        }
      }
      assert suffixes[..|suffixes|] == suffixes;
      candidates := candidates + wildcard;
    }

    /** The loop that keeps the resolver's answers the policy admits. */
    method Filter(selected: Rule, resolved: seq<Addr>, port: nat) returns (addresses: seq<Addr>)
      requires Valid()
      ensures addresses == Admitted(View(), selected, resolved, port)
    {
      hide RulesAt, RuleCovers, Permits, PublicAddress;
      addresses := [];
      for i := 0 to |resolved|
        invariant addresses == Admitted(View(), selected, resolved[..i], port)
      {
        assert resolved[..i + 1][..i] == resolved[..i];
        var a := Unmap(resolved[i]);
        if Zone(a) == "" {
          var literal := CoversOnPort(literals, a, port);
          var exception := CoversOnPort(exceptions, a, port);
          if a in selected.resolve || literal || exception || PublicAddress(a) {
            addresses := addresses + [a];
          }
        }
      }
      assert resolved[..|resolved|] == resolved;
    }
  }

  /** loadDescriptor after decoding: a fresh policy, or the first entry that does not load. */
  method LoadDescriptor(lib: Library, d: Descriptor, generation: string)
    returns (r: Result<LoadedPolicy, LoadError>)
    ensures r.Success? <==> Loads(lib, d)
    ensures r.Success? ==> fresh(r.value) && r.value.Valid() && r.value.View() == Load(lib, d, generation)
    ensures r == Failure(BadHeader) <==> !HeaderLoads(d)
    ensures r.Failure? && r.error.BadRule? ==>
      && r.error.index < |d.rules|
      && RulesLoad(lib, d.rules[..r.error.index])
      && LoadRule(lib, d.rules[r.error.index]).None?
    ensures r.Failure? && r.error.BadException? ==>
      && RulesLoad(lib, d.rules)
      && r.error.index < |d.resolvedAddresses|
      && ExceptionsLoad(lib, d.resolvedAddresses[..r.error.index])
      && LoadException(lib, d.resolvedAddresses[r.error.index]).None?
  {
    hide LoadRule, LoadException, EntriesOf, ExceptionsOf;
    if !HeaderLoads(d) {
      return Failure(BadHeader);
    }
    var p := new LoadedPolicy(d.version, d.sandbox, generation, d.udp);
    var bad := p.AddRules(lib, d.rules);
    if bad.Some? {
      return Failure(BadRule(bad.value));
    }
    bad := p.AddExceptions(lib, d.resolvedAddresses);
    if bad.Some? {
      return Failure(BadException(bad.value));
    }
    return Success(p);
  }
}
