/**
 * The boundary's decision read off the descriptor: which requests a loaded
 * policy allows, and at which addresses, in terms of the descriptor's fields.
 */
module PolicyAsWritten {
  import opened AddressTables
  import opened DescriptorMeaning
  import opened Descriptors
  import opened HostPorts
  import opened Netip
  import opened Policies
  import opened PolicyTheorems
  import opened Text
  import opened Wrappers

  // ---- requests ----

  /** What a host text is to the policy. */
  datatype HostKind = Scoped | LiteralHost(addr: Addr) | NameHost(name: string) | NoHost

  ghost predicate IsKind(lib: Library, host: string, kind: HostKind) {
    var parsed := lib.parseAddr(ToLower(host));
    match kind
    case Scoped => parsed.Some? && Zone(parsed.value) != ""
    case LiteralHost(a) => parsed.Some? && Zone(parsed.value) == "" && a == Unmap(parsed.value)
    case NameHost(n) => parsed.None? && HostNames(lib, host, n)
    case NoHost => parsed.None? && forall n :: !HostNames(lib, host, n)
  }

  /** The rule, as written, is about the host. */
  ghost predicate About(lib: Library, dr: DescriptorRule, kind: HostKind) {
    match kind
    case LiteralHost(a) => WritesAddress(lib, dr, a)
    case NameHost(n) => WritesName(lib, dr, n)
    case _ => false
  }

  predicate Permitted(dr: DescriptorRule, n: nat, network: string) {
    PortsSay(dr.ports, n) && TransportsSay(dr.transports, network)
  }

  ghost predicate Grants(lib: Library, dr: DescriptorRule, kind: HostKind, n: nat, network: string) {
    About(lib, dr, kind) && Permitted(dr, n, network)
  }

  // ---- the entries of a loaded descriptor ----

  lemma EntryMeans(lib: Library, d: Descriptor, generation: string, i: nat, kind: HostKind, n: nat, network: string)
    requires Loads(lib, d) && i < |d.rules|
    requires kind.LiteralHost? ==> Plain(kind.addr)
    ensures var p := Load(lib, d, generation);
      && |p.entries| == |d.rules|
      && p.entries[i] == LoadRule(lib, d.rules[i]).value
      && (Matches(p.entries[i], kind) <==> About(lib, d.rules[i], kind))
      && (Permits(p.entries[i].rule.ports, n) <==> PortsSay(d.rules[i].ports, n))
      && (Allows(p.entries[i].rule, n, network) <==> Permitted(d.rules[i], n, network))
      && p.entries[i].rule.id == d.rules[i].id
  {
    hide LoadRule, Permits, HasTransport, PortsSay, TransportsSay, TargetMatches, WritesName, WritesAddress, RuleCovers;
    LoadedRightsMean(lib, d.rules[i], n, network);
    match kind
    case LiteralHost(a) => LoadedAddressMeans(lib, d.rules[i], a);
    case NameHost(name) => LoadedNameMeans(lib, d.rules[i], name);
    case _ =>
  }

  /** A loaded entry is about the host. */
  predicate Matches(e: Entry, kind: HostKind) {
    match kind
    case LiteralHost(a) => e.target.Literal? && RuleCovers(e.rule, a)
    case NameHost(n) => TargetMatches(e, n)
    case _ => false
  }

  function CandidatesOf(p: Policy, kind: HostKind): seq<Rule> {
    match kind
    case LiteralHost(a) => LiteralCandidates(p, a)
    case NameHost(n) => NameCandidates(p, n)
    case _ => []
  }

  lemma CandidatesMatch(p: Policy, kind: HostKind, r: Rule)
    ensures r in CandidatesOf(p, kind) <==> exists e :: e in p.entries && e.rule == r && Matches(e, kind)
  {
    hide RulesAt, SuffixRules, Covering, EntrySuffixMatches, RuleCovers;
    match kind
    case LiteralHost(a) =>
      CoveringMembers(RulesAt(p.entries, Literal), a, r);
      RulesAtMembers(p.entries, Literal, r);
      if e :| e in p.entries && e.rule == r && Matches(e, kind) {
        assert e == Entry(Literal, r);
      }
    case NameHost(n) =>
      RulesAtMembers(p.entries, Exact(n), r);
      SuffixRulesMembers(p.entries, n, r);
      RulesAtMembers(p.entries, Wildcard, r);
      if e :| e in p.entries && e.rule == r && Matches(e, kind) {
        assert e.target == Exact(n) ==> e == Entry(Exact(n), r);
        assert e.target == Wildcard ==> e == Entry(Wildcard, r);
      }
    case _ =>
  }

  /** Every candidate is a written rule about the host, loaded, and the other way round. */
  lemma CandidateIsWritten(
    lib: Library, d: Descriptor, generation: string, kind: HostKind, n: nat, network: string, r: Rule) returns (i: nat)
    requires Loads(lib, d) && (kind.LiteralHost? ==> Plain(kind.addr))
    requires r in CandidatesOf(Load(lib, d, generation), kind)
    ensures i < |d.rules| && About(lib, d.rules[i], kind) && LoadRule(lib, d.rules[i]).value.rule == r
    ensures Permits(r.ports, n) <==> PortsSay(d.rules[i].ports, n)
    ensures Allows(r, n, network) <==> Permitted(d.rules[i], n, network)
  {
    hide LoadRule, Permits, Allows, PortsSay, Permitted, Matches, About, CandidatesOf;
    var p := Load(lib, d, generation);
    CandidatesMatch(p, kind, r);
    var e :| e in p.entries && e.rule == r && Matches(e, kind);
    i :| 0 <= i < |p.entries| && p.entries[i] == e;
    EntryMeans(lib, d, generation, i, kind, n, network);
  }

  lemma WrittenIsCandidate(lib: Library, d: Descriptor, generation: string, kind: HostKind, n: nat, network: string, i: nat)
    requires Loads(lib, d) && (kind.LiteralHost? ==> Plain(kind.addr))
    requires i < |d.rules| && About(lib, d.rules[i], kind)
    ensures var r := LoadRule(lib, d.rules[i]).value.rule;
      && r in CandidatesOf(Load(lib, d, generation), kind)
      && (Permits(r.ports, n) <==> PortsSay(d.rules[i].ports, n))
      && (Allows(r, n, network) <==> Permitted(d.rules[i], n, network))
  {
    hide LoadRule, Permits, Allows, PortsSay, Permitted, Matches, About, CandidatesOf;
    var p := Load(lib, d, generation);
    EntryMeans(lib, d, generation, i, kind, n, network);
    assert p.entries[i] in p.entries;
    CandidatesMatch(p, kind, p.entries[i].rule);
  }

  ghost predicate SomeAbout(lib: Library, d: Descriptor, kind: HostKind) {
    exists i :: 0 <= i < |d.rules| && About(lib, d.rules[i], kind)
  }

  ghost predicate SomeOnPort(lib: Library, d: Descriptor, kind: HostKind, n: nat) {
    exists i :: 0 <= i < |d.rules| && About(lib, d.rules[i], kind) && PortsSay(d.rules[i].ports, n)
  }

  ghost predicate SomeGrants(lib: Library, d: Descriptor, kind: HostKind, n: nat, network: string) {
    exists i :: 0 <= i < |d.rules| && Grants(lib, d.rules[i], kind, n, network)
  }

  /** How far the candidates come is how far the written rules come. */
  lemma CandidatesAsWritten(lib: Library, d: Descriptor, generation: string, kind: HostKind, n: nat, network: string)
    requires Loads(lib, d) && (kind.LiteralHost? ==> Plain(kind.addr))
    ensures var rules := CandidatesOf(Load(lib, d, generation), kind);
      && (rules != [] <==> SomeAbout(lib, d, kind))
      && ((exists r :: r in rules && Permits(r.ports, n)) <==> SomeOnPort(lib, d, kind, n))
      && ((exists r :: r in rules && Allows(r, n, network)) <==> SomeGrants(lib, d, kind, n, network))
  {
    hide Load, LoadRule, Permits, Allows, PortsSay, Permitted, About, CandidatesOf;
    var rules := CandidatesOf(Load(lib, d, generation), kind);
    forall i | 0 <= i < |d.rules| && About(lib, d.rules[i], kind)
      ensures LoadRule(lib, d.rules[i]).value.rule in rules
      ensures Permits(LoadRule(lib, d.rules[i]).value.rule.ports, n) <==> PortsSay(d.rules[i].ports, n)
      ensures Allows(LoadRule(lib, d.rules[i]).value.rule, n, network) <==> Permitted(d.rules[i], n, network)
    {
      WrittenIsCandidate(lib, d, generation, kind, n, network, i);
    }
    if rules != [] {
      var i := CandidateIsWritten(lib, d, generation, kind, n, network, rules[0]);
    }
    if r :| r in rules && Permits(r.ports, n) {
      var i := CandidateIsWritten(lib, d, generation, kind, n, network, r);
    }
    if r :| r in rules && Allows(r, n, network) {
      var i := CandidateIsWritten(lib, d, generation, kind, n, network, r);
    }
  }

  // ---- the decision ----

  lemma KindsAreExhaustive(lib: Library, host: string) returns (kind: HostKind)
    ensures IsKind(lib, host, kind)
  {
    hide HostNames, ToLower;
    var parsed := lib.parseAddr(ToLower(host));
    if parsed.Some? {
      kind := if Zone(parsed.value) != "" then Scoped else LiteralHost(Unmap(parsed.value));
    } else if n :| HostNames(lib, host, n) {
      kind := NameHost(n);
    } else {
      kind := NoHost;
    }
  }

  lemma KindIsRead(p: Policy, lib: Library, host: string, kind: HostKind)
    requires IsKind(lib, host, kind)
    ensures IsScoped(lib, host) <==> kind.Scoped?
    ensures IsLiteral(lib, host) <==> kind.LiteralHost?
    ensures IsHostname(lib, host) <==> kind.NameHost?
    ensures kind.NameHost? ==> NormalizeName(lib, host) == Some(kind.name)
    ensures kind.LiteralHost? ==>
      && Plain(kind.addr)
      && lib.parseAddr(ToLower(host)).Some?
      && kind.addr == Unmap(lib.parseAddr(ToLower(host)).value)
    ensures MatchingRules(p, lib, host) == CandidatesOf(p, kind)
  {
    hide HostNames, NormalizeName, ToLower, LiteralCandidates, NameCandidates;
    NamesNormalize(lib, host);
    if kind.NameHost? {
      NormalizedNames(lib, host, kind.name);
    } else if kind.LiteralHost? {
      UnmapMeans(lib.parseAddr(ToLower(host)).value);
    }
  }

  /** The reason of a refusal that the rules decide. */
  ghost predicate RefusedAsWritten(lib: Library, d: Descriptor, kind: HostKind, n: nat, v: Verdict) {
    && v.status == 403
    && v.addresses == []
    && v.reason ==
      (if SomeOnPort(lib, d, kind, n) then "transport-not-allowed"
       else if SomeAbout(lib, d, kind) then "port-not-allowed"
       else if kind.LiteralHost? then "ip-not-on-allowlist" else "not-on-allowlist")
  }

  ghost predicate DecidedAsWritten(lib: Library, d: Descriptor, kind: HostKind, port: string, network: string, v: Verdict)
    requires PortText(port)
  {
    var n := DigitValue(port);
    match kind
    case Scoped => v.reason == "scoped-ip" && v.status == 403
    case NoHost => v.reason == "malformed-target" && v.status == 400
    case LiteralHost(a) =>
      && v.destination == JoinHostPort(lib.formatAddr(a), port)
      && if SomeGrants(lib, d, kind, n, network) then Allowed(v) && v.addresses == [a]
         else RefusedAsWritten(lib, d, kind, n, v)
    case NameHost(name) =>
      && v.destination == JoinHostPort(name, port)
      && if SomeGrants(lib, d, kind, n, network) then v.reason in {"", "resolved-address-denied"}
         else RefusedAsWritten(lib, d, kind, n, v)
  }

  /**
   * Every request, read off the descriptor: a bad port or host is malformed, a
   * scoped address refused; any other is granted by the rules if and only if
   * one of them is about the host, names the port and names the transport, and
   * otherwise refused for the furthest any came. A granted literal is allowed.
   */
  lemma DecisionAsWritten(
    lib: Library, d: Descriptor, generation: string, lookup: Resolver,
    host: string, port: string, network: string, kind: HostKind)
    requires Loads(lib, d) && IsKind(lib, host, kind)
    ensures var v := Authorize(Load(lib, d, generation), lib, lookup, host, port, network);
      if !PortText(port) then v.reason == "malformed-port" && v.status == 400
      else
        DecidedAsWritten(lib, d, kind, port, network, v)
  {
    hide Load, IsKind, SomeGrants, SomeOnPort, SomeAbout, NormalizeName, ParsePort, ToLower, Permits, Allows, SelectRule, NameCandidates,
      LiteralCandidates, Admitted, JoinHostPort, DigitValue, Authorize;
    var p := Load(lib, d, generation);
    KindIsRead(p, lib, host, kind);
    PortTextsParse(port);
    MalformedExactly(p, lib, lookup, host, port, network);
    StatusIs400Or403(p, lib, lookup, host, port, network);
    if PortText(port) && (kind.LiteralHost? || kind.NameHost?) {
      var n := DigitValue(port);
      CandidatesAsWritten(lib, d, generation, kind, n, network);
      RefusedExactly(p, lib, lookup, host, port, network);
      ShapeOfVerdict(p, lib, lookup, host, port, network);
    }
  }

  lemma StatusIs400Or403(p: Policy, lib: Library, lookup: Resolver, host: string, port: string, network: string)
    ensures Authorize(p, lib, lookup, host, port, network).status in {400, 403}
  {
    hide SelectRule, NormalizeName, ParsePort, ToLower, NameCandidates, LiteralCandidates, Admitted, JoinHostPort;
  }

  /** What authorize fills in besides the reason. */
  lemma ShapeOfVerdict(p: Policy, lib: Library, lookup: Resolver, host: string, port: string, network: string)
    requires ParsePort(port).Some? && (IsLiteral(lib, host) || IsHostname(lib, host))
    ensures var v := Authorize(p, lib, lookup, host, port, network);
      var a := if IsLiteral(lib, host) then Some(Unmap(lib.parseAddr(ToLower(host)).value)) else None;
      && v.destination == (if a.Some? then JoinHostPort(lib.formatAddr(a.value), port)
                           else JoinHostPort(NormalizeName(lib, host).value, port))
      && v.status == 403
      && (a.Some? ==> v.reason != "resolved-address-denied")
      && (a.Some? && v.reason == "" ==> Allowed(v) && v.addresses == [a.value])
      && (v.reason != "" ==> v.addresses == [])
  {
    hide SelectRule, NormalizeName, ParsePort, ToLower, NameCandidates, LiteralCandidates, Admitted, JoinHostPort;
    if IsLiteral(lib, host) {
      var n := ParsePort(port).value;
      var rules := LiteralCandidates(p, Unmap(lib.parseAddr(ToLower(host)).value));
      if SelectRule(rules, n, network).Refused? {
        RefusalReasons(rules, n, network);
        OnlyThreeReasons(rules, n, network);
      }
    }
  }

  lemma OnlyThreeReasons(rules: seq<Rule>, n: nat, network: string)
    ensures SelectRule(rules, n, network).Refused? ==>
      SelectRule(rules, n, network).reason in {"", "port-not-allowed", "transport-not-allowed"}
  {
  }

  // ---- which rule serves a name ----

  /** Entries that match in one way: an exact name, any suffix rule, or the wildcard. */
  predicate InGroup(e: Entry, name: string, group: nat) {
    match group
    case 0 => e.target == Exact(name)
    case 1 => EntrySuffixMatches(e, name)
    case _ => e.target == Wildcard
  }

  function GroupRules(entries: seq<Entry>, name: string, group: nat): seq<Rule> {
    match group
    case 0 => RulesAt(entries, Exact(name))
    case 1 => SuffixRules(entries, name)
    case _ => RulesAt(entries, Wildcard)
  }

  ghost predicate FirstInGroup(entries: seq<Entry>, name: string, group: nat, n: nat, network: string, i: nat) {
    && i < |entries| && InGroup(entries[i], name, group) && Allows(entries[i].rule, n, network)
    && forall j | 0 <= j < i :: !(InGroup(entries[j], name, group) && Allows(entries[j].rule, n, network))
  }

  lemma GroupRulesLast(entries: seq<Entry>, name: string, group: nat)
    requires entries != []
    ensures var front, last := entries[..|entries| - 1], entries[|entries| - 1];
      GroupRules(entries, name, group) == GroupRules(front, name, group) + if InGroup(last, name, group) then [last.rule] else []
    ensures GroupRules([], name, group) == []
  {
  }

  /** Within a group the first entry that allows the request is selected, and one is when any allows it. */
  lemma {:induction false} SelectedInGroup(entries: seq<Entry>, name: string, group: nat, n: nat, network: string)
    returns (i: nat)
    ensures var s := SelectRule(GroupRules(entries, name, group), n, network);
      if s.Selected? then FirstInGroup(entries, name, group, n, network, i) && entries[i].rule == s.rule
      else forall j | 0 <= j < |entries| :: !(InGroup(entries[j], name, group) && Allows(entries[j].rule, n, network))
  {
    hide SelectRule, GroupRules, InGroup, Allows;
    i := 0;
    if entries == [] {
      NothingSelected(name, group, n, network);
    } else {
      var front, last := entries[..|entries| - 1], entries[|entries| - 1];
      i := SelectedInGroup(front, name, group, n, network);
      GroupRulesLast(entries, name, group);
      var earlier := GroupRules(front, name, group);
      SelectConcat(earlier, [last.rule], n, network);
      SelectOne(last.rule, n, network);
      NoneSelected(earlier, [last.rule], n, network);
      assert earlier + [] == earlier;
      if SelectRule(earlier, n, network).Refused? {
        i := |front|;
      }
    }
  }

  lemma NothingSelected(name: string, group: nat, n: nat, network: string)
    ensures SelectRule(GroupRules([], name, group), n, network).Refused?
  {
    assert GroupRules([], name, group) == [];
  }

  lemma SelectOne(r: Rule, n: nat, network: string)
    ensures SelectRule([r], n, network).Selected? <==> Allows(r, n, network)
    ensures Allows(r, n, network) ==> SelectRule([r], n, network) == Selected(r)
  {
  }

  lemma NoneSelected(a: seq<Rule>, b: seq<Rule>, n: nat, network: string)
    ensures SelectRule(a, n, network).Refused? && SelectRule(b, n, network).Refused? ==>
      SelectRule(a + b, n, network).Refused?
  {
    hide SelectRule;
    SelectedAllows(a, n, network);
    SelectedAllows(b, n, network);
    SelectedAllows(a + b, n, network);
  }

  function Group(dr: DescriptorRule): nat {
    if dr.name == "*" then 2 else if dr.name != "" then 0 else 1
  }

  /** The rule that serves the name: it grants, and no rule of an earlier group nor an earlier one of its own does. */
  ghost predicate Serves(lib: Library, d: Descriptor, name: string, n: nat, network: string, i: nat) {
    && i < |d.rules|
    && Grants(lib, d.rules[i], NameHost(name), n, network)
    && forall j | 0 <= j < |d.rules| && Grants(lib, d.rules[j], NameHost(name), n, network) ::
         Group(d.rules[i]) < Group(d.rules[j]) || (Group(d.rules[i]) == Group(d.rules[j]) && i <= j)
  }

  /** For an entry of a loaded descriptor, being in a group and allowing is what its rule writes. */
  lemma GroupIsWritten(lib: Library, d: Descriptor, generation: string, name: string, n: nat, network: string, i: nat, group: nat)
    requires Loads(lib, d) && i < |d.rules| && group <= 2
    ensures var e := Load(lib, d, generation).entries[i];
      (InGroup(e, name, group) && Allows(e.rule, n, network))
        == (Grants(lib, d.rules[i], NameHost(name), n, network) && Group(d.rules[i]) == group)
    ensures Load(lib, d, generation).entries[i] == LoadRule(lib, d.rules[i]).value
  {
    hide LoadRule, Allows, Permitted, WritesName, EntrySuffixMatches;
    EntryMeans(lib, d, generation, i, NameHost(name), n, network);
    LoadedNameMeans(lib, d.rules[i], name);
    var e := Load(lib, d, generation).entries[i];
    SuffixEntries(e, name);
    if !e.target.Literal? {
      KindOfGroup(d.rules[i], e.target);
    }
  }

  lemma SuffixEntries(e: Entry, name: string)
    ensures EntrySuffixMatches(e, name) ==> e.target.Suffix?
  {
  }

  lemma KindOfGroup(dr: DescriptorRule, target: Target)
    requires KindIs(dr, target) && KindCount(dr) == 1 && !target.Literal?
    ensures Group(dr) == match target
      case Exact(_) => 0
      case Suffix(_, _) => 1
      case _ => 2
  {
  }

  lemma GroupBound(dr: DescriptorRule)
    ensures Group(dr) <= 2
  {
  }

  lemma SelectedServes(lib: Library, d: Descriptor, generation: string, name: string, n: nat, network: string)
    returns (i: nat)
    requires Loads(lib, d) && SelectRule(NameCandidates(Load(lib, d, generation), name), n, network).Selected?
    ensures i < |d.rules| && Serves(lib, d, name, n, network, i)
    ensures SelectRule(NameCandidates(Load(lib, d, generation), name), n, network).rule == LoadRule(lib, d.rules[i]).value.rule
  {
    hide SelectRule, Grants, LoadRule, Group, InGroup, Allows;
    var entries := Load(lib, d, generation).entries;
    forall j: nat, group: nat | j < |d.rules| && group <= 2
      ensures (InGroup(entries[j], name, group) && Allows(entries[j].rule, n, network))
        == (Grants(lib, d.rules[j], NameHost(name), n, network) && Group(d.rules[j]) == group)
      ensures entries[j] == LoadRule(lib, d.rules[j]).value
    {
      GroupIsWritten(lib, d, generation, name, n, network, j, group);
    }
    var i0 := SelectedInGroup(entries, name, 0, n, network);
    var i1 := SelectedInGroup(entries, name, 1, n, network);
    var i2 := SelectedInGroup(entries, name, 2, n, network);
    var exact, suffix, wildcard := GroupRules(entries, name, 0), GroupRules(entries, name, 1), GroupRules(entries, name, 2);
    assert NameCandidates(Load(lib, d, generation), name) == exact + suffix + wildcard;
    SelectConcat(exact, suffix, n, network);
    SelectConcat(exact + suffix, wildcard, n, network);
    NoneSelected(exact, suffix, n, network);
    NoneSelected(exact + suffix, wildcard, n, network);
    i := if SelectRule(exact, n, network).Selected? then i0 else if SelectRule(suffix, n, network).Selected? then i1 else i2;
    var g := if SelectRule(exact, n, network).Selected? then 0 else if SelectRule(suffix, n, network).Selected? then 1 else 2;
    assert FirstInGroup(entries, name, g, n, network, i);
    assert Group(d.rules[i]) == g;
    forall j | 0 <= j < |d.rules| && Grants(lib, d.rules[j], NameHost(name), n, network)
      ensures g < Group(d.rules[j]) || (g == Group(d.rules[j]) && i <= j)
    {
      GroupBound(d.rules[j]);
      assert InGroup(entries[j], name, Group(d.rules[j])) && Allows(entries[j].rule, n, network);
    }
  }

  // ---- which rule serves a literal ----

  function LiteralRules(entries: seq<Entry>, a: Addr): seq<Rule> {
    Covering(RulesAt(entries, Literal), a)
  }

  predicate GrantsLiteral(e: Entry, a: Addr, n: nat, network: string) {
    Matches(e, LiteralHost(a)) && Allows(e.rule, n, network)
  }

  lemma LiteralRulesLast(entries: seq<Entry>, a: Addr)
    requires entries != []
    ensures var front, last := entries[..|entries| - 1], entries[|entries| - 1];
      LiteralRules(entries, a) == LiteralRules(front, a) + if Matches(last, LiteralHost(a)) then [last.rule] else []
  {
    hide RuleCovers;
    var front, last := entries[..|entries| - 1], entries[|entries| - 1];
    var rules := RulesAt(front, Literal);
    if last.target.Literal? {
      assert (rules + [last.rule])[..|rules|] == rules;
    } else {
      assert rules + [] == rules;
    }
  }

  /** The first entry that grants the literal is selected, and one is when any grants it. */
  lemma {:induction false} SelectedLiteral(entries: seq<Entry>, a: Addr, n: nat, network: string) returns (i: nat)
    ensures var s := SelectRule(LiteralRules(entries, a), n, network);
      if s.Selected? then
        && i < |entries| && GrantsLiteral(entries[i], a, n, network) && entries[i].rule == s.rule
        && forall j | 0 <= j < i :: !GrantsLiteral(entries[j], a, n, network)
      else forall j | 0 <= j < |entries| :: !GrantsLiteral(entries[j], a, n, network)
  {
    hide SelectRule, LiteralRules, Matches, Allows;
    i := 0;
    if entries == [] {
      NoLiteralSelected(a, n, network);
    } else {
      var front, last := entries[..|entries| - 1], entries[|entries| - 1];
      i := SelectedLiteral(front, a, n, network);
      LiteralRulesLast(entries, a);
      var earlier := LiteralRules(front, a);
      SelectConcat(earlier, [last.rule], n, network);
      SelectOne(last.rule, n, network);
      NoneSelected(earlier, [last.rule], n, network);
      assert earlier + [] == earlier;
      if SelectRule(earlier, n, network).Refused? {
        i := |front|;
      }
    }
  }

  lemma NoLiteralSelected(a: Addr, n: nat, network: string)
    ensures SelectRule(LiteralRules([], a), n, network).Refused?
  {
    assert LiteralRules([], a) == [];
  }

  /** The first rule, as written, that grants the host. */
  ghost predicate FirstGrants(lib: Library, d: Descriptor, kind: HostKind, n: nat, network: string, i: nat) {
    && i < |d.rules|
    && Grants(lib, d.rules[i], kind, n, network)
    && forall j | 0 <= j < i :: !Grants(lib, d.rules[j], kind, n, network)
  }

  ghost predicate FirstGrantsUnder(lib: Library, d: Descriptor, kind: HostKind, n: nat, network: string, id: string) {
    exists i: nat :: FirstGrants(lib, d, kind, n, network, i) && d.rules[i].id == id
  }

  lemma LiteralVerdictRule(p: Policy, lib: Library, lookup: Resolver, host: string, port: string, network: string)
    requires ParsePort(port).Some? && IsLiteral(lib, host)
    ensures var s := SelectRule(LiteralCandidates(p, Unmap(lib.parseAddr(ToLower(host)).value)), ParsePort(port).value, network);
      s.Selected? ==> Authorize(p, lib, lookup, host, port, network).rule == s.rule.id
  {
    hide SelectRule, ParsePort, ToLower, LiteralCandidates, JoinHostPort, Unmap;
  }

  /** A granted literal is allowed under the first rule that grants it. */
  lemma LiteralsAreServedAsWritten(
    lib: Library, d: Descriptor, generation: string, lookup: Resolver,
    host: string, port: string, network: string, a: Addr)
    requires Loads(lib, d) && PortText(port) && IsKind(lib, host, LiteralHost(a))
    requires SomeGrants(lib, d, LiteralHost(a), DigitValue(port), network)
    ensures FirstGrantsUnder(lib, d, LiteralHost(a), DigitValue(port), network,
      Authorize(Load(lib, d, generation), lib, lookup, host, port, network).rule)
  {
    hide Load, LoadRule, Loads, IsKind, SomeGrants, Grants, SelectRule, ToLower, DigitValue, Unmap, ParsePort, LiteralCandidates,
      GrantsLiteral, Authorize;
    var p, n := Load(lib, d, generation), DigitValue(port);
    PortTextsParse(port);
    KindIsRead(p, lib, host, LiteralHost(a));
    LiteralVerdictRule(p, lib, lookup, host, port, network);
    var i := SelectedLiteral(p.entries, a, n, network);
    assert LiteralRules(p.entries, a) == LiteralCandidates(p, a) by { LiteralRulesAreCandidates(p, a); }
    EntriesAreRules(lib, d, generation);
    forall j | 0 <= j < |d.rules|
      ensures GrantsLiteral(p.entries[j], a, n, network) == Grants(lib, d.rules[j], LiteralHost(a), n, network)
      ensures p.entries[j].rule.id == d.rules[j].id
    {
      EntryGrants(lib, d, generation, j, a, n, network);
    }
    GrantsAmongRules(lib, d, LiteralHost(a), n, network);
    assert FirstGrants(lib, d, LiteralHost(a), n, network, i);
  }

  lemma LiteralRulesAreCandidates(p: Policy, a: Addr)
    ensures LiteralRules(p.entries, a) == LiteralCandidates(p, a)
  {
  }

  lemma GrantsAmongRules(lib: Library, d: Descriptor, kind: HostKind, n: nat, network: string)
    ensures SomeGrants(lib, d, kind, n, network) <==> exists j :: 0 <= j < |d.rules| && Grants(lib, d.rules[j], kind, n, network)
  {
    hide Grants;
  }

  lemma EntriesAreRules(lib: Library, d: Descriptor, generation: string)
    requires Loads(lib, d)
    ensures |Load(lib, d, generation).entries| == |d.rules|
  {
  }

  lemma EntryGrants(lib: Library, d: Descriptor, generation: string, j: nat, a: Addr, n: nat, network: string)
    requires Loads(lib, d) && j < |d.rules| && Plain(a)
    ensures var p := Load(lib, d, generation);
      && |p.entries| == |d.rules|
      && GrantsLiteral(p.entries[j], a, n, network) == Grants(lib, d.rules[j], LiteralHost(a), n, network)
      && p.entries[j].rule.id == d.rules[j].id
  {
    hide Load, Loads, Permitted, Allows, Matches, About;
    EntryMeans(lib, d, generation, j, LiteralHost(a), n, network);
  }

  // ---- at which addresses ----

  /** What the serving rule's list or, without one, the resolver offers. */
  ghost predicate Offered(lib: Library, dr: DescriptorRule, lookup: Resolver, name: string, a: Addr) {
    if dr.resolve.Some? then WritesResolve(lib, dr, a)
    else lookup(name).Success? && exists b :: b in lookup(name).value && Unmap(b) == a
  }

  ghost predicate SomeException(lib: Library, d: Descriptor, a: Addr, n: nat) {
    exists i :: 0 <= i < |d.resolvedAddresses| && ExceptionCovers(lib, d.resolvedAddresses[i], a, n)
  }

  predicate ExceptionCovers(lib: Library, dr: DescriptorRule, a: Addr, n: nat) {
    WritesAddress(lib, dr, a) && PortsSay(dr.ports, n)
  }

  /** A literal rule or a resolved_addresses entry, as written, covers the address on the port. */
  ghost predicate CoveredAsWritten(lib: Library, d: Descriptor, a: Addr, n: nat) {
    SomeOnPort(lib, d, LiteralHost(a), n) || SomeException(lib, d, a, n)
  }

  /** An offered address may be dialed: it has no zone, and is listed, covered on the port, or public. */
  ghost predicate Dialable(lib: Library, d: Descriptor, dr: DescriptorRule, lookup: Resolver, name: string, a: Addr, n: nat) {
    && Offered(lib, dr, lookup, name, a)
    && Zone(a) == ""
    && (WritesResolve(lib, dr, a) || CoveredAsWritten(lib, d, a, n) || PublicAddress(a))
  }

  lemma ExceptedAsWritten(lib: Library, d: Descriptor, generation: string, a: Addr, n: nat)
    requires Loads(lib, d) && Plain(a)
    ensures Excepted(Load(lib, d, generation), a, n) <==> SomeException(lib, d, a, n)
  {
    hide LoadException, WritesAddress, PortsSay, RuleCovers, Permits;
    var p := Load(lib, d, generation);
    forall i | 0 <= i < |d.resolvedAddresses|
      ensures p.exceptions[i] == LoadException(lib, d.resolvedAddresses[i]).value
      ensures (RuleCovers(p.exceptions[i], a) && Permits(p.exceptions[i].ports, n))
        == ExceptionCovers(lib, d.resolvedAddresses[i], a, n)
    {
      LoadedExceptionMeans(lib, d.resolvedAddresses[i], a, n);
    }
    if Excepted(p, a, n) {
      var r :| r in p.exceptions && RuleCovers(r, a) && Permits(r.ports, n);
      var i :| 0 <= i < |p.exceptions| && p.exceptions[i] == r;
      assert ExceptionCovers(lib, d.resolvedAddresses[i], a, n);
    }
    if SomeException(lib, d, a, n) {
      var i :| 0 <= i < |d.resolvedAddresses| && ExceptionCovers(lib, d.resolvedAddresses[i], a, n);
      assert p.exceptions[i] in p.exceptions;
    }
  }

  lemma LiteralAdmitsAsWritten(lib: Library, d: Descriptor, generation: string, a: Addr, n: nat)
    requires Loads(lib, d) && Plain(a)
    ensures LiteralAdmits(Load(lib, d, generation), a, n) <==> SomeOnPort(lib, d, LiteralHost(a), n)
  {
    hide LoadRule, SomeOnPort, RuleCovers, Permits, RulesAt, Load;
    var p := Load(lib, d, generation);
    forall r ensures r in LiteralCandidates(p, a) <==> r in RulesAt(p.entries, Literal) && RuleCovers(r, a) {
      CoveringMembers(RulesAt(p.entries, Literal), a, r);
    }
    CandidatesAsWritten(lib, d, generation, LiteralHost(a), n, "");
  }

  lemma OfferedMeans(lib: Library, dr: DescriptorRule, lookup: Resolver, name: string, a: Addr)
    requires LoadRule(lib, dr).Some? && (dr.resolve.Some? || lookup(name).Success?)
    ensures var r := LoadRule(lib, dr).value.rule;
      var answers := if r.resolve != [] then Success(r.resolve) else lookup(name);
      && answers.Success?
      && ((exists b :: b in answers.value && Unmap(b) == a) <==> Offered(lib, dr, lookup, name, a))
      && (Offered(lib, dr, lookup, name, a) ==> Unmap(a) == a)
      && (a in r.resolve <==> WritesResolve(lib, dr, a))
  {
    hide LoadRule, WritesResolve, Unmap;
    LoadedEntryIsWell(lib, dr);
    LoadedResolveMeans(lib, dr, a);
    var r := LoadRule(lib, dr).value.rule;
    var answers := if r.resolve != [] then Success(r.resolve) else lookup(name);
    if b :| b in answers.value && Unmap(b) == a {
      UnmapTwice(b);
    }
  }

  lemma UnmapTwice(a: Addr)
    ensures Unmap(Unmap(a)) == Unmap(a)
  {
  }

  lemma AdmitsAsWritten(lib: Library, d: Descriptor, generation: string, i: nat, lookup: Resolver, name: string, a: Addr, n: nat)
    requires Loads(lib, d) && i < |d.rules| && LoadRule(lib, d.rules[i]).Some?
    requires d.rules[i].resolve.Some? || lookup(name).Success?
    ensures var p, r := Load(lib, d, generation), LoadRule(lib, d.rules[i]).value.rule;
      var answers := if r.resolve != [] then Success(r.resolve) else lookup(name);
      && answers.Success?
      && (a in Admitted(p, r, answers.value, n) <==> Dialable(lib, d, d.rules[i], lookup, name, a, n))
  {
    hide LoadRule, Loads, Load, Admitted, Offered, WritesResolve, SomeOnPort, SomeException, PublicAddress, Excepted, LiteralAdmits, Unmap;
    var p, r := Load(lib, d, generation), LoadRule(lib, d.rules[i]).value.rule;
    OfferedMeans(lib, d.rules[i], lookup, name, a);
    var answers := if r.resolve != [] then Success(r.resolve) else lookup(name);
    AdmittedMembers(p, r, answers.value, n, a);
    if Offered(lib, d.rules[i], lookup, name, a) && Zone(a) == "" {
      ExceptedAsWritten(lib, d, generation, a, n);
      LiteralAdmitsAsWritten(lib, d, generation, a, n);
    }
  }

  /** What becomes of a name the rules grant. */
  ghost predicate ServedAsWritten(
    lib: Library, d: Descriptor, lookup: Resolver, name: string, n: nat, network: string, i: nat, v: Verdict)
  {
    && Serves(lib, d, name, n, network, i)
    && v.rule == d.rules[i].id
    && (v.error.Some? <==> d.rules[i].resolve.None? && lookup(name).Failure?)
    && (forall a :: a in v.addresses <==> v.error.None? && Dialable(lib, d, d.rules[i], lookup, name, a, n))
    && (v.reason == "resolved-address-denied" <==> v.error.None? && v.addresses == [])
  }

  /**
   * A granted name is served by the first granting rule, exact names before
   * suffixes before the wildcard; it fails exactly when that rule needs the
   * resolver and the resolver fails, and otherwise may be dialed at exactly the
   * offered addresses that are listed, covered on the port, or public.
   */
  lemma NamesAreServedAsWritten(
    lib: Library, d: Descriptor, generation: string, lookup: Resolver,
    host: string, port: string, network: string, name: string)
    requires Loads(lib, d) && PortText(port) && IsKind(lib, host, NameHost(name))
    requires SomeGrants(lib, d, NameHost(name), DigitValue(port), network)
    ensures exists i :: ServedAsWritten(lib, d, lookup, name, DigitValue(port), network, i,
      Authorize(Load(lib, d, generation), lib, lookup, host, port, network))
  {
    hide Load, LoadRule, Loads, IsKind, SomeGrants, Serves, SelectRule, NameCandidates, NormalizeName, ParsePort, ToLower, Admitted,
      Dialable, DigitValue, JoinHostPort;
    var p, n := Load(lib, d, generation), DigitValue(port);
    PortTextsParse(port);
    KindIsRead(p, lib, host, NameHost(name));
    CandidatesAsWritten(lib, d, generation, NameHost(name), n, network);
    SelectedAllows(NameCandidates(p, name), n, network);
    var i := SelectedServes(lib, d, generation, name, n, network);
    RuleIsLoaded(lib, d, i);
    LoadedRightsMean(lib, d.rules[i], n, network);
    LoadedResolveMeans(lib, d.rules[i], V4(0));
    var v := Authorize(p, lib, lookup, host, port, network);
    if d.rules[i].resolve.Some? || lookup(name).Success? {
      forall a ensures a in v.addresses <==> Dialable(lib, d, d.rules[i], lookup, name, a, n) {
        AdmitsAsWritten(lib, d, generation, i, lookup, name, a, n);
      }
    }
    assert ServedAsWritten(lib, d, lookup, name, n, network, i, v);
  }

  lemma RuleIsLoaded(lib: Library, d: Descriptor, i: nat)
    requires Loads(lib, d) && i < |d.rules|
    ensures LoadRule(lib, d.rules[i]).Some?
  {
  }

  /** A descriptor of one rule grants its requests on exactly the ports and transports the rule names. */
  lemma OneRule(lib: Library, d: Descriptor, kind: HostKind, n: nat, network: string)
    requires |d.rules| == 1
    ensures SomeGrants(lib, d, kind, n, network) <==>
      About(lib, d.rules[0], kind) && PortsSay(d.rules[0].ports, n) && TransportsSay(d.rules[0].transports, network)
  {
    hide About, PortsSay, TransportsSay;
    if SomeGrants(lib, d, kind, n, network) {
      var i :| 0 <= i < |d.rules| && Grants(lib, d.rules[i], kind, n, network);
      assert i == 0;
    }
  }
}
