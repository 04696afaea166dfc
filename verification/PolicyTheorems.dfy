/** What holds of every loaded policy, resolver and destination. */
module PolicyTheorems {
  import opened AddressTables
  import opened Descriptors
  import opened HostPorts
  import opened Labels
  import opened Netip
  import opened Policies
  import opened Text
  import opened Wrappers

  // ---- what loading guarantees of every entry ----

  ghost predicate EntryWell(e: Entry) {
    && (e.rule.resolve != [] ==> e.target.Exact?)
    && (forall a | a in e.rule.resolve :: Unmap(a) == a && Zone(a) == "")
    && (e.target.Literal? <==> e.rule.prefix.Some?)
    && (e.rule.prefix.Some? ==> !Is4In6(e.rule.prefix.value.addr))
  }

  ghost predicate ExceptionWell(r: Rule) {
    r.prefix.Some? && !Is4In6(r.prefix.value.addr) && SpecialPurpose(r.prefix.value)
  }

  ghost predicate Well(p: Policy) {
    && (forall e | e in p.entries :: EntryWell(e))
    && (forall r | r in p.exceptions :: ExceptionWell(r))
  }

  lemma LoadedEntryIsWell(lib: Library, dr: DescriptorRule)
    requires LoadRule(lib, dr).Some?
    ensures EntryWell(LoadRule(lib, dr).value)
  {
    if dr.name == "" && dr.suffix == "" && dr.ip == "" {
      LoadedPrefixIsUnmapped(lib, dr.cidr);
    }
  }

  lemma LoadedExceptionIsWell(lib: Library, dr: DescriptorRule)
    requires LoadException(lib, dr).Some?
    ensures ExceptionWell(LoadException(lib, dr).value)
  {
    LoadedPrefixIsUnmapped(lib, dr.cidr);
  }

  lemma LoadedIsWell(lib: Library, d: Descriptor, generation: string)
    requires Loads(lib, d)
    ensures Well(Load(lib, d, generation))
  {
    var p := Load(lib, d, generation);
    forall e | e in p.entries ensures EntryWell(e) {
      var i :| 0 <= i < |p.entries| && p.entries[i] == e;
      LoadedEntryIsWell(lib, d.rules[i]);
    }
    forall r | r in p.exceptions ensures ExceptionWell(r) {
      var i :| 0 <= i < |p.exceptions| && p.exceptions[i] == r;
      LoadedExceptionIsWell(lib, d.resolvedAddresses[i]);
    }
  }

  // ---- candidates, as sets ----

  lemma {:induction false} RulesAtMembers(entries: seq<Entry>, target: Target, r: Rule)
    ensures r in RulesAt(entries, target) <==> Entry(target, r) in entries
  {
    if entries != [] {
      var front, last := entries[..|entries| - 1], entries[|entries| - 1];
      RulesAtMembers(front, target, r);
      assert entries == front + [last];
    }
  }

  lemma {:induction false} SuffixRulesMembers(entries: seq<Entry>, name: string, r: Rule)
    ensures r in SuffixRules(entries, name) <==>
      exists e :: e in entries && EntrySuffixMatches(e, name) && e.rule == r
  {
    if entries != [] {
      var front, last := entries[..|entries| - 1], entries[|entries| - 1];
      SuffixRulesMembers(front, name, r);
      assert entries == front + [last];
    }
  }

  lemma {:induction false} CoveringMembers(rules: seq<Rule>, a: Addr, r: Rule)
    ensures r in Covering(rules, a) <==> r in rules && RuleCovers(r, a)
  {
    if rules != [] {
      var front, last := rules[..|rules| - 1], rules[|rules| - 1];
      CoveringMembers(front, a, r);
      assert rules == front + [last];
    }
  }

  // ---- selection does not depend on the order of candidates ----

  ghost predicate SameRules(a: seq<Rule>, b: seq<Rule>) {
    forall r {:trigger r in a} {:trigger r in b} :: r in a <==> r in b
  }

  lemma SelectedAllows(candidates: seq<Rule>, port: nat, network: string)
    ensures SelectRule(candidates, port, network).Selected? <==>
      exists r :: r in candidates && Allows(r, port, network)
    ensures SelectRule(candidates, port, network).Selected? ==>
      var r := SelectRule(candidates, port, network).rule;
      r in candidates && Allows(r, port, network)
  {
    hide FirstAllowing;
    if r :| r in candidates && Allows(r, port, network) {
      var i :| 0 <= i < |candidates| && candidates[i] == r;
      assert FirstAllowing(candidates, port, network) <= i;
    }
  }

  /** Whether a rule is selected, and otherwise why none is, depends only on the set of candidates. */
  lemma SelectionIgnoresOrder(a: seq<Rule>, b: seq<Rule>, port: nat, network: string)
    requires SameRules(a, b)
    ensures SelectRule(a, port, network).Selected? == SelectRule(b, port, network).Selected?
    ensures SelectRule(a, port, network).Refused? ==>
      SelectRule(a, port, network) == SelectRule(b, port, network)
  {
    SelectedAllows(a, port, network);
    SelectedAllows(b, port, network);
    assert a == [] <==> b == [] by {
      if a != [] { assert a[0] in b; }
      if b != [] { assert b[0] in a; }
    }
  }

  /** What the reasons of a refusal mean. */
  lemma RefusalReasons(candidates: seq<Rule>, port: nat, network: string)
    requires SelectRule(candidates, port, network).Refused?
    ensures var reason := SelectRule(candidates, port, network).reason;
      && (reason == "transport-not-allowed" <==>
            exists r :: r in candidates && Permits(r.ports, port) && !HasTransport(r.transports, network))
      && (reason == "port-not-allowed" <==>
            candidates != [] && forall r | r in candidates :: !Permits(r.ports, port))
      && (reason == "" <==> candidates == [])
  {
    SelectedAllows(candidates, port, network);
    if candidates != [] && forall r | r in candidates :: !Permits(r.ports, port) {
      assert candidates[0] in candidates;
    }
  }

  // ---- whole descriptors ----

  ghost predicate SameEntries(p: Policy, q: Policy) {
    && (forall e {:trigger e in p.entries} {:trigger e in q.entries} :: e in p.entries <==> e in q.entries)
    && SameRules(p.exceptions, q.exceptions)
  }

  /** The exact rules that allow this request all carry the same resolve list, maybe none. */
  ghost predicate SameResolve(p: Policy, name: string, port: nat, network: string) {
    forall e, f | e in p.entries && f in p.entries && ExactAllows(e, name, port, network)
      && ExactAllows(f, name, port, network) :: e.rule.resolve == f.rule.resolve
  }

  predicate ExactAllows(e: Entry, name: string, port: nat, network: string) {
    e.target == Exact(name) && Allows(e.rule, port, network)
  }

  lemma SameCandidates(p: Policy, q: Policy, name: string, a: Addr)
    requires SameEntries(p, q)
    ensures SameRules(NameCandidates(p, name), NameCandidates(q, name))
    ensures SameRules(LiteralCandidates(p, a), LiteralCandidates(q, a))
    ensures SameRules(RulesAt(p.entries, Literal), RulesAt(q.entries, Literal))
  {
    forall r, t ensures r in RulesAt(p.entries, t) <==> r in RulesAt(q.entries, t) {
      RulesAtMembers(p.entries, t, r);
      RulesAtMembers(q.entries, t, r);
    }
    forall r ensures r in SuffixRules(p.entries, name) <==> r in SuffixRules(q.entries, name) {
      SuffixRulesMembers(p.entries, name, r);
      SuffixRulesMembers(q.entries, name, r);
    }
    forall r ensures r in LiteralCandidates(p, a) <==> r in LiteralCandidates(q, a) {
      CoveringMembers(RulesAt(p.entries, Literal), a, r);
      CoveringMembers(RulesAt(q.entries, Literal), a, r);
    }
  }

  predicate TargetMatches(e: Entry, name: string) {
    e.target == Exact(name) || EntrySuffixMatches(e, name) || e.target == Wildcard
  }

  lemma CandidateIsEntry(p: Policy, name: string, r: Rule)
    requires r in NameCandidates(p, name)
    ensures exists e :: e in p.entries && e.rule == r && TargetMatches(e, name)
  {
    RulesAtMembers(p.entries, Exact(name), r);
    SuffixRulesMembers(p.entries, name, r);
    RulesAtMembers(p.entries, Wildcard, r);
  }

  lemma {:induction false} SameAdmitted(p: Policy, q: Policy, r: Rule, s: Rule, answers: seq<Addr>, port: nat)
    requires forall a :: Admits(p, r, a, port) <==> Admits(q, s, a, port)
    ensures Admitted(p, r, answers, port) == Admitted(q, s, answers, port)
  {
    if answers != [] {
      SameAdmitted(p, q, r, s, answers[..|answers| - 1], port);
    }
  }

  ghost predicate SameButRule(v: Verdict, w: Verdict) {
    v.(rule := "") == w.(rule := "")
  }

  /**
   * Rules are unordered as long as the exact rules in competition agree on
   * their resolve list: two policies with the same entries decide alike, but
   * for which rule they name.
   */
  lemma RulesAreUnordered(
    p: Policy, q: Policy, lib: Library, lookup: Resolver, host: string, port: string, network: string)
    requires Well(p) && SameEntries(p, q)
    requires NormalizeName(lib, host).Some? && ParsePort(port).Some? ==>
      SameResolve(p, NormalizeName(lib, host).value, ParsePort(port).value, network)
    ensures SameButRule(Authorize(p, lib, lookup, host, port, network), Authorize(q, lib, lookup, host, port, network))
  {
    hide SelectRule, NameCandidates, LiteralCandidates, NormalizeName;
    if ParsePort(port).Some? {
      var number := ParsePort(port).value;
      match lib.parseAddr(ToLower(host))
      case Some(parsed) =>
        SameCandidates(p, q, "", Unmap(parsed));
        SelectionIgnoresOrder(LiteralCandidates(p, Unmap(parsed)), LiteralCandidates(q, Unmap(parsed)), number, network);
      case None =>
        if NormalizeName(lib, host).Some? {
          NamesAreUnordered(p, q, lookup, NormalizeName(lib, host).value,
            Verdict(JoinHostPort(NormalizeName(lib, host).value, port), [], "", "", 403, None), number, network);
        }
    }
  }

  /** The selected rule's resolve list is that of the exact rules allowing the request, if there are any. */
  lemma SelectedResolve(p: Policy, name: string, port: nat, network: string)
    requires Well(p) && SelectRule(NameCandidates(p, name), port, network).Selected?
    ensures var r := SelectRule(NameCandidates(p, name), port, network).rule;
      || (Entry(Exact(name), r) in p.entries && Allows(r, port, network))
      || (r.resolve == [] && forall e | e in p.entries :: !ExactAllows(e, name, port, network))
  {
    hide SelectRule;
    var exact, later := RulesAt(p.entries, Exact(name)), SuffixRules(p.entries, name) + RulesAt(p.entries, Wildcard);
    assert NameCandidates(p, name) == exact + later;
    SelectConcat(exact, later, port, network);
    SelectedAllows(exact, port, network);
    if SelectRule(exact, port, network).Selected? {
      RulesAtMembers(p.entries, Exact(name), SelectRule(exact, port, network).rule);
    } else {
      LaterCandidatesHaveNoResolve(p, name, port, network);
      forall e | e in p.entries ensures !ExactAllows(e, name, port, network) {
        RulesAtMembers(p.entries, Exact(name), e.rule);
      }
    }
  }

  lemma NamesAreUnordered(
    p: Policy, q: Policy, lookup: Resolver, name: string, v: Verdict, port: nat, network: string)
    requires Well(p) && SameEntries(p, q) && SameResolve(p, name, port, network)
    ensures SameButRule(AuthorizeName(p, lookup, name, v, port, network), AuthorizeName(q, lookup, name, v, port, network))
  {
    hide SelectRule, NameCandidates;
    var a, b := NameCandidates(p, name), NameCandidates(q, name);
    SameCandidates(p, q, name, V4(0));
    SelectionIgnoresOrder(a, b, port, network);
    SelectedAllows(a, port, network);
    SelectedAllows(b, port, network);
    if SelectRule(a, port, network).Selected? {
      var r, s := SelectRule(a, port, network).rule, SelectRule(b, port, network).rule;
      SelectedResolve(p, name, port, network);
      SelectedResolve(q, name, port, network);
      assert r.resolve == s.resolve;
      SameAdmitted(p, q, r, s, r.resolve, port);
      if lookup(name).Success? {
        SameAdmitted(p, q, r, s, lookup(name).value, port);
      }
    }
  }

  /** So permuting a descriptor's rules and exceptions changes no decision and no loading error. */
  lemma DescriptorOrderIrrelevant(
    lib: Library, d: Descriptor, rules: seq<DescriptorRule>, resolved: seq<DescriptorRule>, generation: string,
    lookup: Resolver, host: string, port: string, network: string)
    requires multiset(rules) == multiset(d.rules) && multiset(resolved) == multiset(d.resolvedAddresses)
    requires forall dr | dr in d.rules :: dr.resolve.None?
    ensures var e := d.(rules := rules, resolvedAddresses := resolved);
      && (Loads(lib, d) <==> Loads(lib, e))
      && (Loads(lib, d) ==>
            SameButRule(Authorize(Load(lib, d, generation), lib, lookup, host, port, network),
                        Authorize(Load(lib, e, generation), lib, lookup, host, port, network)))
  {
    hide LoadRule, LoadException, Authorize;
    var e := d.(rules := rules, resolvedAddresses := resolved);
    SameMembers(rules, d.rules);
    SameMembers(resolved, d.resolvedAddresses);
    RulesLoadBySet(lib, rules, d.rules);
    ExceptionsLoadBySet(lib, resolved, d.resolvedAddresses);
    if Loads(lib, d) {
      var p, q := Load(lib, d, generation), Load(lib, e, generation);
      EntriesBySet(lib, rules, d.rules);
      ExceptionsBySet(lib, resolved, d.resolvedAddresses);
      LoadedIsWell(lib, d, generation);
      forall x | x in p.entries ensures x.rule.resolve == [] {
        var i :| 0 <= i < |p.entries| && p.entries[i] == x;
        assert d.rules[i] in d.rules;
        NoResolveLoads(lib, d.rules[i]);
      }
      RulesAreUnordered(p, q, lib, lookup, host, port, network);
    }
  }

  lemma NoResolveLoads(lib: Library, dr: DescriptorRule)
    requires LoadRule(lib, dr).Some? && dr.resolve.None?
    ensures LoadRule(lib, dr).value.rule.resolve == []
  {
  }

  ghost predicate SameDescriptorRules(a: seq<DescriptorRule>, b: seq<DescriptorRule>) {
    forall x {:trigger x in a} {:trigger x in b} :: x in a <==> x in b
  }

  lemma SameMembers(a: seq<DescriptorRule>, b: seq<DescriptorRule>)
    requires multiset(a) == multiset(b)
    ensures SameDescriptorRules(a, b)
  {
    forall x ensures x in a <==> x in b {
      assert x in a <==> x in multiset(a);
      assert x in b <==> x in multiset(b);
    }
  }

  lemma RulesLoadBySet(lib: Library, a: seq<DescriptorRule>, b: seq<DescriptorRule>)
    requires SameDescriptorRules(a, b)
    ensures RulesLoad(lib, a) <==> RulesLoad(lib, b)
  {
    hide LoadRule;
    assert RulesLoad(lib, a) <==> forall x | x in a :: LoadRule(lib, x).Some?;
    assert RulesLoad(lib, b) <==> forall x | x in b :: LoadRule(lib, x).Some?;
  }

  lemma ExceptionsLoadBySet(lib: Library, a: seq<DescriptorRule>, b: seq<DescriptorRule>)
    requires SameDescriptorRules(a, b)
    ensures ExceptionsLoad(lib, a) <==> ExceptionsLoad(lib, b)
  {
    hide LoadException;
    assert ExceptionsLoad(lib, a) <==> forall x | x in a :: LoadException(lib, x).Some?;
    assert ExceptionsLoad(lib, b) <==> forall x | x in b :: LoadException(lib, x).Some?;
  }

  lemma EntriesBySet(lib: Library, a: seq<DescriptorRule>, b: seq<DescriptorRule>)
    requires SameDescriptorRules(a, b) && RulesLoad(lib, a) && RulesLoad(lib, b)
    ensures forall e :: e in EntriesOf(lib, a) <==> e in EntriesOf(lib, b)
  {
    EntriesWithin(lib, a, b);
    EntriesWithin(lib, b, a);
  }

  lemma EntriesWithin(lib: Library, a: seq<DescriptorRule>, b: seq<DescriptorRule>)
    requires SameDescriptorRules(a, b) && RulesLoad(lib, a) && RulesLoad(lib, b)
    ensures forall e | e in EntriesOf(lib, a) :: e in EntriesOf(lib, b)
  {
    hide LoadRule;
    forall e | e in EntriesOf(lib, a) ensures e in EntriesOf(lib, b) {
      var i :| 0 <= i < |a| && EntriesOf(lib, a)[i] == e;
      assert a[i] in b;
      var j :| 0 <= j < |b| && b[j] == a[i];
      assert EntriesOf(lib, b)[j] == e;
    }
  }

  lemma ExceptionsBySet(lib: Library, a: seq<DescriptorRule>, b: seq<DescriptorRule>)
    requires SameDescriptorRules(a, b) && ExceptionsLoad(lib, a) && ExceptionsLoad(lib, b)
    ensures SameRules(ExceptionsOf(lib, a), ExceptionsOf(lib, b))
  {
    ExceptionsWithin(lib, a, b);
    ExceptionsWithin(lib, b, a);
  }

  lemma ExceptionsWithin(lib: Library, a: seq<DescriptorRule>, b: seq<DescriptorRule>)
    requires SameDescriptorRules(a, b) && ExceptionsLoad(lib, a) && ExceptionsLoad(lib, b)
    ensures forall r | r in ExceptionsOf(lib, a) :: r in ExceptionsOf(lib, b)
  {
    hide LoadException;
    forall r | r in ExceptionsOf(lib, a) ensures r in ExceptionsOf(lib, b) {
      var i :| 0 <= i < |a| && ExceptionsOf(lib, a)[i] == r;
      assert a[i] in b;
      var j :| 0 <= j < |b| && b[j] == a[i];
      assert ExceptionsOf(lib, b)[j] == r;
    }
  }

  // ---- monotonicity: a rule or exception added at the end withdraws nothing ----

  lemma {:induction false} FirstAllowingConcat(a: seq<Rule>, b: seq<Rule>, port: nat, network: string)
    ensures var i := FirstAllowing(a, port, network);
      FirstAllowing(a + b, port, network) == if i < |a| then i else |a| + FirstAllowing(b, port, network)
  {
    if a == [] {
      assert a + b == b;
    } else {
      FirstAllowingConcat(a[1..], b, port, network);
      assert (a + b)[1..] == a[1..] + b;
    }
  }

  /** A selection made among the first of two groups stays; otherwise the second group decides. */
  lemma SelectConcat(a: seq<Rule>, b: seq<Rule>, port: nat, network: string)
    ensures SelectRule(a, port, network).Selected? ==>
      SelectRule(a + b, port, network) == SelectRule(a, port, network)
    ensures SelectRule(a, port, network).Refused? && SelectRule(b, port, network).Selected? ==>
      SelectRule(a + b, port, network) == SelectRule(b, port, network)
  {
    FirstAllowingConcat(a, b, port, network);
  }

  /** A rule put in front of a group is selected from it, or leaves the group's selection. */
  lemma SelectInserted(a: seq<Rule>, r: Rule, b: seq<Rule>, port: nat, network: string)
    requires SelectRule(a + b, port, network).Selected?
    ensures SelectRule(a + [r] + b, port, network) in {Selected(r), SelectRule(a + b, port, network)}
    ensures SelectRule(a, port, network).Selected? ==>
      SelectRule(a + [r] + b, port, network) == SelectRule(a, port, network)
  {
    hide Allows, FirstAllowing;
    FirstAllowingConcat(a, b, port, network);
    FirstAllowingConcat(a + [r], b, port, network);
    FirstAllowingConcat(a, [r], port, network);
  }

  ghost predicate AdmitsMore(p: Policy, q: Policy) {
    && (forall r | r in p.exceptions :: r in q.exceptions)
    && (forall e | e in p.entries :: e in q.entries)
  }

  lemma AdmitsMonotone(p: Policy, q: Policy, r: Rule, s: Rule, a: Addr, port: nat)
    requires AdmitsMore(p, q) && Admits(p, r, a, port) && (r.resolve == [] || r == s)
    ensures Admits(q, s, a, port)
  {
    if LiteralAdmits(p, a, port) {
      var x :| x in RulesAt(p.entries, Literal) && RuleCovers(x, a) && Permits(x.ports, port);
      RulesAtMembers(p.entries, Literal, x);
      RulesAtMembers(q.entries, Literal, x);
    }
  }

  lemma {:induction false} AdmittedMonotone(p: Policy, q: Policy, r: Rule, s: Rule, answers: seq<Addr>, port: nat)
    requires AdmitsMore(p, q) && (r.resolve == [] || r == s)
    ensures forall a | a in Admitted(p, r, answers, port) :: a in Admitted(q, s, answers, port)
  {
    if answers != [] {
      var last := Unmap(answers[|answers| - 1]);
      AdmittedMonotone(p, q, r, s, answers[..|answers| - 1], port);
      if Zone(last) == "" && Admits(p, r, last, port) {
        AdmitsMonotone(p, q, r, s, last, port);
      }
    }
  }

  lemma ResolveListIsAdmitted(p: Policy, r: Rule, port: nat)
    requires r.resolve != [] && forall a | a in r.resolve :: Unmap(a) == a && Zone(a) == ""
    ensures Admitted(p, r, r.resolve, port) != []
  {
    assert r.resolve[|r.resolve| - 1] in r.resolve;
  }

  /** What the selected rule may become when a rule is added at the end. */
  lemma SelectionAfterAppend(p: Policy, q: Policy, e: Entry, name: string, port: nat, network: string)
    requires Well(p) && EntryWell(e) && q == p.(entries := p.entries + [e])
    requires SelectRule(NameCandidates(p, name), port, network).Selected?
    ensures var before := SelectRule(NameCandidates(p, name), port, network);
      var after := SelectRule(NameCandidates(q, name), port, network);
      || after == before
      || (after == Selected(e.rule) && before.rule.resolve == [])
  {
    hide SelectRule;
    var exact, suffix, wild :=
      RulesAt(p.entries, Exact(name)), SuffixRules(p.entries, name), RulesAt(p.entries, Wildcard);
    assert q.entries[..|q.entries| - 1] == p.entries;
    var before := SelectRule(NameCandidates(p, name), port, network);
    if e.target == Exact(name) {
      assert NameCandidates(p, name) == exact + (suffix + wild);
      assert NameCandidates(q, name) == exact + [e.rule] + (suffix + wild);
      SelectInserted(exact, e.rule, suffix + wild, port, network);
      SelectConcat(exact, suffix + wild, port, network);
      if SelectRule(exact, port, network).Refused? {
        LaterCandidatesHaveNoResolve(p, name, port, network);
      }
    } else if EntrySuffixMatches(e, name) {
      assert NameCandidates(q, name) == exact + suffix + [e.rule] + wild;
      SelectInserted(exact + suffix, e.rule, wild, port, network);
      SelectConcat(exact + suffix, wild, port, network);
      if SelectRule(exact + suffix, port, network).Refused? {
        SelectConcat(exact, suffix, port, network);
        LaterCandidatesHaveNoResolve(p, name, port, network);
      }
    } else if e.target == Wildcard {
      assert NameCandidates(q, name) == NameCandidates(p, name) + [e.rule];
      SelectConcat(NameCandidates(p, name), [e.rule], port, network);
    } else {
      assert NameCandidates(q, name) == NameCandidates(p, name);
    }
  }

  lemma LaterCandidatesHaveNoResolve(p: Policy, name: string, port: nat, network: string)
    requires Well(p) && SelectRule(NameCandidates(p, name), port, network).Selected?
    requires SelectRule(RulesAt(p.entries, Exact(name)), port, network).Refused?
    ensures SelectRule(NameCandidates(p, name), port, network).rule.resolve == []
  {
    hide SelectRule;
    var exact, later := RulesAt(p.entries, Exact(name)), SuffixRules(p.entries, name) + RulesAt(p.entries, Wildcard);
    assert NameCandidates(p, name) == exact + later;
    SelectedAllows(exact, port, network);
    SelectedAllows(exact + later, port, network);
    var r := SelectRule(exact + later, port, network).rule;
    assert r in later;
    SuffixRulesMembers(p.entries, name, r);
    RulesAtMembers(p.entries, Wildcard, r);
  }

  lemma NameMonotone(
    p: Policy, q: Policy, lookup: Resolver, name: string, v: Verdict, port: nat, network: string)
    requires Well(p) && Well(q) && AdmitsMore(p, q)
    requires q.entries == p.entries || (q.entries != [] && q.entries[..|q.entries| - 1] == p.entries)
    requires v.reason == "" && v.error.None?
    requires Allowed(AuthorizeName(p, lookup, name, v, port, network))
    ensures Allowed(AuthorizeName(q, lookup, name, v, port, network))
  {
    hide SelectRule, NameCandidates;
    var before := SelectRule(NameCandidates(p, name), port, network);
    var after := SelectRule(NameCandidates(q, name), port, network);
    assert before.Selected?;
    if q.entries != p.entries {
      var e := q.entries[|q.entries| - 1];
      assert q.entries == p.entries + [e];
      SelectionAfterAppend(p, p.(entries := q.entries), e, name, port, network);
    }
    SameEntriesSameCandidates(q, p.(entries := q.entries), name);
    var r, s := before.rule, after.rule;
    if s.resolve != [] {
      SelectedAllows(NameCandidates(q, name), port, network);
      CandidateIsEntry(q, name, s);
      ResolveListIsAdmitted(q, s, port);
    } else {
      AdmittedMonotone(p, q, r, s, lookup(name).value, port);
      var kept := Admitted(p, r, lookup(name).value, port);
      assert kept[0] in kept;
    }
  }

  lemma SameEntriesSameCandidates(p: Policy, q: Policy, name: string)
    requires p.entries == q.entries
    ensures NameCandidates(p, name) == NameCandidates(q, name)
  {
  }

  lemma CoveringConcat(rules: seq<Rule>, r: Rule, a: Addr)
    ensures Covering(rules + [r], a) == Covering(rules, a) + if RuleCovers(r, a) then [r] else []
  {
    assert (rules + [r])[..|rules|] == rules;
  }

  lemma LiteralMonotone(p: Policy, q: Policy, a: Addr, port: nat, network: string)
    requires q.entries == p.entries || (q.entries != [] && q.entries[..|q.entries| - 1] == p.entries)
    requires SelectRule(LiteralCandidates(p, a), port, network).Selected?
    ensures SelectRule(LiteralCandidates(q, a), port, network) == SelectRule(LiteralCandidates(p, a), port, network)
  {
    hide SelectRule, RuleCovers;
    if q.entries != p.entries {
      var e := q.entries[|q.entries| - 1];
      var literals := RulesAt(p.entries, Literal);
      if e.target == Literal {
        assert RulesAt(q.entries, Literal) == literals + [e.rule];
        CoveringConcat(literals, e.rule, a);
        if RuleCovers(e.rule, a) {
          assert LiteralCandidates(q, a) == LiteralCandidates(p, a) + [e.rule];
          SelectConcat(LiteralCandidates(p, a), [e.rule], port, network);
        } else {
          assert LiteralCandidates(q, a) == LiteralCandidates(p, a);
        }
      } else {
        assert RulesAt(q.entries, Literal) == literals;
      }
    }
  }

  lemma AddingOneWithdrawsNothing(
    p: Policy, q: Policy, lib: Library, lookup: Resolver, host: string, port: string, network: string)
    requires Well(p) && Well(q) && AdmitsMore(p, q)
    requires q.entries == p.entries || (q.entries != [] && q.entries[..|q.entries| - 1] == p.entries)
    requires Allowed(Authorize(p, lib, lookup, host, port, network))
    ensures Allowed(Authorize(q, lib, lookup, host, port, network))
    ensures lib.parseAddr(ToLower(host)).Some? ==>
      Authorize(q, lib, lookup, host, port, network) == Authorize(p, lib, lookup, host, port, network)
  {
    hide SelectRule, NameCandidates, LiteralCandidates, NormalizeName, AuthorizeName;
    var number := ParsePort(port).value;
    match lib.parseAddr(ToLower(host))
    case Some(parsed) => LiteralMonotone(p, q, Unmap(parsed), number, network);
    case None =>
      var name := NormalizeName(lib, host).value;
      NameMonotone(p, q, lookup, name, Verdict(JoinHostPort(name, port), [], "", "", 403, None), number, network);
  }

  /** Adding entries at the end and exceptions anywhere turns no allowed destination into a refused or failed one. */
  lemma {:induction false} AddingWithdrawsNothing(
    p: Policy, q: Policy, lib: Library, lookup: Resolver, host: string, port: string, network: string)
    requires Well(p) && Well(q)
    requires p.entries <= q.entries && forall r | r in p.exceptions :: r in q.exceptions
    requires Allowed(Authorize(p, lib, lookup, host, port, network))
    ensures Allowed(Authorize(q, lib, lookup, host, port, network))
    ensures lib.parseAddr(ToLower(host)).Some? ==>
      Authorize(q, lib, lookup, host, port, network) == Authorize(p, lib, lookup, host, port, network)
    decreases |q.entries|
  {
    hide Authorize, EntryWell, ExceptionWell;
    if q.entries == p.entries {
      AddingOneWithdrawsNothing(p, q, lib, lookup, host, port, network);
    } else {
      var front := q.(entries := q.entries[..|q.entries| - 1]);
      AddingWithdrawsNothing(p, front, lib, lookup, host, port, network);
      AddingOneWithdrawsNothing(front, q, lib, lookup, host, port, network);
    }
  }

  /** However a descriptor is extended at the end of its two lists, as long as it loads, nothing is withdrawn. */
  lemma ExtendingWithdrawsNothing(
    lib: Library, d: Descriptor, rules: seq<DescriptorRule>, resolved: seq<DescriptorRule>, generation: string,
    lookup: Resolver, host: string, port: string, network: string)
    requires Loads(lib, d)
    requires Loads(lib, d.(rules := d.rules + rules, resolvedAddresses := d.resolvedAddresses + resolved))
    requires Allowed(Authorize(Load(lib, d, generation), lib, lookup, host, port, network))
    ensures var e := d.(rules := d.rules + rules, resolvedAddresses := d.resolvedAddresses + resolved);
      Allowed(Authorize(Load(lib, e, generation), lib, lookup, host, port, network))
  {
    hide LoadRule, LoadException, Authorize;
    var e := d.(rules := d.rules + rules, resolvedAddresses := d.resolvedAddresses + resolved);
    var p, q := Load(lib, d, generation), Load(lib, e, generation);
    assert p.entries == q.entries[..|p.entries|];
    assert p.exceptions == q.exceptions[..|p.exceptions|];
    LoadedIsWell(lib, d, generation);
    LoadedIsWell(lib, e, generation);
    AddingWithdrawsNothing(p, q, lib, lookup, host, port, network);
  }

  /** One more valid rule at the end of a descriptor withdraws nothing. */
  lemma AppendedRuleWithdrawsNothing(
    lib: Library, d: Descriptor, dr: DescriptorRule, generation: string,
    lookup: Resolver, host: string, port: string, network: string)
    requires Loads(lib, d) && LoadRule(lib, dr).Some?
    requires Allowed(Authorize(Load(lib, d, generation), lib, lookup, host, port, network))
    ensures var e := d.(rules := d.rules + [dr]);
      && Loads(lib, e)
      && Allowed(Authorize(Load(lib, e, generation), lib, lookup, host, port, network))
  {
    hide LoadRule, LoadException, Authorize, Load;
    assert d.resolvedAddresses + [] == d.resolvedAddresses;
    ExtendingWithdrawsNothing(lib, d, [dr], [], generation, lookup, host, port, network);
  }

  /** One more valid resolved_addresses entry withdraws nothing. */
  lemma AppendedExceptionWithdrawsNothing(
    lib: Library, d: Descriptor, dr: DescriptorRule, generation: string,
    lookup: Resolver, host: string, port: string, network: string)
    requires Loads(lib, d) && LoadException(lib, dr).Some?
    requires Allowed(Authorize(Load(lib, d, generation), lib, lookup, host, port, network))
    ensures var e := d.(resolvedAddresses := d.resolvedAddresses + [dr]);
      && Loads(lib, e)
      && Allowed(Authorize(Load(lib, e, generation), lib, lookup, host, port, network))
  {
    hide LoadRule, LoadException, Authorize, Load;
    assert d.rules + [] == d.rules;
    ExtendingWithdrawsNothing(lib, d, [], [dr], generation, lookup, host, port, network);
  }

  // ---- when the order of rules matters ----

  function MoveFirst(p: Policy, i: nat): (q: Policy)
    requires i < |p.entries|
    ensures multiset(q.entries) == multiset(p.entries) && q.exceptions == p.exceptions
  {
    assert p.entries == p.entries[..i] + [p.entries[i]] + p.entries[i + 1..];
    p.(entries := [p.entries[i]] + (p.entries[..i] + p.entries[i + 1..]))
  }

  lemma {:induction false} RulesAtFirst(e: Entry, rest: seq<Entry>)
    ensures RulesAt([e] + rest, e.target) == [e.rule] + RulesAt(rest, e.target)
  {
    if rest == [] {
      assert ([e] + rest)[..0] == [];
    } else {
      RulesAtFirst(e, rest[..|rest| - 1]);
      assert ([e] + rest)[..|rest|] == [e] + rest[..|rest| - 1];
    }
  }

  function NoAnswer(name: string): Result<seq<Addr>, string> {
    Failure("no answer")
  }

  /** With the resolver down, an exact rule that comes first decides by its resolve list alone. */
  lemma FirstExactDecides(p: Policy, i: nat, name: string, v: Verdict, port: nat, network: string)
    requires Well(p) && i < |p.entries| && ExactAllows(p.entries[i], name, port, network)
    requires v.reason == "" && v.error.None? && v.addresses == []
    ensures var w := AuthorizeName(MoveFirst(p, i), NoAnswer, name, v, port, network);
      && w.addresses == p.entries[i].rule.resolve
      && (w.error.None? <==> p.entries[i].rule.resolve != [])
  {
    var e, q := p.entries[i], MoveFirst(p, i);
    RulesAtFirst(e, q.entries[1..]);
    assert q.entries == [e] + q.entries[1..];
    assert NameCandidates(q, name)[0] == e.rule;
    assert EntryWell(e);
    ResolveListIsWhole(q, e.rule, e.rule.resolve, port);
  }

  lemma ListedIsAdmitted(p: Policy, r: Rule, a: Addr, port: nat)
    requires a in r.resolve
    ensures Admits(p, r, a, port)
  {
  }

  lemma {:induction false} ResolveListIsWhole(p: Policy, r: Rule, addresses: seq<Addr>, port: nat)
    requires forall a | a in addresses :: a in r.resolve && Unmap(a) == a && Zone(a) == ""
    ensures Admitted(p, r, addresses, port) == addresses
  {
    hide Admits, Unmap, Zone;
    if addresses != [] {
      var front, last := addresses[..|addresses| - 1], addresses[|addresses| - 1];
      assert last in addresses;
      ListedIsAdmitted(p, r, last, port);
      ResolveListIsWhole(p, r, front, port);
      assert addresses == front + [last];
    }
  }

  /** An exact rule that comes first and has a resolve list supplies the addresses, whatever the resolver says. */
  lemma FirstExactServes(p: Policy, lookup: Resolver, name: string, v: Verdict, port: nat, network: string)
    requires Well(p) && p.entries != [] && ExactAllows(p.entries[0], name, port, network)
    requires p.entries[0].rule.resolve != [] && v.reason == "" && v.error.None?
    ensures var w := AuthorizeName(p, lookup, name, v, port, network);
      w.addresses == p.entries[0].rule.resolve && Allowed(w)
  {
    var e := p.entries[0];
    assert p.entries == [e] + p.entries[1..];
    RulesAtFirst(e, p.entries[1..]);
    assert NameCandidates(p, name)[0] == e.rule;
    assert EntryWell(e);
    ResolveListIsWhole(p, e.rule, e.rule.resolve, port);
  }

  // A descriptor whose order matters: one name, two resolve lists.

  function NameRule(name: string, resolve: string): DescriptorRule {
    DescriptorRule("", name, "", 0, "", "", None, None, Some([resolve]))
  }

  function TwoRules(first: string, second: string): Descriptor {
    Descriptor(1, "1", "s", "deny", [NameRule("db", first), NameRule("db", second)], [], false, false)
  }

  /** What the library answers about the texts of the example. */
  predicate KnowsExample(lib: Library) {
    && lib.parseAddr("10.0.0.1") == Some(V4(0x0a00_0001))
    && lib.parseAddr("10.0.0.2") == Some(V4(0x0a00_0002))
    && lib.parseAddr("db") == None
    && lib.toASCII("db") == Some("db")
  }

  lemma ExampleName(lib: Library)
    requires KnowsExample(lib)
    ensures ToLower("db") == "db" && NormalizeName(lib, "db") == Some("db")
  {
    assert ToLower("db") == "db";
    assert TrimSuffix("db", ".") == "db";
    SplitWhole("db", '.');
    assert LabelsOf("db") == ["db"];
  }

  lemma ExampleLoads(lib: Library, first: string, second: string, a: Addr, b: Addr)
    requires KnowsExample(lib)
    requires lib.parseAddr(first) == Some(a) && lib.parseAddr(second) == Some(b) && a.V4? && b.V4?
    ensures Loads(lib, TwoRules(first, second))
    ensures var p := Load(lib, TwoRules(first, second), "");
      && |p.entries| == 2
      && p.entries[0].rule.resolve == [a]
      && ExactAllows(p.entries[0], "db", 443, "tcp")
  {
    hide NormalizeName;
    ExampleName(lib);
    var d := TwoRules(first, second);
    assert d.rules[0] == NameRule("db", first) && d.rules[1] == NameRule("db", second);
    ExampleRuleLoads(lib, first, a);
    ExampleRuleLoads(lib, second, b);
  }

  lemma ExampleRuleLoads(lib: Library, raw: string, a: Addr)
    requires KnowsExample(lib) && lib.parseAddr(raw) == Some(a) && a.V4?
    ensures var e := LoadRule(lib, NameRule("db", raw));
      e.Some? && e.value.rule.resolve == [a] && ExactAllows(e.value, "db", 443, "tcp")
  {
    hide NormalizeName;
    ExampleName(lib);
  }

  /** Loading the two rules in one order or the other gives different addresses to dial, under every resolver. */
  lemma OrderCanMatter(lib: Library, lookup: Resolver)
    requires KnowsExample(lib)
    ensures var d, e := TwoRules("10.0.0.1", "10.0.0.2"), TwoRules("10.0.0.2", "10.0.0.1");
      && multiset(d.rules) == multiset(e.rules) && Loads(lib, d) && Loads(lib, e)
      && Authorize(Load(lib, d, ""), lib, lookup, "db", "443", "tcp").addresses == [V4(0x0a00_0001)]
      && Authorize(Load(lib, e, ""), lib, lookup, "db", "443", "tcp").addresses == [V4(0x0a00_0002)]
  {
    hide Load, Loads, AuthorizeName, NormalizeName;
    ExampleName(lib);
    ExampleLoads(lib, "10.0.0.1", "10.0.0.2", V4(0x0a00_0001), V4(0x0a00_0002));
    ExampleLoads(lib, "10.0.0.2", "10.0.0.1", V4(0x0a00_0002), V4(0x0a00_0001));
    LoadedIsWell(lib, TwoRules("10.0.0.1", "10.0.0.2"), "");
    LoadedIsWell(lib, TwoRules("10.0.0.2", "10.0.0.1"), "");
    var v := Verdict(JoinHostPort("db", "443"), [], "", "", 403, None);
    FirstExactServes(Load(lib, TwoRules("10.0.0.1", "10.0.0.2"), ""), lookup, "db", v, 443, "tcp");
    FirstExactServes(Load(lib, TwoRules("10.0.0.2", "10.0.0.1"), ""), lookup, "db", v, 443, "tcp");
    assert ParsePort("443") == Some(443) by { PortText443(); }
  }

  lemma PortText443()
    ensures ParsePort("443") == Some(443)
  {
    assert Decimal(4) == "4";
    assert Decimal(44) == Decimal(4) + "4" == "44";
    assert Decimal(443) == Decimal(44) + "3" == "443";
    DecimalPort(443);
  }

  ghost predicate OrderIrrelevant(p: Policy, name: string, v: Verdict, port: nat, network: string) {
    forall q: Policy, lookup: Resolver | Permuted(p, q) ::
      SameButRule(AuthorizeName(p, lookup, name, v, port, network), AuthorizeName(q, lookup, name, v, port, network))
  }

  ghost predicate Permuted(p: Policy, q: Policy) {
    multiset(q.entries) == multiset(p.entries) && q.exceptions == p.exceptions
  }

  lemma RivalsMakeOrderMatter(p: Policy, i: nat, j: nat, name: string, v: Verdict, port: nat, network: string)
    requires Well(p) && v.reason == "" && v.error.None? && v.addresses == []
    requires i < |p.entries| && ExactAllows(p.entries[i], name, port, network)
    requires j < |p.entries| && ExactAllows(p.entries[j], name, port, network)
    requires p.entries[i].rule.resolve != p.entries[j].rule.resolve
    ensures !OrderIrrelevant(p, name, v, port, network)
  {
    hide AuthorizeName;
    FirstExactDecides(p, i, name, v, port, network);
    FirstExactDecides(p, j, name, v, port, network);
    assert Permuted(p, MoveFirst(p, i)) && Permuted(p, MoveFirst(p, j));
  }

  /**
   * The order of rules is irrelevant to a name, whatever the resolver answers,
   * exactly when the exact rules allowing the request carry the same resolve
   * list.
   */
  lemma OrderIrrelevantExactly(p: Policy, name: string, v: Verdict, port: nat, network: string)
    requires Well(p) && v.reason == "" && v.error.None? && v.addresses == []
    ensures SameResolve(p, name, port, network) <==> OrderIrrelevant(p, name, v, port, network)
  {
    hide AuthorizeName, SameButRule, ExactAllows;
    if SameResolve(p, name, port, network) {
      forall q: Policy, lookup: Resolver | Permuted(p, q)
        ensures SameButRule(AuthorizeName(p, lookup, name, v, port, network), AuthorizeName(q, lookup, name, v, port, network))
      {
        PermutedEntries(p, q);
        NamesAreUnordered(p, q, lookup, name, v, port, network);
      }
    } else {
      var e, f :| e in p.entries && f in p.entries && ExactAllows(e, name, port, network)
        && ExactAllows(f, name, port, network) && e.rule.resolve != f.rule.resolve;
      var i :| 0 <= i < |p.entries| && p.entries[i] == e;
      var j :| 0 <= j < |p.entries| && p.entries[j] == f;
      RivalsMakeOrderMatter(p, i, j, name, v, port, network);
    }
  }

  lemma PermutedEntries(p: Policy, q: Policy)
    requires multiset(q.entries) == multiset(p.entries) && q.exceptions == p.exceptions
    ensures SameEntries(p, q)
  {
    forall e ensures e in p.entries <==> e in q.entries {
      assert e in p.entries <==> e in multiset(p.entries);
      assert e in q.entries <==> e in multiset(q.entries);
    }
  }

  // ---- soundness of the addresses ----

  lemma {:induction false} AdmittedMembers(p: Policy, r: Rule, answers: seq<Addr>, port: nat, a: Addr)
    ensures a in Admitted(p, r, answers, port) <==>
      (exists b :: b in answers && Unmap(b) == a) && Zone(a) == "" && Admits(p, r, a, port)
  {
    if answers != [] {
      var front, last := answers[..|answers| - 1], answers[|answers| - 1];
      AdmittedMembers(p, r, front, port, a);
      assert answers == front + [last];
    }
  }

  /** The answers that are kept keep their order. */
  lemma {:induction false} AdmittedConcat(p: Policy, r: Rule, first: seq<Addr>, then_: seq<Addr>, port: nat)
    ensures Admitted(p, r, first + then_, port) == Admitted(p, r, first, port) + Admitted(p, r, then_, port)
  {
    hide Admits, Unmap, Zone;
    if then_ == [] {
      assert first + then_ == first;
    } else {
      assert (first + then_)[..|first + then_| - 1] == first + then_[..|then_| - 1];
      AdmittedConcat(p, r, first, then_[..|then_| - 1], port);
    }
  }

  predicate LiteralAllows(e: Entry, a: Addr, port: nat, network: string) {
    e.target == Literal && RuleCovers(e.rule, a) && Allows(e.rule, port, network)
  }

  /** Why an allowing verdict may list a. */
  ghost predicate Justified(
    p: Policy, lib: Library, lookup: Resolver, host: string, port: nat, network: string, rule: string, a: Addr)
  {
    match lib.parseAddr(ToLower(host))
    case Some(parsed) =>
      && a == Unmap(parsed)
      && exists e :: e in p.entries && e.rule.id == rule && LiteralAllows(e, a, port, network)
    case None =>
      && NormalizeName(lib, host).Some?
      && exists e :: e in p.entries && TargetMatches(e, NormalizeName(lib, host).value) && e.rule.id == rule
           && Allows(e.rule, port, network)
           && FromSource(e.rule, lookup, NormalizeName(lib, host).value, a)
           && Admits(p, e.rule, a, port)
  }

  /** a is one of the rule's own addresses or, when it has none, of the resolver's answers. */
  ghost predicate FromSource(r: Rule, lookup: Resolver, name: string, a: Addr) {
    if r.resolve != [] then a in r.resolve
    else lookup(name).Success? && exists b :: b in lookup(name).value && Unmap(b) == a
  }

  lemma AllowedNameIsJustified(
    p: Policy, lib: Library, lookup: Resolver, host: string, v: Verdict, port: nat, network: string, a: Addr)
    requires Well(p) && lib.parseAddr(ToLower(host)).None? && NormalizeName(lib, host).Some?
    requires v.reason == "" && v.error.None?
    requires var w := AuthorizeName(p, lookup, NormalizeName(lib, host).value, v, port, network);
      Allowed(w) && a in w.addresses
    ensures Unmap(a) == a && Zone(a) == ""
    ensures Justified(p, lib, lookup, host, port, network,
      AuthorizeName(p, lookup, NormalizeName(lib, host).value, v, port, network).rule, a)
  {
    hide SelectRule, NameCandidates, NormalizeName;
    var name := NormalizeName(lib, host).value;
    SelectedAllows(NameCandidates(p, name), port, network);
    var r := SelectRule(NameCandidates(p, name), port, network).rule;
    CandidateIsEntry(p, name, r);
    var e :| e in p.entries && e.rule == r && TargetMatches(e, name);
    var answers := if r.resolve != [] then r.resolve else lookup(name).value;
    AdmittedMembers(p, r, answers, port, a);
    var b :| b in answers && Unmap(b) == a;
  }

  /**
   * An allowing verdict lists at least one address, all unmapped and without a
   * zone, and each for a reason the policy gives.
   */
  lemma AllowedAddressesAreJustified(
    p: Policy, lib: Library, lookup: Resolver, host: string, port: string, network: string)
    requires Well(p) && Allowed(Authorize(p, lib, lookup, host, port, network))
    ensures var v := Authorize(p, lib, lookup, host, port, network);
      && ParsePort(port).Some?
      && v.addresses != []
      && forall a | a in v.addresses ::
          && Unmap(a) == a
          && Zone(a) == ""
          && Justified(p, lib, lookup, host, ParsePort(port).value, network, v.rule, a)
  {
    hide SelectRule, NameCandidates, LiteralCandidates, NormalizeName;
    var v := Authorize(p, lib, lookup, host, port, network);
    var number := ParsePort(port).value;
    match lib.parseAddr(ToLower(host))
    case Some(parsed) =>
      LiteralSelection(p, Unmap(parsed), number, network);
    case None =>
      var name := NormalizeName(lib, host).value;
      var start := Verdict(JoinHostPort(name, port), [], "", "", 403, None);
      forall a | a in v.addresses
        ensures Unmap(a) == a && Zone(a) == ""
        ensures Justified(p, lib, lookup, host, number, network, v.rule, a)
      {
        AllowedNameIsJustified(p, lib, lookup, host, start, number, network, a);
      }
  }

  lemma LiteralSelection(p: Policy, a: Addr, port: nat, network: string)
    ensures var s := SelectRule(LiteralCandidates(p, a), port, network);
      && (s.Selected? <==> exists e :: e in p.entries && LiteralAllows(e, a, port, network))
      && (s.Selected? ==>
            Entry(Literal, s.rule) in p.entries && LiteralAllows(Entry(Literal, s.rule), a, port, network))
  {
    hide SelectRule;
    var candidates := LiteralCandidates(p, a);
    SelectedAllows(candidates, port, network);
    forall r ensures r in candidates <==> Entry(Literal, r) in p.entries && RuleCovers(r, a) {
      CoveringMembers(RulesAt(p.entries, Literal), a, r);
      RulesAtMembers(p.entries, Literal, r);
    }
    if e :| e in p.entries && LiteralAllows(e, a, port, network) {
      assert e == Entry(Literal, e.rule);
      assert e.rule in candidates;
    }
  }

  /** resolved_addresses entries never matter to a literal destination. */
  lemma ExceptionsNeverAuthorizeLiterals(
    p: Policy, exceptions: seq<Rule>, lib: Library, lookup: Resolver, host: string, port: string, network: string)
    requires lib.parseAddr(ToLower(host)).Some?
    ensures Authorize(p.(exceptions := exceptions), lib, lookup, host, port, network)
      == Authorize(p, lib, lookup, host, port, network)
  {
  }

  /** An exception of a loaded policy never covers a public address. */
  lemma ExceptionsAreSpecialPurpose(p: Policy, a: Addr, port: nat)
    requires Well(p) && Excepted(p, a, port)
    ensures !PublicAddress(a)
  {
    var r :| r in p.exceptions && RuleCovers(r, a) && Permits(r.ports, port);
    SpecialPurposeIsSound(r.prefix.value, a);
  }

  // ---- why a request is refused ----

  /** The rules that match a destination, whatever its port and transport; none for a scoped address or no host at all. */
  function MatchingRules(p: Policy, lib: Library, host: string): seq<Rule> {
    match lib.parseAddr(ToLower(host))
    case Some(a) => if Zone(a) != "" then [] else LiteralCandidates(p, Unmap(a))
    case None => if NormalizeName(lib, host).None? then [] else NameCandidates(p, NormalizeName(lib, host).value)
  }

  predicate IsHostname(lib: Library, host: string) {
    lib.parseAddr(ToLower(host)).None? && NormalizeName(lib, host).Some?
  }

  predicate IsScoped(lib: Library, host: string) {
    lib.parseAddr(ToLower(host)).Some? && Zone(lib.parseAddr(ToLower(host)).value) != ""
  }

  predicate IsLiteral(lib: Library, host: string) {
    lib.parseAddr(ToLower(host)).Some? && Zone(lib.parseAddr(ToLower(host)).value) == ""
  }

  /** A status of 400 means the request is malformed, each way under its own reason. */
  lemma MalformedExactly(p: Policy, lib: Library, lookup: Resolver, host: string, port: string, network: string)
    ensures var v := Authorize(p, lib, lookup, host, port, network);
      && (v.reason == "malformed-port" <==> ParsePort(port).None?)
      && (v.reason == "scoped-ip" <==> ParsePort(port).Some? && IsScoped(lib, host))
      && (v.reason == "malformed-target" <==>
            ParsePort(port).Some? && !IsScoped(lib, host) && !IsLiteral(lib, host) && !IsHostname(lib, host))
      && (v.status == 400 <==> v.reason == "malformed-port" || v.reason == "malformed-target")
  {
    hide FirstAllowing, LiteralCandidates, NameCandidates, NormalizeName, ParsePort, Admitted, JoinHostPort, ToLower;
  }

  /** For a well-formed request, the reason tells how far the policy's rules come. */
  lemma RefusedExactly(p: Policy, lib: Library, lookup: Resolver, host: string, port: string, network: string)
    requires ParsePort(port).Some? && (IsLiteral(lib, host) || IsHostname(lib, host))
    ensures var v, rules, n := Authorize(p, lib, lookup, host, port, network), MatchingRules(p, lib, host), ParsePort(port).value;
      && (v.reason == "ip-not-on-allowlist" <==> IsLiteral(lib, host) && rules == [])
      && (v.reason == "not-on-allowlist" <==> IsHostname(lib, host) && rules == [])
      && (v.reason == "port-not-allowed" <==> rules != [] && forall r | r in rules :: !Permits(r.ports, n))
      && (v.reason == "transport-not-allowed" <==>
            && (exists r :: r in rules && Permits(r.ports, n))
            && forall r | r in rules :: !Allows(r, n, network))
      && (v.reason in {"", "resolved-address-denied"} <==> exists r :: r in rules && Allows(r, n, network))
  {
    hide FirstAllowing, SelectRule, LiteralCandidates, NameCandidates, NormalizeName, ParsePort, Admitted, JoinHostPort, ToLower, Permits, HasTransport;
    var rules, n := MatchingRules(p, lib, host), ParsePort(port).value;
    SelectedAllows(rules, n, network);
    if SelectRule(rules, n, network).Refused? {
      RefusalReasons(rules, n, network);
    }
  }

  /** The loop keeps nothing exactly when no address from the rule's source is admitted. */
  lemma NothingAdmitted(p: Policy, r: Rule, lookup: Resolver, name: string, port: nat)
    requires forall a | a in r.resolve :: Unmap(a) == a && Zone(a) == ""
    requires r.resolve != [] || lookup(name).Success?
    ensures var answers := if r.resolve != [] then r.resolve else lookup(name).value;
      Admitted(p, r, answers, port) == [] <==>
        forall a :: FromSource(r, lookup, name, a) && Zone(a) == "" ==> !Admits(p, r, a, port)
  {
    hide Admitted, Admits;
    var answers := if r.resolve != [] then r.resolve else lookup(name).value;
    var kept := Admitted(p, r, answers, port);
    forall a ensures a in kept <==> FromSource(r, lookup, name, a) && Zone(a) == "" && Admits(p, r, a, port) {
      AdmittedMembers(p, r, answers, port, a);
    }
    if kept != [] {
      assert kept[0] in kept;
    }
  }

  /** A name some rule allows fails exactly with its resolver, and is denied exactly when no answer is admitted. */
  lemma ResolutionDecides(p: Policy, lib: Library, lookup: Resolver, host: string, port: string, network: string)
    requires Well(p) && ParsePort(port).Some? && IsHostname(lib, host)
    requires SelectRule(MatchingRules(p, lib, host), ParsePort(port).value, network).Selected?
    ensures var r := SelectRule(MatchingRules(p, lib, host), ParsePort(port).value, network).rule;
      var name, n := NormalizeName(lib, host).value, ParsePort(port).value;
      var v := Authorize(p, lib, lookup, host, port, network);
      && v.rule == r.id
      && (v.error.Some? <==> r.resolve == [] && lookup(name).Failure?)
      && (v.reason == "resolved-address-denied" <==>
            && v.error.None?
            && forall a :: FromSource(r, lookup, name, a) && Zone(a) == "" ==> !Admits(p, r, a, n))
  {
    hide SelectRule, NameCandidates, NormalizeName, ParsePort, Admitted, JoinHostPort, ToLower, Admits, FromSource;
    var name, n := NormalizeName(lib, host).value, ParsePort(port).value;
    var r := SelectRule(NameCandidates(p, name), n, network).rule;
    SelectedAllows(NameCandidates(p, name), n, network);
    CandidateIsEntry(p, name, r);
    var e :| e in p.entries && e.rule == r && TargetMatches(e, name);
    assert EntryWell(e);
    if r.resolve != [] || lookup(name).Success? {
      NothingAdmitted(p, r, lookup, name, n);
    }
  }
}
