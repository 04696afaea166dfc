/**
 * A loaded policy as the list of its entries in descriptor order, and what it
 * decides about a destination.
 */
module Policies {
  import opened AddressTables
  import opened Descriptors
  import opened HostPorts
  import opened Labels
  import opened Netip
  import opened Text
  import opened Wrappers

  datatype Policy = Policy(
    version: string, sandbox: string, generation: string, udp: bool,
    entries: seq<Entry>, exceptions: seq<Rule>)

  // ---- loading a descriptor ----

  datatype Descriptor = Descriptor(
    schema: int, version: string, sandbox: string, default_: string,
    rules: seq<DescriptorRule>, resolvedAddresses: seq<DescriptorRule>, udp: bool, h2: bool)

  predicate HeaderLoads(d: Descriptor) {
    && d.schema == 1
    && d.version != ""
    && |d.version| <= 256
    && d.sandbox != ""
    && |d.sandbox| <= 256
    && d.default_ == "deny"
  }

  predicate RulesLoad(lib: Library, rules: seq<DescriptorRule>) {
    forall i | 0 <= i < |rules| :: LoadRule(lib, rules[i]).Some?
  }

  predicate ExceptionsLoad(lib: Library, rules: seq<DescriptorRule>) {
    forall i | 0 <= i < |rules| :: LoadException(lib, rules[i]).Some?
  }

  predicate Loads(lib: Library, d: Descriptor) {
    HeaderLoads(d) && RulesLoad(lib, d.rules) && ExceptionsLoad(lib, d.resolvedAddresses)
  }

  function EntriesOf(lib: Library, rules: seq<DescriptorRule>): (entries: seq<Entry>)
    requires RulesLoad(lib, rules)
    ensures |entries| == |rules|
  {
    seq(|rules|, i requires 0 <= i < |rules| => LoadRule(lib, rules[i]).value)
  }

  function ExceptionsOf(lib: Library, rules: seq<DescriptorRule>): (exceptions: seq<Rule>)
    requires ExceptionsLoad(lib, rules)
    ensures |exceptions| == |rules|
  {
    seq(|rules|, i requires 0 <= i < |rules| => LoadException(lib, rules[i]).value)
  }

  function Load(lib: Library, d: Descriptor, generation: string): Policy
    requires Loads(lib, d)
  {
    Policy(d.version, d.sandbox, generation, d.udp,
      EntriesOf(lib, d.rules), ExceptionsOf(lib, d.resolvedAddresses))
  }

  // ---- candidates ----

  /** The rules with a given target, in descriptor order. */
  function RulesAt(entries: seq<Entry>, target: Target): seq<Rule> {
    if entries == [] then []
    else
      var last := entries[|entries| - 1];
      RulesAt(entries[..|entries| - 1], target) + if last.target == target then [last.rule] else []
  }

  predicate EntrySuffixMatches(e: Entry, name: string) {
    e.target.Suffix? && SuffixMatches(name, e.target.suffix, e.target.depth)
  }

  function SuffixRules(entries: seq<Entry>, name: string): seq<Rule> {
    if entries == [] then []
    else
      var last := entries[|entries| - 1];
      SuffixRules(entries[..|entries| - 1], name) + if EntrySuffixMatches(last, name) then [last.rule] else []
  }

  predicate RuleCovers(r: Rule, a: Addr) {
    r.prefix.Some? && Contains(r.prefix.value, a)
  }

  function Covering(rules: seq<Rule>, a: Addr): seq<Rule> {
    if rules == [] then []
    else
      Covering(rules[..|rules| - 1], a)
      + if RuleCovers(rules[|rules| - 1], a) then [rules[|rules| - 1]] else []
  }

  /** Exact rules, then suffix rules, then wildcard rules. */
  function NameCandidates(p: Policy, name: string): seq<Rule> {
    RulesAt(p.entries, Exact(name)) + SuffixRules(p.entries, name) + RulesAt(p.entries, Wildcard)
  }

  function LiteralCandidates(p: Policy, a: Addr): seq<Rule> {
    Covering(RulesAt(p.entries, Literal), a)
  }

  // ---- selection ----

  predicate Allows(r: Rule, port: nat, network: string) {
    Permits(r.ports, port) && HasTransport(r.transports, network)
  }

  /** The position of the first rule permitting both, or the number of candidates. */
  function FirstAllowing(candidates: seq<Rule>, port: nat, network: string): (i: nat)
    ensures i <= |candidates|
    ensures i < |candidates| ==> Allows(candidates[i], port, network)
    ensures forall j | 0 <= j < i :: !Allows(candidates[j], port, network)
  {
    if candidates == [] || Allows(candidates[0], port, network) then 0
    else 1 + FirstAllowing(candidates[1..], port, network)
  }

  datatype Selection = Selected(rule: Rule) | Refused(reason: string)

  /** The first rule that permits both; when there is none, how close any candidate came. */
  function SelectRule(candidates: seq<Rule>, port: nat, network: string): Selection {
    var i := FirstAllowing(candidates, port, network);
    if i < |candidates| then Selected(candidates[i])
    else if exists r :: r in candidates && Permits(r.ports, port) then Refused("transport-not-allowed")
    else if candidates != [] then Refused("port-not-allowed")
    else Refused("")
  }

  // ---- authorization ----

  datatype Verdict = Verdict(
    destination: string, addresses: seq<Addr>, rule: string, reason: string, status: nat, error: Option<string>)

  predicate Allowed(v: Verdict) {
    v.reason == "" && v.error.None?
  }

  type Resolver = string -> Result<seq<Addr>, string>

  function Deny(v: Verdict, status: nat, reason: string): Verdict {
    v.(status := status, reason := reason)
  }

  predicate Excepted(p: Policy, a: Addr, port: nat) {
    exists r :: r in p.exceptions && RuleCovers(r, a) && Permits(r.ports, port)
  }

  /** A literal rule admits its addresses as resolution results too, whatever its transports. */
  predicate LiteralAdmits(p: Policy, a: Addr, port: nat) {
    exists r :: r in RulesAt(p.entries, Literal) && RuleCovers(r, a) && Permits(r.ports, port)
  }

  predicate Admits(p: Policy, selected: Rule, a: Addr, port: nat) {
    a in selected.resolve || LiteralAdmits(p, a, port) || Excepted(p, a, port) || PublicAddress(a)
  }

  /** The resolver's answers that may be dialed, unmapped, in order. */
  function Admitted(p: Policy, selected: Rule, answers: seq<Addr>, port: nat): seq<Addr> {
    if answers == [] then []
    else
      var a := Unmap(answers[|answers| - 1]);
      Admitted(p, selected, answers[..|answers| - 1], port)
      + if Zone(a) == "" && Admits(p, selected, a, port) then [a] else []
  }

  function AuthorizeLiteral(p: Policy, lib: Library, a: Addr, v: Verdict, port: nat, network: string): Verdict {
    match SelectRule(LiteralCandidates(p, a), port, network)
    case Selected(r) => v.(addresses := [a], rule := r.id)
    case Refused(reason) => Deny(v, 403, if reason != "" then reason else "ip-not-on-allowlist")
  }

  function AuthorizeName(
    p: Policy, lookup: Resolver, name: string, v: Verdict, port: nat, network: string): Verdict
  {
    match SelectRule(NameCandidates(p, name), port, network)
    case Refused(reason) => Deny(v, 403, if reason != "" then reason else "not-on-allowlist")
    case Selected(r) =>
      var answers := if r.resolve != [] then Success(r.resolve) else lookup(name);
      match answers
      case Failure(error) => v.(rule := r.id, error := Some(error))
      case Success(resolved) =>
        var w := v.(rule := r.id, addresses := Admitted(p, r, resolved, port));
        if w.addresses == [] then Deny(w, 403, "resolved-address-denied") else w
  }

  function Authorize(
    p: Policy, lib: Library, lookup: Resolver, host: string, port: string, network: string): Verdict
  {
    var v := Verdict(JoinHostPort(host, port), [], "", "", 403, None);
    match ParsePort(port)
    case None => Deny(v, 400, "malformed-port")
    case Some(number) =>
      match lib.parseAddr(ToLower(host))
      case Some(parsed) =>
        if Zone(parsed) != "" then Deny(v, 403, "scoped-ip")
        else
          var a := Unmap(parsed);
          AuthorizeLiteral(p, lib, a, v.(destination := JoinHostPort(lib.formatAddr(a), port)), number, network)
      case None =>
        match NormalizeName(lib, host)
        case None => Deny(v, 400, "malformed-target")
        case Some(name) =>
          AuthorizeName(p, lookup, name, v.(destination := JoinHostPort(name, port)), number, network)
  }
}
