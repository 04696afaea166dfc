/**
 * The registry of reason tokens: whatever a boundary connection or the ingress
 * refuses, its reason has the status and the Proxy-Status error type registered for it.
 */
module Registry {
  import opened Boundary
  import opened BoundaryMeaning
  import opened BoundaryRules
  import opened BoundaryTraces
  import opened Descriptors
  import opened HostPorts
  import Heads
  import IngressHeads
  import opened Policies
  import opened PolicyTheorems
  import opened ProxyStatus
  import opened Template
  import opened Text
  import opened Wrappers

  /** The rows of the registry: reason, status, error type. */
  predicate Registered(reason: string, status: nat, error: string) {
    if status == 400 then
      && error == "http_request_error"
      && (|| MalformedHead(reason)
          || reason in {"malformed-target", "malformed-port", "authority-mismatch", "malformed-upgrade", "malformed-template"})
    else if status == 405 then reason == "connect-only" && error == "http_request_error"
    else if status == 505 then reason == "unsupported-version" && error == "http_protocol_error"
    else if status == 403 then
      if error == "http_request_denied" then
        reason in {"not-on-allowlist", "port-not-allowed", "transport-not-allowed", "udp-disabled", "port-not-permitted", "identity-unknown"}
      else error == "destination_ip_prohibited" && reason in {"ip-not-on-allowlist", "resolved-address-denied", "scoped-ip"}
    else if status == 502 then
      (reason == "resolve-failed" && error == "dns_error") || (reason == "dial-failed" && error == "destination_unavailable")
    else if status == 503 then
      || (reason == "policy-unavailable" && error == "proxy_configuration_error")
      || (reason == "busy" && error == "connection_limit_reached")
    else status == 431 && reason == "head-too-large" && error == "http_request_error"
  }

  predicate MalformedHead(reason: string) {
    reason in {"malformed-request-line", "malformed-header", "duplicate-host", "missing-host"}
  }

  predicate IsRegistered(reason: string, status: nat) {
    Registered(reason, status, ErrorType(reason))
  }

  // ---- the boundary ----

  lemma DenialsAreRegistered()
    ensures IsRegistered("not-on-allowlist", 403) && IsRegistered("port-not-allowed", 403)
    ensures IsRegistered("transport-not-allowed", 403) && IsRegistered("udp-disabled", 403)
  {
  }

  lemma AddressDenialsAreRegistered()
    ensures IsRegistered("ip-not-on-allowlist", 403) && IsRegistered("resolved-address-denied", 403)
    ensures IsRegistered("scoped-ip", 403) && IsRegistered("port-not-permitted", 403)
  {
  }

  lemma FailuresAreRegistered()
    ensures IsRegistered("dial-failed", 502) && IsRegistered("resolve-failed", 502)
    ensures IsRegistered("policy-unavailable", 503) && IsRegistered("unsupported-version", 505)
  {
  }

  lemma TargetFaultsAreRegistered()
    ensures IsRegistered("malformed-target", 400) && IsRegistered("malformed-port", 400)
    ensures IsRegistered("authority-mismatch", 400) && IsRegistered("connect-only", 405)
  {
  }

  lemma UpgradeFaultsAreRegistered()
    ensures IsRegistered("malformed-upgrade", 400) && IsRegistered("malformed-template", 400)
  {
  }

  lemma HeadFaultsAreRegistered()
    ensures IsRegistered("malformed-request-line", 400) && IsRegistered("malformed-header", 400)
    ensures IsRegistered("duplicate-host", 400) && IsRegistered("missing-host", 400)
  {
  }

  /** The reasons given before a head is read are registered as well. */
  lemma ListenerReasonsAreRegistered()
    ensures IsRegistered("busy", 503) && IsRegistered("identity-unknown", 403) && IsRegistered("head-too-large", 431)
  {
  }

  lemma VerdictIsRegistered(p: Policy, lib: Descriptors.Library, lookup: Policies.Resolver, host: string, port: string, network: string)
    ensures var v := Authorize(p, lib, lookup, host, port, network); v.reason != "" ==> IsRegistered(v.reason, v.status)
  {
    hide FirstAllowing, SelectRule, LiteralCandidates, NameCandidates, NormalizeName, ParsePort, Admitted, JoinHostPort, ToLower, IsRegistered;
    SelectionReasons();
    DenialsAreRegistered();
    AddressDenialsAreRegistered();
    TargetFaultsAreRegistered();
  }

  predicate RefusalsRegistered(t: seq<Event>) {
    forall i | 0 <= i < |t| && t[i].Deny? :: IsRegistered(t[i].reason, t[i].status)
  }

  lemma OneRefusal(
    t: seq<Event>, transport: string, destination: string, decision: Decision, reason: string, status: nat)
    requires RefusedWith(t, transport, destination, decision, reason, status) && IsRegistered(reason, status)
    ensures RefusalsRegistered(t)
  {
    hide IsRegistered;
  }

  lemma FollowingIsRegistered(t: seq<Event>, network: string, port: string, v: Verdict)
    requires FollowsVerdict(t, network, port, v) && (v.reason != "" ==> IsRegistered(v.reason, v.status))
    ensures RefusalsRegistered(t)
  {
    hide IsRegistered;
    hide NothingReached, Reached;
    FailuresAreRegistered();
    if v.reason == "" && v.error.None? {
      if NothingReached(t, network, port, v) {
        NothingReachedAt(t, network, port, v);
      } else {
        var k: nat :| Reached(t, network, port, v, k);
        ReachedAt(t, network, port, v, k);
      }
    }
  }

  lemma AskingIsRegistered(
    t: seq<Event>, network: string, host: string, port: string, policy: Option<Policy>,
    lib: Descriptors.Library, lookup: Policies.Resolver)
    requires Asks(t, network, host, port, policy, lib, lookup)
    ensures RefusalsRegistered(t)
  {
    hide Authorize, FollowsVerdict, JoinHostPort, IsRegistered, RefusalsRegistered, RefusedWith;
    FailuresAreRegistered();
    DenialsAreRegistered();
    if policy.None? {
      OneRefusal(t, network, JoinHostPort(host, port), Fail, "policy-unavailable", 503);
    } else if network == "udp" && !policy.value.udp {
      OneRefusal(t, network, JoinHostPort(host, port), Block, "udp-disabled", 403);
    } else {
      VerdictIsRegistered(policy.value, lib, lookup, host, port, network);
      FollowingIsRegistered(t, network, port, Authorize(policy.value, lib, lookup, host, port, network));
    }
  }

  lemma ConnectIsRegistered(
    h: Head, http: Http, policy: Option<Policy>, lib: Descriptors.Library, lookup: Policies.Resolver, t: seq<Event>)
    requires IsConnect(h) && Served(RulingAfter(Read(h), http, policy, lib, lookup), t)
    ensures RefusalsRegistered(t)
  {
    hide Served, RulingAfter, Asks, HostFieldAgrees, NamesTarget, PortText, IsRegistered, RefusalsRegistered, RefusedWith;
    TargetFaultsAreRegistered();
    UpgradeFaultsAreRegistered();
    ConnectIsServed(h, http, policy, lib, lookup, t);
    if host, port :| NamesTarget(http, h, host, port) {
      if !PortText(port) {
        OneRefusal(t, "tcp", h.target, Block, "malformed-port", 400);
      } else if !HostFieldAgrees(http, lib, h, host, port) {
        OneRefusal(t, "tcp", h.target, Block, "authority-mismatch", 400);
      } else {
        AskingIsRegistered(t, "tcp", host, port, policy, lib, lookup);
      }
    } else {
      OneRefusal(t, "tcp", h.target, Block, "malformed-target", 400);
    }
  }

  /** Every refusal of a readable head answers with the status and error type registered for its reason. */
  lemma RefusalsAreRegistered(
    h: Head, http: Http, policy: Option<Policy>, lib: Descriptors.Library, lookup: Policies.Resolver, t: seq<Event>)
    requires Served(RulingAfter(Read(h), http, policy, lib, lookup), t)
    ensures RefusalsRegistered(t)
  {
    hide Served, RulingAfter, Asks, NamesPlace, IsRegistered, RefusalsRegistered, RefusedWith;
    TargetFaultsAreRegistered();
    UpgradeFaultsAreRegistered();
    if IsConnect(h) {
      ConnectIsRegistered(h, http, policy, lib, lookup, t);
    } else if !IsUpgrade(h) {
      OthersAreRefused(h, http, policy, lib, lookup, t);
      OneRefusal(t, "", "", Block, "connect-only", 405);
    } else {
      UpgradeIsServed(h, http, policy, lib, lookup, t);
      var path := UpgradePath(http, h);
      if path.None? {
        OneRefusal(t, "udp", h.target, Block, "malformed-upgrade", 400);
      } else if host, port :| NamesPlace(path.value, host, port) {
        AskingIsRegistered(t, "udp", host, port, policy, lib, lookup);
      } else {
        OneRefusal(t, "udp", h.target, Block, "malformed-template", 400);
      }
    }
  }

  // ---- the ingress ----

  lemma DecisionIsRegistered(q: IngressHeads.Request, hosts: IngressHeads.Hosts, pinned: set<nat>)
    ensures var r := IngressHeads.Decide(q, hosts, pinned); r.Refuse? ==> IsRegistered(r.reason, r.status)
  {
    hide SplitHostPort, ParsePort, IsRegistered;
    HeadFaultsAreRegistered();
    TargetFaultsAreRegistered();
    AddressDenialsAreRegistered();
  }

  lemma LineIsRegistered(text: string)
    ensures var r := IngressHeads.ParseRequestLine(text); r.Failure? ==> IsRegistered(r.error.reason, r.error.status)
  {
    hide Split, IsRegistered;
    HeadFaultsAreRegistered();
    FailuresAreRegistered();
  }

  /** The ingress refuses with registered statuses too. */
  lemma IngressRefusalsAreRegistered(s: string, pinned: set<nat>)
    ensures var r := IngressHeads.ParseHead(s, pinned).outcome; r.Refuse? ==> IsRegistered(r.reason, r.status)
  {
    hide IngressHeads.ParseRequestLine, IngressHeads.ReadHeaders, IngressHeads.Decide, IsRegistered;
    assert IsRegistered("malformed-request-line", 400) && IsRegistered("malformed-header", 400) by { HeadFaultsAreRegistered(); }
    var line := Heads.NextLine(s);
    if line.Some? {
      LineIsRegistered(line.value.text);
      var q := IngressHeads.ParseRequestLine(line.value.text);
      var h := IngressHeads.ReadHeaders(line.value.rest, IngressHeads.Hosts(0, ""));
      if q.Success? && h.Some? {
        DecisionIsRegistered(q.value, h.value.hosts, pinned);
      }
    }
  }
}
