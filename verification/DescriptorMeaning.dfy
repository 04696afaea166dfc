/**
 * What a descriptor entry means by its own fields, and that it loads exactly
 * when the schema allows it, to a rule that means the same.
 */
module DescriptorMeaning {
  import opened AddressTables
  import opened Descriptors
  import opened Labels
  import opened Netip
  import opened Policies
  import opened PolicyTheorems
  import opened Text
  import opened Wrappers

  // ---- ports ----

  /** The text is lo, a hyphen and hi. */
  predicate HyphenAt(text: string, k: nat) {
    k < |text| && text[k] == '-' && NumberText(text[..k]) && NumberText(text[k + 1..])
  }

  predicate RangeHolds(text: string, k: nat, n: nat) {
    HyphenAt(text, k) && DigitValue(text[..k]) <= n <= DigitValue(text[k + 1..])
  }

  /** A list element stands for the port n. */
  predicate Denotes(v: PortValue, n: nat) {
    match v
    case Number(x) => x == n as real
    case Literally(text) =>
      || (NumberText(text) && DigitValue(text) == n)
      || exists k: nat | k < |text| :: RangeHolds(text, k, n)
    case Other => false
  }

  /** A list element the schema allows: a port, or a range of ports in order. */
  predicate ElementOk(v: PortValue) {
    match v
    case Number(x) => x == x.Floor as real && 1 <= x.Floor <= 65535
    case Literally(text) =>
      || PortText(text)
      || exists k: nat | k < |text| ::
           HyphenAt(text, k) && PortText(text[..k]) && PortText(text[k + 1..]) && DigitValue(text[..k]) <= DigitValue(text[k + 1..])
    case Other => false
  }

  lemma HyphenIsCut(text: string, k: nat)
    requires HyphenAt(text, k)
    ensures Cut(text, '-') == Halves(text[..k], text[k + 1..], true)
  {
    assert AllDigits(text[..k]);
    assert forall c | c in text[..k] :: IsDigit(c);
    IndexOfFirst(text, '-', k);
  }

  lemma NumberTextHasNoHyphen(text: string)
    requires NumberText(text)
    ensures '-' !in text && Cut(text, '-') == Halves(text, "", false)
  {
    assert forall c | c in text :: IsDigit(c);
  }

  lemma CutIsHyphen(text: string)
    requires Cut(text, '-').found && NumberText(Cut(text, '-').before) && NumberText(Cut(text, '-').after)
    ensures HyphenAt(text, |Cut(text, '-').before|)
  {
  }

  lemma TextElement(text: string)
    ensures EntryRange(Literally(text)).Some? <==> ElementOk(Literally(text))
  {
    hide IndexOf, DigitValue, ParsePort, Cut;
    var halves := Cut(text, '-');
    PortTextsParse(halves.before);
    PortTextsParse(halves.after);
    if EntryRange(Literally(text)).Some? {
      CutOfText(text);
      if halves.found {
        CutIsHyphen(text);
      }
    }
    if ElementOk(Literally(text)) {
      if PortText(text) {
        NumberTextHasNoHyphen(text);
      } else {
        var k: nat :| k < |text| && HyphenAt(text, k) && PortText(text[..k]) && PortText(text[k + 1..])
          && DigitValue(text[..k]) <= DigitValue(text[k + 1..]);
        HyphenIsCut(text, k);
      }
    }
  }

  lemma CutOfText(text: string)
    ensures var halves := Cut(text, '-');
      if halves.found then |halves.before| < |text| && text[..|halves.before|] == halves.before
        && text[|halves.before| + 1..] == halves.after
      else halves.before == text
  {
  }

  lemma NoRangeWithoutHyphen(text: string, n: nat)
    requires '-' !in text
    ensures forall k: nat | k < |text| :: !RangeHolds(text, k, n)
  {
  }

  lemma TextDenotes(text: string, n: nat)
    requires EntryRange(Literally(text)).Some?
    ensures InRange(EntryRange(Literally(text)).value, n) <==> Denotes(Literally(text), n)
  {
    hide IndexOf, DigitValue, ParsePort, Cut;
    var halves := Cut(text, '-');
    PortTextsParse(halves.before);
    PortTextsParse(halves.after);
    CutOfText(text);
    if halves.found {
      CutIsHyphen(text);
      assert '-' in text by { assert text[|halves.before|] == '-'; }
      assert !NumberText(text) by { if NumberText(text) { NumberTextHasNoHyphen(text); } }
      var at: nat := |halves.before|;
      assert InRange(EntryRange(Literally(text)).value, n) <==> RangeHolds(text, at, n);
      if Denotes(Literally(text), n) {
        var k: nat :| k < |text| && RangeHolds(text, k, n);
        HyphenIsCut(text, k);
      }
    } else {
      NoRangeWithoutHyphen(text, n);
    }
  }

  lemma ElementMeans(v: PortValue, n: nat)
    ensures EntryRange(v).Some? <==> ElementOk(v)
    ensures EntryRange(v).Some? ==> (InRange(EntryRange(v).value, n) <==> Denotes(v, n))
  {
    match v
    case Number(x) =>
      NumberEntry(x);
      assert (n as real).Floor == n;
    case Literally(text) =>
      TextElement(text);
      if EntryRange(v).Some? {
        TextDenotes(text, n);
      }
    case Other =>
  }

  /** A ports list names n; an absent one names every port. */
  predicate PortsSay(ports: Option<seq<PortValue>>, n: nat) {
    ports.None? || exists v :: v in ports.value && Denotes(v, n)
  }

  predicate PortsOk(ports: Option<seq<PortValue>>) {
    ports.None? || (ports.value != [] && forall v | v in ports.value :: ElementOk(v))
  }

  /** A ports list loads exactly when the schema allows it, and then permits exactly the ports it names. */
  lemma LoadedPortsMean(ports: Option<seq<PortValue>>, n: nat)
    ensures LoadPorts(ports).Some? <==> PortsOk(ports)
    ensures LoadPorts(ports).Some? ==> (Permits(LoadPorts(ports).value, n) <==> PortsSay(ports, n))
  {
    hide EntryRange, ElementOk, Denotes, InRange;
    if ports.Some? {
      var list := ports.value;
      forall v ensures EntryRange(v).Some? <==> ElementOk(v) {
        ElementMeans(v, n);
      }
      if LoadPorts(ports).Some? {
        var ranges := LoadPorts(ports).value.ranges;
        forall i | 0 <= i < |list| ensures InRange(ranges[i], n) <==> Denotes(list[i], n) {
          ElementMeans(list[i], n);
        }
      }
    }
  }

  // ---- transports ----

  /** A transports list names the network; an absent one names tcp alone. */
  predicate TransportsSay(transports: Option<seq<string>>, network: string) {
    if transports.None? then network == "tcp" else network in {"tcp", "udp"} && network in transports.value
  }

  predicate TransportsOk(transports: Option<seq<string>>) {
    transports.None? || (transports.value != [] && forall t | t in transports.value :: t == "tcp" || t == "udp")
  }

  lemma LoadedTransportsMean(transports: Option<seq<string>>, network: string)
    ensures LoadTransports(transports).Some? <==> TransportsOk(transports)
    ensures LoadTransports(transports).Some? ==>
      (HasTransport(LoadTransports(transports).value, network) <==> TransportsSay(transports, network))
  {
    if transports.Some? {
      var list := transports.value;
      assert forall i | 0 <= i < |list| :: list[i] in list;
      if t :| t in list && t != "tcp" && t != "udp" {
        var i :| 0 <= i < |list| && list[i] == t;
      }
    }
  }

  // ---- names ----

  predicate LabelOk(part: string) {
    1 <= |part| <= 63 && forall i | 0 <= i < |part| ::
      var c := part[i] as nat; 97 <= c <= 122 || 48 <= c <= 57 || c == 45 || c == 95
  }

  /** Dotted labels of lower-case letters, digits, hyphens and underscores, within the DNS limits. */
  ghost predicate IsHostSyntax(name: string) {
    && 1 <= |name| <= 253
    && exists labels: seq<string> ::
         |labels| > 0 && Join(labels, '.') == name && forall i | 0 <= i < |labels| :: LabelOk(labels[i])
  }

  lemma ValidNamesExactly(name: string)
    ensures ValidName(name) <==> IsHostSyntax(name)
  {
    hide Split;
    if ValidName(name) {
      JoinSplit(name, '.');
      assert forall i | 0 <= i < |LabelsOf(name)| :: LabelOk(LabelsOf(name)[i]);
    }
    if IsHostSyntax(name) {
      var labels: seq<string> :|
        |labels| > 0 && Join(labels, '.') == name && forall i | 0 <= i < |labels| :: LabelOk(labels[i]);
      forall i | 0 <= i < |labels| ensures '.' !in labels[i] {
        LabelHasNoDot(labels[i]);
      }
      SplitJoin(labels, '.');
    }
  }

  lemma LabelHasNoDot(part: string)
    requires LabelOk(part)
    ensures '.' !in part
  {
  }

  /** A host names n: folded and stripped of one dot it is no address, and IDNA turns it into n, a host name. */
  ghost predicate HostNames(lib: Library, host: string, n: string) {
    exists f :: IsFolded(f, host) && f != "" && lib.parseAddr(f).None? && lib.toASCII(f) == Some(n) && IsHostSyntax(n)
  }

  lemma FoldingIsUnique(f: string, g: string, s: string)
    requires IsFolded(f, s) && IsFolded(g, s)
    ensures f == g
  {
  }

  lemma LowerIsFolded(s: string)
    ensures IsFolded(TrimSuffix(ToLower(s), "."), s)
  {
    var low := ToLower(s);
    if s != "" {
      assert low[|s| - 1..] == [low[|s| - 1]];
      assert low[|s| - 1] == '.' <==> s[|s| - 1] == '.';
    }
  }

  lemma NormalizedNames(lib: Library, host: string, n: string)
    ensures NormalizeName(lib, host) == Some(n) <==> HostNames(lib, host, n)
  {
    hide ValidName, IsHostSyntax, IsFolded, ToLower, TrimSuffix;
    var f := TrimSuffix(ToLower(host), ".");
    LowerIsFolded(host);
    ValidNamesExactly(n);
    if HostNames(lib, host, n) {
      var g :| IsFolded(g, host) && g != "" && lib.parseAddr(g).None? && lib.toASCII(g) == Some(n) && IsHostSyntax(n);
      FoldingIsUnique(f, g, host);
    }
  }

  // ---- what an entry matches ----

  /** The name's labels properly extend the suffix's, by at most depth of them unless depth is 0. */
  predicate Extends(name: string, suffix: string, depth: int) {
    var n, s := Split(name, '.'), Split(suffix, '.');
    |s| < |n| && n[|n| - |s|..] == s && (depth == 0 || |n| - |s| <= depth)
  }

  ghost predicate WritesName(lib: Library, dr: DescriptorRule, name: string) {
    || dr.name == "*"
    || (dr.name != "" && HostNames(lib, dr.name, name))
    || (dr.suffix != "" && exists s :: HostNames(lib, dr.suffix, s) && Extends(name, s, dr.depth))
  }

  /** Membership in a written prefix; an IPv4-mapped prefix holds the IPv4 addresses it maps. */
  predicate PrefixHolds(written: Prefix, a: Addr) {
    if Is4In6(written.addr) then a.V4? && Contains(written, V6(0xffff_0000_0000 + a.v, "")) else Contains(written, a)
  }

  predicate WritesAddress(lib: Library, dr: DescriptorRule, a: Addr) {
    || (dr.ip != "" && lib.parseAddr(dr.ip).Some? && Unmap(lib.parseAddr(dr.ip).value) == a)
    || (dr.cidr != "" && lib.parsePrefix(dr.cidr).Some? && PrefixHolds(lib.parsePrefix(dr.cidr).value, a))
  }

  predicate WritesResolve(lib: Library, dr: DescriptorRule, a: Addr) {
    dr.resolve.Some? && exists raw :: raw in dr.resolve.value && lib.parseAddr(raw).Some? && Unmap(lib.parseAddr(raw).value) == a
  }

  /** An address as the policy meets it: unmapped, without a zone. */
  predicate Plain(a: Addr) {
    Unmap(a) == a && Zone(a) == ""
  }

  lemma PrefixMeans(lib: Library, raw: string, a: Addr)
    requires LoadPrefix(lib, raw).Some? && Plain(a)
    ensures Contains(LoadPrefix(lib, raw).value, a) <==> PrefixHolds(lib.parsePrefix(raw).value, a)
  {
    hide Contains, Masked, NormalizePrefix;
    var written := lib.parsePrefix(raw).value;
    if !Is4In6(written.addr) {
      PlainPrefixMembership(written, a);
    } else {
      MappedLoadsAs4(written);
      if a.V4? {
        var m: Addr := V6(0xffff_0000_0000 + a.v, "");
        UnmapMeans(m);
        MappedPrefixMembership(written, m);
      } else {
        OtherFamily(NormalizePrefix(written).value, a);
      }
    }
  }

  lemma MappedLoadsAs4(written: Prefix)
    requires Is4In6(written.addr) && NormalizePrefix(written).Some?
    ensures written.bits >= 96 && NormalizePrefix(written).value.addr.V4?
  {
  }

  lemma OtherFamily(p: Prefix, a: Addr)
    requires !SameFamily(p.addr, a)
    ensures !Contains(p, a)
  {
  }

  // ---- rules ----

  /** The schema's conditions on one rule. */
  ghost predicate RuleOk(lib: Library, dr: DescriptorRule) {
    && ((dr.name != "" && dr.suffix == "" && dr.ip == "" && dr.cidr == "")
        || (dr.name == "" && dr.suffix != "" && dr.ip == "" && dr.cidr == "")
        || (dr.name == "" && dr.suffix == "" && dr.ip != "" && dr.cidr == "")
        || (dr.name == "" && dr.suffix == "" && dr.ip == "" && dr.cidr != ""))
    && |dr.id| <= 64
    && PortsOk(dr.ports)
    && TransportsOk(dr.transports)
    && (dr.resolve.Some? ==>
          && dr.name != ""
          && dr.name != "*"
          && dr.resolve.value != []
          && forall raw | raw in dr.resolve.value :: AddressOk(lib, raw))
    && (dr.depth == 0 || (dr.suffix != "" && 1 <= dr.depth <= 126))
    && (dr.name != "" && dr.name != "*" ==> exists n :: HostNames(lib, dr.name, n))
    && (dr.suffix != "" ==> exists n :: HostNames(lib, dr.suffix, n))
    && (dr.ip != "" ==> AddressOk(lib, dr.ip))
    && (dr.cidr != "" ==> PrefixOk(lib, dr.cidr))
  }

  predicate AddressOk(lib: Library, raw: string) {
    lib.parseAddr(raw).Some? && Zone(lib.parseAddr(raw).value) == ""
  }

  predicate PrefixOk(lib: Library, raw: string) {
    lib.parsePrefix(raw).Some? && (Is4In6(lib.parsePrefix(raw).value.addr) ==> lib.parsePrefix(raw).value.bits >= 96)
  }

  lemma AddressLoads(lib: Library, raw: string)
    ensures LoadAddr(lib, raw).Some? <==> AddressOk(lib, raw)
    ensures LoadAddr(lib, raw).Some? ==> LoadAddr(lib, raw).value == Unmap(lib.parseAddr(raw).value)
  {
  }

  lemma PrefixLoads(lib: Library, raw: string)
    ensures LoadPrefix(lib, raw).Some? <==> PrefixOk(lib, raw)
  {
  }

  lemma NamesNormalize(lib: Library, host: string)
    ensures NormalizeName(lib, host).Some? <==> exists n :: HostNames(lib, host, n)
    ensures NormalizeName(lib, host).Some? ==> HostNames(lib, host, NormalizeName(lib, host).value)
  {
    hide NormalizeName, HostNames;
    if NormalizeName(lib, host).Some? {
      NormalizedNames(lib, host, NormalizeName(lib, host).value);
    }
    if n :| HostNames(lib, host, n) {
      NormalizedNames(lib, host, n);
    }
  }

  /** addRule accepts exactly the rules the schema allows. */
  lemma RulesLoadExactly(lib: Library, dr: DescriptorRule)
    ensures LoadRule(lib, dr).Some? <==> RuleOk(lib, dr)
  {
    hide LoadPorts, PortsOk, LoadTransports, TransportsOk, HostNames, NormalizeName, LoadPrefix, PrefixOk, LoadAddr, AddressOk,
      HostPrefix, LoadResolve;
    LoadedPortsMean(dr.ports, 0);
    LoadedTransportsMean(dr.transports, "");
    NamesNormalize(lib, dr.name);
    NamesNormalize(lib, dr.suffix);
    AddressLoads(lib, dr.ip);
    PrefixLoads(lib, dr.cidr);
    forall raw ensures LoadAddr(lib, raw).Some? <==> AddressOk(lib, raw) {
      AddressLoads(lib, raw);
    }
  }

  // ---- a loaded rule means what the descriptor writes ----

  /** What kind of rule the entry is: names are tried before suffixes, suffixes before the wildcard. */
  predicate KindIs(dr: DescriptorRule, target: Target) {
    match target
    case Wildcard => dr.name == "*"
    case Exact(_) => dr.name != "" && dr.name != "*"
    case Suffix(_, _) => dr.suffix != ""
    case Literal => dr.ip != "" || dr.cidr != ""
  }

  lemma LoadedNameMeans(lib: Library, dr: DescriptorRule, name: string)
    requires LoadRule(lib, dr).Some?
    ensures TargetMatches(LoadRule(lib, dr).value, name) <==> WritesName(lib, dr, name)
    ensures KindIs(dr, LoadRule(lib, dr).value.target) && KindCount(dr) == 1
  {
    hide HostNames, NormalizeName, SuffixMatches, Extends, LoadAddr, LoadPrefix, HostPrefix;
    if dr.name != "" {
      NormalizedNames(lib, dr.name, name);
    } else if dr.suffix != "" {
      var s := NormalizeName(lib, dr.suffix).value;
      forall t ensures HostNames(lib, dr.suffix, t) <==> t == s {
        NormalizedNames(lib, dr.suffix, t);
      }
      SuffixExtends(name, s, dr.depth);
    }
  }

  lemma SuffixExtends(name: string, suffix: string, depth: int)
    requires depth >= 0
    ensures SuffixMatches(name, suffix, depth) <==> Extends(name, suffix, depth)
  {
    hide SuffixMatches, Split;
    SuffixMeansLabels(name, suffix, depth);
  }

  lemma LoadedAddressMeans(lib: Library, dr: DescriptorRule, a: Addr)
    requires LoadRule(lib, dr).Some? && Plain(a)
    ensures var e := LoadRule(lib, dr).value;
      e.target.Literal? && RuleCovers(e.rule, a) <==> WritesAddress(lib, dr, a)
  {
    hide NormalizeName, LoadAddr, LoadPrefix, HostPrefix, Contains, PrefixHolds, Unmap, LoadPorts, LoadTransports, LoadResolve,
      ResolveLoads;
    if dr.ip != "" {
      AddressLoads(lib, dr.ip);
      OwnPrefix(LoadAddr(lib, dr.ip).value, a);
    } else if dr.cidr != "" {
      PrefixLoads(lib, dr.cidr);
      PrefixMeans(lib, dr.cidr, a);
    }
  }

  lemma OwnPrefix(b: Addr, a: Addr)
    requires Plain(a) && Plain(b)
    ensures Contains(HostPrefix(b), a) <==> a == b
  {
  }

  lemma LoadedRightsMean(lib: Library, dr: DescriptorRule, n: nat, network: string)
    requires LoadRule(lib, dr).Some?
    ensures var r := LoadRule(lib, dr).value.rule;
      && r.id == dr.id
      && (Permits(r.ports, n) <==> PortsSay(dr.ports, n))
      && (HasTransport(r.transports, network) <==> TransportsSay(dr.transports, network))
  {
    hide NormalizeName, LoadAddr, LoadPrefix, HostPrefix, LoadResolve, ResolveLoads, LoadPorts, LoadTransports, Permits,
      HasTransport, PortsSay, TransportsSay;
    LoadedPortsMean(dr.ports, n);
    LoadedTransportsMean(dr.transports, network);
  }

  lemma LoadedResolveMeans(lib: Library, dr: DescriptorRule, a: Addr)
    requires LoadRule(lib, dr).Some?
    ensures var r := LoadRule(lib, dr).value.rule;
      && (a in r.resolve <==> WritesResolve(lib, dr, a))
      && (r.resolve == [] <==> dr.resolve.None?)
      && (dr.resolve.Some? ==>
            && |r.resolve| == |dr.resolve.value|
            && forall i | 0 <= i < |r.resolve| ::
                 lib.parseAddr(dr.resolve.value[i]).Some? && r.resolve[i] == Unmap(lib.parseAddr(dr.resolve.value[i]).value))
  {
    hide NormalizeName, LoadPrefix, HostPrefix, LoadPorts, LoadTransports, LoadAddr;
    var r := LoadRule(lib, dr).value.rule;
    if dr.resolve.Some? {
      var raw := dr.resolve.value;
      forall i | 0 <= i < |raw|
        ensures lib.parseAddr(raw[i]).Some? && r.resolve[i] == Unmap(lib.parseAddr(raw[i]).value)
      {
        AddressLoads(lib, raw[i]);
      }
      if a in r.resolve {
        var i :| 0 <= i < |raw| && r.resolve[i] == a;
        assert raw[i] in raw;
      }
      if WritesResolve(lib, dr, a) {
        var text :| text in raw && lib.parseAddr(text).Some? && Unmap(lib.parseAddr(text).value) == a;
        var i :| 0 <= i < |raw| && raw[i] == text;
      }
    }
  }

  // ---- resolved_addresses ----

  /** The schema's conditions on one resolved_addresses entry. */
  predicate ExceptionOk(lib: Library, dr: DescriptorRule) {
    && dr.cidr != ""
    && dr.name == "" && dr.suffix == "" && dr.ip == "" && dr.id == "" && dr.depth == 0
    && dr.transports.None? && dr.resolve.None?
    && PrefixOk(lib, dr.cidr)
    && SpecialPurpose(LoadPrefix(lib, dr.cidr).value)
    && PortsOk(dr.ports)
  }

  /** An exception loads exactly when the schema allows it, and covers on each port what it writes. */
  lemma LoadedExceptionMeans(lib: Library, dr: DescriptorRule, a: Addr, n: nat)
    requires Plain(a)
    ensures LoadException(lib, dr).Some? <==> ExceptionOk(lib, dr)
    ensures LoadException(lib, dr).Some? ==>
      var r := LoadException(lib, dr).value;
      (RuleCovers(r, a) && Permits(r.ports, n) <==> WritesAddress(lib, dr, a) && PortsSay(dr.ports, n))
  {
    hide LoadPrefix, LoadPorts, PortsOk, Permits, PortsSay, Contains, PrefixHolds, SpecialPurpose;
    PrefixLoads(lib, dr.cidr);
    LoadedPortsMean(dr.ports, n);
    if LoadPrefix(lib, dr.cidr).Some? {
      PrefixMeans(lib, dr.cidr, a);
    }
  }

  // ---- whole descriptors ----

  /** The schema's conditions on a descriptor. */
  ghost predicate DescriptorOk(lib: Library, d: Descriptor) {
    && d.schema == 1
    && 1 <= |d.version| <= 256
    && 1 <= |d.sandbox| <= 256
    && d.default_ == "deny"
    && (forall i | 0 <= i < |d.rules| :: RuleOk(lib, d.rules[i]))
    && (forall i | 0 <= i < |d.resolvedAddresses| :: ExceptionOk(lib, d.resolvedAddresses[i]))
  }

  /** A descriptor loads exactly when the schema allows it and all its entries. */
  lemma DescriptorsLoadExactly(lib: Library, d: Descriptor)
    ensures Loads(lib, d) <==> DescriptorOk(lib, d)
  {
    hide LoadRule, RuleOk, LoadException, ExceptionOk;
    forall i | 0 <= i < |d.rules| ensures LoadRule(lib, d.rules[i]).Some? <==> RuleOk(lib, d.rules[i]) {
      RulesLoadExactly(lib, d.rules[i]);
    }
    forall i | 0 <= i < |d.resolvedAddresses|
      ensures LoadException(lib, d.resolvedAddresses[i]).Some? <==> ExceptionOk(lib, d.resolvedAddresses[i])
    {
      LoadedExceptionMeans(lib, d.resolvedAddresses[i], V4(0), 0);
    }
  }
}
