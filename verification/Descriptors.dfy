/**
 * Policy descriptors after JSON decoding, and what each entry loads to:
 * ports, transports, names, addresses and prefixes.
 */
module Descriptors {
  import opened AddressTables
  import opened Labels
  import opened Netip
  import opened Powers
  import opened Text
  import opened Wrappers

  /** The library functions the policy calls on text, as arbitrary functions. */
  datatype Library = Library(
    parseAddr: string -> Option<Addr>,      // netip.ParseAddr
    formatAddr: Addr -> string,             // netip.Addr.String
    parsePrefix: string -> Option<Prefix>,  // netip.ParsePrefix
    toASCII: string -> Option<string>)      // idna.Profile.ToASCII

  // ---- ports ----

  /** One element of a JSON ports list. */
  datatype PortValue = Number(value: real) | Literally(text: string) | Other

  datatype PortSet = PortSet(any: bool, ranges: seq<(nat, nat)>)

  predicate InRange(range: (nat, nat), port: nat) {
    range.0 <= port <= range.1
  }

  predicate Permits(ports: PortSet, port: nat) {
    ports.any || exists i :: 0 <= i < |ports.ranges| && InRange(ports.ranges[i], port)
  }

  function FormatInt(n: int): string {
    if n < 0 then "-" + Decimal(-n) else Decimal(n)
  }

  function EntryText(value: PortValue): Option<string> {
    match value
    case Number(v) => if v == v.Floor as real then Some(FormatInt(v.Floor)) else None
    case Literally(text) => Some(text)
    case Other => None
  }

  /** The range a list element denotes: an integer, "n", or "a-b" with a <= b. */
  function EntryRange(value: PortValue): Option<(nat, nat)> {
    match EntryText(value)
    case None => None
    case Some(text) =>
      var halves := Cut(text, '-');
      match ParsePort(halves.before)
      case None => None
      case Some(first) =>
        if !halves.found then Some((first, first))
        else
          match ParsePort(halves.after)
          case None => None
          case Some(last) => if last < first then None else Some((first, last))
  }

  predicate PortsLoad(values: Option<seq<PortValue>>) {
    values.None? || (values.value != [] && forall i | 0 <= i < |values.value| :: EntryRange(values.value[i]).Some?)
  }

  /** The ports a list permits; an absent list permits every port. */
  function LoadPorts(values: Option<seq<PortValue>>): (r: Option<PortSet>)
    ensures r.Some? <==> PortsLoad(values)
  {
    if !PortsLoad(values) then None
    else if values.None? then Some(PortSet(true, []))
    else
      var list := values.value;
      Some(PortSet(false, seq(|list|, i requires 0 <= i < |list| => EntryRange(list[i]).value)))
  }

  /** A number loads exactly when it is an integer and a port, and then permits it alone. */
  lemma NumberEntry(v: real)
    ensures EntryRange(Number(v)) ==
      if v == v.Floor as real && 1 <= v.Floor < 0x1_0000 then Some((v.Floor, v.Floor)) else None
  {
    var n := v.Floor;
    if n < 0 {
      IndexOfFirst("-" + Decimal(-n), '-', 0);
    } else {
      assert '-' !in Decimal(n);
      DecimalPort(n);
    }
  }

  /** A printed range loads exactly when both ends are ports in order, and then permits those between. */
  lemma RangeEntry(a: nat, b: nat)
    ensures EntryRange(Literally(Decimal(a) + "-" + Decimal(b))) ==
      if 1 <= a <= b < 0x1_0000 then Some((a, b)) else None
  {
    var text := Decimal(a) + "-" + Decimal(b);
    assert '-' !in Decimal(a);
    assert text[..|Decimal(a)|] == Decimal(a) && text[|Decimal(a)| + 1..] == Decimal(b);
    IndexOfFirst(text, '-', |Decimal(a)|);
    DecimalPort(a);
    DecimalPort(b);
  }

  // ---- transports ----

  datatype TransportSet = TransportSet(tcp: bool, udp: bool)

  predicate HasTransport(t: TransportSet, network: string) {
    (network == "tcp" && t.tcp) || (network == "udp" && t.udp)
  }

  /** An absent list means TCP alone. */
  function LoadTransports(values: Option<seq<string>>): Option<TransportSet> {
    if values.None? then Some(TransportSet(true, false))
    else if values.value == [] || exists i :: 0 <= i < |values.value| && values.value[i] !in {"tcp", "udp"} then None
    else Some(TransportSet("tcp" in values.value, "udp" in values.value))
  }

  // ---- names ----

  predicate NameChar(c: char) {
    'a' <= c <= 'z' || '0' <= c <= '9' || c == '-' || c == '_'
  }

  predicate ValidName(name: string) {
    && name != ""
    && |name| <= 253
    && forall part | part in LabelsOf(name) ::
        part != "" && |part| <= 63 && forall i | 0 <= i < |part| :: NameChar(part[i])
  }

  function NormalizeName(lib: Library, host: string): Option<string> {
    var name := TrimSuffix(ToLower(host), ".");
    if name == "" || lib.parseAddr(name).Some? then None
    else
      match lib.toASCII(name)
      case None => None
      case Some(ascii) => if ValidName(ascii) then Some(ascii) else None
  }

  // ---- addresses and prefixes ----

  /** One address without a zone, unmapped. */
  function LoadAddr(lib: Library, raw: string): (a: Option<Addr>)
    ensures a.Some? ==> Unmap(a.value) == a.value && Zone(a.value) == ""
  {
    match lib.parseAddr(raw)
    case None => None
    case Some(a) => if Zone(a) != "" then None else Some(Unmap(a))
  }

  /** parsePrefix after the text is read: an IPv4-mapped prefix becomes IPv4, host bits are cleared. */
  function NormalizePrefix(written: Prefix): Option<Prefix> {
    if Is4In6(written.addr) then
      if written.bits < 96 then None
      else Some(Masked(MakePrefix(Unmap(written.addr), written.bits - 96)))
    else Some(Masked(written))
  }

  function LoadPrefix(lib: Library, raw: string): Option<Prefix> {
    match lib.parsePrefix(raw)
    case None => None
    case Some(written) => NormalizePrefix(written)
  }

  /** Below bit 32 a mapped address and the IPv4 address behind it have the same blocks. */
  lemma MappedBlocks(v: nat, k: nat)
    requires k <= 32 && v / 0x1_0000_0000 == 0xffff
    ensures v / Pow2(k) == 0xffff * Pow2(32 - k) + v % 0x1_0000_0000 / Pow2(k)
  {
    Pow2Add(32 - k, k);
    Pow2Values32();
    QuotientOfSum(0xffff, Pow2(32 - k), Pow2(k), v % 0x1_0000_0000);
  }

  /** A written mapped prefix holds exactly the addresses whose unmapped form its loaded prefix holds. */
  lemma MappedPrefixMembership(written: Prefix, a: Addr)
    requires Is4In6(written.addr) && written.bits >= 96
    requires a.V6? && Zone(a) == ""
    ensures Contains(written, a) <==> Contains(NormalizePrefix(written).value, Unmap(a))
  {
    var k := HostBits(written);
    var narrowed: Prefix := MakePrefix(Unmap(written.addr), written.bits - 96);
    MaskedContains(narrowed, Unmap(a));
    Pow2Values32();
    MappedBlocks(written.addr.v, k);
    if Contains(written, a) {
      SharedHighBits(a.v, written.addr.v, k, 32);
    }
    if Is4In6(a) {
      MappedBlocks(a.v, k);
    }
  }

  /** Loading changes the membership of no other prefix. */
  lemma PlainPrefixMembership(written: Prefix, a: Addr)
    requires !Is4In6(written.addr)
    ensures Contains(written, a) <==> Contains(NormalizePrefix(written).value, a)
  {
    MaskedContains(written, a);
  }

  lemma Regroup(q: nat, half: nat, w: nat)
    ensures q * (2 * half * w) == 2 * (q * half) * w
  {
    calc {
      q * (2 * half * w);
      q * (2 * half) * w;
      2 * (q * half) * w;
    }
  }

  /** Above bit 32 a block starts at an even multiple of 2^32, so never at a mapped address. */
  lemma WideBlockStart(q: nat, k: nat)
    requires k > 32
    ensures q * Pow2(k) / Pow2(32) % 2 == 0
  {
    var half, w := Pow2(k - 33), Pow2(32);
    Pow2Add(k - 32, 32);
    Regroup(q, half, w);
    EvenQuotient(q * half, w);
  }

  lemma EvenQuotient(m: nat, w: nat)
    requires w > 0
    ensures 2 * m * w / w % 2 == 0
  {
    QuotientOfProduct(2 * m, w);
  }

  lemma MaskedKeepsUnmapped(p: Prefix)
    requires !Is4In6(p.addr)
    ensures !Is4In6(Masked(p).addr)
  {
    var k := HostBits(p);
    if p.addr.V6? && k <= 32 {
      Pow2Values32();
      SharedHighBits(Masked(p).addr.v, p.addr.v, k, 32);
    } else if p.addr.V6? {
      Pow2Values32();
      WideBlockStart(p.addr.v / Pow2(k), k);
    }
  }

  /** No loaded prefix is IPv4-mapped. */
  lemma LoadedPrefixIsUnmapped(lib: Library, raw: string)
    requires LoadPrefix(lib, raw).Some?
    ensures !Is4In6(LoadPrefix(lib, raw).value.addr)
    ensures Masked(LoadPrefix(lib, raw).value) == LoadPrefix(lib, raw).value
  {
    var written := lib.parsePrefix(raw).value;
    if !Is4In6(written.addr) {
      MaskedKeepsUnmapped(written);
    }
  }

  // ---- rules ----

  datatype DescriptorRule = DescriptorRule(
    id: string,
    name: string,
    suffix: string,
    depth: int,
    ip: string,
    cidr: string,
    ports: Option<seq<PortValue>>,
    transports: Option<seq<string>>,
    resolve: Option<seq<string>>)

  /** A loaded rule. resolve is empty when absent; literal rules and exceptions carry a prefix. */
  datatype Rule = Rule(
    id: string, ports: PortSet, transports: TransportSet, resolve: seq<Addr>, prefix: Option<Prefix>)

  /** What a rule is looked up by. */
  datatype Target = Wildcard | Exact(name: string) | Suffix(suffix: string, depth: int) | Literal

  datatype Entry = Entry(target: Target, rule: Rule)

  function KindCount(dr: DescriptorRule): nat {
    (if dr.name != "" then 1 else 0) + (if dr.suffix != "" then 1 else 0)
    + (if dr.ip != "" then 1 else 0) + (if dr.cidr != "" then 1 else 0)
  }

  predicate ResolveLoads(lib: Library, dr: DescriptorRule) {
    dr.resolve.Some? ==>
      && dr.name != ""
      && dr.name != "*"
      && dr.resolve.value != []
      && forall i | 0 <= i < |dr.resolve.value| :: LoadAddr(lib, dr.resolve.value[i]).Some?
  }

  function LoadResolve(lib: Library, dr: DescriptorRule): (addresses: seq<Addr>)
    requires ResolveLoads(lib, dr)
    ensures forall a | a in addresses :: Unmap(a) == a && Zone(a) == ""
    ensures addresses != [] ==> dr.name != "" && dr.name != "*"
  {
    if dr.resolve.None? then []
    else
      var raw := dr.resolve.value;
      seq(|raw|, i requires 0 <= i < |raw| => LoadAddr(lib, raw[i]).value)
  }

  predicate DepthLoads(dr: DescriptorRule) {
    dr.depth == 0 || (dr.suffix != "" && 0 <= dr.depth <= 126)
  }

  /** addRule: what one descriptor rule loads to, or nothing when the schema forbids it. */
  function LoadRule(lib: Library, dr: DescriptorRule): Option<Entry> {
    var ports, transports := LoadPorts(dr.ports), LoadTransports(dr.transports);
    if KindCount(dr) != 1 || |dr.id| > 64 || ports.None? || transports.None?
       || !ResolveLoads(lib, dr) || !DepthLoads(dr)
    then None
    else
      var rule := Rule(dr.id, ports.value, transports.value, LoadResolve(lib, dr), None);
      if dr.name == "*" then Some(Entry(Wildcard, rule))
      else if dr.name != "" then
        match NormalizeName(lib, dr.name)
        case None => None
        case Some(name) => Some(Entry(Exact(name), rule))
      else if dr.suffix != "" then
        match NormalizeName(lib, dr.suffix)
        case None => None
        case Some(suffix) => Some(Entry(Suffix(suffix, dr.depth), rule))
      else if dr.ip != "" then
        match LoadAddr(lib, dr.ip)
        case None => None
        case Some(a) => Some(Entry(Literal, rule.(prefix := Some(HostPrefix(a)))))
      else
        match LoadPrefix(lib, dr.cidr)
        case None => None
        case Some(p) => Some(Entry(Literal, rule.(prefix := Some(p))))
  }

  /** One resolved_addresses entry: a special-purpose prefix and ports, nothing else. */
  function LoadException(lib: Library, dr: DescriptorRule): Option<Rule> {
    if dr.cidr == "" || dr.name != "" || dr.suffix != "" || dr.ip != "" || dr.transports.Some?
       || dr.resolve.Some? || dr.id != "" || dr.depth != 0
    then None
    else
      match LoadPrefix(lib, dr.cidr)
      case None => None
      case Some(p) =>
        if !SpecialPurpose(p) then None
        else
          match LoadPorts(dr.ports)
          case None => None
          case Some(ports) => Some(Rule("", ports, TransportSet(false, false), [], Some(p)))
  }
}
