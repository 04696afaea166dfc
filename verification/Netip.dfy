/**
 * IP addresses and prefixes as Go's net/netip package defines them. A prefix
 * covers the addresses that agree with it above its host bits, so membership
 * is integer division by a power of two.
 */
module Netip {
  import opened Powers
  import opened Wrappers

  datatype AddrShape = V4(v: nat) | V6(v: nat, zone: string)

  type Addr = a: AddrShape
    | a.v < if a.V4? then 0x1_0000_0000 else 0x1_0000_0000_0000_0000_0000_0000_0000_0000
    witness V4(0)

  function BitLen(a: Addr): nat {
    if a.V4? then 32 else 128
  }

  function Zone(a: Addr): string {
    if a.V4? then "" else a.zone
  }

  predicate SameFamily(a: Addr, b: Addr) {
    a.V4? == b.V4?
  }

  /** ::ffff:0:0/96, the IPv4-mapped addresses. */
  predicate Is4In6(a: Addr) {
    a.V6? && a.v / 0x1_0000_0000 == 0xffff
  }

  /** The IPv4 address behind an IPv4-mapped one, whose zone is lost; any other address itself. */
  function Unmap(a: Addr): Addr {
    if Is4In6(a) then V4(a.v % 0x1_0000_0000) else a
  }

  /** ::ffff:a.b.c.d in any zone stands for a.b.c.d, and nothing else is changed. */
  lemma UnmapMeans(a: Addr)
    ensures a.V4? ==> Unmap(a) == a
    ensures a.V6? && 0xffff_0000_0000 <= a.v < 0x1_0000_0000_0000 ==> Unmap(a) == V4(a.v - 0xffff_0000_0000)
    ensures a.V6? && !(0xffff_0000_0000 <= a.v < 0x1_0000_0000_0000) ==> Unmap(a) == a
  {
  }

  /** The address after a; none after the last of its family. */
  function Next(a: Addr): Option<Addr> {
    match a
    case V4(v) => if v == 0xffff_ffff then None else Some(V4(v + 1))
    case V6(v, zone) =>
      if v == 0xffff_ffff_ffff_ffff_ffff_ffff_ffff_ffff then None else Some(V6(v + 1, zone))
  }

  // Byte i, or 16-bit group i, counted from the most significant one.

  function Octet(v: nat, i: nat): nat
    requires v < 0x1_0000_0000 && i < 4
  {
    match i
    case 0 => v / 0x100_0000
    case 1 => v / 0x1_0000 % 0x100
    case 2 => v / 0x100 % 0x100
    case 3 => v % 0x100
  }

  lemma OctetsOf(v: nat)
    requires v < 0x1_0000_0000
    ensures v == Octet(v, 0) * 0x100_0000 + Octet(v, 1) * 0x1_0000 + v % 0x1_0000
    ensures Octet(v, 0) < 0x100 && Octet(v, 1) < 0x100
  {
    var high := v / 0x1_0000;
    assert high / 0x100 == v / 0x100_0000;
    assert high == high / 0x100 * 0x100 + high % 0x100;
  }

  function FirstHextet(v: nat): nat {
    v / 0x1_0000_0000_0000_0000_0000_0000_0000
  }

  predicate IsLoopback(a: Addr) {
    match Unmap(a)
    case V4(v) => Octet(v, 0) == 127
    case V6(v, _) => v == 1
  }

  predicate IsMulticast(a: Addr) {
    match Unmap(a)
    case V4(v) => Octet(v, 0) / 0x10 == 0xe
    case V6(v, _) => FirstHextet(v) / 0x100 == 0xff
  }

  predicate IsLinkLocalUnicast(a: Addr) {
    match Unmap(a)
    case V4(v) => Octet(v, 0) == 169 && Octet(v, 1) == 254
    case V6(v, _) => FirstHextet(v) / 0x40 == 0xfe80 / 0x40
  }

  predicate IsPrivate(a: Addr) {
    match Unmap(a)
    case V4(v) =>
      || Octet(v, 0) == 10
      || (Octet(v, 0) == 172 && Octet(v, 1) / 0x10 == 1)
      || (Octet(v, 0) == 192 && Octet(v, 1) == 168)
    case V6(v, _) => FirstHextet(v) / 0x200 == 0xfc00 / 0x200
  }

  predicate IsGlobalUnicast(a: Addr) {
    var b := Unmap(a);
    && b != V4(0)
    && b != V4(0xffff_ffff)
    && b != V6(0, "")
    && !IsLoopback(b)
    && !IsMulticast(b)
    && !IsLinkLocalUnicast(b)
  }

  datatype PrefixShape = MakePrefix(addr: Addr, bits: nat)

  type Prefix = p: PrefixShape | p.bits <= BitLen(p.addr) && Zone(p.addr) == ""
    witness MakePrefix(V4(0), 0)

  function HostBits(p: Prefix): nat {
    BitLen(p.addr) - p.bits
  }

  /** Never true across families, nor of an address with a zone. */
  predicate Contains(p: Prefix, a: Addr) {
    && Zone(a) == ""
    && SameFamily(p.addr, a)
    && a.v / Pow2(HostBits(p)) == p.addr.v / Pow2(HostBits(p))
  }

  /** The first number of v's block among blocks of the given size. */
  function BlockStart(v: nat, size: nat): (start: nat)
    requires size > 0
    ensures start <= v < start + size
    ensures start / size == v / size
  {
    QuotientBounds(v, size);
    QuotientUnique(v / size * size, size, v / size);
    v / size * size
  }

  /** The prefix with its host bits cleared. */
  function Masked(p: Prefix): (r: Prefix)
    ensures r.bits == p.bits && SameFamily(r.addr, p.addr) && HostBits(r) == HostBits(p)
  {
    var start := BlockStart(p.addr.v, Pow2(HostBits(p)));
    if p.addr.V4? then MakePrefix(V4(start), p.bits) else MakePrefix(V6(start, ""), p.bits)
  }

  /** Clearing the host bits changes no membership. */
  lemma MaskedContains(p: Prefix, a: Addr)
    ensures Contains(Masked(p), a) <==> Contains(p, a)
  {
  }

  /** A prefix is the block of addresses that starts at its masked address. */
  lemma ContainsInterval(p: Prefix, a: Addr)
    ensures Contains(p, a) <==>
      && Zone(a) == ""
      && SameFamily(p.addr, a)
      && Masked(p).addr.v <= a.v < Masked(p).addr.v + Pow2(HostBits(p))
  {
    var size := Pow2(HostBits(p));
    var start := BlockStart(p.addr.v, size);
    QuotientBounds(a.v, size);
    if start <= a.v < start + size {
      QuotientUnique(a.v, size, p.addr.v / size);
    }
  }

  lemma BlockFits(v: nat, size: nat, blocks: nat)
    requires size > 0 && v < blocks * size
    ensures BlockStart(v, size) + size <= blocks * size
  {
    NextMultiple(v / size, blocks, size);
  }

  /** A block never reaches past its family's last address. */
  lemma LastOfBlock(p: Prefix)
    ensures Masked(p).addr.v + Pow2(HostBits(p)) <= Pow2(BitLen(p.addr))
    ensures Pow2(BitLen(p.addr)) ==
      if p.addr.V4? then 0x1_0000_0000 else 0x1_0000_0000_0000_0000_0000_0000_0000_0000
  {
    Pow2Values32();
    Pow2Values120();
    Pow2Add(p.bits, HostBits(p));
    BlockFits(p.addr.v, Pow2(HostBits(p)), Pow2(p.bits));
  }

  /** The host prefix of an address, netip.PrefixFrom(a, a.BitLen()). */
  function HostPrefix(a: Addr): (r: Prefix)
    ensures forall b :: Contains(r, b) <==> Zone(b) == "" && SameFamily(a, b) && a.v == b.v
  {
    if a.V4? then MakePrefix(a, 32) else MakePrefix(V6(a.v, ""), 128)
  }
}
