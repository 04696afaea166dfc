/**
 * The two address tables of the boundary policy: publicAddress, which filters
 * resolver answers, and specialPurpose, which limits resolved_addresses.
 */
module AddressTables {
  import opened Netip
  import opened Powers

  const NON_PUBLIC: seq<Prefix> := [
    MakePrefix(V4(0x0000_0000), 8),                                   // 0.0.0.0/8
    MakePrefix(V4(0x6440_0000), 10),                                  // 100.64.0.0/10
    MakePrefix(V4(0xc000_0000), 24),                                  // 192.0.0.0/24
    MakePrefix(V4(0xc000_0200), 24),                                  // 192.0.2.0/24
    MakePrefix(V4(0xc612_0000), 15),                                  // 198.18.0.0/15
    MakePrefix(V4(0xc633_6400), 24),                                  // 198.51.100.0/24
    MakePrefix(V4(0xcb00_7100), 24),                                  // 203.0.113.0/24
    MakePrefix(V4(0xf000_0000), 4),                                   // 240.0.0.0/4
    MakePrefix(V6(0x0064_ff9b_0000_0000_0000_0000_0000_0000, ""), 96), // 64:ff9b::/96
    MakePrefix(V6(0x0064_ff9b_0001_0000_0000_0000_0000_0000, ""), 48), // 64:ff9b:1::/48
    MakePrefix(V6(0x0100_0000_0000_0000_0000_0000_0000_0000, ""), 64), // 100::/64
    MakePrefix(V6(0x2001_0000_0000_0000_0000_0000_0000_0000, ""), 23), // 2001::/23
    MakePrefix(V6(0x2001_0db8_0000_0000_0000_0000_0000_0000, ""), 32), // 2001:db8::/32
    MakePrefix(V6(0x2002_0000_0000_0000_0000_0000_0000_0000, ""), 16), // 2002::/16
    MakePrefix(V6(0x3fff_0000_0000_0000_0000_0000_0000_0000, ""), 20), // 3fff::/20
    MakePrefix(V6(0x5f00_0000_0000_0000_0000_0000_0000_0000, ""), 16), // 5f00::/16
    MakePrefix(V6(0xfec0_0000_0000_0000_0000_0000_0000_0000, ""), 10)  // fec0::/10
  ]

  const CLASSIFIERS: seq<Prefix> := [
    MakePrefix(V4(0x0a00_0000), 8),                                   // 10.0.0.0/8
    MakePrefix(V4(0x7f00_0000), 8),                                   // 127.0.0.0/8
    MakePrefix(V4(0xa9fe_0000), 16),                                  // 169.254.0.0/16
    MakePrefix(V4(0xac10_0000), 12),                                  // 172.16.0.0/12
    MakePrefix(V4(0xc0a8_0000), 16),                                  // 192.168.0.0/16
    MakePrefix(V4(0xe000_0000), 4),                                   // 224.0.0.0/4
    MakePrefix(V6(0, ""), 128),                                       // ::/128
    MakePrefix(V6(1, ""), 128),                                       // ::1/128
    MakePrefix(V6(0xfc00_0000_0000_0000_0000_0000_0000_0000, ""), 7),  // fc00::/7
    MakePrefix(V6(0xfe80_0000_0000_0000_0000_0000_0000_0000, ""), 10), // fe80::/10
    MakePrefix(V6(0xff00_0000_0000_0000_0000_0000_0000_0000, ""), 8)   // ff00::/8
  ]

  const RANGES: seq<Prefix> := CLASSIFIERS + NON_PUBLIC

  predicate Within(ranges: seq<Prefix>, a: Addr) {
    exists i :: 0 <= i < |ranges| && Contains(ranges[i], a)
  }

  predicate PublicAddress(a: Addr) {
    && IsGlobalUnicast(a)
    && !IsPrivate(a)
    && !Within(NON_PUBLIC, a)
  }

  /** r covers p: same family, no longer than p, and containing p's address. */
  predicate Covers(r: Prefix, p: Prefix) {
    SameFamily(r.addr, p.addr) && r.bits <= p.bits && Contains(r, p.addr)
  }

  predicate SpecialPurpose(p: Prefix) {
    exists i :: 0 <= i < |RANGES| && Covers(RANGES[i], p)
  }

  // ---- each range, as the block of addresses it holds ----

  predicate InBlock(a: Addr, six: bool, first: nat, size: nat) {
    Zone(a) == "" && a.V6? == six && first <= a.v < first + size
  }

  lemma Block(p: Prefix, a: Addr, size: nat, k: nat)
    requires size == Pow2(HostBits(p)) && p.addr.v == k * size
    ensures Contains(p, a) <==> InBlock(a, p.addr.V6?, p.addr.v, size)
  {
    QuotientUnique(p.addr.v, size, k);
    ContainsInterval(p, a);
  }

  lemma ClassifierBlocks4(a: Addr)
    requires a.V4?
    ensures Within(CLASSIFIERS, a) <==>
      || InBlock(a, false, 0xa00_0000, 0x100_0000)
      || InBlock(a, false, 0x7f00_0000, 0x100_0000)
      || InBlock(a, false, 0xa9fe_0000, 0x1_0000)
      || InBlock(a, false, 0xac10_0000, 0x10_0000)
      || InBlock(a, false, 0xc0a8_0000, 0x1_0000)
      || InBlock(a, false, 0xe000_0000, 0x1000_0000)
  {
    Pow2Values32();
    Block(CLASSIFIERS[0], a, Pow2(24), 0xa);
    Block(CLASSIFIERS[1], a, Pow2(24), 0x7f);
    Block(CLASSIFIERS[2], a, Pow2(16), 0xa9fe);
    Block(CLASSIFIERS[3], a, Pow2(20), 0xac1);
    Block(CLASSIFIERS[4], a, Pow2(16), 0xc0a8);
    Block(CLASSIFIERS[5], a, Pow2(28), 0xe);
  }

  lemma ClassifierBlock8(a: Addr)
    ensures Contains(CLASSIFIERS[8], a) <==>
      InBlock(a, true, 0xfc00_0000_0000_0000_0000_0000_0000_0000, 0x200_0000_0000_0000_0000_0000_0000_0000)
  {
    Pow2Values120();
    Block(CLASSIFIERS[8], a, Pow2(121), 0x7e);
  }

  lemma ClassifierBlock9(a: Addr)
    ensures Contains(CLASSIFIERS[9], a) <==>
      InBlock(a, true, 0xfe80_0000_0000_0000_0000_0000_0000_0000, 0x40_0000_0000_0000_0000_0000_0000_0000)
  {
    Pow2Values118();
    Block(CLASSIFIERS[9], a, Pow2(118), 0x3fa);
  }

  lemma ClassifierBlock10(a: Addr)
    ensures Contains(CLASSIFIERS[10], a) <==>
      InBlock(a, true, 0xff00_0000_0000_0000_0000_0000_0000_0000, 0x100_0000_0000_0000_0000_0000_0000_0000)
  {
    Pow2Values120();
    Block(CLASSIFIERS[10], a, Pow2(120), 0xff);
  }

  lemma ClassifierBlocks6(a: Addr)
    requires a.V6?
    ensures Within(CLASSIFIERS, a) <==>
      || InBlock(a, true, 0, 2)
      || InBlock(a, true, 0xfc00_0000_0000_0000_0000_0000_0000_0000, 0x200_0000_0000_0000_0000_0000_0000_0000)
      || InBlock(a, true, 0xfe80_0000_0000_0000_0000_0000_0000_0000, 0x40_0000_0000_0000_0000_0000_0000_0000)
      || InBlock(a, true, 0xff00_0000_0000_0000_0000_0000_0000_0000, 0x100_0000_0000_0000_0000_0000_0000_0000)
  {
    assert Pow2(0) == 1;
    Block(CLASSIFIERS[6], a, 1, 0);
    Block(CLASSIFIERS[7], a, 1, 1);
    ClassifierBlock8(a);
    ClassifierBlock9(a);
    ClassifierBlock10(a);
    assert forall i | 0 <= i < 6 :: !Contains(CLASSIFIERS[i], a);
  }

  /** netip's classifiers are exactly the classifier ranges, but for two addresses of listed ranges. */
  lemma Classified4(a: Addr)
    requires a.V4?
    ensures IsGlobalUnicast(a) && !IsPrivate(a) <==>
      !Within(CLASSIFIERS, a) && a.v != 0 && a.v != 0xffff_ffff
  {
    ClassifierBlocks4(a);
    OctetsOf(a.v);
  }

  lemma Classified6(a: Addr)
    requires a.V6? && Zone(a) == "" && !Is4In6(a)
    ensures IsGlobalUnicast(a) && !IsPrivate(a) <==> !Within(CLASSIFIERS, a)
  {
    ClassifierBlocks6(a);
  }

  lemma WithinRanges(a: Addr)
    ensures Within(RANGES, a) <==> Within(CLASSIFIERS, a) || Within(NON_PUBLIC, a)
  {
    assert forall i | 0 <= i < |CLASSIFIERS| :: RANGES[i] == CLASSIFIERS[i];
    assert forall i | 0 <= i < |NON_PUBLIC| :: RANGES[|CLASSIFIERS| + i] == NON_PUBLIC[i];
    forall i | 0 <= i < |RANGES| && Contains(RANGES[i], a)
      ensures Within(CLASSIFIERS, a) || Within(NON_PUBLIC, a)
    {
      if i < |CLASSIFIERS| {
        assert Contains(CLASSIFIERS[i], a);
      } else {
        assert Contains(NON_PUBLIC[i - |CLASSIFIERS|], a);
      }
    }
  }

  lemma PublicMeansOutside(a: Addr)
    requires Zone(a) == "" && !Is4In6(a)
    ensures PublicAddress(a) <==> !Within(RANGES, a)
  {
    WithinRanges(a);
    if a.V4? {
      Classified4(a);
      Pow2Values32();
      Block(NON_PUBLIC[0], a, Pow2(24), 0);
      Block(NON_PUBLIC[7], a, Pow2(28), 0xf);
    } else {
      Classified6(a);
    }
  }

  // ---- the public addresses, as numbers ----

  predicate ListedNumber4(v: nat) {
    || v < 0x100_0000
    || 0x6440_0000 <= v < 0x6480_0000
    || 0xc000_0000 <= v < 0xc000_0100
    || 0xc000_0200 <= v < 0xc000_0300
    || 0xc612_0000 <= v < 0xc614_0000
    || 0xc633_6400 <= v < 0xc633_6500
    || 0xcb00_7100 <= v < 0xcb00_7200
    || 0xf000_0000 <= v
  }

  predicate ClassifiedNumber4(v: nat) {
    || 0x0a00_0000 <= v < 0x0b00_0000
    || 0x7f00_0000 <= v < 0x8000_0000
    || 0xa9fe_0000 <= v < 0xa9ff_0000
    || 0xac10_0000 <= v < 0xac20_0000
    || 0xc0a8_0000 <= v < 0xc0a9_0000
    || 0xe000_0000 <= v < 0xf000_0000
  }

  lemma ListedBlocks4(a: Addr)
    requires a.V4?
    ensures Within(NON_PUBLIC, a) <==> ListedNumber4(a.v)
  {
    Pow2Values32();
    Block(NON_PUBLIC[0], a, Pow2(24), 0);
    Block(NON_PUBLIC[1], a, Pow2(22), 0x191);
    Block(NON_PUBLIC[2], a, Pow2(8), 0xc0_0000);
    Block(NON_PUBLIC[3], a, Pow2(8), 0xc0_0002);
    Block(NON_PUBLIC[4], a, Pow2(17), 0x6309);
    Block(NON_PUBLIC[5], a, Pow2(8), 0xc6_3364);
    Block(NON_PUBLIC[6], a, Pow2(8), 0xcb_0071);
    Block(NON_PUBLIC[7], a, Pow2(28), 0xf);
    assert forall i | 8 <= i < |NON_PUBLIC| :: !Contains(NON_PUBLIC[i], a);
  }

  /** Which IPv4 addresses are public. */
  lemma PublicNumbers4(a: Addr)
    requires a.V4?
    ensures PublicAddress(a) <==> !ListedNumber4(a.v) && !ClassifiedNumber4(a.v)
  {
    hide Within, IsGlobalUnicast, IsPrivate;
    Classified4(a);
    ClassifierBlocks4(a);
    ListedBlocks4(a);
  }

  predicate ListedNumber6(v: nat) {
    || 0x64_ff9b_0000_0000_0000_0000_0000_0000 <= v < 0x64_ff9b_0000_0000_0000_0001_0000_0000
    || 0x64_ff9b_0001_0000_0000_0000_0000_0000 <= v < 0x64_ff9b_0002_0000_0000_0000_0000_0000
    || 0x100_0000_0000_0000_0000_0000_0000_0000 <= v < 0x100_0000_0000_0001_0000_0000_0000_0000
    || 0x2001_0000_0000_0000_0000_0000_0000_0000 <= v < 0x2001_0200_0000_0000_0000_0000_0000_0000
    || 0x2001_0db8_0000_0000_0000_0000_0000_0000 <= v < 0x2001_0db9_0000_0000_0000_0000_0000_0000
    || 0x2002_0000_0000_0000_0000_0000_0000_0000 <= v < 0x2003_0000_0000_0000_0000_0000_0000_0000
    || 0x3fff_0000_0000_0000_0000_0000_0000_0000 <= v < 0x3fff_1000_0000_0000_0000_0000_0000_0000
    || 0x5f00_0000_0000_0000_0000_0000_0000_0000 <= v < 0x5f01_0000_0000_0000_0000_0000_0000_0000
    || 0xfec0_0000_0000_0000_0000_0000_0000_0000 <= v < 0xff00_0000_0000_0000_0000_0000_0000_0000
  }

  predicate ClassifiedNumber6(v: nat) {
    || v < 2
    || 0xfc00_0000_0000_0000_0000_0000_0000_0000 <= v < 0xfe00_0000_0000_0000_0000_0000_0000_0000
    || 0xfe80_0000_0000_0000_0000_0000_0000_0000 <= v < 0xfec0_0000_0000_0000_0000_0000_0000_0000
    || 0xff00_0000_0000_0000_0000_0000_0000_0000 <= v
  }

  lemma ListedBlock8(a: Addr)
    requires a.V6? && Zone(a) == ""
    ensures Contains(NON_PUBLIC[8], a) <==> 0x64_ff9b_0000_0000_0000_0000_0000_0000 <= a.v < 0x64_ff9b_0000_0000_0000_0001_0000_0000
  {
    Pow2Values32();
    Block(NON_PUBLIC[8], a, Pow2(32), 0x64_ff9b_0000_0000_0000_0000);
  }

  lemma ListedBlock9(a: Addr)
    requires a.V6? && Zone(a) == ""
    ensures Contains(NON_PUBLIC[9], a) <==> 0x64_ff9b_0001_0000_0000_0000_0000_0000 <= a.v < 0x64_ff9b_0002_0000_0000_0000_0000_0000
  {
    Pow2Values96();
    Block(NON_PUBLIC[9], a, Pow2(80), 0x64_ff9b_0001);
  }

  lemma ListedBlock10(a: Addr)
    requires a.V6? && Zone(a) == ""
    ensures Contains(NON_PUBLIC[10], a) <==> 0x100_0000_0000_0000_0000_0000_0000_0000 <= a.v < 0x100_0000_0000_0001_0000_0000_0000_0000
  {
    Pow2Values96();
    Block(NON_PUBLIC[10], a, Pow2(64), 0x100_0000_0000_0000);
  }

  lemma ListedBlock11(a: Addr)
    requires a.V6? && Zone(a) == ""
    ensures Contains(NON_PUBLIC[11], a) <==> 0x2001_0000_0000_0000_0000_0000_0000_0000 <= a.v < 0x2001_0200_0000_0000_0000_0000_0000_0000
  {
    Pow2Values118();
    Block(NON_PUBLIC[11], a, Pow2(105), 0x10_0080);
  }

  lemma ListedBlock12(a: Addr)
    requires a.V6? && Zone(a) == ""
    ensures Contains(NON_PUBLIC[12], a) <==> 0x2001_0db8_0000_0000_0000_0000_0000_0000 <= a.v < 0x2001_0db9_0000_0000_0000_0000_0000_0000
  {
    Pow2Values96();
    Block(NON_PUBLIC[12], a, Pow2(96), 0x2001_0db8);
  }

  lemma ListedBlock13(a: Addr)
    requires a.V6? && Zone(a) == ""
    ensures Contains(NON_PUBLIC[13], a) <==> 0x2002_0000_0000_0000_0000_0000_0000_0000 <= a.v < 0x2003_0000_0000_0000_0000_0000_0000_0000
  {
    Pow2Values120();
    Block(NON_PUBLIC[13], a, Pow2(112), 0x2002);
  }

  lemma ListedBlock14(a: Addr)
    requires a.V6? && Zone(a) == ""
    ensures Contains(NON_PUBLIC[14], a) <==> 0x3fff_0000_0000_0000_0000_0000_0000_0000 <= a.v < 0x3fff_1000_0000_0000_0000_0000_0000_0000
  {
    Pow2Values118();
    Block(NON_PUBLIC[14], a, Pow2(108), 0x3_fff0);
  }

  lemma ListedBlock15(a: Addr)
    requires a.V6? && Zone(a) == ""
    ensures Contains(NON_PUBLIC[15], a) <==> 0x5f00_0000_0000_0000_0000_0000_0000_0000 <= a.v < 0x5f01_0000_0000_0000_0000_0000_0000_0000
  {
    Pow2Values120();
    Block(NON_PUBLIC[15], a, Pow2(112), 0x5f00);
  }

  lemma ListedBlock16(a: Addr)
    requires a.V6? && Zone(a) == ""
    ensures Contains(NON_PUBLIC[16], a) <==> 0xfec0_0000_0000_0000_0000_0000_0000_0000 <= a.v < 0xff00_0000_0000_0000_0000_0000_0000_0000
  {
    Pow2Values118();
    Block(NON_PUBLIC[16], a, Pow2(118), 0x3fb);
  }

  lemma ListedBlocks6(a: Addr)
    requires a.V6? && Zone(a) == ""
    ensures Within(NON_PUBLIC, a) <==> ListedNumber6(a.v)
  {
    hide Contains;
    ListedBlock8(a);
    ListedBlock9(a);
    ListedBlock10(a);
    ListedBlock11(a);
    ListedBlock12(a);
    ListedBlock13(a);
    ListedBlock14(a);
    ListedBlock15(a);
    ListedBlock16(a);
    assert forall i | 0 <= i < 8 :: !Contains(NON_PUBLIC[i], a) by { OtherFamilies(a); }
  }

  lemma OtherFamilies(a: Addr)
    requires a.V6?
    ensures forall i | 0 <= i < 8 :: !Contains(NON_PUBLIC[i], a)
  {
  }

  /** Which IPv6 addresses are public. */
  lemma PublicNumbers6(a: Addr)
    requires a.V6? && Zone(a) == "" && !Is4In6(a)
    ensures PublicAddress(a) <==> !ListedNumber6(a.v) && !ClassifiedNumber6(a.v)
  {
    hide Within, IsGlobalUnicast, IsPrivate;
    Classified6(a);
    ClassifierBlocks6(a);
    ListedBlocks6(a);
  }

  // ---- what the two tables mean together ----

  /** On single addresses the two tables are complements of each other. */
  lemma TablesAgreeOnAddresses(a: Addr)
    requires Zone(a) == "" && !Is4In6(a)
    ensures PublicAddress(a) <==> !SpecialPurpose(HostPrefix(a))
  {
    PublicMeansOutside(a);
    forall i | 0 <= i < |RANGES|
      ensures Covers(RANGES[i], HostPrefix(a)) <==> Contains(RANGES[i], a)
    {
    }
  }

  /** A covering range holds every address of the prefix it covers. */
  lemma CoversIsInclusion(r: Prefix, p: Prefix, a: Addr)
    requires Covers(r, p) && Contains(p, a)
    ensures Contains(r, a)
  {
    SharedHighBits(a.v, p.addr.v, HostBits(p), HostBits(r));
  }

  /** A special-purpose prefix holds no public address. */
  lemma SpecialPurposeIsSound(p: Prefix, a: Addr)
    requires SpecialPurpose(p) && Contains(p, a)
    ensures !PublicAddress(a)
  {
    var i :| 0 <= i < |RANGES| && Covers(RANGES[i], p);
    CoversIsInclusion(RANGES[i], p, a);
    assert Within(RANGES, a);
    WithinRanges(a);
    if !Is4In6(a) {
      PublicMeansOutside(a);
    } else if Within(CLASSIFIERS, a) {
      ClassifierBlocks6(a);
    }
  }

  /** A prefix that lies inside another is no shorter. */
  lemma InclusionNeedsLength(r: Prefix, p: Prefix)
    requires SameFamily(r.addr, p.addr) && p.bits < r.bits
    ensures exists a :: Contains(p, a) && !Contains(r, a)
  {
    var first := Masked(p).addr;
    var size, half := Pow2(HostBits(p)), Pow2(HostBits(p) - 1);
    assert size == 2 * half;
    assert Contains(p, first) by { MaskedContains(p, first); }
    assert first.v + half < first.v + size;
    LastOfBlock(p);
    var middle: Addr := if p.addr.V4? then V4(first.v + half) else V6(first.v + half, "");
    assert Contains(p, middle) by { ContainsInterval(p, middle); }
    if Contains(r, first) && Contains(r, middle) {
      Pow2Monotone(HostBits(r), HostBits(p) - 1);
      ContainsInterval(r, first);
      ContainsInterval(r, middle);
      assert false;
    }
  }

  /** specialPurpose holds exactly of the prefixes that lie, as sets of addresses, inside one range. */
  lemma SpecialPurposeIsOneRange(p: Prefix)
    ensures SpecialPurpose(p) <==>
      exists i :: 0 <= i < |RANGES| && forall a :: Contains(p, a) ==> Contains(RANGES[i], a)
  {
    if SpecialPurpose(p) {
      var i :| 0 <= i < |RANGES| && Covers(RANGES[i], p);
      forall a | Contains(p, a) ensures Contains(RANGES[i], a) {
        CoversIsInclusion(RANGES[i], p, a);
      }
    }
    if i :| 0 <= i < |RANGES| && forall a :: Contains(p, a) ==> Contains(RANGES[i], a) {
      assert Contains(p, p.addr);
      if p.bits < RANGES[i].bits {
        InclusionNeedsLength(RANGES[i], p);
      }
      assert Covers(RANGES[i], p);
    }
  }

  /**
   * The converse of soundness fails: 224.0.0.0/3 spans two ranges, so none of
   * its addresses is public and yet it is not special-purpose.
   */
  lemma SpecialPurposeIsNotComplete()
    ensures var p: Prefix := MakePrefix(V4(0xe000_0000), 3);
      !SpecialPurpose(p) && forall a :: Contains(p, a) ==> !PublicAddress(a)
  {
    var p: Prefix := MakePrefix(V4(0xe000_0000), 3);
    assert Pow2(29) == 2 * Pow2(28);
    Pow2Values32();
    forall a | Contains(p, a) ensures !PublicAddress(a) {
      Block(p, a, Pow2(29), 7);
      Block(CLASSIFIERS[5], a, Pow2(28), 0xe);
      Block(NON_PUBLIC[7], a, Pow2(28), 0xf);
      PublicMeansOutside(a);
      WithinRanges(a);
    }
    assert forall i | 0 <= i < |RANGES| :: RANGES[i].bits >= 4;
  }
}
