/**
 * How much specialPurpose misses: the prefixes that hold no public address and
 * yet lie in no single range of its table, all three of them.
 */
module SpecialPrefixes {
  import opened AddressTables
  import opened Descriptors
  import opened Netip
  import opened Powers
  import opened Wrappers

  // ---- further powers of two ----

  lemma Pow2Doubled32()
    ensures Pow2(9) == 0x200 && Pow2(17) == 0x2_0000 && Pow2(18) == 0x4_0000 && Pow2(21) == 0x20_0000
    ensures Pow2(23) == 0x80_0000 && Pow2(25) == 0x200_0000 && Pow2(29) == 0x2000_0000 && Pow2(30) == 0x4000_0000
  {
    Pow2Values32();
    assert Pow2(30) == 2 * Pow2(29) == 4 * Pow2(28);
  }

  lemma Pow2Doubled96()
    ensures Pow2(1) == 2 && Pow2(2) == 4 && Pow2(33) == 0x2_0000_0000
    ensures Pow2(65) == 0x2_0000_0000_0000_0000 && Pow2(81) == 0x2_0000_0000_0000_0000_0000
    ensures Pow2(97) == 0x2_0000_0000_0000_0000_0000_0000
  {
    Pow2Values32();
    Pow2Values96();
    assert Pow2(2) == 2 * Pow2(1) == 4 * Pow2(0);
  }

  lemma Pow2Doubled120()
    ensures Pow2(106) == 0x400_0000_0000_0000_0000_0000_0000 && Pow2(109) == 0x2000_0000_0000_0000_0000_0000_0000
    ensures Pow2(113) == 0x2_0000_0000_0000_0000_0000_0000_0000
    ensures Pow2(119) == 0x80_0000_0000_0000_0000_0000_0000_0000
    ensures Pow2(122) == 0x400_0000_0000_0000_0000_0000_0000_0000
  {
    Pow2Values118();
    Pow2Values120();
    assert Pow2(119) == 2 * Pow2(118);
    assert Pow2(122) == 2 * Pow2(121);
  }

  // ---- the addresses of all ranges, as numbers ----

  predicate Special4(v: nat) {
    || 0xa00_0000 <= v < 0xb00_0000  // 10.0.0.0/8
    || 0x7f00_0000 <= v < 0x8000_0000  // 127.0.0.0/8
    || 0xa9fe_0000 <= v < 0xa9ff_0000  // 169.254.0.0/16
    || 0xac10_0000 <= v < 0xac20_0000  // 172.16.0.0/12
    || 0xc0a8_0000 <= v < 0xc0a9_0000  // 192.168.0.0/16
    || 0xe000_0000 <= v < 0xf000_0000  // 224.0.0.0/4
    || 0 <= v < 0x100_0000  // 0.0.0.0/8
    || 0x6440_0000 <= v < 0x6480_0000  // 100.64.0.0/10
    || 0xc000_0000 <= v < 0xc000_0100  // 192.0.0.0/24
    || 0xc000_0200 <= v < 0xc000_0300  // 192.0.2.0/24
    || 0xc612_0000 <= v < 0xc614_0000  // 198.18.0.0/15
    || 0xc633_6400 <= v < 0xc633_6500  // 198.51.100.0/24
    || 0xcb00_7100 <= v < 0xcb00_7200  // 203.0.113.0/24
    || 0xf000_0000 <= v < 0x1_0000_0000  // 240.0.0.0/4
  }

  predicate Special6(v: nat) {
    || 0 <= v < 1  // ::/128
    || 1 <= v < 0x2  // ::1/128
    || 0xfc00_0000_0000_0000_0000_0000_0000_0000 <= v < 0xfe00_0000_0000_0000_0000_0000_0000_0000  // fc00::/7
    || 0xfe80_0000_0000_0000_0000_0000_0000_0000 <= v < 0xfec0_0000_0000_0000_0000_0000_0000_0000  // fe80::/10
    || 0xff00_0000_0000_0000_0000_0000_0000_0000 <= v < 0x1_0000_0000_0000_0000_0000_0000_0000_0000  // ff00::/8
    || 0x64_ff9b_0000_0000_0000_0000_0000_0000 <= v < 0x64_ff9b_0000_0000_0000_0001_0000_0000  // 64:ff9b::/96
    || 0x64_ff9b_0001_0000_0000_0000_0000_0000 <= v < 0x64_ff9b_0002_0000_0000_0000_0000_0000  // 64:ff9b:1::/48
    || 0x100_0000_0000_0000_0000_0000_0000_0000 <= v < 0x100_0000_0000_0001_0000_0000_0000_0000  // 100::/64
    || 0x2001_0000_0000_0000_0000_0000_0000_0000 <= v < 0x2001_0200_0000_0000_0000_0000_0000_0000  // 2001::/23
    || 0x2001_0db8_0000_0000_0000_0000_0000_0000 <= v < 0x2001_0db9_0000_0000_0000_0000_0000_0000  // 2001:db8::/32
    || 0x2002_0000_0000_0000_0000_0000_0000_0000 <= v < 0x2003_0000_0000_0000_0000_0000_0000_0000  // 2002::/16
    || 0x3fff_0000_0000_0000_0000_0000_0000_0000 <= v < 0x3fff_1000_0000_0000_0000_0000_0000_0000  // 3fff::/20
    || 0x5f00_0000_0000_0000_0000_0000_0000_0000 <= v < 0x5f01_0000_0000_0000_0000_0000_0000_0000  // 5f00::/16
    || 0xfec0_0000_0000_0000_0000_0000_0000_0000 <= v < 0xff00_0000_0000_0000_0000_0000_0000_0000  // fec0::/10
  }

  lemma ListedBlocks4(a: Addr)
    ensures Contains(NON_PUBLIC[0], a) <==> InBlock(a, false, 0, 0x100_0000)
    ensures Contains(NON_PUBLIC[1], a) <==> InBlock(a, false, 0x6440_0000, 0x40_0000)
    ensures Contains(NON_PUBLIC[2], a) <==> InBlock(a, false, 0xc000_0000, 0x100)
    ensures Contains(NON_PUBLIC[3], a) <==> InBlock(a, false, 0xc000_0200, 0x100)
  {
    hide Contains, InBlock, Pow2;
    Pow2Values32();
    assert NON_PUBLIC[0] == MakePrefix(V4(0), 8);
    Block(MakePrefix(V4(0), 8), a, Pow2(24), 0);
    assert NON_PUBLIC[1] == MakePrefix(V4(0x6440_0000), 10);
    Block(MakePrefix(V4(0x6440_0000), 10), a, Pow2(22), 0x191);
    assert NON_PUBLIC[2] == MakePrefix(V4(0xc000_0000), 24);
    Block(MakePrefix(V4(0xc000_0000), 24), a, Pow2(8), 0xc0_0000);
    assert NON_PUBLIC[3] == MakePrefix(V4(0xc000_0200), 24);
    Block(MakePrefix(V4(0xc000_0200), 24), a, Pow2(8), 0xc0_0002);
  }

  lemma ListedBlocksHigh4(a: Addr)
    ensures Contains(NON_PUBLIC[4], a) <==> InBlock(a, false, 0xc612_0000, 0x2_0000)
    ensures Contains(NON_PUBLIC[5], a) <==> InBlock(a, false, 0xc633_6400, 0x100)
    ensures Contains(NON_PUBLIC[6], a) <==> InBlock(a, false, 0xcb00_7100, 0x100)
    ensures Contains(NON_PUBLIC[7], a) <==> InBlock(a, false, 0xf000_0000, 0x1000_0000)
  {
    hide Contains, InBlock, Pow2;
    Pow2Values32();
    assert NON_PUBLIC[4] == MakePrefix(V4(0xc612_0000), 15);
    Block(MakePrefix(V4(0xc612_0000), 15), a, Pow2(17), 0x6309);
    assert NON_PUBLIC[5] == MakePrefix(V4(0xc633_6400), 24);
    Block(MakePrefix(V4(0xc633_6400), 24), a, Pow2(8), 0xc6_3364);
    assert NON_PUBLIC[6] == MakePrefix(V4(0xcb00_7100), 24);
    Block(MakePrefix(V4(0xcb00_7100), 24), a, Pow2(8), 0xcb_0071);
    assert NON_PUBLIC[7] == MakePrefix(V4(0xf000_0000), 4);
    Block(MakePrefix(V4(0xf000_0000), 4), a, Pow2(28), 0xf);
  }

  lemma ListedBlocks6(a: Addr)
    ensures Contains(NON_PUBLIC[8], a) <==>
      InBlock(a, true, 0x64_ff9b_0000_0000_0000_0000_0000_0000, 0x1_0000_0000)
    ensures Contains(NON_PUBLIC[9], a) <==>
      InBlock(a, true, 0x64_ff9b_0001_0000_0000_0000_0000_0000, 0x1_0000_0000_0000_0000_0000)
    ensures Contains(NON_PUBLIC[10], a) <==>
      InBlock(a, true, 0x100_0000_0000_0000_0000_0000_0000_0000, 0x1_0000_0000_0000_0000)
  {
    hide Contains, InBlock, Pow2;
    Pow2Values32();
    Pow2Values96();
    assert NON_PUBLIC[8] == MakePrefix(V6(0x64_ff9b_0000_0000_0000_0000_0000_0000, ""), 96);
    Block(MakePrefix(V6(0x64_ff9b_0000_0000_0000_0000_0000_0000, ""), 96), a, Pow2(32), 0x64_ff9b_0000_0000_0000_0000);
    assert NON_PUBLIC[9] == MakePrefix(V6(0x64_ff9b_0001_0000_0000_0000_0000_0000, ""), 48);
    Block(MakePrefix(V6(0x64_ff9b_0001_0000_0000_0000_0000_0000, ""), 48), a, Pow2(80), 0x64_ff9b_0001);
    assert NON_PUBLIC[10] == MakePrefix(V6(0x100_0000_0000_0000_0000_0000_0000_0000, ""), 64);
    Block(MakePrefix(V6(0x100_0000_0000_0000_0000_0000_0000_0000, ""), 64), a, Pow2(64), 0x100_0000_0000_0000);
  }

  lemma ListedBlocks2001(a: Addr)
    ensures Contains(NON_PUBLIC[11], a) <==>
      InBlock(a, true, 0x2001_0000_0000_0000_0000_0000_0000_0000, 0x200_0000_0000_0000_0000_0000_0000)
    ensures Contains(NON_PUBLIC[12], a) <==>
      InBlock(a, true, 0x2001_0db8_0000_0000_0000_0000_0000_0000, 0x1_0000_0000_0000_0000_0000_0000)
    ensures Contains(NON_PUBLIC[13], a) <==>
      InBlock(a, true, 0x2002_0000_0000_0000_0000_0000_0000_0000, 0x1_0000_0000_0000_0000_0000_0000_0000)
  {
    hide Contains, InBlock, Pow2;
    Pow2Values118();
    Pow2Values96();
    Pow2Values120();
    assert NON_PUBLIC[11] == MakePrefix(V6(0x2001_0000_0000_0000_0000_0000_0000_0000, ""), 23);
    Block(MakePrefix(V6(0x2001_0000_0000_0000_0000_0000_0000_0000, ""), 23), a, Pow2(105), 0x10_0080);
    assert NON_PUBLIC[12] == MakePrefix(V6(0x2001_0db8_0000_0000_0000_0000_0000_0000, ""), 32);
    Block(MakePrefix(V6(0x2001_0db8_0000_0000_0000_0000_0000_0000, ""), 32), a, Pow2(96), 0x2001_0db8);
    assert NON_PUBLIC[13] == MakePrefix(V6(0x2002_0000_0000_0000_0000_0000_0000_0000, ""), 16);
    Block(MakePrefix(V6(0x2002_0000_0000_0000_0000_0000_0000_0000, ""), 16), a, Pow2(112), 0x2002);
  }

  lemma ListedBlocksHigh6(a: Addr)
    ensures Contains(NON_PUBLIC[14], a) <==>
      InBlock(a, true, 0x3fff_0000_0000_0000_0000_0000_0000_0000, 0x1000_0000_0000_0000_0000_0000_0000)
    ensures Contains(NON_PUBLIC[15], a) <==>
      InBlock(a, true, 0x5f00_0000_0000_0000_0000_0000_0000_0000, 0x1_0000_0000_0000_0000_0000_0000_0000)
    ensures Contains(NON_PUBLIC[16], a) <==>
      InBlock(a, true, 0xfec0_0000_0000_0000_0000_0000_0000_0000, 0x40_0000_0000_0000_0000_0000_0000_0000)
  {
    hide Contains, InBlock, Pow2;
    Pow2Values118();
    Pow2Values120();
    assert NON_PUBLIC[14] == MakePrefix(V6(0x3fff_0000_0000_0000_0000_0000_0000_0000, ""), 20);
    Block(MakePrefix(V6(0x3fff_0000_0000_0000_0000_0000_0000_0000, ""), 20), a, Pow2(108), 0x3_fff0);
    assert NON_PUBLIC[15] == MakePrefix(V6(0x5f00_0000_0000_0000_0000_0000_0000_0000, ""), 16);
    Block(MakePrefix(V6(0x5f00_0000_0000_0000_0000_0000_0000_0000, ""), 16), a, Pow2(112), 0x5f00);
    assert NON_PUBLIC[16] == MakePrefix(V6(0xfec0_0000_0000_0000_0000_0000_0000_0000, ""), 10);
    Block(MakePrefix(V6(0xfec0_0000_0000_0000_0000_0000_0000_0000, ""), 10), a, Pow2(118), 0x3fb);
  }

  /** The listed ranges are eight of IPv4 and nine of IPv6. */
  lemma ListedFamilies(a: Addr)
    ensures forall i | 0 <= i < 17 :: Contains(NON_PUBLIC[i], a) ==> (i < 8 <==> a.V4?)
  {
  }

  lemma PublicNumber4(a: Addr)
    requires a.V4?
    ensures PublicAddress(a) <==> !Special4(a.v)
  {
    hide PublicAddress, Contains;
    PublicMeansOutside(a);
    WithinRanges(a);
    ClassifierBlocks4(a);
    ListedBlocks4(a);
    ListedBlocksHigh4(a);
    ListedFamilies(a);
  }

  lemma PublicNumber6(a: Addr)
    requires a.V6? && Zone(a) == "" && !Is4In6(a)
    ensures PublicAddress(a) <==> !Special6(a.v)
  {
    hide PublicAddress, Contains;
    PublicMeansOutside(a);
    WithinRanges(a);
    ClassifierBlocks6(a);
    ListedBlocks6(a);
    ListedBlocks2001(a);
    ListedBlocksHigh6(a);
    ListedFamilies(a);
  }

  // ---- a prefix wider than a range ----

  /** No address of the prefix is public: what specialPurpose is to find out. */
  ghost predicate HoldsNoPublic(p: Prefix) {
    forall a :: Contains(p, a) ==> !PublicAddress(a)
  }

  /** A prefix no narrower than a block that reaches over a range it meets holds the whole block. */
  lemma WiderHolds(p: Prefix, r: Prefix, k: nat, w: Addr)
    requires SameFamily(p.addr, w) && Zone(w) == "" && Contains(r, p.addr)
    requires HostBits(r) <= k <= HostBits(p)
    requires r.addr.v / Pow2(k) == w.v / Pow2(k)
    ensures Contains(p, w)
  {
    SharedHighBits(p.addr.v, r.addr.v, HostBits(r), k);
    SharedHighBits(p.addr.v, w.v, k, HostBits(p));
  }

  // The ranges next to a public address: their sibling blocks hold one.

  const LONE4: set<Prefix> := {
    MakePrefix(V4(0xa00_0000), 8),  // 10.0.0.0/8
    MakePrefix(V4(0x7f00_0000), 8),  // 127.0.0.0/8
    MakePrefix(V4(0xa9fe_0000), 16),  // 169.254.0.0/16
    MakePrefix(V4(0xac10_0000), 12),  // 172.16.0.0/12
    MakePrefix(V4(0xc0a8_0000), 16)  // 192.168.0.0/16
  }

  const LONE_LISTED4: set<Prefix> := {
    MakePrefix(V4(0), 8),  // 0.0.0.0/8
    MakePrefix(V4(0x6440_0000), 10),  // 100.64.0.0/10
    MakePrefix(V4(0xc000_0000), 24),  // 192.0.0.0/24
    MakePrefix(V4(0xc000_0200), 24),  // 192.0.2.0/24
    MakePrefix(V4(0xc612_0000), 15),  // 198.18.0.0/15
    MakePrefix(V4(0xc633_6400), 24),  // 198.51.100.0/24
    MakePrefix(V4(0xcb00_7100), 24)  // 203.0.113.0/24
  }

  const LONE6: set<Prefix> := {
    MakePrefix(V6(0xfc00_0000_0000_0000_0000_0000_0000_0000, ""), 7),  // fc00::/7
    MakePrefix(V6(0xff00_0000_0000_0000_0000_0000_0000_0000, ""), 8),  // ff00::/8
    MakePrefix(V6(0x64_ff9b_0000_0000_0000_0000_0000_0000, ""), 96),  // 64:ff9b::/96
    MakePrefix(V6(0x64_ff9b_0001_0000_0000_0000_0000_0000, ""), 48),  // 64:ff9b:1::/48
    MakePrefix(V6(0x100_0000_0000_0000_0000_0000_0000_0000, ""), 64)  // 100::/64
  }

  const LONE_LISTED6: set<Prefix> := {
    MakePrefix(V6(0x2001_0000_0000_0000_0000_0000_0000_0000, ""), 23),  // 2001::/23
    MakePrefix(V6(0x2001_0db8_0000_0000_0000_0000_0000_0000, ""), 32),  // 2001:db8::/32
    MakePrefix(V6(0x2002_0000_0000_0000_0000_0000_0000_0000, ""), 16),  // 2002::/16
    MakePrefix(V6(0x3fff_0000_0000_0000_0000_0000_0000_0000, ""), 20),  // 3fff::/20
    MakePrefix(V6(0x5f00_0000_0000_0000_0000_0000_0000_0000, ""), 16)  // 5f00::/16
  }

  /** And those whose sibling block is a range too, so that the two merge. */
  const MERGING: set<Prefix> := {
    MakePrefix(V4(0xe000_0000), 4),  // 224.0.0.0/4
    MakePrefix(V4(0xf000_0000), 4),  // 240.0.0.0/4
    MakePrefix(V6(0, ""), 128),  // ::/128
    MakePrefix(V6(1, ""), 128),  // ::1/128
    MakePrefix(V6(0xfe80_0000_0000_0000_0000_0000_0000_0000, ""), 10),  // fe80::/10
    MakePrefix(V6(0xfec0_0000_0000_0000_0000_0000_0000_0000, ""), 10)  // fec0::/10
  }

  lemma EveryRange(i: nat)
    requires i < |RANGES|
    ensures RANGES[i] in LONE4 || RANGES[i] in LONE_LISTED4 || RANGES[i] in LONE6 || RANGES[i] in LONE_LISTED6
      || RANGES[i] in MERGING
  {
    if i < |CLASSIFIERS| {
      assert RANGES[i] == CLASSIFIERS[i];
      ClassifierRange(i);
    } else {
      assert RANGES[i] == NON_PUBLIC[i - |CLASSIFIERS|];
      ListedRange(i - |CLASSIFIERS|);
    }
  }

  lemma ClassifierRange(i: nat)
    requires i < |CLASSIFIERS|
    ensures CLASSIFIERS[i] in LONE4 || CLASSIFIERS[i] in LONE6 || CLASSIFIERS[i] in MERGING
  {
  }

  lemma ListedRange(i: nat)
    requires i < |NON_PUBLIC|
    ensures NON_PUBLIC[i] in LONE_LISTED4 || NON_PUBLIC[i] in LONE6 || NON_PUBLIC[i] in LONE_LISTED6
      || NON_PUBLIC[i] in MERGING
  {
  }

  lemma FamilyOf(r: Prefix, a: Addr)
    requires Contains(r, a)
    ensures SameFamily(r.addr, a)
  {
  }

  lemma Beside(p: Prefix, r: Prefix, k: nat, w: Addr)
    requires SameFamily(p.addr, w) && Zone(w) == "" && !Is4In6(w) && Contains(r, p.addr)
    requires HostBits(r) <= k <= HostBits(p)
    requires r.addr.v / Pow2(k) == w.v / Pow2(k)
    requires if w.V4? then !Special4(w.v) else !Special6(w.v)
    ensures !HoldsNoPublic(p)
  {
    hide Contains, PublicAddress, Special4, Special6;
    WiderHolds(p, r, k, w);
    if w.V4? {
      PublicNumber4(w);
    } else {
      PublicNumber6(w);
    }
  }

  lemma WiderThanLone4(p: Prefix, r: Prefix)
    requires r in LONE4 && Contains(r, p.addr) && p.bits + 1 <= r.bits
    ensures !HoldsNoPublic(p)
  {
    hide PublicAddress, Contains, Pow2;
    Pow2Values32();
    Pow2Doubled32();
    assert SameFamily(r.addr, p.addr) by { FamilyOf(r, p.addr); }
    if r == MakePrefix(V4(0xa00_0000), 8) {
      Beside(p, r, 25, V4(0xb00_0000));  // 11.0.0.0
    } else if r == MakePrefix(V4(0x7f00_0000), 8) {
      Beside(p, r, 25, V4(0x7e00_0000));  // 126.0.0.0
    } else if r == MakePrefix(V4(0xa9fe_0000), 16) {
      Beside(p, r, 17, V4(0xa9ff_0000));  // 169.255.0.0
    } else if r == MakePrefix(V4(0xac10_0000), 12) {
      Beside(p, r, 21, V4(0xac00_0000));  // 172.0.0.0
    } else {
      Beside(p, r, 17, V4(0xc0a9_0000));  // 192.169.0.0
    }
  }

  lemma WiderThanListed4(p: Prefix, r: Prefix)
    requires r in LONE_LISTED4 && Contains(r, p.addr) && p.bits + 1 <= r.bits
    ensures !HoldsNoPublic(p)
  {
    hide PublicAddress, Contains, Pow2;
    Pow2Values32();
    Pow2Doubled32();
    assert SameFamily(r.addr, p.addr) by { FamilyOf(r, p.addr); }
    if r == MakePrefix(V4(0), 8) {
      Beside(p, r, 25, V4(0x100_0000));  // 1.0.0.0
    } else if r == MakePrefix(V4(0x6440_0000), 10) {
      Beside(p, r, 23, V4(0x6400_0000));  // 100.0.0.0
    } else if r == MakePrefix(V4(0xc000_0000), 24) {
      Beside(p, r, 9, V4(0xc000_0100));  // 192.0.1.0
    } else if r == MakePrefix(V4(0xc000_0200), 24) {
      Beside(p, r, 9, V4(0xc000_0300));  // 192.0.3.0
    } else if r == MakePrefix(V4(0xc612_0000), 15) {
      Beside(p, r, 18, V4(0xc610_0000));  // 198.16.0.0
    } else if r == MakePrefix(V4(0xc633_6400), 24) {
      Beside(p, r, 9, V4(0xc633_6500));  // 198.51.101.0
    } else {
      Beside(p, r, 9, V4(0xcb00_7000));  // 203.0.112.0
    }
  }

  lemma WiderThanLone6(p: Prefix, r: Prefix)
    requires r in LONE6 && Contains(r, p.addr) && p.bits + 1 <= r.bits
    ensures !HoldsNoPublic(p)
  {
    hide PublicAddress, Contains, Pow2;
    Pow2Doubled96();
    Pow2Doubled120();
    Pow2Values120();
    assert SameFamily(r.addr, p.addr) by { FamilyOf(r, p.addr); }
    if r == MakePrefix(V6(0xfc00_0000_0000_0000_0000_0000_0000_0000, ""), 7) {
      Beside(p, r, 122, V6(0xfe00_0000_0000_0000_0000_0000_0000_0000, ""));  // fe00::
    } else if r == MakePrefix(V6(0xff00_0000_0000_0000_0000_0000_0000_0000, ""), 8) {
      Beside(p, r, 121, V6(0xfe00_0000_0000_0000_0000_0000_0000_0000, ""));  // fe00::
    } else if r == MakePrefix(V6(0x64_ff9b_0000_0000_0000_0000_0000_0000, ""), 96) {
      Beside(p, r, 33, V6(0x64_ff9b_0000_0000_0000_0001_0000_0000, ""));  // 64:ff9b::1:0:0
    } else if r == MakePrefix(V6(0x64_ff9b_0001_0000_0000_0000_0000_0000, ""), 48) {
      Beside(p, r, 81, V6(0x64_ff9b_0000_ffff_ffff_ffff_ffff_ffff, ""));  // 64:ff9b:0:ffff:ffff:ffff:ffff:ffff
    } else {
      Beside(p, r, 65, V6(0x100_0000_0000_0001_0000_0000_0000_0000, ""));  // 100:0:0:1::
    }
  }

  lemma WiderThanListed6(p: Prefix, r: Prefix)
    requires r in LONE_LISTED6 && Contains(r, p.addr) && p.bits + 1 <= r.bits
    ensures !HoldsNoPublic(p)
  {
    hide PublicAddress, Contains, Pow2;
    Pow2Doubled96();
    Pow2Doubled120();
    assert SameFamily(r.addr, p.addr) by { FamilyOf(r, p.addr); }
    if r == MakePrefix(V6(0x2001_0000_0000_0000_0000_0000_0000_0000, ""), 23) {
      Beside(p, r, 106, V6(0x2001_0200_0000_0000_0000_0000_0000_0000, ""));  // 2001:200::
    } else if r == MakePrefix(V6(0x2001_0db8_0000_0000_0000_0000_0000_0000, ""), 32) {
      Beside(p, r, 97, V6(0x2001_0db9_0000_0000_0000_0000_0000_0000, ""));  // 2001:db9::
    } else if r == MakePrefix(V6(0x2002_0000_0000_0000_0000_0000_0000_0000, ""), 16) {
      Beside(p, r, 113, V6(0x2003_0000_0000_0000_0000_0000_0000_0000, ""));  // 2003::
    } else if r == MakePrefix(V6(0x3fff_0000_0000_0000_0000_0000_0000_0000, ""), 20) {
      Beside(p, r, 109, V6(0x3fff_1000_0000_0000_0000_0000_0000_0000, ""));  // 3fff:1000::
    } else {
      Beside(p, r, 113, V6(0x5f01_0000_0000_0000_0000_0000_0000_0000, ""));  // 5f01::
    }
  }

  lemma WiderThanMerged(p: Prefix, r: Prefix)
    requires r in MERGING && Contains(r, p.addr) && p.bits + 2 <= r.bits
    ensures !HoldsNoPublic(p)
  {
    hide PublicAddress, Contains, Pow2;
    Pow2Values32();
    Pow2Doubled32();
    Pow2Doubled96();
    Pow2Values120();
    assert SameFamily(r.addr, p.addr) by { FamilyOf(r, p.addr); }
    if r == MakePrefix(V4(0xe000_0000), 4) {
      Beside(p, r, 30, V4(0xdfff_ffff));  // 223.255.255.255
    } else if r == MakePrefix(V4(0xf000_0000), 4) {
      Beside(p, r, 30, V4(0xdfff_ffff));  // 223.255.255.255
    } else if r == MakePrefix(V6(0, ""), 128) {
      Beside(p, r, 2, V6(0x2, ""));  // ::2
    } else if r == MakePrefix(V6(1, ""), 128) {
      Beside(p, r, 2, V6(0x2, ""));  // ::2
    } else if r == MakePrefix(V6(0xfe80_0000_0000_0000_0000_0000_0000_0000, ""), 10) {
      Beside(p, r, 120, V6(0xfe00_0000_0000_0000_0000_0000_0000_0000, ""));  // fe00::
    } else {
      Beside(p, r, 120, V6(0xfe00_0000_0000_0000_0000_0000_0000_0000, ""));  // fe00::
    }
  }

  // ---- the prefixes that are missed ----

  /** 224.0.0.0/3, ::/127 and fe80::/9, each the union of two merging ranges. */
  const MISSED: set<Prefix> := {
    MakePrefix(V4(0xe000_0000), 3),
    MakePrefix(V6(0, ""), 127),
    MakePrefix(V6(0xfe80_0000_0000_0000_0000_0000_0000_0000, ""), 9)
  }

  lemma TwiceMerging(p: Prefix, r: Prefix)
    requires Masked(p) == p && r in MERGING && Contains(r, p.addr) && p.bits + 1 == r.bits
    ensures p in MISSED
  {
    hide Contains, PublicAddress, Masked, Pow2;
    assert SameFamily(r.addr, p.addr) by { FamilyOf(r, p.addr); }
    StartOfWider(p, r);
    if r.addr.V4? {
      Pow2Doubled32();
      assert HostBits(p) == 29 && p.addr.v == 0xe000_0000;
    } else if r.bits == 128 {
      Pow2Doubled96();
      assert HostBits(p) == 1 && p.addr.v == 0;
    } else {
      Pow2Doubled120();
      assert HostBits(p) == 119 && p.addr.v == 0xfe80_0000_0000_0000_0000_0000_0000_0000;
    }
  }

  lemma StartOfWider(p: Prefix, r: Prefix)
    requires Masked(p) == p && Contains(r, p.addr) && p.bits < r.bits
    ensures p.addr.v == r.addr.v / Pow2(HostBits(p)) * Pow2(HostBits(p))
  {
    SharedHighBits(p.addr.v, r.addr.v, HostBits(r), HostBits(p));
  }

  lemma MissedHoldsNoPublic(p: Prefix)
    requires p in MISSED
    ensures HoldsNoPublic(p)
  {
    hide PublicAddress, Contains, Pow2;
    Pow2Doubled32();
    Pow2Doubled96();
    Pow2Doubled120();
    forall a | Contains(p, a) ensures !PublicAddress(a) {
      if p.addr.V4? {
        Block(p, a, 0x2000_0000, 7);
        PublicNumber4(a);
      } else if p.bits == 127 {
        Block(p, a, 2, 0);
        PublicNumber6(a);
      } else {
        Block(p, a, 0x80_0000_0000_0000_0000_0000_0000_0000, 0x1fd);
        PublicNumber6(a);
      }
    }
  }

  /** The three are not found: no range holds both halves of any of them. */
  lemma MissedIsNotSpecial(p: Prefix)
    requires p in MISSED
    ensures !SpecialPurpose(p)
  {
    hide Contains;
    forall i | 0 <= i < |RANGES| ensures !Covers(RANGES[i], p) {
      EveryRange(i);
      NotCovered(p, RANGES[i]);
    }
  }

  lemma NotCovered(p: Prefix, r: Prefix)
    requires p in MISSED
    requires r in LONE4 || r in LONE_LISTED4 || r in LONE6 || r in LONE_LISTED6 || r in MERGING
    ensures !Covers(r, p)
  {
    hide Pow2;
    if p.addr.V4? {
      assert r.addr.V4? ==> r.bits >= 4;
    } else if p.bits == 9 && r.addr.V6? && r.bits <= 9 {
      Pow2Values120();
      assert r.bits == 7 || r.bits == 8;
    } else if p.bits == 127 && r.addr.V6? && r.bits <= 127 {
      ZeroIsElsewhere(r);
    }
  }

  lemma ZeroIsElsewhere(r: Prefix)
    requires r in LONE6 || r in LONE_LISTED6 || (r in MERGING && r.addr.V6? && r.bits <= 127)
    ensures !Contains(r, V6(0, ""))
  {
    hide Pow2;
    assert r.addr.v >= Pow2(HostBits(r)) by { AboveItsSize(r); }
    if Contains(r, V6(0, "")) {
      QuotientBounds(r.addr.v, Pow2(HostBits(r)));
    }
  }

  lemma AboveItsSize(r: Prefix)
    requires r in LONE6 || r in LONE_LISTED6 || (r in MERGING && r.addr.V6? && r.bits <= 127)
    ensures r.addr.v >= Pow2(HostBits(r))
  {
    hide Pow2;
    Pow2Values32();
    Pow2Values96();
    Pow2Values118();
    Pow2Values120();
  }

  /**
   * The prefixes without a public address, among those a descriptor can load,
   * are those specialPurpose accepts and three more.
   */
  lemma MissedExactly(p: Prefix)
    requires Masked(p) == p && !Is4In6(p.addr)
    ensures HoldsNoPublic(p) <==> SpecialPurpose(p) || p in MISSED
    ensures p in MISSED ==> !SpecialPurpose(p)
  {
    hide PublicAddress, MISSED;
    if p in MISSED {
      MissedHoldsNoPublic(p);
      MissedIsNotSpecial(p);
    }
    if SpecialPurpose(p) {
      forall a | Contains(p, a) ensures !PublicAddress(a) {
        SpecialPurposeIsSound(p, a);
      }
    }
    if HoldsNoPublic(p) {
      assert Contains(p, p.addr);
      PublicMeansOutside(p.addr);
      var i: nat :| i < |RANGES| && Contains(RANGES[i], p.addr);
      InsideOrMissed(p, i);
    }
  }

  lemma InsideOrMissed(p: Prefix, i: nat)
    requires Masked(p) == p && HoldsNoPublic(p)
    requires i < |RANGES| && Contains(RANGES[i], p.addr)
    ensures SpecialPurpose(p) || p in MISSED
  {
    hide PublicAddress, Contains, HoldsNoPublic, Masked;
    var r := RANGES[i];
    if r.bits <= p.bits {
      assert Covers(r, p) by { FamilyOf(r, p.addr); }
    } else {
      EveryRange(i);
      NotWider(p, r);
      TwiceMerging(p, r);
    }
  }

  /** A prefix wider than a range holds a public address unless it is the union of two merging ones. */
  lemma NotWider(p: Prefix, r: Prefix)
    requires r in LONE4 || r in LONE_LISTED4 || r in LONE6 || r in LONE_LISTED6 || r in MERGING
    requires Contains(r, p.addr) && p.bits < r.bits && HoldsNoPublic(p)
    ensures r in MERGING && p.bits + 1 == r.bits
  {
    hide PublicAddress, Contains, HoldsNoPublic, LONE4, LONE_LISTED4, LONE6, LONE_LISTED6, MERGING;
    if r in LONE4 {
      WiderThanLone4(p, r);
    } else if r in LONE_LISTED4 {
      WiderThanListed4(p, r);
    } else if r in LONE6 {
      WiderThanLone6(p, r);
    } else if r in LONE_LISTED6 {
      WiderThanListed6(p, r);
    } else if p.bits + 2 <= r.bits {
      WiderThanMerged(p, r);
    }
  }

  /** So of every CIDR a descriptor may write, all but three are judged by their addresses. */
  lemma LoadedPrefixIsJudged(lib: Library, raw: string)
    requires LoadPrefix(lib, raw).Some?
    ensures var p := LoadPrefix(lib, raw).value;
      HoldsNoPublic(p) <==> SpecialPurpose(p) || p in MISSED
  {
    LoadedPrefixIsUnmapped(lib, raw);
    MissedExactly(LoadPrefix(lib, raw).value);
  }
}
