/** Powers of two and the division facts behind prefix arithmetic. */
module Powers {

  function Pow2(n: nat): (r: nat)
    ensures r > 0
  {
    if n == 0 then 1 else 2 * Pow2(n - 1)
  }

  lemma {:induction false} Pow2Add(m: nat, n: nat)
    ensures Pow2(m + n) == Pow2(m) * Pow2(n)
  {
    if m == 0 {
    } else {
      Pow2Add(m - 1, n);
      assert Pow2(m + n) == 2 * Pow2(m - 1 + n);
    }
  }

  lemma Pow2Monotone(m: nat, n: nat)
    requires m <= n
    ensures Pow2(m) <= Pow2(n)
  {
    if m < n {
      Pow2Monotone(m, n - 1);
    }
  }

  /** Zero is the only multiple of d strictly between -d and d. */
  lemma NoMultipleBetween(e: int, d: int)
    requires -d < e * d < d
    ensures e == 0
  {
  }

  /** The quotient is the only q with q * d <= x < q * d + d. */
  lemma QuotientUnique(x: int, d: int, q: int)
    requires d > 0 && q * d <= x < q * d + d
    ensures x / d == q
  {
    var p := x / d;
    assert p * d <= x < p * d + d;
    assert (q - p) * d == q * d - p * d;
    NoMultipleBetween(q - p, d);
  }

  lemma MultiplesMonotone(a: nat, b: nat, d: nat)
    requires a <= b
    ensures a * d <= b * d
  {
    assert (b - a) * d == b * d - a * d;
  }

  lemma NextMultiple(q: nat, n: nat, d: nat)
    requires q * d < n * d
    ensures q * d + d <= n * d
  {
    if q < n {
      MultiplesMonotone(q + 1, n, d);
      assert (q + 1) * d == q * d + d;
    } else {
      MultiplesMonotone(n, q, d);
    }
  }

  lemma QuotientBounds(x: int, d: int)
    requires d > 0
    ensures x / d * d <= x < x / d * d + d
  {
  }

  /** Dividing by a product is dividing by its factors in turn. */
  lemma DivDiv(x: nat, a: nat, b: nat)
    requires a > 0 && b > 0
    ensures a * b > 0 && x / (a * b) == x / a / b
  {
    var q := x / a;
    var p := q / b;
    QuotientBounds(x, a);
    QuotientBounds(q, b);
    assert p * b * a <= q * a by { assert p * b <= q; }
    assert (q + 1) * a <= (p * b + b) * a by { assert q + 1 <= p * b + b; }
    assert p * (a * b) == p * b * a;
    assert (p * b + b) * a == p * (a * b) + a * b;
    QuotientUnique(x, a * b, p);
  }

  lemma QuotientOfSum(h: nat, e: nat, d: nat, low: nat)
    requires d > 0
    ensures (h * (e * d) + low) / d == h * e + low / d
  {
    var q := low / d;
    calc {
      (h * e + q) * d;
      h * e * d + q * d;
      h * (e * d) + q * d;
    }
    QuotientBounds(low, d);
    QuotientUnique(h * (e * d) + low, d, h * e + q);
  }

  lemma QuotientOfProduct(q: nat, d: nat)
    requires d > 0
    ensures q * d / d == q
  {
    QuotientUnique(q * d, d, q);
  }

  /** Two numbers that agree above bit k agree above every higher bit. */
  lemma SharedHighBits(x: nat, y: nat, k: nat, j: nat)
    requires k <= j
    requires x / Pow2(k) == y / Pow2(k)
    ensures x / Pow2(j) == y / Pow2(j)
  {
    Pow2Add(k, j - k);
    DivDiv(x, Pow2(k), Pow2(j - k));
    DivDiv(y, Pow2(k), Pow2(j - k));
  }

  lemma Pow2Next8(n: nat)
    ensures Pow2(n + 8) == 0x100 * Pow2(n)
  {
    assert Pow2(n + 4) == 2 * Pow2(n + 3) == 4 * Pow2(n + 2) == 8 * Pow2(n + 1) == 0x10 * Pow2(n);
    assert Pow2(n + 8) == 2 * Pow2(n + 7) == 4 * Pow2(n + 6) == 8 * Pow2(n + 5) == 0x10 * Pow2(n + 4);
  }

  /** The powers that measure IPv4 prefixes, by value. */
  lemma Pow2Values32()
    ensures Pow2(0) == 1 && Pow2(4) == 0x10 && Pow2(8) == 0x100 && Pow2(16) == 0x1_0000
    ensures Pow2(17) == 0x2_0000 && Pow2(20) == 0x10_0000 && Pow2(22) == 0x40_0000
    ensures Pow2(24) == 0x100_0000 && Pow2(28) == 0x1000_0000 && Pow2(32) == 0x1_0000_0000
  {
    Pow2Next8(0);
    Pow2Next8(8);
    Pow2Next8(16);
    Pow2Next8(24);
    Pow2Next8(20);
    Pow2Add(16, 4);
    Pow2Add(16, 6);
    assert Pow2(4) == 2 * Pow2(3) == 4 * Pow2(2) == 8 * Pow2(1) == 0x10;
    assert Pow2(6) == 2 * Pow2(5) == 4 * Pow2(4);
  }

  lemma Pow2Next16(n: nat)
    ensures Pow2(n + 16) == 0x1_0000 * Pow2(n)
  {
    Pow2Next8(n);
    Pow2Next8(n + 8);
  }

  /** The powers that measure IPv6 prefixes, by value. */
  lemma Pow2Values96()
    ensures Pow2(64) == 0x1_0000_0000_0000_0000
    ensures Pow2(80) == 0x1_0000_0000_0000_0000_0000
    ensures Pow2(96) == 0x1_0000_0000_0000_0000_0000_0000
  {
    Pow2Values32();
    Pow2Next16(32);
    Pow2Next16(48);
    Pow2Next16(64);
    Pow2Next16(80);
  }

  lemma Pow2Values120()
    ensures Pow2(112) == 0x1_0000_0000_0000_0000_0000_0000_0000
    ensures Pow2(120) == 0x100_0000_0000_0000_0000_0000_0000_0000
    ensures Pow2(121) == 0x200_0000_0000_0000_0000_0000_0000_0000
    ensures Pow2(128) == 0x1_0000_0000_0000_0000_0000_0000_0000_0000
  {
    Pow2Values96();
    Pow2Next16(96);
    Pow2Next8(112);
    Pow2Next8(120);
    assert Pow2(121) == 2 * Pow2(120);
  }

  lemma Pow2Values118()
    ensures Pow2(105) == 0x200_0000_0000_0000_0000_0000_0000
    ensures Pow2(108) == 0x1000_0000_0000_0000_0000_0000_0000
    ensures Pow2(118) == 0x40_0000_0000_0000_0000_0000_0000_0000
  {
    Pow2Values96();
    Pow2Next8(96);
    assert Pow2(105) == 2 * Pow2(104);
    assert Pow2(108) == 2 * Pow2(107) == 4 * Pow2(106) == 8 * Pow2(105);
    assert Pow2(110) == 2 * Pow2(109) == 4 * Pow2(108);
    Pow2Next8(110);
  }
}
