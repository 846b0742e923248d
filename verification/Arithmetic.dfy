/** Machine words as numbers, and facts about products and quotients that the solver needs spelled out. */
module Arithmetic {

  const MAX: nat := 0xFFFF_FFFF_FFFF_FFFF

  type u64 = x: nat | x <= MAX

  type u32 = x: nat | x <= 0xFFFF_FFFF

  function Max(a: int, b: int): int {
    if a > b then a else b
  }

  function Min(a: int, b: int): int {
    if a < b then a else b
  }

  lemma NonNegative(x: nat, y: nat)
    ensures x * y >= 0
  {
  }

  lemma ProductMonotone(a: nat, s: nat, t: nat)
    requires s <= t
    ensures a * s <= a * t
  {
    NonNegative(a, t - s);
    assert a * t == a * s + a * (t - s);
  }

  lemma QuotientBound(v: nat, d: nat, s: nat)
    requires d > 0
    ensures s <= v / d <==> d * s <= v
  {
    assert v == v / d * d + v % d;
    if s <= v / d {
      ProductMonotone(d, s, v / d);
    } else {
      ProductMonotone(d, v / d + 1, s);
    }
  }

  lemma AwayFromZero(k: int, d: nat)
    requires k != 0
    ensures k * d >= d || k * d <= 0 - d
  {
    if k > 0 {
      NonNegative(k - 1, d);
      assert k * d == (k - 1) * d + d;
    } else {
      NonNegative(-1 - k, d);
      assert (-1 - k) * d == 0 - d - k * d;
    }
  }

  lemma QuotientIs(v: nat, d: nat, q: int, r: nat)
    requires v == q * d + r && r < d
    ensures v / d == q
  {
    assert (v / d - q) * d == r - v % d;
    if v / d != q {
      AwayFromZero(v / d - q, d);
    }
  }

  lemma Regroup(a: int, d: int, b: int, r: int)
    ensures 256 * (a * d + b) + r == a * (256 * d) + (256 * b + r)
  {
  }

  lemma DivideTwice(v: nat, d: nat)
    requires d > 0
    ensures (v / 256) / d == v / (256 * d)
  {
    var a, b := v / 256 / d, v / 256 % d;
    Regroup(a, d, b, v % 256);
    assert v / 256 == a * d + b;
    QuotientIs(v, 256 * d, a, 256 * b + v % 256);
  }

  lemma MultipleOf(q: nat, k: nat)
    requires k > 0
    ensures q * k % k == 0
  {
    NonNegative(q, k);
    QuotientIs(q * k, k, q, 0);
  }
}
