/** Quotients and remainders. */
module Division {

  lemma QuotientUnique(n: int, d: int, quotient: int, rest: int)
    requires d > 0 && n == quotient * d + rest && 0 <= rest < d
    ensures n / d == quotient && n % d == rest
  {
    var k, r := quotient - n / d, n % d;
    assert n == (n / d) * d + r;
    assert k * d == r - rest;
    if k >= 1 {
      AtLeast(k, d);
    } else if k <= -1 {
      AtLeast(-k, d);
    }
  }

  lemma AtLeast(k: int, d: int)
    requires k >= 1 && d > 0
    ensures k * d >= d
  {
  }

  lemma MultipleBetween(a: int, b: int, d: int)
    requires d > 0 && a % d == 0 && b % d == 0 && a < b
    ensures a + d <= b
  {
    var k := b / d - a / d;
    assert b - a == k * d;
    if k > 0 {
      AtLeast(k, d);
    } else {
      NotPositive(k, d);
    }
  }

  lemma NotPositive(k: int, d: int)
    requires k <= 0 && d > 0
    ensures k * d <= 0
  {
  }

  /** A product, added up. */
  function Times(count: nat, unit: nat): nat {
    if count == 0 then 0 else Times(count - 1, unit) + unit
  }

  lemma {:induction false} TimesIsProduct(count: nat, unit: nat)
    ensures Times(count, unit) == count * unit
  {
    if count == 0 {
    } else {
      TimesIsProduct(count - 1, unit);
      assert count * unit == (count - 1) * unit + unit;
    }
  }
}
