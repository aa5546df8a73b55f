/** Facts about division that several modules need. */
module Arithmetic {
  lemma AtLeastOneTurn(d: int, c: int)
    requires c > 0
    ensures d >= 1 ==> d * c >= c
    ensures d <= -1 ==> d * c <= -c
  {
  }

  /** Quotient and remainder are the only pair of their kind. */
  lemma EuclidUnique(n: int, c: int, q: int, r: int)
    requires c > 0 && 0 <= r < c && n == q * c + r
    ensures n / c == q && n % c == r
  {
    var d := n / c - q;
    assert d * c == r - n % c by {
      assert n == (n / c) * c + n % c;
    }
    AtLeastOneTurn(d, c);
  }

  lemma TimesMonotone(a: nat, b: nat, n: nat)
    requires a <= b
    ensures a * n <= b * n
  {
    assert b * n - a * n == (b - a) * n;
  }

  lemma QuotientAtLeastOne(a: real, b: real)
    requires 0.0 < b <= a
    ensures a / b >= 1.0
  {
    var q := a / b;
    assert q * b == a;
    if q < 1.0 {
      ProductBelow(q, b);
    }
  }

  lemma QuotientBelowOne(a: real, b: real)
    requires 0.0 < a < b
    ensures a / b < 1.0
  {
    var q := a / b;
    assert q * b == a;
    assert (1.0 - q) * b == b - a;
    PositiveFactor(1.0 - q, b);
  }

  lemma RealTimesMonotone(a: real, b: real, h: real)
    requires 0.0 < h
    ensures a <= b ==> a * h <= b * h
    ensures a < b ==> a * h < b * h
  {
    var d := b - a;
    assert b * h - a * h == d * h;
    if d > 0.0 {
      assert d * h > 0.0;
    }
  }

  lemma PositiveFactor(x: real, b: real)
    requires 0.0 < b && 0.0 < x * b
    ensures 0.0 < x
  {
  }

  lemma ProductBelow(q: real, b: real)
    requires 0.0 < b && q < 1.0
    ensures q * b < b
  {
    assert b - q * b == (1.0 - q) * b;
  }

  lemma SubsetSize<T>(a: set<T>, b: set<T>)
    requires a <= b
    ensures |a| <= |b|
  {
    assert b == a + (b - a);
  }
}
