/** Products and quotients of reals under the name `Times`, whose body a proof
    can hide: the few facts the other modules need about them. */
module RealArithmetic {
  import opened Prelude

  lemma TimesIs(a: real, b: real)
    ensures Times(a, b) == a * b == Times(b, a)
  {
  }

  lemma TimesZero(a: real)
    ensures Times(a, 0.0) == 0.0 == Times(0.0, a)
  {
  }

  lemma TimesOne(a: real, one: real)
    requires one == 1.0
    ensures Times(a, one) == a
  {
  }

  lemma TimesNegates(a: real, b: real)
    ensures Times(-a, b) == -Times(a, b)
  {
  }

  lemma TimesAdds(a: real, b: real, k: real)
    ensures Times(a + b, k) == Times(a, k) + Times(b, k)
  {
  }

  lemma TimesSubtracts(a: real, b: real, k: real)
    ensures Times(a - b, k) == Times(a, k) - Times(b, k)
  {
  }

  lemma BothPositive(a: real, b: real)
    requires a > 0.0 && b > 0.0
    ensures Times(a, b) > 0.0
  {
  }

  /** The sign of a product. */
  lemma TimesSign(a: real, b: real)
    ensures Times(a, b) > 0.0 <==> (a > 0.0 && b > 0.0) || (a < 0.0 && b < 0.0)
    ensures Times(a, b) < 0.0 <==> (a > 0.0 && b < 0.0) || (a < 0.0 && b > 0.0)
  {
    TimesNegates(a, b);
    TimesIs(a, b);
    TimesIs(-b, a);
    TimesNegates(b, a);
    TimesNegates(a, -b);
    TimesZero(a);
    TimesZero(b);
    if a > 0.0 && b > 0.0 { BothPositive(a, b); }
    if a > 0.0 && b < 0.0 { BothPositive(a, -b); TimesIs(a, -b); }
    if a < 0.0 && b > 0.0 { BothPositive(-a, b); }
    if a < 0.0 && b < 0.0 { BothPositive(-a, -b); TimesIs(a, -b); }
    hide Times;
  }

  /** A positive factor keeps order. */
  lemma TimesOrder(a: real, b: real, k: real)
    requires k > 0.0
    ensures a < b <==> Times(a, k) < Times(b, k)
    ensures a == b <==> Times(a, k) == Times(b, k)
    ensures Times(k, a) == Times(a, k) && Times(k, b) == Times(b, k)
  {
    TimesSign(b - a, k);
    TimesSubtracts(b, a, k);
    TimesIs(a, k);
    TimesIs(b, k);
    hide Times;
  }

  lemma TimesMonotone(k: real, a: real, b: real)
    requires k >= 0.0 && a <= b
    ensures Times(a, k) <= Times(b, k) && Times(k, a) <= Times(k, b)
  {
    TimesZero(a);
    TimesZero(b);
    if k > 0.0 { TimesOrder(a, b, k); }
    hide Times;
  }

  /** Squares of non-negative reals are ordered as the reals are. */
  lemma SquaresOrder(a: real, b: real)
    requires 0.0 <= a && 0.0 <= b
    ensures Times(a, a) < Times(b, b) <==> a < b
  {
    if a < b {
      TimesMonotone(a, a, b);
      TimesOrder(a, b, b);
    } else {
      TimesMonotone(b, b, a);
      TimesMonotone(a, b, a);
    }
    hide Times;
  }

  lemma QuotientTimes(a: real, d: real)
    requires d != 0.0
    ensures Times(a / d, d) == a == Times(d, a / d)
  {
  }

  lemma NonNegativeQuotient(a: real, d: real)
    requires a >= 0.0 && d > 0.0
    ensures a / d >= 0.0
  {
    QuotientTimes(a, d);
    TimesSign(a / d, d);
    hide Times;
  }
}
