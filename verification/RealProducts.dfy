/** Products and quotients of reals behind a name, with the few facts the other proofs use about them. */
module RealProducts {

  /** Product of reals, named so that proofs can treat it linearly. */
  function Times(a: real, k: real): real {
    a * k
  }

  lemma TimesMonotone(a: real, b: real, k: real)
    requires k > 0.0
    ensures a <= b ==> Times(a, k) <= Times(b, k)
    ensures a < b ==> Times(a, k) < Times(b, k)
  {
  }

  lemma TimesAdds(a: real, b: real, k: real)
    ensures Times(a + b, k) == Times(a, k) + Times(b, k)
    ensures Times(0.0, k) == 0.0 && Times(1.0, k) == k
  {
  }

  lemma TimesSplits(k: real, a: real, b: real)
    ensures Times(k, a + b) == Times(k, a) + Times(k, b)
    ensures Times(k, 0.0) == 0.0
  {
  }

  lemma TimesPositive(a: real, b: real)
    requires a > 0.0 && b > 0.0
    ensures Times(a, b) > 0.0
  {
  }

  lemma TimesNonNegative(a: real, b: real)
    requires a >= 0.0 && b >= 0.0
    ensures Times(a, b) >= 0.0
  {
  }

  lemma TimesQuotient(a: real, k: real)
    requires k > 0.0
    ensures Times(a / k, k) == a
  {
  }

  /** Comparing a quotient with t is comparing the dividend with t times the divisor. */
  lemma QuotientOrder(a: real, k: real, t: real)
    requires k > 0.0
    ensures t <= a / k <==> Times(t, k) <= a
    ensures t < a / k <==> Times(t, k) < a
  {
    hide Times;
    TimesQuotient(a, k);
    TimesMonotone(t, a / k, k);
    TimesMonotone(a / k, t, k);
  }

  lemma TimesNegative(a: real, b: real, k: real)
    requires k < 0.0
    ensures a <= b ==> Times(b, k) <= Times(a, k)
    ensures a < b ==> Times(b, k) < Times(a, k)
  {
  }

  lemma NegativeQuotient(a: real, k: real)
    requires k < 0.0
    ensures Times(a / k, k) == a
  {
  }

  lemma NegativeQuotientOrder(a: real, k: real, t: real)
    requires k < 0.0
    ensures t < a / k <==> a < Times(t, k)
  {
    hide Times;
    NegativeQuotient(a, k);
    TimesNegative(t, a / k, k);
    TimesNegative(a / k, t, k);
  }
}
