/** Products and quotients of natural numbers. */
module Arithmetic {

  lemma TimesMore(a: nat, b: nat, c: nat)
    requires a <= b
    ensures a * c <= b * c
  {
  }

  lemma TimesNext(a: nat, c: nat)
    ensures (a + 1) * c == a * c + c
  {
  }

  lemma SameQuotient(q: nat, k: nat, d: nat, r: nat)
    requires r < d && q * d == k * d + r
    ensures q == k && r == 0
  {
    TimesNext(q, d);
    TimesNext(k, d);
    if q < k {
      TimesMore(q + 1, k, d);
    } else if q > k {
      TimesMore(k + 1, q, d);
    }
  }

  lemma MultipleOf(q: nat, d: nat)
    requires d > 0
    ensures q * d % d == 0 && q * d / d == q
  {
    SameQuotient(q, q * d / d, d, q * d % d);
  }

  lemma DivFacts(x: nat, d: nat)
    requires d > 0
    ensures x / d * d <= x < x / d * d + d && x / d * d % d == 0
  {
    assert x == x / d * d + x % d;
    MultipleOf(x / d, d);
  }
}
