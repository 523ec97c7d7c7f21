/** Facts of integer arithmetic that several of the models need, and the bitwise
    operators as operations on binary digits. */
module Arithmetic {

  lemma TimesMonotone(x: int, y: int, n: nat)
    requires x <= y
    ensures x * n <= y * n
  {
    assert y * n - x * n == (y - x) * n;
  }

  /** Quotient and remainder are unique. */
  lemma DivMod(q: nat, n: nat, r: nat)
    requires n > 0 && r < n
    ensures (q * n + r) / n == q && (q * n + r) % n == r
  {
    var a := q * n + r;
    if a / n < q {
      TimesMonotone(a / n + 1, q, n);
    } else if a / n > q {
      TimesMonotone(q + 1, a / n, n);
    }
  }

  /** The only multiple of m strictly between -m and m is 0. */
  lemma MultipleInside(k: int, m: nat, d: int)
    requires k * m == d && 0 - m < d < m
    ensures d == 0
  {
    if k >= 1 {
      TimesMonotone(1, k, m);
    } else if k <= -1 {
      TimesMonotone(k, -1, m);
    }
  }

  function Pow2(n: nat): (p: nat)
    ensures p > 0
  {
    if n == 0 then 1 else 2 * Pow2(n - 1)
  }

  lemma {:induction false} Pow2Sum(m: nat, n: nat)
    ensures Pow2(m + n) == Pow2(m) * Pow2(n)
  {
    if m > 0 {
      Pow2Sum(m - 1, n);
      assert Pow2(m + n) == 2 * Pow2(m - 1 + n);
    }
  }

  // ---------------------------------------------------------------- bitwise operators

  function Or(a: nat, b: nat): nat {
    if a == 0 && b == 0 then 0 else 2 * Or(a / 2, b / 2) + (if a % 2 == 1 || b % 2 == 1 then 1 else 0)
  }

  lemma OrDigits(a: nat, b: nat)
    ensures Or(a, b) == 2 * Or(a / 2, b / 2) + (if a % 2 == 1 || b % 2 == 1 then 1 else 0)
  {
  }

  lemma OrDoubled(a: nat, r: nat, a': nat, r': nat, high: nat)
    requires Or(a + r / 2, a' + r' / 2) == high + Or(r / 2, r' / 2)
    ensures Or(2 * a + r, 2 * a' + r') == 2 * high + Or(r, r')
  {
    hide Or;
    OrDigits(2 * a + r, 2 * a' + r');
    OrDigits(r, r');
    assert (2 * a + r) / 2 == a + r / 2 && (2 * a' + r') / 2 == a' + r' / 2;
  }

  function Times(a: nat, b: nat): nat { a * b }

  lemma TimesDoubled(a: nat, b: nat)
    ensures Times(a, 2 * b) == 2 * Times(a, b)
  {
  }

  /** The digits from n on and those below n are combined apart from each other. */
  lemma {:induction false} OrParts(q: nat, r: nat, q': nat, r': nat, n: nat)
    requires r < Pow2(n) && r' < Pow2(n)
    ensures Or(Times(q, Pow2(n)) + r, Times(q', Pow2(n)) + r') == Times(Or(q, q'), Pow2(n)) + Or(r, r')
    decreases n
  {
    if n == 0 {
      assert Or(0, 0) == 0;
    } else {
      hide Or, Times;
      var p := Pow2(n - 1);
      OrParts(q, r / 2, q', r' / 2, n - 1);
      OrDoubled(Times(q, p), r, Times(q', p), r', Times(Or(q, q'), p));
      TimesDoubled(q, p);
      TimesDoubled(q', p);
      TimesDoubled(Or(q, q'), p);
    }
  }

  lemma {:induction false} OrZero(a: nat)
    ensures Or(a, 0) == a && Or(0, a) == a
  {
    if a > 0 {
      OrZero(a / 2);
    }
  }

  lemma {:induction false} OrBelow(a: nat, b: nat, n: nat)
    requires a < Pow2(n) && b < Pow2(n)
    ensures Or(a, b) < Pow2(n)
  {
    if n > 0 {
      OrBelow(a / 2, b / 2, n - 1);
    }
  }

  /** Where the digits do not overlap it is the sum. */
  lemma OrDisjoint(q: nat, r: nat, n: nat)
    requires r < Pow2(n)
    ensures Or(Times(q, Pow2(n)), r) == Times(q, Pow2(n)) + r
  {
    OrParts(q, 0, 0, r, n);
    OrZero(q);
    OrZero(r);
  }

  function And(a: nat, b: nat): nat {
    if a == 0 || b == 0 then 0 else 2 * And(a / 2, b / 2) + (if a % 2 == 1 && b % 2 == 1 then 1 else 0)
  }

  lemma AndDigits(a: nat, b: nat)
    ensures And(a, b) == 2 * And(a / 2, b / 2) + (if a % 2 == 1 && b % 2 == 1 then 1 else 0)
  {
  }
}
