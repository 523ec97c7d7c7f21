/** The binary digits of a number under the operations that masks are made with. */
module BinaryDigits {
  import opened Arithmetic

  /** Digit k, the lowest being digit 0. */
  predicate Digit(n: nat, k: nat) { if k == 0 then n % 2 == 1 else Digit(n / 2, k - 1) }

  lemma {:induction false} DigitOfOr(a: nat, b: nat, k: nat)
    ensures Digit(Or(a, b), k) <==> Digit(a, k) || Digit(b, k)
    decreases k
  {
    hide Or;
    OrDigits(a, b);
    if k > 0 {
      DigitOfOr(a / 2, b / 2, k - 1);
      assert Or(a, b) / 2 == Or(a / 2, b / 2);
    }
  }

  lemma {:induction false} DigitOfOnes(m: nat, k: nat)
    ensures Digit(Pow2(m) - 1, k) <==> k < m
    decreases k
  {
    if m == 0 {
      DigitOfZero(k);
    } else if k > 0 {
      DigitOfOnes(m - 1, k - 1);
      assert (Pow2(m) - 1) / 2 == Pow2(m - 1) - 1;
    }
  }

  lemma {:induction false} DigitOfZero(k: nat)
    ensures !Digit(0, k)
  {
    if k > 0 {
      DigitOfZero(k - 1);
    }
  }

  lemma HalfThenDivide(n: nat, p: nat)
    requires p > 0
    ensures n / (2 * p) == n / 2 / p
  {
    var q, r := n / 2 / p, n / 2 % p;
    var b := n % 2;
    assert n == 2 * (q * p + r) + b;
    assert q * (2 * p) == 2 * (q * p);
    DivMod(q, 2 * p, 2 * r + b);
  }

  function Over(n: nat, p: nat): nat
    requires p > 0
  {
    n / p
  }

  lemma {:induction false} DigitBelow(n: nat, r: nat, k: nat)
    ensures Digit(Over(n, Pow2(r)), k) <==> Digit(n, k + r)
    decreases r
  {
    if r > 0 {
      hide Over;
      OverHalf(n, r);
      DigitBelow(n / 2, r - 1, k);
    } else {
      assert Over(n, Pow2(0)) == n;
    }
  }

  lemma OverHalf(n: nat, r: nat)
    requires r > 0
    ensures Over(n, Pow2(r)) == Over(n / 2, Pow2(r - 1))
  {
    HalfThenDivide(n, Pow2(r - 1));
  }

  lemma {:induction false} DigitAbove(n: nat, m: nat, k: nat)
    ensures Digit(Times(n, Pow2(m)), k) <==> k >= m && Digit(n, k - m)
    decreases m
  {
    if m > 0 {
      TimesDoubled(n, Pow2(m - 1));
      if k > 0 {
        DigitAbove(n, m - 1, k - 1);
      }
    }
  }

  lemma HalfThenRemainder(n: nat, p: nat)
    requires p > 0
    ensures n % (2 * p) / 2 == n / 2 % p && n % (2 * p) % 2 == n % 2
  {
    var q, r := n / 2 / p, n / 2 % p;
    var b := n % 2;
    assert n == 2 * (q * p + r) + b;
    assert q * (2 * p) == 2 * (q * p);
    DivMod(q, 2 * p, 2 * r + b);
  }

  lemma {:induction false} DigitOfRemainder(n: nat, m: nat, k: nat)
    requires k < m
    ensures Digit(n % Pow2(m), k) <==> Digit(n, k)
    decreases m
  {
    HalfThenRemainder(n, Pow2(m - 1));
    if k > 0 {
      DigitOfRemainder(n / 2, m - 1, k - 1);
    }
  }

  /** Digits determine a number. */
  lemma {:induction false} SameDigits(a: nat, b: nat, n: nat)
    requires a < Pow2(n) && b < Pow2(n) && forall k :: 0 <= k < n ==> (Digit(a, k) <==> Digit(b, k))
    ensures a == b
    decreases n
  {
    if n > 0 {
      assert Digit(a, 0) <==> Digit(b, 0);
      forall k | 0 <= k < n - 1 ensures Digit(a / 2, k) <==> Digit(b / 2, k) {
        assert Digit(a, k + 1) <==> Digit(b, k + 1);
      }
      SameDigits(a / 2, b / 2, n - 1);
    }
  }

  /** A number with one more digit in front. */
  lemma {:induction false} DigitOfSum(n: nat, m: nat, k: nat)
    requires n < Pow2(m)
    ensures Digit(n + Pow2(m), k) <==> k == m || Digit(n, k)
    decreases m
  {
    if m == 0 {
      if k > 0 {
        DigitOfZero(k - 1);
        DigitOfZero(k);
      }
    } else if k > 0 {
      DigitOfSum(n / 2, m - 1, k - 1);
      assert (n + Pow2(m)) / 2 == n / 2 + Pow2(m - 1);
    }
  }

  lemma {:induction false} NoDigitAbove(n: nat, m: nat, k: nat)
    requires n < Pow2(m) && m <= k
    ensures !Digit(n, k)
    decreases m
  {
    if m == 0 {
      DigitOfZero(k);
    } else {
      NoDigitAbove(n / 2, m - 1, k - 1);
    }
  }
}
