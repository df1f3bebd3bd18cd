/** Facts about products, quotients and finite sums used throughout. */
module Arithmetic {

  lemma MulMonotone(a: int, b: int, c: int, d: int)
    requires 0 <= a <= b && 0 <= c <= d
    ensures a * c <= b * d
  {
    assert a * c <= b * c;
    assert b * c <= b * d;
  }

  lemma DivAtLeast(a: int, d: int, q: int)
    requires d > 0 && a >= 0 && a >= q * d
    ensures a / d >= q
  {
    assert a == d * (a / d) + a % d;
    if a / d < q {
      MulMonotone(a / d + 1, q, d, d);
      assert false;
    }
  }

  lemma DivMonotone(a: int, b: int, d: int)
    requires d > 0 && 0 <= a <= b
    ensures a / d <= b / d
  {
    assert a == d * (a / d) + a % d;
    DivAtLeast(b, d, a / d);
  }

  lemma DivBelow(a: int, d: int, q: int)
    requires d > 0 && 0 <= a < q * d
    ensures 0 <= a / d < q
  {
    assert a == d * (a / d) + a % d;
    if a / d >= q {
      MulMonotone(if q < 0 then 0 else q, a / d, d, d);
    }
  }

  /** Adding at least one divisor raises the quotient. */
  lemma DivStep(a: int, b: int, d: int)
    requires d > 0 && 0 <= a && b >= d
    ensures a / d < (a + b) / d
  {
    assert a == d * (a / d) + a % d;
    assert (a / d + 1) * d == d * (a / d) + d;
    DivAtLeast(a + b, d, a / d + 1);
  }

  lemma DivUnique(a: int, d: int, q: int, r: int)
    requires d > 0 && 0 <= r < d && a == q * d + r
    ensures a / d == q && a % d == r
  {
    assert a == d * (a / d) + a % d;
    assert d * (a / d - q) == r - a % d;
    if a / d > q {
      MulMonotone(1, a / d - q, d, d);
      assert false;
    } else if a / d < q {
      MulMonotone(1, q - a / d, d, d);
      assert false;
    }
  }

  lemma RealMonotone(a: real, b: real, c: real)
    requires a <= b && c >= 0.0
    ensures a * c <= b * c
  {
  }

  lemma RealDivMonotone(a: real, b: real, c: real)
    requires a <= b && c > 0.0
    ensures a / c <= b / c
  {
  }

  // ---- Sums over an initial segment of the naturals ------------------------

  function Sum(f: nat -> nat, n: nat): nat {
    if n == 0 then 0 else Sum(f, n - 1) + f(n - 1)
  }

  lemma {:induction false} SumAtMost(f: nat -> nat, g: nat -> nat, n: nat)
    requires forall i: nat :: i < n ==> f(i) <= g(i)
    ensures Sum(f, n) <= Sum(g, n)
  {
    if n > 0 {
      SumAtMost(f, g, n - 1);
    }
  }

  lemma SumSame(f: nat -> nat, g: nat -> nat, n: nat)
    requires forall i: nat :: i < n ==> f(i) == g(i)
    ensures Sum(f, n) == Sum(g, n)
  {
    SumAtMost(f, g, n);
    SumAtMost(g, f, n);
  }

  /** Changing one summand changes the sum by the difference. */
  lemma {:induction false} SumPoint(f: nat -> nat, g: nat -> nat, n: nat, k: nat)
    requires k < n && forall i: nat :: i < n && i != k ==> f(i) == g(i)
    ensures Sum(f, n) + g(k) == Sum(g, n) + f(k)
  {
    if k == n - 1 {
      SumSame(f, g, n - 1);
    } else {
      SumPoint(f, g, n - 1, k);
    }
  }

  lemma {:induction false} SumHolds(f: nat -> nat, n: nat, k: nat)
    requires k < n
    ensures f(k) <= Sum(f, n)
  {
    if k < n - 1 {
      SumHolds(f, n - 1, k);
    }
  }

  lemma {:induction false} SumHoldsTwo(f: nat -> nat, n: nat, a: nat, b: nat)
    requires a < b < n
    ensures f(a) + f(b) <= Sum(f, n)
  {
    if b < n - 1 {
      SumHoldsTwo(f, n - 1, a, b);
    } else {
      SumHolds(f, n - 1, a);
    }
  }

  lemma {:induction false} SumZero(f: nat -> nat, n: nat)
    requires forall i: nat :: i < n ==> f(i) == 0
    ensures Sum(f, n) == 0
  {
    if n > 0 {
      SumZero(f, n - 1);
    }
  }

  function Indicator(a: set<nat>): nat -> nat {
    (i: nat) => if i in a then 1 else 0
  }

  /** Counting the members of a set of small numbers. */
  lemma {:induction false} SumIndicator(a: set<nat>, n: nat)
    requires forall i :: i in a ==> i < n
    ensures Sum(Indicator(a), n) == |a|
  {
    if n == 0 {
      assert a == {};
    } else {
      var b := a - {n - 1};
      SumIndicator(b, n - 1);
      SumSame(Indicator(a), Indicator(b), n - 1);
      assert n - 1 in a ==> a == b + {n - 1};
      assert n - 1 !in a ==> a == b;
    }
  }

  // ---- Sums of reals ------------------------------------------------------

  function Total(f: nat -> real, n: nat): real {
    if n == 0 then 0.0 else Total(f, n - 1) + f(n - 1)
  }

  lemma {:induction false} TotalSame(f: nat -> real, g: nat -> real, n: nat)
    requires forall i: nat :: i < n ==> f(i) == g(i)
    ensures Total(f, n) == Total(g, n)
  {
    if n > 0 {
      TotalSame(f, g, n - 1);
    }
  }

  lemma {:induction false} TotalZero(f: nat -> real, n: nat)
    requires forall i: nat :: i < n ==> f(i) == 0.0
    ensures Total(f, n) == 0.0
  {
    if n > 0 {
      TotalZero(f, n - 1);
    }
  }

  lemma {:induction false} TotalPlus(f: nat -> real, g: nat -> real, h: nat -> real, n: nat)
    requires forall i: nat :: i < n ==> h(i) == f(i) + g(i)
    ensures Total(h, n) == Total(f, n) + Total(g, n)
  {
    if n > 0 {
      TotalPlus(f, g, h, n - 1);
    }
  }

  /** Summing from `s` on is summing the shifted function. */
  lemma {:induction false} TotalShift(f: nat -> real, g: nat -> real, s: nat, n: nat)
    requires forall i: nat :: i < s ==> f(i) == 0.0
    requires forall i: nat :: i < n ==> g(i) == f(i + s)
    ensures Total(g, n) == Total(f, s + n)
  {
    if n == 0 {
      TotalZero(f, s);
    } else {
      TotalShift(f, g, s, n - 1);
    }
  }

  lemma {:induction false} TotalTail(f: nat -> real, m: nat, n: nat)
    requires m <= n && forall i: nat :: m <= i < n ==> f(i) == 0.0
    ensures Total(f, n) == Total(f, m)
  {
    if m < n {
      TotalTail(f, m, n - 1);
    }
  }
}
