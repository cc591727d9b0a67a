/**
 The binomial arithmetic behind the sortition (cpos/core/sortition.py), over exact reals.

 `Choose` is Pascal's recursion and `Cdf` the partial sum of the binomial distribution; the two
 methods are the program's loops. Floats are modelled as `real`.
 */
module Binomial {
  import opened Wrappers

  // ---- Coefficients ----

  function Choose(n: nat, k: int): nat {
    if k < 0 then 0
    else if k == 0 then 1
    else if n == 0 then 0
    else Choose(n - 1, k - 1) + Choose(n - 1, k)
  }

  function Factorial(p: nat): nat {
    if p == 0 then 1 else Factorial(p - 1) * p
  }

  // n * (n-1) * ... * (n-p+1), as many factors as p says
  function Falling(n: nat, p: nat): int {
    if p == 0 then 1 else Falling(n, p - 1) * (n - p + 1)
  }

  lemma {:induction false} FallingFromSuccessor(n: nat, p: nat)
    ensures Falling(n + 1, p + 1) == (n + 1) * Falling(n, p)
  {
    if p == 0 {
      assert Falling(n + 1, 1) == Falling(n + 1, 0) * (n + 1);
    } else {
      FallingFromSuccessor(n, p - 1);
      calc {
        Falling(n + 1, p + 1);
        Falling(n + 1, p) * (n + 1 - p);
        (n + 1) * Falling(n, p - 1) * (n - p + 1);
        (n + 1) * (Falling(n, p - 1) * (n - p + 1));
        (n + 1) * Falling(n, p);
      }
    }
  }

  lemma {:induction false} FallingOfZero(p: nat)
    requires p > 0
    ensures Falling(0, p) == 0
  {
    if p > 1 {
      FallingOfZero(p - 1);
    }
  }

  lemma PascalProduct(n: int, p: int, a: int, b: int, f: int, g: int)
    requires g == a * f
    requires g * (n - p) == b * (f * p)
    ensures n * g == (a + b) * (f * p)
  {
  }

  /** The falling product is the coefficient times the factorial, for every n and p. */
  lemma {:induction false} FallingIsChooseTimesFactorial(n: nat, p: nat)
    ensures Falling(n, p) == Choose(n, p) * Factorial(p)
  {
    if p == 0 {
    } else if n == 0 {
      FallingOfZero(p);
    } else {
      FallingIsChooseTimesFactorial(n - 1, p - 1);
      FallingIsChooseTimesFactorial(n - 1, p);
      FallingFromSuccessor(n - 1, p - 1);
      PascalProduct(n, p, Choose(n - 1, p - 1), Choose(n - 1, p), Factorial(p - 1), Falling(n - 1, p - 1));
    }
  }

  lemma {:induction false} FactorialPositive(p: nat)
    ensures Factorial(p) >= 1
  {
    if p > 0 {
      FactorialPositive(p - 1);
      assert Factorial(p - 1) * p >= 1;
    }
  }

  /** The division in `binomial` is always exact, and its quotient is the Pascal coefficient. */
  lemma BinomialIsExact(n: nat, p: nat)
    ensures Factorial(p) >= 1
    ensures Falling(n, p) % Factorial(p) == 0
    ensures Falling(n, p) / Factorial(p) == Choose(n, p)
  {
    FactorialPositive(p);
    FallingIsChooseTimesFactorial(n, p);
    MultipleDivides(Choose(n, p), Factorial(p));
  }

  lemma MultipleDivides(q: int, d: int)
    requires d >= 1
    ensures (q * d) % d == 0 && (q * d) / d == q
  {
    var x := q * d;
    assert x == (x / d) * d + x % d;
    MultipleBelow(q - x / d, d);
  }

  lemma MultipleBelow(r: int, d: int)
    requires 0 <= r * d < d
    ensures r == 0
  {
  }

  /** `binomial`: the call fails exactly when p exceeds n; otherwise the result is exact. */
  method Coefficient(n: int, p: int) returns (r: Result<real>)
    ensures r.Failure? <==> p > n
    ensures 0 <= p <= n ==> r == Success(Choose(n, p) as real)
    ensures p < 0 && p <= n ==> r == Success(1.0)
  {
    if p > n {
      return Failure("Invalid binomial coefficient");
    }
    var numerator := 1;
    var i := n;
    while i > n - p
      invariant p >= 0 ==> n - p <= i <= n && numerator == Falling(n, n - i)
      invariant p < 0 ==> i == n && numerator == 1
    {
      numerator := numerator * i;
      i := i - 1;
    }
    var denominator := 1;
    i := 2;
    while i < p + 1
      invariant 2 <= i && (i <= p + 1 || (i == 2 && p <= 0))
      invariant denominator == Factorial(i - 1)
      invariant denominator >= 1
    {
      FactorialPositive(i);
      denominator := denominator * i;
      i := i + 1;
    }
    if p >= 0 {
      assert denominator == Factorial(p);
      FallingIsChooseTimesFactorial(n, p);
      QuotientOfProduct(Choose(n, p), denominator);
    }
    return Success(numerator as real / denominator as real);
  }

  lemma QuotientOfProduct(q: int, d: int)
    requires d >= 1
    ensures (q * d) as real / d as real == q as real
  {
  }

  // ---- The distribution ----

  function Pow(x: real, n: nat): real {
    if n == 0 then 1.0 else x * Pow(x, n - 1)
  }

  function Pmf(n: nat, k: int, p: real): real {
    if k < 0 || k > n then 0.0
    else Mass(Choose(n, k) as real, Pow(p, k), Pow(1.0 - p, n - k))
  }

  function Mass(coefficient: real, successes: real, failures: real): real {
    coefficient * successes * failures
  }

  function Cdf(n: nat, k: int, p: real): real
    decreases k
  {
    if k < 0 then 0.0 else Cdf(n, k - 1, p) + Pmf(n, k, p)
  }

  /** `cumulative_binom_dist`: fails exactly when some i in 0..k exceeds n. */
  method CumulativeBinomDist(n: int, k: int, p: real) returns (r: Result<real>)
    ensures r.Failure? <==> k >= 0 && k > n
    ensures k < 0 ==> r == Success(0.0)
    ensures 0 <= k <= n ==> r == Success(Cdf(n, k, p))
  {
    var sum := 0.0;
    var i := 0;
    while i < k + 1
      invariant 0 <= i && (i <= k + 1 || (i == 0 && k < 0))
      invariant i > 0 ==> i - 1 <= n
      invariant if i > 0 then sum == Cdf(n, i - 1, p) else sum == 0.0
    {
      var c := Coefficient(n, i);
      if c.Failure? {
        return Failure(c.reason);
      }
      sum := sum + Mass(c.value, Pow(p, i), Pow(1.0 - p, n - i));
      i := i + 1;
    }
    return Success(sum);
  }

  lemma {:induction false} ChooseAboveIsZero(n: nat, k: int)
    requires k > n
    ensures Choose(n, k) == 0
  {
    if n > 0 {
      ChooseAboveIsZero(n - 1, k - 1);
      ChooseAboveIsZero(n - 1, k);
    }
  }

  function Mix(p: real, f: real, g: real): real {
    (1.0 - p) * f + p * g
  }

  lemma MixMasses(a: real, b: real, x: real, y: real, p: real)
    ensures Mass(a + b, p * x, (1.0 - p) * y)
         == Mix(p, Mass(b, p * x, y), Mass(a, x, (1.0 - p) * y))
  {
  }

  /** One more draw mixes the mass at k and at k - 1. */
  lemma PmfStep(n: nat, k: int, p: real)
    ensures Pmf(n + 1, k, p) == Mix(p, Pmf(n, k, p), Pmf(n, k - 1, p))
  {
    if k == 0 {
      FirstMass(n, p);
    } else if k == n + 1 {
      ChooseAboveIsZero(n, n + 1);
      LastMass(Choose(n, n) as real, Pow(p, n), p);
    } else if 0 < k <= n {
      MixMasses(Choose(n, k - 1) as real, Choose(n, k) as real, Pow(p, k - 1), Pow(1.0 - p, n - k), p);
    }
  }

  lemma FirstMass(n: nat, p: real)
    ensures Pmf(n + 1, 0, p) == Mix(p, Pmf(n, 0, p), 0.0)
  {
  }

  lemma LastMass(c: real, x: real, p: real)
    ensures Mass(c, p * x, 1.0) == Mix(p, 0.0, Mass(c, x, 1.0))
  {
  }

  lemma MixSums(f: real, g: real, u: real, v: real, p: real, below: real, mass: real)
    requires below == Mix(p, f, g) && mass == Mix(p, u, v)
    ensures below + mass == Mix(p, f + u, g + v)
  {
  }

  lemma {:induction false} CdfStep(n: nat, k: int, p: real)
    ensures Cdf(n + 1, k, p) == Mix(p, Cdf(n, k, p), Cdf(n, k - 1, p))
    decreases k
  {
    if k >= 0 {
      CdfStep(n, k - 1, p);
      PmfStep(n, k, p);
      MixSums(Cdf(n, k - 1, p), Cdf(n, k - 2, p), Pmf(n, k, p), Pmf(n, k - 1, p), p,
              Cdf(n + 1, k - 1, p), Pmf(n + 1, k, p));
    }
  }

  /** The binomial theorem: the whole mass is 1, whatever real p is. */
  lemma {:induction false} CdfTotal(n: nat, k: int, p: real)
    requires k >= n
    ensures Cdf(n, k, p) == 1.0
    decreases n, k
  {
    if n == 0 {
      if k > 0 {
        CdfTotal(0, k - 1, p);
      } else {
        assert Cdf(0, 0, p) == Cdf(0, -1, p) + Pmf(0, 0, p);
      }
    } else {
      CdfStep(n - 1, k, p);
      CdfTotal(n - 1, k, p);
      CdfTotal(n - 1, k - 1, p);
      assert Mix(p, 1.0, 1.0) == 1.0;
    }
  }

  lemma {:induction false} PowNonNegative(x: real, n: nat)
    requires x >= 0.0
    ensures Pow(x, n) >= 0.0
  {
    if n > 0 {
      PowNonNegative(x, n - 1);
    }
  }

  lemma PmfNonNegative(n: nat, k: int, p: real)
    requires 0.0 <= p <= 1.0
    ensures Pmf(n, k, p) >= 0.0
  {
    if 0 <= k <= n {
      PowNonNegative(p, k);
      PowNonNegative(1.0 - p, n - k);
      var c := Choose(n, k) as real;
      assert c * Pow(p, k) >= 0.0;
    }
  }

  /** The distribution function does not decrease in k. */
  lemma {:induction false} CdfGrowsWithK(n: nat, j: int, k: int, p: real)
    requires 0.0 <= p <= 1.0 && j <= k
    ensures Cdf(n, j, p) <= Cdf(n, k, p)
    decreases k - j
  {
    if j < k {
      CdfGrowsWithK(n, j, k - 1, p);
      PmfNonNegative(n, k, p);
    }
  }

  lemma MixtureBelow(f: real, g: real, p: real)
    requires p >= 0.0 && g <= f
    ensures Mix(p, f, g) <= f
  {
  }

  /** The distribution function does not increase in the number of draws. */
  lemma {:induction false} CdfFallsWithN(n: nat, m: nat, k: int, p: real)
    requires 0.0 <= p <= 1.0 && n <= m
    ensures Cdf(m, k, p) <= Cdf(n, k, p)
    decreases m - n
  {
    if n < m {
      CdfFallsWithN(n, m - 1, k, p);
      CdfStep(m - 1, k, p);
      CdfGrowsWithK(m - 1, k - 1, k, p);
      MixtureBelow(Cdf(m - 1, k, p), Cdf(m - 1, k - 1, p), p);
    }
  }

  /** The distribution function does not increase in the success probability. */
  lemma {:induction false} CdfFallsWithP(n: nat, k: int, p: real, q: real)
    requires 0.0 <= p <= q <= 1.0
    ensures Cdf(n, k, q) <= Cdf(n, k, p)
    decreases n
  {
    if n == 0 {
      if k >= 0 {
        CdfTotal(0, k, p);
        CdfTotal(0, k, q);
      }
    } else {
      CdfFallsWithP(n - 1, k, p, q);
      CdfFallsWithP(n - 1, k - 1, p, q);
      CdfGrowsWithK(n - 1, k - 1, k, q);
      CdfStep(n - 1, k, p);
      CdfStep(n - 1, k, q);
      MixtureFalls(Cdf(n - 1, k, p), Cdf(n - 1, k - 1, p), Cdf(n - 1, k, q), Cdf(n - 1, k - 1, q), p, q);
    }
  }

  lemma MixtureFalls(a: real, b: real, c: real, d: real, p: real, q: real)
    requires 0.0 <= p <= q <= 1.0
    requires a >= c && b >= d && c >= d
    ensures Mix(q, c, d) <= Mix(p, a, b)
  {
    assert (1.0 - q) * c + q * d == c - q * (c - d);
    assert (1.0 - p) * c + p * d == c - p * (c - d);
    ProductNonNegative(q - p, c - d);
    ProductNonNegative(1.0 - p, a - c);
    ProductNonNegative(p, b - d);
  }

  lemma ProductNonNegative(x: real, y: real)
    requires x >= 0.0 && y >= 0.0
    ensures x * y >= 0.0
  {
  }
}
