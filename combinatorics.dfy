/** `calculate_combinations`: n-choose-r through factorials. */
module Combinatorics {
  import opened Wrappers

  /** The `ValueError` that `math.factorial` raises for a negative argument. */
  datatype MathError = FactorialOfNegative(arg: int)

  /** `math.factorial(n)`. */
  function Fact(n: nat): (f: nat)
    ensures f >= 1 && f >= n
  {
    if n == 0 then 1 else n * Fact(n - 1)
  }

  /** The binomial coefficient by Pascal's rule, zero outside 0 <= k <= n:
      the reference the factorial formula is checked against. */
  function Choose(n: nat, k: int): nat
  {
    if k < 0 || k > n then 0
    else if k == 0 || k == n then 1
    else Choose(n - 1, k - 1) + Choose(n - 1, k)
  }

  /** Pascal's rule holds for every k, the boundary cases included. */
  lemma Pascal(n: nat, k: int)
    ensures Choose(n + 1, k) == Choose(n, k - 1) + Choose(n, k)
  {
  }

  /** The arithmetic step of the factorial formula: with f = (n-1)!,
      k * f + (n-k) * f = n * f. */
  lemma PascalProduct(a: int, b: int, k: int, m: int, fk: int, fm: int, f: int)
    requires a * (fk * (m * fm)) == f
    requires b * ((k * fk) * fm) == f
    ensures (a + b) * ((k * fk) * (m * fm)) == (k + m) * f
  {
    var x, y := k * fk, m * fm;
    assert (a + b) * (x * y) == a * (x * y) + b * (x * y);
    assert a * (x * y) == k * (a * (fk * y));
    assert b * (x * y) == m * (b * (x * fm));
  }

  /** n! = C(n,k) * k! * (n-k)!, so the factorial quotient is exact. */
  lemma {:induction false} FactorialFormula(n: nat, k: nat)
    requires k <= n
    ensures Choose(n, k) * (Fact(k) * Fact(n - k)) == Fact(n)
    decreases n
  {
    if 0 < k < n {
      FactorialFormula(n - 1, k - 1);
      FactorialFormula(n - 1, k);
      assert Fact(k) == k * Fact(k - 1);
      assert Fact(n - k) == (n - k) * Fact(n - k - 1);
      PascalProduct(Choose(n - 1, k - 1), Choose(n - 1, k), k, n - k,
                    Fact(k - 1), Fact(n - k - 1), Fact(n - 1));
    }
  }

  /** The factorial quotient, taken exactly, is the binomial coefficient. */
  lemma FactorialQuotient(n: nat, r: nat)
    requires r <= n
    ensures (Fact(n) as real) / ((Fact(r) * Fact(n - r)) as real) == Choose(n, r) as real
  {
    var c, fr, fm := Choose(n, r), Fact(r), Fact(n - r);
    FactorialFormula(n, r);
    ExactQuotient(c, fr * fm, Fact(n));
  }

  lemma ExactQuotient(c: nat, d: nat, f: nat)
    requires d >= 1 && c * d == f
    ensures (f as real) / (d as real) == c as real
  {
    assert (c as real) * (d as real) == f as real;
  }

  /** `calculate_combinations(n, r)`: `n! / (r! * (n-r)!)` as a float, or the
      error `math.factorial` raises on the first negative argument. */
  function Combinations(n: int, r: int): (c: Result<real, MathError>)
    ensures c.Success? <==> 0 <= r <= n
    ensures c.Success? ==> c.value == Choose(n, r) as real
    ensures c.Failure? ==> c.error.arg < 0
    ensures c.Failure? ==> c.error == FactorialOfNegative(if n < 0 then n else if r < 0 then r else n - r)
  {
    if n < 0 then Failure(FactorialOfNegative(n))
    else if r < 0 then Failure(FactorialOfNegative(r))
    else if n - r < 0 then Failure(FactorialOfNegative(n - r))
    else
      FactorialQuotient(n, r);
      Success((Fact(n) as real) / ((Fact(r) * Fact(n - r)) as real))
  }

  /** C(n,k) = C(n,n-k). */
  lemma {:induction false} ChooseSymmetric(n: nat, k: int)
    ensures Choose(n, k) == Choose(n, n - k)
    decreases n
  {
    if 0 < k < n {
      ChooseSymmetric(n - 1, k - 1);
      ChooseSymmetric(n - 1, k);
      Pascal(n - 1, n - k);
    }
  }

  lemma CombinationsEnds(n: nat)
    ensures Combinations(n, 0) == Success(1.0)
    ensures Combinations(n, n) == Success(1.0)
  {
  }

  lemma CombinationsSymmetric(n: nat, r: nat)
    requires r <= n
    ensures Combinations(n, r) == Combinations(n, n - r)
  {
    ChooseSymmetric(n, r);
  }

  lemma ExampleFiveChooseTwo()
    ensures Combinations(5, 2) == Success(10.0)
  {
    assert Choose(4, 1) == 4;
    assert Choose(4, 2) == 6;
  }
}
