/** `calculate_probability`: the chance of AT LEAST x successes in n
    independent trials that each succeed with probability p. */
module Probability {
  import opened Wrappers
  import opened Combinatorics

  /** `b ** e` for a natural exponent (so `0.0 ** 0` is 1). */
  function Pow(b: real, e: nat): real
  {
    if e == 0 then 1.0 else b * Pow(b, e - 1)
  }

  /** `coefficient * (a ** i) * (b ** j)`, the shape of each term the
      loop adds. */
  function Weighted(coefficient: real, a: real, b: real, i: nat, j: nat): real
  {
    coefficient * Pow(a, i) * Pow(b, j)
  }

  /** C(n,i) * a^i * b^(n-i), and zero outside 0 <= i <= n. */
  function Term(n: nat, i: int, a: real, b: real): real
  {
    if 0 <= i <= n then Weighted(Choose(n, i) as real, a, b, i, n - i) else 0.0
  }

  /** The sum of the terms for i < k. */
  function PrefixSum(n: nat, k: nat, a: real, b: real): real
  {
    if k == 0 then 0.0 else PrefixSum(n, k - 1, a, b) + Term(n, k - 1, a, b)
  }

  /** The sum of the terms for x <= i <= n: the docstring's
      P(x) + P(x+1) + ... + P(n). */
  function TailSum(n: nat, x: nat, a: real, b: real): real
    decreases n + 1 - x
  {
    if x > n then 0.0 else Term(n, x, a, b) + TailSum(n, x + 1, a, b)
  }

  /** The arguments for which `calculate_probability` returns instead of
      raising: the loop over `range(0, x)` either does not run, or every
      `calculate_combinations(n, i)` in it has 0 <= i <= n. */
  predicate Defined(n: int, x: int)
  {
    x <= 0 || (0 <= n && x <= n + 1)
  }

  /** The value `calculate_probability(n, x, p)` returns: one minus the
      probability of fewer than x successes. */
  function AtLeast(n: int, x: int, p: real): real
    requires Defined(n, x)
  {
    if x <= 0 then 1.0 else 1.0 - PrefixSum(n, x, p, 1.0 - p)
  }

  /** The loop of `calculate_probability`. It accumulates the probability of
      fewer than x successes and returns its complement; the error of the
      first `calculate_combinations` call that fails is propagated. */
  method CalculateProbability(n: int, x: int, p: real) returns (r: Result<real, MathError>)
    ensures r.Success? <==> Defined(n, x)
    ensures r.Success? ==> r.value == AtLeast(n, x, p)
    ensures r.Failure? ==> r.error == FactorialOfNegative(if n < 0 then n else -1)
  {
    var probLessThanX := 0.0;
    var i := 0;
    while i < x
      invariant 0 <= i && (x > 0 ==> i <= x) && (x <= 0 ==> i == 0)
      invariant i > 0 ==> 0 <= n && i <= n + 1
      invariant i == 0 ==> probLessThanX == 0.0
      invariant i > 0 ==> probLessThanX == PrefixSum(n, i, p, 1.0 - p)
    {
      var c := Combinations(n, i);
      if c.Failure? {
        return Failure(c.error);
      }
      var probI := Weighted(c.value, p, 1.0 - p, i, n - i);
      probLessThanX := probLessThanX + probI;
      i := i + 1;
    }
    return Success(1.0 - probLessThanX);
  }

  // ---------------------------------------------------------------------
  // The binomial theorem.

  /** a * x + b * y, named so that the solver treats it as one term. */
  function Mix(a: real, b: real, x: real, y: real): real
  {
    a * x + b * y
  }

  /** The real-number step behind Pascal's rule on terms. */
  lemma TermSplit(c1: real, c2: real, a: real, b: real, pa: real, pb: real)
    ensures (c1 + c2) * (a * pa) * (b * pb) == Mix(a, b, c1 * pa * (b * pb), c2 * (a * pa) * pb)
  {
    calc {
      (c1 + c2) * (a * pa) * (b * pb);
      c1 * (a * pa) * (b * pb) + c2 * (a * pa) * (b * pb);
      { assert c1 * (a * pa) * (b * pb) == a * (c1 * pa * (b * pb)); }
      a * (c1 * pa * (b * pb)) + c2 * (a * pa) * (b * pb);
      { assert c2 * (a * pa) * (b * pb) == b * (c2 * (a * pa) * pb); }
      a * (c1 * pa * (b * pb)) + b * (c2 * (a * pa) * pb);
    }
  }

  /** Pascal's rule on terms, inside the triangle. */
  lemma TermPascalInner(n: nat, i: int, a: real, b: real)
    requires 0 < i <= n
    ensures Term(n + 1, i, a, b) == Mix(a, b, Term(n, i - 1, a, b), Term(n, i, a, b))
  {
    var c1, c2 := Choose(n, i - 1) as real, Choose(n, i) as real;
    var pa, pb := Pow(a, i - 1), Pow(b, n - i);
    assert Choose(n + 1, i) as real == c1 + c2 by {
      Pascal(n, i);
    }
    assert Pow(a, i) == a * pa;
    assert Pow(b, n + 1 - i) == b * pb;
    assert Term(n, i - 1, a, b) == c1 * pa * (b * pb);
    assert Term(n, i, a, b) == c2 * (a * pa) * pb;
    TermSplit(c1, c2, a, b, pa, pb);
  }

  /** Pascal's rule on terms, for every index. */
  lemma TermPascal(n: nat, i: int, a: real, b: real)
    ensures Term(n + 1, i, a, b) == Mix(a, b, Term(n, i - 1, a, b), Term(n, i, a, b))
  {
    if i == 0 {
      assert Pow(b, n + 1) == b * Pow(b, n);
      assert Term(n + 1, 0, a, b) == Pow(b, n + 1);
      assert Term(n, 0, a, b) == Pow(b, n);
    } else if i == n + 1 {
      assert Pow(a, n + 1) == a * Pow(a, n);
      assert Term(n + 1, n + 1, a, b) == Pow(a, n + 1);
      assert Term(n, n, a, b) == Pow(a, n);
    } else if 0 < i <= n {
      TermPascalInner(n, i, a, b);
    }
  }

  /** Mix distributes over sums. */
  lemma MixSum(a: real, b: real, x1: real, y1: real, x2: real, y2: real)
    ensures Mix(a, b, x1, y1) + Mix(a, b, x2, y2) == Mix(a, b, x1 + x2, y1 + y2)
  {
  }

  /** Pascal's rule on prefix sums. */
  lemma {:induction false} PrefixPascal(n: nat, k: nat, a: real, b: real)
    requires k >= 1
    ensures PrefixSum(n + 1, k, a, b) == Mix(a, b, PrefixSum(n, k - 1, a, b), PrefixSum(n, k, a, b))
  {
    TermPascal(n, k - 1, a, b);
    if k > 1 {
      PrefixPascal(n, k - 1, a, b);
      MixSum(a, b, PrefixSum(n, k - 2, a, b), PrefixSum(n, k - 1, a, b),
             Term(n, k - 2, a, b), Term(n, k - 1, a, b));
    } else {
      assert Term(n, -1, a, b) == 0.0;
    }
  }

  /** The binomial theorem: the sum of all the terms is (a + b)^n. */
  lemma {:induction false} BinomialTheorem(n: nat, a: real, b: real)
    ensures PrefixSum(n, n + 1, a, b) == Pow(a + b, n)
  {
    if n > 0 {
      var m := n - 1;
      BinomialTheorem(m, a, b);
      PrefixPascal(m, m + 2, a, b);
      assert PrefixSum(m, m + 2, a, b) == PrefixSum(m, m + 1, a, b);
      var x := Pow(a + b, m);
      assert Mix(a, b, x, x) == (a + b) * x;
    }
  }

  lemma {:induction false} PowOne(n: nat)
    ensures Pow(1.0, n) == 1.0
  {
    if n > 0 {
      PowOne(n - 1);
    }
  }

  /** The probabilities of 0, 1, ..., n successes add up to one, for every p. */
  lemma TotalMass(n: nat, p: real)
    ensures PrefixSum(n, n + 1, p, 1.0 - p) == 1.0
  {
    BinomialTheorem(n, p, 1.0 - p);
    PowOne(n);
  }

  /** Splitting the terms at x: the prefix below x and the tail from x. */
  lemma {:induction false} PrefixPlusTail(n: nat, x: nat, a: real, b: real)
    requires x <= n + 1
    ensures PrefixSum(n, x, a, b) + TailSum(n, x, a, b) == PrefixSum(n, n + 1, a, b)
    decreases n + 1 - x
  {
    if x <= n {
      PrefixPlusTail(n, x + 1, a, b);
    }
  }

  // ---------------------------------------------------------------------
  // Signs and monotonicity for 0 <= p <= 1.

  lemma {:induction false} PowNonnegative(b: real, e: nat)
    requires b >= 0.0
    ensures Pow(b, e) >= 0.0
  {
    if e > 0 {
      PowNonnegative(b, e - 1);
    }
  }

  lemma ProductNonnegative(x: real, y: real, z: real)
    requires x >= 0.0 && y >= 0.0 && z >= 0.0
    ensures x * y * z >= 0.0
  {
    assert x * y >= 0.0;
  }

  lemma TermNonnegative(n: nat, i: int, p: real)
    requires 0.0 <= p <= 1.0
    ensures Term(n, i, p, 1.0 - p) >= 0.0
  {
    if 0 <= i <= n {
      PowNonnegative(p, i);
      PowNonnegative(1.0 - p, n - i);
      ProductNonnegative(Choose(n, i) as real, Pow(p, i), Pow(1.0 - p, n - i));
    }
  }

  lemma {:induction false} PrefixNonnegative(n: nat, x: nat, p: real)
    requires 0.0 <= p <= 1.0
    ensures 0.0 <= PrefixSum(n, x, p, 1.0 - p)
  {
    if x > 0 {
      PrefixNonnegative(n, x - 1, p);
      TermNonnegative(n, x - 1, p);
    }
  }

  lemma {:induction false} PrefixMonotone(n: nat, x: nat, y: nat, p: real)
    requires 0.0 <= p <= 1.0 && x <= y
    ensures 0.0 <= PrefixSum(n, x, p, 1.0 - p) <= PrefixSum(n, y, p, 1.0 - p)
    decreases y
  {
    if x < y {
      PrefixMonotone(n, x, y - 1, p);
      TermNonnegative(n, y - 1, p);
    } else {
      PrefixNonnegative(n, x, p);
    }
  }

  // ---------------------------------------------------------------------
  // What the result means.

  /** Complement law: the result and the probability of fewer than x
      successes add up to one. */
  lemma AtLeastComplement(n: nat, x: nat, p: real)
    requires x <= n + 1
    ensures AtLeast(n, x, p) + PrefixSum(n, x, p, 1.0 - p) == 1.0
  {
  }

  /** The returned value is the docstring's P(x) + P(x+1) + ... + P(n),
      for every p. */
  lemma AtLeastIsTail(n: nat, x: nat, p: real)
    requires x <= n + 1
    ensures AtLeast(n, x, p) == TailSum(n, x, p, 1.0 - p)
  {
    PrefixPlusTail(n, x, p, 1.0 - p);
    TotalMass(n, p);
  }

  /** With no lower bound the result is exactly one. */
  lemma AtLeastNothing(n: int, x: int, p: real)
    requires x <= 0
    ensures AtLeast(n, x, p) == 1.0
  {
  }

  /** More successes than trials is impossible. */
  lemma AtLeastBeyondTrials(n: nat, p: real)
    ensures AtLeast(n, n + 1, p) == 0.0
  {
    TotalMass(n, p);
  }

  /** At least one success: one minus the chance that every trial fails. */
  lemma AtLeastOne(n: nat, p: real)
    ensures AtLeast(n, 1, p) == 1.0 - Pow(1.0 - p, n)
  {
    assert PrefixSum(n, 1, p, 1.0 - p) == Term(n, 0, p, 1.0 - p);
    assert Choose(n, 0) == 1;
  }

  /** All n trials succeed with probability p^n. */
  lemma AtLeastAll(n: nat, p: real)
    ensures AtLeast(n, n, p) == Pow(p, n)
  {
    if n > 0 {
      AtLeastIsTail(n, n, p);
      assert TailSum(n, n, p, 1.0 - p) == Term(n, n, p, 1.0 - p);
    }
  }

  /** For a genuine probability p the result is a probability. */
  lemma AtLeastBounds(n: int, x: int, p: real)
    requires Defined(n, x) && 0.0 <= p <= 1.0
    ensures 0.0 <= AtLeast(n, x, p) <= 1.0
  {
    if x > 0 {
      PrefixMonotone(n, x, n + 1, p);
      TotalMass(n, p);
    }
  }

  /** For a genuine probability p, asking for more successes never makes
      the result larger. */
  lemma AtLeastMonotone(n: int, x: int, y: int, p: real)
    requires Defined(n, y) && x <= y && 0.0 <= p <= 1.0
    ensures AtLeast(n, y, p) <= AtLeast(n, x, p)
  {
    if x > 0 {
      PrefixMonotone(n, x, y, p);
    } else {
      AtLeastBounds(n, y, p);
    }
  }

  /** One application at probability one half: a 50% chance. */
  lemma ExampleOneInTwo()
    ensures AtLeast(1, 1, 0.5) == 0.5
  {
    AtLeastOne(1, 0.5);
  }

  /** Nothing bounds p: at p = 10 the "probability" of one success in one
      trial comes out as 10. */
  lemma ExampleProbabilityAboveOne()
    ensures AtLeast(1, 1, 10.0) == 10.0
  {
    AtLeastOne(1, 10.0);
  }
}
