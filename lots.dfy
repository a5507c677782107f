/** `calculate_expected_lots`: the rounded expectation n * p, counted in
    lots. */
module Lots {
  import opened Categories

  /** Python's `round` on a number: the nearest integer, and on a tie the
      even one of the two neighbours. */
  function RoundHalfEven(v: real): (r: int)
    ensures -0.5 <= r as real - v <= 0.5
    ensures (r as real - v == 0.5 || v - r as real == 0.5) ==> r % 2 == 0
  {
    var f := v.Floor;
    var d := v - f as real;
    if d < 0.5 then f
    else if d > 0.5 then f + 1
    else if f % 2 == 0 then f
    else f + 1
  }

  /** The two postconditions of RoundHalfEven pin its result down. */
  lemma RoundHalfEvenUnique(v: real, k: int)
    requires -0.5 <= k as real - v <= 0.5
    requires (k as real - v == 0.5 || v - k as real == 0.5) ==> k % 2 == 0
    ensures RoundHalfEven(v) == k
  {
  }

  /** The lots allotted for each successful big or small HNI application. */
  const LotsPerApplication: int := 14

  /** The lots one successful application of the category brings. */
  function Multiplier(c: Category): int
  {
    if c == Retail then 1 else LotsPerApplication
  }

  /** `calculate_expected_lots(n, p, category)`: the expectation n * p
      rounded to a whole number of successful applications, times the lots
      each of them brings. */
  function ExpectedLots(n: int, p: real, category: Category): (lots: int)
    ensures lots % Multiplier(category) == 0
    ensures var m := Multiplier(category) as real;
      -0.5 * m <= lots as real - (n as real * p) * m <= 0.5 * m
    ensures var k := lots / Multiplier(category); var v := n as real * p;
      lots == k * Multiplier(category) &&
      -0.5 <= k as real - v <= 0.5 &&
      ((k as real - v == 0.5 || v - k as real == 0.5) ==> k % 2 == 0)
  {
    var basicExpectation := n as real * p;
    var applications := RoundHalfEven(basicExpectation);
    ScaledDistance(applications, basicExpectation, Multiplier(category));
    if category == Retail then applications
    else applications * LotsPerApplication
  }

  lemma ScaledDistance(k: int, v: real, m: int)
    requires m >= 1
    requires -0.5 <= k as real - v <= 0.5
    ensures -0.5 * (m as real) <= (k * m) as real - v * (m as real) <= 0.5 * (m as real)
  {
    var d := k as real - v;
    assert (k * m) as real - v * (m as real) == d * (m as real);
  }

  /** A big or small HNI figure is fourteen times the retail figure for the
      same n and p. */
  lemma HniIsFourteenTimesRetail(n: int, p: real, category: Category)
    requires category != Retail
    ensures ExpectedLots(n, p, category) == LotsPerApplication * ExpectedLots(n, p, Retail)
  {
  }

  lemma ExampleTenAtHalf()
    ensures ExpectedLots(10, 0.5, Retail) == 5
    ensures ExpectedLots(10, 0.5, Shni) == 70
  {
    RoundHalfEvenUnique(10.0 * 0.5, 5);
  }

  /** Ties go to the even neighbour: 0.5 gives 0 and 1.5 gives 2. */
  lemma ExampleTies()
    ensures ExpectedLots(1, 0.5, Retail) == 0
    ensures ExpectedLots(3, 0.5, Bhni) == 28
  {
    RoundHalfEvenUnique(1.0 * 0.5, 0);
    RoundHalfEvenUnique(3.0 * 0.5, 2);
  }
}
