/** The computation `main` runs when the user asks for probabilities: count
    the applications per category, derive each category's lot probability
    from its subscription ratio, and collect the "at least k lots"
    percentages and the expected lots. */
module Allotment {
  import opened Categories
  import opened Wrappers
  import opened Probability
  import opened Lots

  /** The smallest subscription ratio the input form accepts. */
  const MinRatio: real := 0.1

  /** The big-HNI subscription ratio is divided by this before use. */
  const BhniDivisor: real := 5.0

  /** The ratio a category's lots are drawn against. */
  function EffectiveSubscription(c: Category, ratio: real): (s: real)
    ensures ratio > 0.0 ==> 0.0 < s <= ratio
    ensures c != Bhni ==> s == ratio
  {
    if c == Bhni then ratio / BhniDivisor else ratio
  }

  /** `p = 1 / effective_subscription`. */
  function LotProbability(c: Category, ratio: real): (p: real)
    requires ratio >= MinRatio
    ensures p > 0.0 && p * EffectiveSubscription(c, ratio) == 1.0
  {
    1.0 / EffectiveSubscription(c, ratio)
  }

  /** p is a genuine probability exactly when the category is at least
      fully subscribed after the adjustment. */
  lemma LotProbabilityAtMostOne(c: Category, ratio: real)
    requires ratio >= MinRatio
    ensures LotProbability(c, ratio) <= 1.0 <==> EffectiveSubscription(c, ratio) >= 1.0
  {
    var s, p := EffectiveSubscription(c, ratio), LotProbability(c, ratio);
    if p <= 1.0 {
      assert s == p * s + (1.0 - p) * s;
      assert (1.0 - p) * s >= 0.0;
    } else {
      assert s < 1.0 by {
        assert p * s == 1.0;
        assert (p - 1.0) * s > 0.0;
      }
    }
  }

  /** A big-HNI application is five times as likely to win as a retail or
      small-HNI application at the same ratio. */
  lemma BhniFiveTimesLikelier(ratio: real)
    requires ratio >= MinRatio
    ensures LotProbability(Bhni, ratio) == 5.0 * LotProbability(Retail, ratio)
    ensures LotProbability(Shni, ratio) == LotProbability(Retail, ratio)
  {
  }

  /** Below a ratio of one the lot "probability" exceeds one: at the form's
      minimum ratio a retail application gets p = 10. */
  lemma ExampleRatioBelowOne()
    ensures LotProbability(Retail, MinRatio) == 10.0
  {
  }

  /** `Counter(categories)`: how many times each category occurs. */
  function CountCategories(cats: seq<Category>): (counts: map<Category, nat>)
    ensures forall c :: c in counts <==> c in cats
    ensures forall c :: c in counts ==> counts[c] == multiset(cats)[c]
  {
    if cats == [] then map[]
    else
      var init := cats[..|cats| - 1];
      var c := cats[|cats| - 1];
      assert cats == init + [c];
      var counts := CountCategories(init);
      counts[c := (if c in counts then counts[c] else 0) + 1]
  }

  /** `x` occurs in `cats` before the first occurrence of `y`. */
  predicate MetBefore(cats: seq<Category>, x: Category, y: Category)
  {
    exists a :: 0 <= a < |cats| && cats[a] == x && y !in cats[..a]
  }

  /** Every category of `ds` occurs in `cats` before any occurrence of the
      categories that follow it in `ds`. */
  predicate FirstOccurrenceOrder(ds: seq<Category>, cats: seq<Category>)
  {
    forall i, j :: 0 <= i < j < |ds| ==> MetBefore(cats, ds[i], ds[j])
  }

  /** The categories in the order the counter first meets them, which is
      the order `category_counts.items()` visits them. */
  function Distinct(cats: seq<Category>): (ds: seq<Category>)
    ensures forall c :: c in ds <==> c in cats
    ensures forall i, j :: 0 <= i < j < |ds| ==> ds[i] != ds[j]
    ensures FirstOccurrenceOrder(ds, cats)
  {
    if cats == [] then []
    else
      var init := cats[..|cats| - 1];
      var c := cats[|cats| - 1];
      assert cats == init + [c];
      var ds := Distinct(init);
      OrderExtends(ds, init, c);
      if c in init then ds else ds + [c]
  }

  /** Appending a category to the input keeps the order of those already
      met, and a new category comes after all of them. */
  lemma OrderExtends(ds: seq<Category>, init: seq<Category>, c: Category)
    requires FirstOccurrenceOrder(ds, init)
    requires forall d :: d in ds <==> d in init
    ensures FirstOccurrenceOrder(ds, init + [c])
    ensures c !in init ==> FirstOccurrenceOrder(ds + [c], init + [c])
  {
    var cats := init + [c];
    forall i, j | 0 <= i < j < |ds|
      ensures MetBefore(cats, ds[i], ds[j])
    {
      var a :| 0 <= a < |init| && init[a] == ds[i] && ds[j] !in init[..a];
      assert cats[..a] == init[..a];
    }
    if c !in init {
      var es := ds + [c];
      forall i, j | 0 <= i < j < |es|
        ensures MetBefore(cats, es[i], es[j])
      {
        if j < |ds| {
          assert es[i] == ds[i] && es[j] == ds[j];
        } else {
          assert es[i] == ds[i] && ds[i] in init;
          var a :| 0 <= a < |init| && init[a] == ds[i];
          assert cats[a] == es[i] && cats[..a] == init[..a];
          assert es[j] == c;
        }
      }
    }
  }

  /** The number of applications each of `ds` has in `cats`, added up. */
  function SumCounts(ds: seq<Category>, cats: seq<Category>): nat
  {
    if ds == [] then 0 else multiset(cats)[ds[0]] + SumCounts(ds[1..], cats)
  }

  lemma {:induction false} SumCountsAppend(ds: seq<Category>, cats: seq<Category>, c: Category)
    requires forall i, j :: 0 <= i < j < |ds| ==> ds[i] != ds[j]
    ensures SumCounts(ds, cats + [c]) == SumCounts(ds, cats) + (if c in ds then 1 else 0)
  {
    if ds != [] {
      SumCountsAppend(ds[1..], cats, c);
      assert c in ds[1..] ==> ds[0] != c;
      assert c in ds <==> c == ds[0] || c in ds[1..];
    }
  }

  lemma {:induction false} SumCountsSnoc(ds: seq<Category>, d: Category, cats: seq<Category>)
    ensures SumCounts(ds + [d], cats) == SumCounts(ds, cats) + multiset(cats)[d]
  {
    if ds != [] {
      assert (ds + [d])[1..] == ds[1..] + [d];
      SumCountsSnoc(ds[1..], d, cats);
    }
  }

  /** Every application is counted once: the per-category counts the loop
      visits add up to the number of applications. */
  lemma {:induction false} CountsCoverAll(cats: seq<Category>)
    ensures SumCounts(Distinct(cats), cats) == |cats|
  {
    if cats != [] {
      var init := cats[..|cats| - 1];
      var c := cats[|cats| - 1];
      assert cats == init + [c];
      CountsCoverAll(init);
      SumCountsAppend(Distinct(init), init, c);
      if c !in init {
        SumCountsSnoc(Distinct(init), c, cats);
      }
    }
  }

  /** "At least k lots", in percent, for k = 1 .. count. */
  function Percents(count: nat, p: real): (ps: seq<real>)
    ensures |ps| == count
  {
    seq(count, k requires 0 <= k < count => AtLeast(count, k + 1, p) * 100.0)
  }

  /** The figures shown for one category. */
  datatype Outcome = Outcome(category: Category, count: nat, percents: seq<real>, lots: int)

  /** The per-category body of `main`'s loop, without the rendering. */
  method CategoryOutcome(category: Category, count: nat, ratio: real) returns (percents: seq<real>, lots: int)
    requires ratio >= MinRatio
    ensures percents == Percents(count, LotProbability(category, ratio))
    ensures lots == ExpectedLots(count, LotProbability(category, ratio), category)
    ensures EffectiveSubscription(category, ratio) >= 1.0 ==>
      (forall k :: 0 <= k < count ==> 0.0 <= percents[k] <= 100.0) &&
      (forall k, l :: 0 <= k <= l < count ==> percents[l] <= percents[k])
  {
    var p := LotProbability(category, ratio);
    percents := [];
    var i := 1;
    while i <= count
      invariant 1 <= i <= count + 1
      invariant |percents| == i - 1
      invariant forall k :: 0 <= k < i - 1 ==> percents[k] == AtLeast(count, k + 1, p) * 100.0
    {
      var r := CalculateProbability(count, i, p);
      percents := percents + [r.value * 100.0];
      i := i + 1;
    }
    lots := ExpectedLots(count, p, category);
    if EffectiveSubscription(category, ratio) >= 1.0 {
      LotProbabilityAtMostOne(category, ratio);
      forall k | 0 <= k < count
        ensures 0.0 <= percents[k] <= 100.0
      {
        AtLeastBounds(count, k + 1, p);
      }
      forall k, l | 0 <= k <= l < count
        ensures percents[l] <= percents[k]
      {
        AtLeastMonotone(count, k + 1, l + 1, p);
      }
    }
  }

  function TotalLots(outcomes: seq<Outcome>): int
  {
    if outcomes == [] then 0 else TotalLots(outcomes[..|outcomes| - 1]) + outcomes[|outcomes| - 1].lots
  }

  function TotalCount(outcomes: seq<Outcome>): int
  {
    if outcomes == [] then 0 else TotalCount(outcomes[..|outcomes| - 1]) + outcomes[|outcomes| - 1].count
  }

  /** What `main` computes for one category, given its ratio. */
  function OutcomeOf(category: Category, count: nat, ratio: real): Outcome
    requires ratio >= MinRatio
  {
    var p := LotProbability(category, ratio);
    Outcome(category, count, Percents(count, p), ExpectedLots(count, p, category))
  }

  /** `main`'s loop over `category_counts.items()`, accumulating
      `total_expected_lots`. */
  method Evaluate(categories: seq<Category>, ratios: map<Category, real>) returns (outcomes: seq<Outcome>, total: int)
    requires forall c :: c in categories ==> c in ratios && ratios[c] >= MinRatio
    ensures |outcomes| == |Distinct(categories)|
    ensures forall j :: 0 <= j < |outcomes| ==>
      var c := Distinct(categories)[j];
      outcomes[j] == OutcomeOf(c, multiset(categories)[c], ratios[c])
    ensures total == TotalLots(outcomes)
  {
    var categoryCounts := CountCategories(categories);
    var order := Distinct(categories);
    outcomes := [];
    total := 0;
    var j := 0;
    while j < |order|
      invariant 0 <= j <= |order|
      invariant |outcomes| == j
      invariant forall i :: 0 <= i < j ==>
        outcomes[i] == OutcomeOf(order[i], multiset(categories)[order[i]], ratios[order[i]])
      invariant total == TotalLots(outcomes)
    {
      var category := order[j];
      var count := categoryCounts[category];
      var percents, lots := CategoryOutcome(category, count, ratios[category]);
      var outcome := Outcome(category, count, percents, lots);
      var next := outcomes + [outcome];
      assert next[..j] == outcomes;
      outcomes := next;
      total := total + lots;
      j := j + 1;
    }
  }

  /** The counts of the outcomes `main`'s loop produces add up to the
      number of applications parsed. */
  lemma OutcomesCoverAll(categories: seq<Category>, outcomes: seq<Outcome>)
    requires |outcomes| == |Distinct(categories)|
    requires forall j :: 0 <= j < |outcomes| ==>
      outcomes[j].count == multiset(categories)[Distinct(categories)[j]]
    ensures TotalCount(outcomes) == |categories|
  {
    var ds := Distinct(categories);
    var j := 0;
    while j < |outcomes|
      invariant 0 <= j <= |outcomes|
      invariant TotalCount(outcomes[..j]) == SumCounts(ds[..j], categories)
    {
      assert outcomes[..j + 1][..j] == outcomes[..j];
      assert ds[..j + 1] == ds[..j] + [ds[j]];
      SumCountsSnoc(ds[..j], ds[j], categories);
      j := j + 1;
    }
    assert outcomes[..j] == outcomes && ds[..j] == ds;
    CountsCoverAll(categories);
  }

  /** One retail application at a ratio of two: a 50% chance of a lot, and
      an expected 0 lots because round(0.5) is 0. */
  lemma ExampleOneRetailAtTwo()
    ensures LotProbability(Retail, 2.0) == 0.5
    ensures OutcomeOf(Retail, 1, 2.0).percents == [50.0]
    ensures OutcomeOf(Retail, 1, 2.0).lots == 0
  {
    ExampleOneInTwo();
    ExampleTies();
  }
}
