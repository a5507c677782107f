# IPO allotment chance calculator — a verified model

This project models the computational core of a small IPO allotment calculator. The investor types an application string such as `2 retail bhni 3 shni`. The program turns it into a list of categories (retail, small HNI `shni`, big HNI `bhni`). For each category it takes a subscription ratio and derives the chance that one application wins a lot. It then reports, for k = 1 .. count, the probability of winning at least k lots and the expected number of lots.

Modules, one per part of `app.py`:

- `Wrappers`: the `Option` and `Result` values used for the program's error paths.
- `Categories`: the three categories and their lower-case tags.
- `Text`: the ASCII behaviour of the Python built-ins the parser uses (`lower`, `split`, `isdigit`, `int`).
- `InputParser`: `parse_application_input`. `ParseApplicationInput` is the index loop of the source. It is proved equal to `ParseTokens`, a recursive statement of the same grammar. That grammar is in turn characterised by `Render`, which spells a list of entries (`<digits> <tag>` or a bare tag) as tokens.
- `Combinatorics`: `calculate_combinations`. The factorial quotient is computed on exact reals and proved equal to `Choose`, the binomial coefficient defined by Pascal's rule.
- `Probability`: `calculate_probability`. `CalculateProbability` is the accumulating loop of the source. It is proved equal to `AtLeast`, defined as one minus the prefix sum of the binomial terms. The binomial theorem then ties `AtLeast` to the docstring's tail sum and gives its boundary values, bounds and monotonicity.
- `Lots`: `calculate_expected_lots`, with Python's round-half-to-even rounding.
- `Allotment`: the non-rendering part of `main`: `Counter(categories)`, the big-HNI adjustment of the ratio, `p = 1 / effective_subscription`, the loop over k, and the running total of expected lots.

Points where the code's behaviour may surprise a reader, and which the model keeps:

- `isdigit()` accepts `0`, so `0 retail` contributes no application. A count is any digit string, and leading zeros are allowed.
- A digit token with no token after it is checked as a category tag and fails, naming the digit. So does a second digit token after a count, as in `2 3`.
- `calculate_probability` has no domain check on p. It returns 1 for x <= 0, because the loop does not run. It raises the `ValueError` of `math.factorial` when x > 0 and either n < 0 or x > n + 1. The bounds and monotonicity lemmas assume 0 <= p <= 1. The input form allows ratios down to 0.1, so p can exceed 1. `Allotment.ExampleRatioBelowOne` and `Probability.ExampleProbabilityAboveOne` show that the computed "probability" is then not a probability.
- `round` is round-half-to-even: an expectation of 0.5 gives 0 lots, and 1.5 gives 2.
- Probabilities are exact reals, an idealisation of Python floats.

## Model

| member | source | states |
|---|---|---|
| `Categories.FromTag` | app.py:55-56 | a token is accepted exactly when it is the tag of some category, and the result is the category with that tag |
| `Text.Lower` | app.py:48 | `lower()` keeps the length, shifts each ASCII capital to its lower-case letter and keeps every other character |
| `Text.Split` | app.py:48 | every piece `split()` yields is non-empty and free of whitespace |
| `Text.SplitSkipsBlank` | app.py:48 | leading whitespace of any kind and length does not change the split |
| `Text.SplitToken` | app.py:48 | a token followed by a run of whitespace, or by nothing, is split off whole and splitting resumes after the run |
| `Text.SplitSpaced` | app.py:48 | `split()` returns the tokens whatever non-empty whitespace runs separate them, with any leading and trailing whitespace |
| `Text.SplitJoin` | app.py:48 | splitting tokens joined by single spaces gives the tokens back |
| `Text.LowerIdempotent` | app.py:48 | lower-casing leaves no upper-case letter and lower-casing twice changes nothing |
| `Text.DigitsValue` | app.py:53 | `int` of a digit string ignores a leading zero, so leading zeros are allowed |
| `Text.DecimalRoundTrip` | app.py:52-53 | for every n, `str(n)` passes `isdigit()` and `int` reads it back as n |
| `InputParser.ParseApplicationInput` | app.py:42-65 | the index loop returns exactly what the token grammar gives for the lower-cased, split input: the categories in token order, or the error naming the first bad token |
| `InputParser.ParseIsTokenParse` | app.py:44-48 | the empty-string shortcut agrees with parsing the tokens of the empty string |
| `InputParser.ParseBlank` | app.py:44-48 | empty or whitespace-only input yields an empty list, not an error |
| `InputParser.ParseCaseInsensitive` | app.py:48 | parsing an input and parsing its lower-cased form give the same result |
| `InputParser.RenderParses` | app.py:50-63 | any list of `<digits> <tag>` groups and bare tags, written out as tokens, parses to int(digits) copies of each counted tag and one copy of each bare tag, in order, and the length is the sum of the counts plus the number of bare tags |
| `InputParser.ParseSound` | app.py:50-63 | conversely, every token list that parses is such a written-out list of groups, and the categories are the ones those groups stand for |
| `InputParser.ParseFailsIff` | app.py:52-61 | the parse fails exactly when the tokens are not a written-out list of groups |
| `InputParser.FailureNamesToken` | app.py:50-61 | an error names a token of the input that is not a category tag, and it is the first token in category position: the tokens before it are well-formed groups followed by at most a count |
| `InputParser.FailsAtBadTag` | app.py:50-61 | conversely, well-formed groups followed by a non-tag in category position (after a count, or a token that cannot start a counted group) raise naming that token, whatever follows |
| `InputParser.FailureIff` | app.py:50-61 | the parse raises naming `t` exactly when `t` is not a tag and sits in the first category position the preceding groups leave |
| `InputParser.RenderedStringParses` | app.py:42-65 | the application string written with single spaces parses back to the categories its groups stand for |
| `InputParser.SpacedInputParses` | app.py:42-65 | any input that lower-cases to the groups written with arbitrary whitespace between, before and after the tokens parses to the categories the groups stand for |
| `InputParser.ExampleMixed` | app.py:42-65 | `2 retail bhni 3 shni` gives retail, retail, bhni, shni, shni, shni |
| `InputParser.ExampleUnknownCategory` | app.py:52-56 | `2 retail foo` fails naming `foo` |
| `InputParser.ExampleCountThenCount` | app.py:52-56 | `2 3` fails naming `3` |
| `InputParser.ExampleTrailingCount` | app.py:59-61 | `retail 2` fails naming the trailing count `2` |
| `InputParser.ExampleZeroCount` | app.py:52-58 | `0 retail shni` gives only shni: a zero count adds nothing |
| `Combinatorics.Fact` | app.py:10 | `math.factorial(n)` is at least 1 and at least n |
| `Combinatorics.FactorialFormula` | app.py:10 | n! = C(n,k) * k! * (n-k)! for 0 <= k <= n, so the factorial quotient has no remainder |
| `Combinatorics.Combinations` | app.py:8-10 | the quotient is defined exactly when 0 <= r <= n and is then the whole number C(n,r); otherwise it fails with the first negative factorial argument |
| `Combinatorics.CombinationsEnds` | app.py:8-10 | C(n,0) = C(n,n) = 1 |
| `Combinatorics.CombinationsSymmetric` | app.py:8-10 | C(n,r) = C(n,n-r) |
| `Combinatorics.ExampleFiveChooseTwo` | app.py:8-10 | C(5,2) = 10 |
| `Probability.CalculateProbability` | app.py:13-23 | the loop succeeds exactly when x <= 0 or 0 <= n and x <= n+1, and then returns one minus the sum of C(n,i) p^i (1-p)^(n-i) over i < x; otherwise it fails with factorial(n) for n < 0 or factorial(-1) |
| `Probability.BinomialTheorem` | app.py:14-23 | the sum over i = 0..n of C(n,i) a^i b^(n-i) is (a+b)^n |
| `Probability.TotalMass` | app.py:14-23 | the probabilities of 0..n successes add up to one, for every p |
| `Probability.AtLeastComplement` | app.py:18-23 | complement law: the result plus the probability of fewer than x successes is one |
| `Probability.AtLeastIsTail` | app.py:14-23 | the result equals the docstring's P(x) + P(x+1) + ... + P(n), for every p |
| `Probability.AtLeastNothing` | app.py:19-23 | for x <= 0 the result is exactly 1 |
| `Probability.AtLeastBeyondTrials` | app.py:14-23 | at x = n+1 the result is exactly 0 |
| `Probability.AtLeastOne` | app.py:14-23 | at x = 1 the result is 1 - (1-p)^n |
| `Probability.AtLeastAll` | app.py:14-23 | at x = n the result is p^n |
| `Probability.AtLeastBounds` | app.py:14-23 | for 0 <= p <= 1 the result lies in [0, 1] |
| `Probability.AtLeastMonotone` | app.py:14-23 | for 0 <= p <= 1 the result does not grow as x grows |
| `Probability.ExampleOneInTwo` | app.py:14-23 | one trial at p = 0.5 gives 0.5 |
| `Probability.ExampleProbabilityAboveOne` | app.py:18-23 | nothing bounds p: one trial at p = 10 gives 10 |
| `Lots.RoundHalfEven` | app.py:35 | `round` returns an integer within 1/2 of its argument, and on a tie the even one |
| `Lots.RoundHalfEvenUnique` | app.py:35 | those two properties determine the result |
| `Lots.ExpectedLots` | app.py:25-40 | the result is a whole number k of successful applications times the category's lots per application (1 for retail, 14 otherwise), where k is within 1/2 of n * p and, on a tie, even; these determine k (see `Lots.RoundHalfEvenUnique`) |
| `Lots.HniIsFourteenTimesRetail` | app.py:33-40 | for the same n and p a non-retail figure is 14 times the retail figure |
| `Lots.ExampleTenAtHalf` | app.py:25-40 | n = 10, p = 0.5 gives 5 for retail and 70 for shni |
| `Lots.ExampleTies` | app.py:35-39 | n * p = 0.5 gives 0 retail lots, and 1.5 gives 28 bhni lots |
| `Allotment.EffectiveSubscription` | app.py:113-115 | a positive ratio stays positive and never grows; only bhni is changed |
| `Allotment.LotProbability` | app.py:120 | p is positive and p times the effective subscription is one |
| `Allotment.LotProbabilityAtMostOne` | app.py:113-120 | p <= 1 exactly when the effective subscription is at least one |
| `Allotment.BhniFiveTimesLikelier` | app.py:113-120 | at the same ratio a bhni application is five times as likely to win as a retail one, and shni is as likely as retail |
| `Allotment.ExampleRatioBelowOne` | app.py:97-120 | at the form's minimum ratio 0.1 a retail application gets p = 10 |
| `Allotment.CountCategories` | app.py:105 | `Counter` has a key for each category present and maps it to its number of occurrences |
| `Allotment.Distinct` | app.py:105-112 | the categories the loop visits are those present, each once, in the order of their first occurrence in the input |
| `Allotment.CountsCoverAll` | app.py:105-112 | the counts the loop visits add up to the number of applications |
| `Allotment.CategoryOutcome` | app.py:113-128 | the percentages for k = 1..count are 100 times the at-least-k probabilities at p, and the lots are the expected lots at p; when the effective subscription is at least one every percentage is in [0, 100] and they do not increase with k |
| `Allotment.Evaluate` | app.py:105-129 | one outcome per category, in first-occurrence order, each with its count and its ratio's figures, and the total is the sum of their expected lots |
| `Allotment.OutcomesCoverAll` | app.py:105-112 | the counts of those outcomes add up to the number of applications parsed |
| `Allotment.ExampleOneRetailAtTwo` | app.py:112-128 | one retail application at ratio 2 has p = 0.5, a 50% chance of a lot and 0 expected lots |

## Left out

- The Streamlit interface (`main`'s titles, inputs, columns, button, writes, error and warning display, app.py:67-148) is not modelled. The subscription ratios it collects arrive as a map parameter of `Allotment.Evaluate`, with the form's minimum of 0.1 as a precondition.
- `@st.cache_data` (app.py:7, 12) only memoises results. The functions are modelled as pure, without a cache.
- Floating point is not modelled. Reals are exact, so rounding error in `**`, `/` and the factorial quotient is absent. So is the `OverflowError` that the float quotient raises for very large n.
- Unicode is not modelled. `lower`, `split` and `isdigit` are modelled on ASCII: the ASCII whitespace characters that `split()` recognises, `A`-`Z` for lower-casing, and `0`-`9` as digits. Other characters are treated as ordinary letters.
- The order in which `set(categories)` lays out the ratio inputs is not modelled (UI only), nor is the `.2f` formatting of the percentages.
- Exceptions other than the parser's `ValueError` and the factorial `ValueError` are not modelled (main only displays them).
