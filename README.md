# Ohio county rules for GerryChain, in Dafny

This project models two parts of a GerryChain fork that draws Ohio senate
plans with a Markov chain:

- **The county-rule scorer** (`gerrychain/updaters/ohio_county_violations.py`).
  - `compute_county_ratios` measures each county's population in ideal
    senate districts (33 seats) and ideal house districts (99 seats).
  - `compute_recom_ohio_county_violations` counts the counties that break
    three rules of the Ohio constitution:
    - B(1)(1): a county with a whole senate ratio holds as many whole
      districts as it has whole ratios.
    - B(1)(2): the excess population of a county goes to only one adjoining
      district.
    - B(2): a county below one senate ratio but with a house ratio lies in a
      single senate district.
  - `ohio_recom_county_violations` binds the two ratio tables to that scorer.
- **The acceptance rules** (`gerrychain/accept.py`).
  - `always_accept`.
  - `swap_county_accept` and `recom_county_accept`: Metropolis rules on the
    summed violation vector.
  - `cut_edge_accept`: a Metropolis rule on the number of cut edges.

The files:

- `wrappers.dfy`: `Option` and `Result`.
- `sums.dfy`: sums of map values over a set of keys, taken in any order.
- `county_ratios.dfy`: the ratio tables.
  - The county populations are built by a loop over the blocks.
  - The state population is summed over the counties in any order.
  - The lemmas prove three things. The county populations add up to the
    state population. The senate ratios sum to 33 and the house ratios to 99.
    A house ratio is three times the senate ratio.
  - Every threshold test, floor and ceiling on a ratio is shown equal to an
    integer test on the populations.
- `county_violations.dfy`: the scorer.
  - It first builds the inverse index, the counties of each district 0 to 32.
  - It then walks the senate table once, keeping the three counters.
  - Both loops are proved against the declarative score `Score`. In `Score`
    each counter is the number of counties that break a rule, and each lookup
    the source can fail on becomes an error value.
- `recom_chain.dfy`: how the acceptance rule reads the scorer's vector.
- `accept.dfy`: the acceptance rules.
  - The uniform draw from `random.random()` is a parameter.
  - A partition is reduced to what the rules read: its scores by updater
    key, its number of cut edges, and its parent.

## Model

| member | source | states |
|---|---|---|
| `CountyRatios.CountyCodes` | gerrychain/updaters/ohio_county_violations.py:14 | Definition: the set of county codes that some block carries. |
| `CountyRatios.CountyCodesBounded` | gerrychain/updaters/ohio_county_violations.py:14 | There are at most as many county codes as blocks. |
| `CountyRatios.CountyPopulations` | gerrychain/updaters/ohio_county_violations.py:13-19 | The result has one entry per county code that some block carries. Each entry is the summed population of that county's blocks. |
| `CountyRatios.StatePopulation` | gerrychain/updaters/ohio_county_violations.py:22 | The state population is the sum of the county populations, whatever order the counties are visited in. |
| `CountyRatios.ComputeCountyRatios` | gerrychain/updaters/ohio_county_violations.py:4-30 | The result is the pair of ratio tables `RatiosOf(blocks)`, house first. It fails when there are counties but the state population is zero. |
| `CountyRatios.Ratio` | gerrychain/updaters/ohio_county_violations.py:23-28 | `pop / (state_pop / seats)` is the non-negative number that, times the state population, gives `seats * pop`. |
| `CountyRatios.RatiosOf` | gerrychain/updaters/ohio_county_violations.py:14-30 | It fails exactly when the state population is 0 and some county exists; the divisions at :27-28 then divide by zero. Otherwise both tables have exactly the county codes as keys. |
| `CountyRatios.Ratios` | gerrychain/updaters/ohio_county_violations.py:27-28 | Each table has exactly the county codes of the population table as keys. |
| `CountyRatios.Ceil` | gerrychain/updaters/ohio_county_violations.py:88 | `math.ceil`: the least integer at or above the ratio. |
| `CountyRatios.CountyTotalsSnoc` | gerrychain/updaters/ohio_county_violations.py:18-19 | Adding one block adds its population to its own county, creating that county at 0 if needed. The other counties are unchanged. |
| `CountyRatios.CountyTotalsSum` | gerrychain/updaters/ohio_county_violations.py:14-22 | The county populations add up to the population of all blocks. |
| `CountyRatios.RatioExact` | gerrychain/updaters/ohio_county_violations.py:23-28 | `pop / (state_pop / seats)` equals `seats * pop / state_pop`. |
| `CountyRatios.HouseRatioIsThreeSenate` | gerrychain/updaters/ohio_county_violations.py:23-28 | Both tables have exactly the county codes as keys. Every house ratio is three times the senate ratio. |
| `CountyRatios.RatioSum` | gerrychain/updaters/ohio_county_violations.py:27-28 | The ratios of a set of counties add up to the ratio of their joint population. |
| `CountyRatios.RatiosSumToSeats` | gerrychain/updaters/ohio_county_violations.py:22-28 | With a positive state population, the senate ratios sum to 33 and the house ratios to 99. |
| `CountyRatios.RatioBelow` | gerrychain/updaters/ohio_county_violations.py:58 | `ratio < num/den` holds exactly when `seats * pop * den < num * state_pop`. |
| `CountyRatios.RatioAbove` | gerrychain/updaters/ohio_county_violations.py:87 | `ratio > num/den` holds exactly when `seats * pop * den > num * state_pop`. |
| `CountyRatios.RatioFloor` | gerrychain/updaters/ohio_county_violations.py:81 | `math.floor` of a ratio is the integer quotient `seats * pop / state_pop`. |
| `CountyRatios.RatioCeil` | gerrychain/updaters/ohio_county_violations.py:88 | `math.ceil` of a ratio is the integer quotient rounded up. |
| `CountyViolations.DistrictRange` | gerrychain/updaters/ohio_county_violations.py:44 | The inverse index's keys are exactly the district ids 0 to 32. |
| `CountyViolations.Forward` | gerrychain/updaters/ohio_county_violations.py:41 | The forward index has exactly the house table's counties as keys. Each holds that county's split list unchanged. |
| `CountyViolations.AppendAll` | gerrychain/updaters/ohio_county_violations.py:47-48 | Appending a county to the lists of its districts keeps the index's key set. |
| `CountyViolations.AddCounty` | gerrychain/updaters/ohio_county_violations.py:47-48 | It fails exactly when some district of the list is not a key of the index. Otherwise each district's list gains the county once for every time the district is listed, and nothing else changes. The total length grows by the length of the list. |
| `CountyViolations.AppendAllAppended` | gerrychain/updaters/ohio_county_violations.py:47-48 | After any prefix of the district list has been processed, the lists hold the old contents plus the county repeated per occurrence. |
| `CountyViolations.IndexesStep` | gerrychain/updaters/ohio_county_violations.py:46-48 | Adding one more county's districts preserves the inverse-index invariant over the counties seen so far. That invariant covers per-district counts, list lengths and the total length. |
| `CountyViolations.BuildInverse` | gerrychain/updaters/ohio_county_violations.py:43-48 | It fails exactly when some county lists a district outside 0 to 32. Otherwise the result is the inverse of the forward index. Each district's list holds each county as often as that county lists the district. |
| `CountyViolations.InverseIsTranspose` | gerrychain/updaters/ohio_county_violations.py:43-48 | A county is in a district's list exactly when that district is in the county's list. |
| `CountyViolations.SizesOfInverse` | gerrychain/updaters/ohio_county_violations.py:65 | The list lengths of the inverse index are the occupancies of the districts in the forward index. |
| `CountyViolations.WhollyWithin` | gerrychain/updaters/ohio_county_violations.py:65 | The count is at most the number of districts touching the county. It equals that number exactly when every touching district touches one county. It is zero exactly when none does. |
| `CountyViolations.SizeOneMeansWhollyWithin` | gerrychain/updaters/ohio_county_violations.py:65 | A district whose inverse list has length 1 touches only this county, and the county lists it once. |
| `CountyViolations.ExpectedWhollyWithin` | gerrychain/updaters/ohio_county_violations.py:76-82 | A county at or above 0.95 is expected to hold at least one whole district. At or above 1 it is expected to hold the floor of its ratio. |
| `CountyViolations.BreaksB2` | gerrychain/updaters/ohio_county_violations.py:58-60 | Definition of rule B(2): senate ratio below 0.95, house ratio at least 0.95, more than one touching district. |
| `CountyViolations.BreaksB11` | gerrychain/updaters/ohio_county_violations.py:62-82 | Definition of rule B(1)(1): senate ratio at least 0.95, and the whole districts differ from the expected number. |
| `CountyViolations.BreaksB12` | gerrychain/updaters/ohio_county_violations.py:87-89 | Definition of rule B(1)(2): senate ratio above 1.05, and more touching districts than the ceiling of the ratio. |
| `CountyViolations.Tally` | gerrychain/updaters/ohio_county_violations.py:51-90 | Each counter is the number of senate-table counties breaking its rule. B(2) excludes the other two rules, so `b_1_1 + b_2` and `b_1_2 + b_2` are each at most the number of counties. |
| `CountyViolations.Score` | gerrychain/updaters/ohio_county_violations.py:33-90 | The declarative scorer. It fails with the first failing lookup: a missing split (:41), a district outside 0 to 32 (:48), a missing house ratio (:58/:65). A success implies every senate county has a house ratio and every house county has a split, and carries the bounds of `Tally`. |
| `CountyViolations.BreakingStep` | gerrychain/updaters/ohio_county_violations.py:53-89 | Scanning one more county raises a rule's count by one exactly when that county breaks the rule. |
| `CountyViolations.TallyViolations` | gerrychain/updaters/ohio_county_violations.py:51-90 | It fails with a missing house ratio exactly when a senate county is missing from the house table. Otherwise it returns the numbers of counties breaking B(1)(1), B(1)(2) and B(2). |
| `CountyViolations.ComputeRecomOhioCountyViolations` | gerrychain/updaters/ohio_county_violations.py:33-90 | The result is the declarative score of the splits and the two tables, including the first lookup that fails. |
| `CountyViolations.RecomCountyViolations.Apply` | gerrychain/updaters/ohio_county_violations.py:93-100 | The partial with both tables bound scores a plan exactly as the scorer does. |
| `CountyViolations.SmallCountyRules` | gerrychain/updaters/ohio_county_violations.py:58-60 | A county below 0.95 senate ratios never breaks B(1)(1) or B(1)(2). It breaks B(2) exactly when its house ratio is at least 0.95 and more than one district touches it. |
| `CountyViolations.LargeCountyRules` | gerrychain/updaters/ohio_county_violations.py:62-89 | A county at or above 0.95 never breaks B(2). It breaks B(1)(1) exactly when its whole districts differ from the expected number. It breaks B(1)(2) exactly when it is above 1.05 and more districts touch it than the ceiling of its ratio. |
| `CountyViolations.MissingHouseRatioFails` | gerrychain/updaters/ohio_county_violations.py:58-65 | A senate county missing from the house table makes the scorer fail rather than default. |
| `CountyViolations.ScoreErrors` | gerrychain/updaters/ohio_county_violations.py:41-65 | The scorer fails in exactly three cases: a house county has no split entry, a split lists a district outside 0 to 32, or a senate county has no house ratio. |
| `CountyViolations.RulesInPopulationTerms` | gerrychain/updaters/ohio_county_violations.py:58-89 | On ratios computed from blocks, B(2), B(1)(2) and the expected whole-district count are exact integer tests on the county and state populations. |
| `CountyViolations.B2InPopulationTerms` | gerrychain/updaters/ohio_county_violations.py:58-60 | B(2) holds exactly when `3300 pop < 95 S <= 9900 pop` and more than one district touches the county. |
| `CountyViolations.B12InPopulationTerms` | gerrychain/updaters/ohio_county_violations.py:87-89 | B(1)(2) holds exactly when `3300 pop > 105 S` and the touching districts outnumber `ceil(33 pop / S)`. |
| `CountyViolations.ExpectedInPopulationTerms` | gerrychain/updaters/ohio_county_violations.py:76-82 | The expected whole-district count is 1 below one ratio and `33 pop / S` (integer division) otherwise. |
| `Accept.AlwaysAccept` | gerrychain/accept.py:5-6 | Every proposal is accepted. |
| `Accept.Sum` | gerrychain/accept.py:22-23 | A violation vector with no negative entries has a non-negative sum. |
| `Accept.Min` | gerrychain/accept.py:24 | `min(1, x)`: the result is at most both arguments and is one of them. |
| `Accept.NatPow` | gerrychain/accept.py:24 | A natural power of a nonzero base is nonzero, of a positive base positive, of 1 equal to 1, and of a base at least 1 at least 1. |
| `Accept.Pow` | gerrychain/accept.py:24 | `ell ** k`: a negative power times the matching positive power is 1, so zero has no negative power. A positive base gives a positive power; base 1 gives 1; a base at least 1 with `k >= 0` gives at least 1. |
| `RecomChain.ViolationTotal` | gerrychain/accept.py:42-43 | The rule's `sum` of a score vector `[b_1_1, b_1_2, b_2]` is the total number of violations. |
| `RecomChain.ScoreSumBounded` | gerrychain/accept.py:42-43 | The summed score of a plan that scores without error lies between 0 and twice the number of counties. |
| `Accept.MetropolisBound` | gerrychain/accept.py:24 | It fails exactly when `ell` is 0 and the score grew. Otherwise the bound is at most 1, and positive when `ell > 0`. |
| `Accept.CountyBound` | gerrychain/accept.py:19-24 | The bound is 1 for the initial partition and at most 1 otherwise. A missing score under the key fails. |
| `Accept.Decide` | gerrychain/accept.py:26 | It accepts exactly when the draw is below the bound. It fails exactly when the bound failed. |
| `Accept.SwapCountyAccept` | gerrychain/accept.py:8-26 | The initial partition is accepted on any draw below 1. It fails exactly on a missing score or on `0 ** negative`. Otherwise it accepts exactly when the draw is below both 1 and `ell ** (parent - new)`. |
| `Accept.RecomCountyAccept` | gerrychain/accept.py:28-46 | The same as the swap rule, on the recombination violations. |
| `Accept.CutEdgeBound` | gerrychain/accept.py:56-59 | It fails exactly when a proposal with a parent has no cut edges. Otherwise the bound lies in [0, 1], and it is 1 for the initial partition. |
| `Accept.CutEdgeAccept` | gerrychain/accept.py:48-61 | It fails exactly when a proposal with a parent has no cut edges. Otherwise it accepts exactly when `draw < 1` and `draw * cut edges < parent cut edges`. |
| `Accept.InitialProposalAccepted` | gerrychain/accept.py:19-61 | Every rule accepts the initial partition on any draw in [0, 1). |
| `Accept.UnitEllBound` | gerrychain/accept.py:24 | With the default `ell = 1` the bound is 1, whatever the scores. |
| `Accept.ImprovementBound` | gerrychain/accept.py:24 | With `ell >= 1`, a proposal with no more violations than its parent gets bound 1. |
| `Accept.WorseningBound` | gerrychain/accept.py:24 | With `ell > 1`, a proposal with more violations gets bound `1 / ell ** increase`, strictly between 0 and 1. |
| `Accept.WorseningBoundDecreases` | gerrychain/accept.py:44 | With `ell > 1`, a larger increase in violations gives a strictly smaller bound. |
| `Accept.SwapRecomSameBound` | gerrychain/accept.py:8-46 | The swap and recombination rules decide alike when the violation sums under their two keys agree. |
| `Accept.CutEdgeBoundCases` | gerrychain/accept.py:56-59 | The bound is 1 when the proposal has no more cut edges than its parent. When it has more, the bound is the ratio of cut-edge counts, below 1. |

## Left out

- Reading the census blocks from `oh_pl2020_p1_b.zip` (geopandas) is left out. The blocks are a parameter `seq<Block>` holding the `COUNTY` and `P0010001` columns.
- Floating point is left out. Ratios, `ell`, the bound and the draw are exact reals. Rounding and the `OverflowError` of a huge power are not modelled. `.95` and `1.05` are the exact decimals.
- `random.random()` is left out. The draw is a parameter, and the rules state their result for every draw.
- The partition's internals are left out, as are `partition[county_split_updater]`, the updater key and the first two fields of each county-split entry. The scorer takes the third field, the districts touching each county, as a map. The acceptance rules take the stored violation vectors and the cut-edge count.
- Dict iteration order is not modelled. Loops over dict entries pick any remaining key. The result never depends on the order, because only counts, lengths and membership are used. When several counties lack a house ratio, every order fails with the same error.
- A district id that is not an integer at all cannot occur: ids are `int`.
- `swap_county_accept` reads the key `swap_ohio_county_violations`, whose updater is not part of this model. The rule is modelled; the swap scorer is not.
- `MissingHouseRatio` is the one error for a senate county absent from the house table. The source raises it at line 58 or line 65, depending on the branch.
- The default `ell = 1` of `swap_county_accept` and `recom_county_accept` (accept.py:9 and :29) is not a default here. Callers always pass `ell`; `Accept.UnitEllBound` states what the default gives.
- `cut_edge_accept` reading the `"cut_edges"` updater cannot fail here, because the cut-edge count is a field of every partition. The county rules, by contrast, model a missing score key as `MissingScore`.
- `cut_edge_accept`'s docstring says the flip is always accepted when the number of cut edges increases. The code divides the parent's count by the proposal's count, so an increase gives a bound below 1. The model follows the code, as `Accept.CutEdgeBoundCases` states.
- The docstrings of the two county rules say a worse plan is accepted "with probability proportional to increase". The code uses `ell ** (parent - new)`, which decays exponentially. The model follows the code.
