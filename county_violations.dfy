/**
 * The Ohio county-rule scorer for a recombination chain.  Given, for each
 * county, the senate districts that touch it, it counts the counties that
 * break rule B(1)(1) (a county with at least one whole senate ratio holds
 * as many whole districts as whole ratios), rule B(1)(2) (the excess of a
 * large county goes to only one adjoining district) and rule B(2) (a county
 * below one senate ratio but with a house ratio lies in one senate district).
 */
module CountyViolations {
  import opened Wrappers
  import opened Sums
  import opened CountyRatios

  /** A senate district id; valid ids are 0 .. 32. */
  type District = int

  /** Lower threshold at which a county counts as one whole senate ratio. */
  const WHOLE_RATIO_LOW: real := 0.95
  /** Upper threshold above which a county has population in excess of a whole ratio. */
  const WHOLE_RATIO_HIGH: real := 1.05

  /** The score `[b_1_1, b_1_2, b_2]`. */
  datatype Violations = Violations(b11: nat, b12: nat, b2: nat) {
    function AsList(): seq<nat> {
      [b11, b12, b2]
    }
  }

  /** The lookups of the source that raise `KeyError`. */
  datatype ScoreError =
    | MissingCountySplit   // a county of the house table has no county-split entry
    | DistrictOutOfRange   // a district id is not one of 0 .. 32
    | MissingHouseRatio    // a county of the senate table is not in the house table

  /** A valid senate district id, one of Python's `range(33)`. */
  predicate IsDistrict(s: District) {
    0 <= s < SENATE_SEATS
  }

  /** The senate district ids `0 .. 32`, the keys of the inverse index. */
  function DistrictRange(): (ids: set<District>)
    ensures forall s :: s in ids <==> IsDistrict(s)
  {
    // The bounds make the set finite; `IsDistrict(s)` gives its quantifier a trigger.
    set s | 0 <= s < SENATE_SEATS && IsDistrict(s)
  }

  /** The forward index: for each county of the house table, the districts touching it. */
  function Forward(splits: map<CountyCode, seq<District>>, house: map<CountyCode, real>): (fwd: map<CountyCode, seq<District>>)
    requires house.Keys <= splits.Keys
    ensures fwd.Keys == house.Keys
    ensures forall c :: c in fwd ==> fwd[c] == splits[c]
  {
    map c | c in house :: splits[c]
  }

  predicate DistrictsInRange(fwd: map<CountyCode, seq<District>>) {
    forall c, k :: c in fwd && 0 <= k < |fwd[c]| ==> IsDistrict(fwd[c][k])
  }

  /** How often district `s` occurs in the lists of the counties `cs`. */
  ghost function Occupancy(fwd: map<CountyCode, seq<District>>, s: District, cs: set<CountyCode>): nat
    requires cs <= fwd.Keys
  {
    SumOver(map c | c in fwd :: multiset(fwd[c])[s], cs)
  }

  /** The number of counties each district touches, counted with repetition. */
  ghost function Sizes(fwd: map<CountyCode, seq<District>>): map<District, nat> {
    map s | s in DistrictRange() :: Occupancy(fwd, s, fwd.Keys)
  }

  function Lengths<K, V>(m: map<K, seq<V>>): map<K, nat> {
    map k | k in m :: |m[k]|
  }

  /** Each list of `inv` holds each county `c` of `cs` once per occurrence of its district in `fwd[c]`. */
  ghost predicate CountsOf(fwd: map<CountyCode, seq<District>>, cs: set<CountyCode>, inv: map<District, seq<CountyCode>>)
    requires cs <= fwd.Keys
  {
    forall s, c :: s in inv ==> multiset(inv[s])[c] == if c in cs then multiset(fwd[c])[s] else 0
  }

  /** The list of each district in `inv` is as long as the district's occupancy over `cs`. */
  ghost predicate LengthsOf(fwd: map<CountyCode, seq<District>>, cs: set<CountyCode>, inv: map<District, seq<CountyCode>>)
    requires cs <= fwd.Keys
  {
    forall s :: s in inv ==> |inv[s]| == Occupancy(fwd, s, cs)
  }

  /**
   * `inv` indexes the counties `cs` of `fwd` by district: one list per
   * district id, holding each county of `cs` once per occurrence of the
   * district in that county's list, and nothing else.
   */
  ghost predicate Indexes(fwd: map<CountyCode, seq<District>>, cs: set<CountyCode>, inv: map<District, seq<CountyCode>>)
    requires cs <= fwd.Keys
  {
    && inv.Keys == DistrictRange()
    && CountsOf(fwd, cs, inv)
    && LengthsOf(fwd, cs, inv)
    && SumOver(Lengths(inv), inv.Keys) == SumOver(Lengths(fwd), cs)
  }

  /** `inv` is the inverse index of `fwd`. */
  ghost predicate IsInverse(fwd: map<CountyCode, seq<District>>, inv: map<District, seq<CountyCode>>) {
    Indexes(fwd, fwd.Keys, inv)
  }

  /** `n` copies of `x`. */
  function Repeat(x: CountyCode, n: nat): (r: seq<CountyCode>)
    ensures |r| == n
    ensures forall c :: multiset(r)[c] == if c == x then n else 0
  {
    if n == 0 then [] else Repeat(x, n - 1) + [x]
  }

  /** `out` is `inv` with `county` appended to each district's list once per occurrence of the district in `sList`. */
  ghost predicate Appended(inv: map<District, seq<CountyCode>>, county: CountyCode, sList: seq<District>,
                           out: map<District, seq<CountyCode>>)
  {
    && AppendedLists(inv, county, sList, out)
    && SumOver(Lengths(out), inv.Keys) == SumOver(Lengths(inv), inv.Keys) + |sList|
  }

  ghost predicate AppendedLists(inv: map<District, seq<CountyCode>>, county: CountyCode, sList: seq<District>,
                                out: map<District, seq<CountyCode>>)
  {
    && out.Keys == inv.Keys
    && forall s :: s in inv ==> out[s] == inv[s] + Repeat(county, multiset(sList)[s])
  }

  /** The index `inv` after appending `county` to the list of each district of `sList` in turn. */
  function AppendAll(inv: map<District, seq<CountyCode>>, county: CountyCode, sList: seq<District>)
    : (out: map<District, seq<CountyCode>>)
    requires forall k :: 0 <= k < |sList| ==> sList[k] in inv
    ensures out.Keys == inv.Keys
  {
    if sList == [] then inv
    else
      var prev := AppendAll(inv, county, sList[..|sList| - 1]);
      var sDist := sList[|sList| - 1];
      prev[sDist := prev[sDist] + [county]]
  }

  /**
   * Appends `county` to the list of every district in `sList`, in order;
   * fails on the first district id that is not a key of the index.
   */
  method AddCounty(inv: map<District, seq<CountyCode>>, county: CountyCode, sList: seq<District>)
    returns (r: Result<map<District, seq<CountyCode>>, ScoreError>)
    ensures r.Err? <==> exists k :: 0 <= k < |sList| && sList[k] !in inv
    ensures r.Err? ==> r.error == DistrictOutOfRange
    ensures r.Ok? ==> Appended(inv, county, sList, r.value)
  {
    var acc := inv;
    for j := 0 to |sList|
      invariant forall k :: 0 <= k < j ==> sList[k] in inv
      invariant acc == AppendAll(inv, county, sList[..j])
    {
      var sDist := sList[j];
      if sDist !in acc {
        return Err(DistrictOutOfRange);
      }
      assert sList[..j + 1][..j] == sList[..j];
      acc := acc[sDist := acc[sDist] + [county]];
    }
    assert sList[..|sList|] == sList;
    AppendAllAppended(inv, county, sList, |sList|);
    r := Ok(acc);
  }

  /** AppendAll appends `county` once per occurrence of each district in `sList`. */
  lemma {:induction false} AppendAllAppended(inv: map<District, seq<CountyCode>>, county: CountyCode,
                                             sList: seq<District>, j: nat)
    requires forall k :: 0 <= k < |sList| ==> sList[k] in inv
    requires j <= |sList|
    ensures Appended(inv, county, sList[..j], AppendAll(inv, county, sList[..j]))
  {
    if j == 0 {
      assert sList[..0] == [];
    } else {
      AppendAllAppended(inv, county, sList, j - 1);
      assert sList[..j][..j - 1] == sList[..j - 1];
      AppendStep(inv, county, sList, j - 1, AppendAll(inv, county, sList[..j - 1]));
    }
  }

  lemma AppendStep(inv: map<District, seq<CountyCode>>, county: CountyCode, sList: seq<District>, j: nat,
                   acc: map<District, seq<CountyCode>>)
    requires j < |sList| && sList[j] in inv
    requires Appended(inv, county, sList[..j], acc)
    ensures Appended(inv, county, sList[..j + 1], acc[sList[j] := acc[sList[j]] + [county]])
  {
    var sDist := sList[j];
    AppendListsStep(inv, county, sList, j, acc);
    LengthsUpdate(acc, sDist, acc[sDist] + [county]);
    SumOverUpdate(Lengths(acc), inv.Keys, sDist, |acc[sDist]| + 1);
  }

  lemma LengthsUpdate(m: map<District, seq<CountyCode>>, k: District, v: seq<CountyCode>)
    ensures Lengths(m[k := v]) == Lengths(m)[k := |v|]
  {
  }

  lemma AppendListsStep(inv: map<District, seq<CountyCode>>, county: CountyCode, sList: seq<District>, j: nat,
                        acc: map<District, seq<CountyCode>>)
    requires j < |sList| && sList[j] in inv
    requires AppendedLists(inv, county, sList[..j], acc)
    ensures AppendedLists(inv, county, sList[..j + 1], acc[sList[j] := acc[sList[j]] + [county]])
  {
    var sDist := sList[j];
    assert sList[..j + 1] == sList[..j] + [sDist];
    assert multiset(sList[..j + 1]) == multiset(sList[..j]) + multiset{sDist};
  }

  lemma IndexesStep(fwd: map<CountyCode, seq<District>>, rest: set<CountyCode>, county: CountyCode,
                    inv: map<District, seq<CountyCode>>, out: map<District, seq<CountyCode>>)
    requires rest <= fwd.Keys && county in rest
    requires Indexes(fwd, fwd.Keys - rest, inv) && Appended(inv, county, fwd[county], out)
    ensures Indexes(fwd, fwd.Keys - (rest - {county}), out)
  {
    var cs := fwd.Keys - rest;
    DoneStep(fwd.Keys, rest, county);
    StepCounts(fwd, cs, county, inv, out);
    StepLengths(fwd, cs, county, inv, out);
    SumOverInsert(Lengths(fwd), cs, county);
  }

  lemma DoneStep(keys: set<CountyCode>, rest: set<CountyCode>, county: CountyCode)
    requires county in rest && rest <= keys
    ensures keys - (rest - {county}) == (keys - rest) + {county}
    ensures county !in keys - rest
  {
  }

  lemma IndexesAll(fwd: map<CountyCode, seq<District>>, rest: set<CountyCode>, inv: map<District, seq<CountyCode>>)
    requires rest == {} && Indexes(fwd, fwd.Keys - rest, inv)
    ensures IsInverse(fwd, inv)
  {
    assert fwd.Keys - rest == fwd.Keys;
  }

  lemma StepCounts(fwd: map<CountyCode, seq<District>>, cs: set<CountyCode>, county: CountyCode,
                   inv: map<District, seq<CountyCode>>, out: map<District, seq<CountyCode>>)
    requires cs <= fwd.Keys && county in fwd && county !in cs
    requires CountsOf(fwd, cs, inv) && AppendedLists(inv, county, fwd[county], out)
    ensures CountsOf(fwd, cs + {county}, out)
  {
    forall s, c | s in out
      ensures multiset(out[s])[c] == if c in cs + {county} then multiset(fwd[c])[s] else 0
    {
      StepCount(fwd, cs, county, inv[s], out[s], s, c);
    }
  }

  lemma StepCount(fwd: map<CountyCode, seq<District>>, cs: set<CountyCode>, county: CountyCode,
                  before: seq<CountyCode>, after: seq<CountyCode>, s: District, c: CountyCode)
    requires cs <= fwd.Keys && county in fwd && county !in cs
    requires multiset(before)[c] == if c in cs then multiset(fwd[c])[s] else 0
    requires after == before + Repeat(county, multiset(fwd[county])[s])
    ensures multiset(after)[c] == if c in cs + {county} then multiset(fwd[c])[s] else 0
  {
  }

  lemma StepLengths(fwd: map<CountyCode, seq<District>>, cs: set<CountyCode>, county: CountyCode,
                    inv: map<District, seq<CountyCode>>, out: map<District, seq<CountyCode>>)
    requires cs <= fwd.Keys && county in fwd && county !in cs
    requires LengthsOf(fwd, cs, inv) && AppendedLists(inv, county, fwd[county], out)
    ensures LengthsOf(fwd, cs + {county}, out)
  {
    forall s | s in out
      ensures |out[s]| == Occupancy(fwd, s, cs + {county})
    {
      StepLength(fwd, cs, county, s, inv, out);
    }
  }

  lemma StepLength(fwd: map<CountyCode, seq<District>>, cs: set<CountyCode>, county: CountyCode, s: District,
                   inv: map<District, seq<CountyCode>>, out: map<District, seq<CountyCode>>)
    requires cs <= fwd.Keys && county in fwd && county !in cs && s in inv
    requires |inv[s]| == Occupancy(fwd, s, cs)
    requires out.Keys == inv.Keys && out[s] == inv[s] + Repeat(county, multiset(fwd[county])[s])
    ensures |out[s]| == Occupancy(fwd, s, cs + {county})
  {
    SumOverInsert(map c | c in fwd :: multiset(fwd[c])[s], cs, county);
  }

  lemma IndexesEmpty(fwd: map<CountyCode, seq<District>>, inv: map<District, seq<CountyCode>>)
    requires inv == map s | s in DistrictRange() :: []
    ensures Indexes(fwd, {}, inv)
  {
    ZeroSum(Lengths(inv), inv.Keys);
  }

  /** An inverse index is the transpose of the forward index. */
  lemma InverseIsTranspose(fwd: map<CountyCode, seq<District>>, inv: map<District, seq<CountyCode>>)
    requires IsInverse(fwd, inv)
    ensures forall s, c :: s in inv ==> (c in inv[s] <==> c in fwd && s in fwd[c])
  {
    forall s, c | s in inv
      ensures c in inv[s] <==> c in fwd && s in fwd[c]
    {
      assert c in inv[s] <==> multiset(inv[s])[c] > 0;
      if c in fwd {
        assert s in fwd[c] <==> multiset(fwd[c])[s] > 0;
      }
    }
  }

  /**
   * Builds the inverse index: starting from an empty list per district id,
   * appends each county to the list of every district in its own list;
   * fails on a district id outside 0 .. 32.
   */
  method BuildInverse(fwd: map<CountyCode, seq<District>>) returns (r: Result<map<District, seq<CountyCode>>, ScoreError>)
    ensures r.Err? <==> !DistrictsInRange(fwd)
    ensures r.Err? ==> r.error == DistrictOutOfRange
    ensures r.Ok? ==> IsInverse(fwd, r.value)
  {
    var inv: map<District, seq<CountyCode>> := map s | s in DistrictRange() :: [];
    var rest := fwd.Keys;
    IndexesEmpty(fwd, inv);
    while rest != {}
      invariant rest <= fwd.Keys
      invariant forall c, s :: c in fwd && c !in rest && s in fwd[c] ==> IsDistrict(s)
      invariant Indexes(fwd, fwd.Keys - rest, inv)
    {
      var county :| county in rest;
      var added := AddCounty(inv, county, fwd[county]);
      if added.Err? {
        var k :| 0 <= k < |fwd[county]| && fwd[county][k] !in inv;
        assert fwd[county][k] in fwd[county];
        return Err(DistrictOutOfRange);
      }
      IndexesStep(fwd, rest, county, inv, added.value);
      inv := added.value;
      rest := rest - {county};
    }
    IndexesAll(fwd, rest, inv);
    r := Ok(inv);
  }

  // ---------------------------------------------------------------------------
  // The county rules, stated per county.

  /**
   * The number of districts touching a county that touch no other county:
   * the districts wholly within it.  A district listed twice counts twice.
   */
  function WhollyWithin(touching: seq<District>, sizes: map<District, nat>): (n: nat)
    requires forall k :: 0 <= k < |touching| ==> touching[k] in sizes
    ensures n <= |touching|
    ensures n == |touching| <==> forall k :: 0 <= k < |touching| ==> sizes[touching[k]] == 1
    ensures n == 0 <==> forall k :: 0 <= k < |touching| ==> sizes[touching[k]] != 1
  {
    if touching == [] then 0
    else
      var last := touching[|touching| - 1];
      WhollyWithin(touching[..|touching| - 1], sizes) + (if sizes[last] == 1 then 1 else 0)
  }

  /**
   * The number of whole senate ratios of a county with senate ratio at
   * least 0.95: a ratio in [0.95, 1) counts as one.
   */
  function ExpectedWhollyWithin(sen: real): (n: int)
    ensures WHOLE_RATIO_LOW <= sen ==> 1 <= n
    ensures 1.0 <= sen ==> n as real <= sen < n as real + 1.0
  {
    if sen < 1.0 then 1 else sen.Floor
  }

  /** Rule B(2): a county below one senate ratio but with a house ratio lies in one senate district. */
  predicate BreaksB2(sen: real, house: real, touching: seq<District>) {
    sen < WHOLE_RATIO_LOW && house >= WHOLE_RATIO_LOW && |touching| > 1
  }

  /** Rule B(1)(1): a county with a whole senate ratio holds one whole district per whole ratio. */
  predicate BreaksB11(sen: real, touching: seq<District>, sizes: map<District, nat>)
    requires forall k :: 0 <= k < |touching| ==> touching[k] in sizes
  {
    sen >= WHOLE_RATIO_LOW && WhollyWithin(touching, sizes) != ExpectedWhollyWithin(sen)
  }

  /** Rule B(1)(2): the excess of a county above a whole ratio goes to only one adjoining district. */
  predicate BreaksB12(sen: real, touching: seq<District>) {
    sen > WHOLE_RATIO_HIGH && |touching| > Ceil(sen)
  }

  /** The three counters of the score. */
  datatype Rule = B11 | B12 | B2

  /** The tables the rules read: the forward index covers the house table, and `sizes` every district it names. */
  ghost predicate Scorable(house: map<CountyCode, real>, fwd: map<CountyCode, seq<District>>, sizes: map<District, nat>) {
    && fwd.Keys == house.Keys
    && forall c, k :: c in fwd && 0 <= k < |fwd[c]| ==> fwd[c][k] in sizes
  }

  /** County `c` breaks `rule`. */
  ghost predicate Breaks(rule: Rule, c: CountyCode, house: map<CountyCode, real>, senate: map<CountyCode, real>,
                         fwd: map<CountyCode, seq<District>>, sizes: map<District, nat>)
    requires Scorable(house, fwd, sizes) && c in senate && c in house
  {
    match rule
    case B11 => BreaksB11(senate[c], fwd[c], sizes)
    case B12 => BreaksB12(senate[c], fwd[c])
    case B2 => BreaksB2(senate[c], house[c], fwd[c])
  }

  /** The counties among `cs` that break `rule`. */
  ghost function Breaking(rule: Rule, house: map<CountyCode, real>, senate: map<CountyCode, real>,
                          fwd: map<CountyCode, seq<District>>, sizes: map<District, nat>, cs: set<CountyCode>): set<CountyCode>
    requires Scorable(house, fwd, sizes) && cs <= senate.Keys && cs <= house.Keys
  {
    set c | c in cs && Breaks(rule, c, house, senate, fwd, sizes)
  }

  /**
   * The score: for each rule, the number of counties of the senate table
   * that break it.  A county breaking B(2) breaks neither other rule, so
   * `b_2` plus either other counter is at most the number of counties.
   */
  ghost function Tally(house: map<CountyCode, real>, senate: map<CountyCode, real>,
                       fwd: map<CountyCode, seq<District>>, sizes: map<District, nat>): (v: Violations)
    requires Scorable(house, fwd, sizes) && senate.Keys <= house.Keys
    ensures v.b11 + v.b2 <= |senate.Keys| && v.b12 + v.b2 <= |senate.Keys|
  {
    var s11 := Breaking(B11, house, senate, fwd, sizes, senate.Keys);
    var s12 := Breaking(B12, house, senate, fwd, sizes, senate.Keys);
    var s2 := Breaking(B2, house, senate, fwd, sizes, senate.Keys);
    DisjointCard(s11, s2, senate.Keys);
    DisjointCard(s12, s2, senate.Keys);
    Violations(|s11|, |s12|, |s2|)
  }

  /**
   * What `compute_recom_ohio_county_violations` returns for the county
   * splits `splits` (the districts touching each county) and the two ratio
   * tables, or the lookup that fails first.
   */
  ghost function Score(splits: map<CountyCode, seq<District>>, house: map<CountyCode, real>,
                       senate: map<CountyCode, real>): (r: Result<Violations, ScoreError>)
    ensures r.Ok? ==> senate.Keys <= house.Keys <= splits.Keys
    ensures r.Ok? ==> r.value.b11 + r.value.b2 <= |senate.Keys| && r.value.b12 + r.value.b2 <= |senate.Keys|
  {
    if !(house.Keys <= splits.Keys) then Err(MissingCountySplit)
    else
      var fwd := Forward(splits, house);
      if !DistrictsInRange(fwd) then Err(DistrictOutOfRange)
      else if !(senate.Keys <= house.Keys) then Err(MissingHouseRatio)
      else Ok(Tally(house, senate, fwd, Sizes(fwd)))
  }

  // ---------------------------------------------------------------------------
  // The scorer.

  /** Adding one county to those scanned adds it to the breakers of `rule` exactly when it breaks it. */
  lemma BreakingStep(rule: Rule, house: map<CountyCode, real>, senate: map<CountyCode, real>,
                     fwd: map<CountyCode, seq<District>>, sizes: map<District, nat>,
                     rest: set<CountyCode>, c: CountyCode)
    requires Scorable(house, fwd, sizes) && rest <= senate.Keys && c in rest && c in house
    requires senate.Keys - rest <= house.Keys
    ensures |Breaking(rule, house, senate, fwd, sizes, senate.Keys - (rest - {c}))|
         == |Breaking(rule, house, senate, fwd, sizes, senate.Keys - rest)|
            + if Breaks(rule, c, house, senate, fwd, sizes) then 1 else 0
  {
    var before := Breaking(rule, house, senate, fwd, sizes, senate.Keys - rest);
    var after := Breaking(rule, house, senate, fwd, sizes, senate.Keys - (rest - {c}));
    if Breaks(rule, c, house, senate, fwd, sizes) {
      assert after == before + {c};
    } else {
      assert after == before;
    }
  }

  /**
   * Walks the senate table once, county by county, and counts the counties
   * that break each rule; fails on the first county missing from the house
   * table.
   */
  method TallyViolations(house: map<CountyCode, real>, senate: map<CountyCode, real>,
                         fwd: map<CountyCode, seq<District>>, sizes: map<District, nat>)
    returns (r: Result<Violations, ScoreError>)
    requires Scorable(house, fwd, sizes)
    ensures r.Err? <==> !(senate.Keys <= house.Keys)
    ensures r.Err? ==> r.error == MissingHouseRatio
    ensures r.Ok? ==> senate.Keys <= house.Keys && r.value == Tally(house, senate, fwd, sizes)
  {
    var b11, b12, b2 := 0, 0, 0;
    var rest := senate.Keys;
    while rest != {}
      invariant rest <= senate.Keys && senate.Keys - rest <= house.Keys
      invariant b11 == |Breaking(B11, house, senate, fwd, sizes, senate.Keys - rest)|
      invariant b12 == |Breaking(B12, house, senate, fwd, sizes, senate.Keys - rest)|
      invariant b2 == |Breaking(B2, house, senate, fwd, sizes, senate.Keys - rest)|
    {
      var county :| county in rest;
      var sen := senate[county];
      if county !in house {
        return Err(MissingHouseRatio);
      }
      BreakingStep(B11, house, senate, fwd, sizes, rest, county);
      BreakingStep(B12, house, senate, fwd, sizes, rest, county);
      BreakingStep(B2, house, senate, fwd, sizes, rest, county);
      if sen < WHOLE_RATIO_LOW {
        if house[county] >= WHOLE_RATIO_LOW && |fwd[county]| > 1 {
          b2 := b2 + 1;
        }
      } else {
        var wholly := WhollyWithin(fwd[county], sizes);
        if sen < 1.0 {
          if wholly != 1 {
            b11 := b11 + 1;
          }
        } else {
          if wholly != sen.Floor {
            b11 := b11 + 1;
          }
        }
        if sen > WHOLE_RATIO_HIGH && |fwd[county]| > Ceil(sen) {
          b12 := b12 + 1;
        }
      }
      rest := rest - {county};
    }
    assert senate.Keys - rest == senate.Keys;
    r := Ok(Violations(b11, b12, b2));
  }

  /** The district sizes read off an inverse index are the occupancies of the forward index. */
  lemma SizesOfInverse(fwd: map<CountyCode, seq<District>>, inv: map<District, seq<CountyCode>>)
    requires IsInverse(fwd, inv)
    ensures Lengths(inv) == Sizes(fwd)
  {
  }

  /**
   * The scorer: reads the districts touching each county of the house
   * table, builds the inverse index and tallies the rule violations.
   */
  method ComputeRecomOhioCountyViolations(splits: map<CountyCode, seq<District>>, house: map<CountyCode, real>,
                                          senate: map<CountyCode, real>)
    returns (r: Result<Violations, ScoreError>)
    ensures r == Score(splits, house, senate)
  {
    if !(house.Keys <= splits.Keys) {
      return Err(MissingCountySplit);
    }
    var fwd := Forward(splits, house);
    var inv := BuildInverse(fwd);
    if inv.Err? {
      return Err(inv.error);
    }
    SizesOfInverse(fwd, inv.value);
    var sizes := Lengths(inv.value);
    r := TallyViolations(house, senate, fwd, sizes);
  }

  /** `ohio_recom_county_violations`: the scorer with its two ratio tables bound. */
  datatype RecomCountyViolations = RecomCountyViolations(house: map<CountyCode, real>, senate: map<CountyCode, real>) {
    method Apply(splits: map<CountyCode, seq<District>>) returns (r: Result<Violations, ScoreError>)
      ensures r == Score(splits, house, senate)
    {
      r := ComputeRecomOhioCountyViolations(splits, house, senate);
    }
  }

  // ---------------------------------------------------------------------------
  // Properties of the score.

  /** A district whose inverse list has length one lies in only the county that lists it. */
  lemma SizeOneMeansWhollyWithin(fwd: map<CountyCode, seq<District>>, inv: map<District, seq<CountyCode>>,
                                 c: CountyCode, k: nat)
    requires IsInverse(fwd, inv) && c in fwd && k < |fwd[c]| && fwd[c][k] in inv
    requires |inv[fwd[c][k]]| == 1
    ensures inv[fwd[c][k]] == [c]
    ensures multiset(fwd[c])[fwd[c][k]] == 1
  {
    var s := fwd[c][k];
    assert fwd[c][k] in fwd[c];
    assert multiset(inv[s])[c] == multiset(fwd[c])[s];
    assert inv[s] == [inv[s][0]];
    assert multiset(inv[s]) == multiset{inv[s][0]};
  }

  /** A county below one senate ratio can only break rule B(2), and breaks it exactly when it has a house ratio and touches two or more districts. */
  lemma SmallCountyRules(house: map<CountyCode, real>, senate: map<CountyCode, real>,
                         fwd: map<CountyCode, seq<District>>, sizes: map<District, nat>, c: CountyCode)
    requires Scorable(house, fwd, sizes) && senate.Keys <= house.Keys && c in senate
    requires senate[c] < WHOLE_RATIO_LOW
    ensures c !in Breaking(B11, house, senate, fwd, sizes, senate.Keys)
    ensures c !in Breaking(B12, house, senate, fwd, sizes, senate.Keys)
    ensures c in Breaking(B2, house, senate, fwd, sizes, senate.Keys) <==> house[c] >= WHOLE_RATIO_LOW && |fwd[c]| > 1
  {
  }

  /** A county with at least 0.95 senate ratios never breaks rule B(2). */
  lemma LargeCountyRules(house: map<CountyCode, real>, senate: map<CountyCode, real>,
                         fwd: map<CountyCode, seq<District>>, sizes: map<District, nat>, c: CountyCode)
    requires Scorable(house, fwd, sizes) && senate.Keys <= house.Keys && c in senate
    requires senate[c] >= WHOLE_RATIO_LOW
    ensures c !in Breaking(B2, house, senate, fwd, sizes, senate.Keys)
    ensures c in Breaking(B11, house, senate, fwd, sizes, senate.Keys)
        <==> WhollyWithin(fwd[c], sizes) != if senate[c] < 1.0 then 1 else senate[c].Floor
    ensures c in Breaking(B12, house, senate, fwd, sizes, senate.Keys)
        <==> senate[c] > WHOLE_RATIO_HIGH && |fwd[c]| > Ceil(senate[c])
  {
  }

  lemma {:induction false} SubsetCard<K>(a: set<K>, b: set<K>)
    requires a <= b
    ensures |a| <= |b|
    decreases b
  {
    if a != {} {
      var x :| x in a;
      SubsetCard(a - {x}, b - {x});
    }
  }

  /** Two disjoint subsets of a set together have at most its size. */
  lemma DisjointCard<K>(a: set<K>, b: set<K>, whole: set<K>)
    requires a !! b && a <= whole && b <= whole
    ensures |a| + |b| <= |whole|
  {
    assert |a + b| == |a| + |b|;
    SubsetCard(a + b, whole);
  }

  /** The scorer fails, rather than defaulting, on a county of the senate table missing from the house table. */
  lemma MissingHouseRatioFails(splits: map<CountyCode, seq<District>>, house: map<CountyCode, real>,
                               senate: map<CountyCode, real>, c: CountyCode)
    requires c in senate && c !in house
    ensures Score(splits, house, senate).Err?
  {
  }

  /** The scorer fails exactly on a missing county split, a district id outside 0 .. 32, or a missing house ratio. */
  lemma ScoreErrors(splits: map<CountyCode, seq<District>>, house: map<CountyCode, real>,
                    senate: map<CountyCode, real>)
    ensures Score(splits, house, senate).Err?
        <==> || (exists c :: c in house && c !in splits)
             || (exists c, k :: c in house && c in splits && 0 <= k < |splits[c]| && !IsDistrict(splits[c][k]))
             || (exists c :: c in senate && c !in house)
  {
    if house.Keys <= splits.Keys && !DistrictsInRange(Forward(splits, house)) {
      var fwd := Forward(splits, house);
      var c, k :| c in fwd && 0 <= k < |fwd[c]| && !IsDistrict(fwd[c][k]);
      assert c in house && c in splits && !IsDistrict(splits[c][k]);
    }
  }

  /**
   * Rules B(2) and B(1)(2) and the expected number of whole districts,
   * stated on the county and state populations behind the ratio tables:
   * the thresholds are exact integer comparisons, floor and ceiling are
   * integer divisions.
   */
  lemma RulesInPopulationTerms(blocks: seq<Block>, c: CountyCode, touching: seq<District>)
    requires TotalPop(blocks) > 0 && c in CountyCodes(blocks)
    ensures RatiosOf(blocks).Ok? && c in RatiosOf(blocks).value.senate && c in RatiosOf(blocks).value.house
    ensures var t := RatiosOf(blocks).value; var pop := CountyTotals(blocks)[c]; var statePop := TotalPop(blocks);
      && (BreaksB2(t.senate[c], t.house[c], touching)
          <==> 3300 * pop < 95 * statePop && 95 * statePop <= 9900 * pop && |touching| > 1)
      && (BreaksB12(t.senate[c], touching)
          <==> 3300 * pop > 105 * statePop && |touching| > (33 * pop + statePop - 1) / statePop)
      && (t.senate[c] >= WHOLE_RATIO_LOW
          ==> ExpectedWhollyWithin(t.senate[c]) == if 33 * pop < statePop then 1 else (33 * pop) / statePop)
  {
    var pop := CountyTotals(blocks)[c];
    var statePop := TotalPop(blocks);
    var t := RatiosOf(blocks).value;
    assert t.senate == Ratios(CountyTotals(blocks), statePop, SENATE_SEATS);
    assert t.house == Ratios(CountyTotals(blocks), statePop, HOUSE_SEATS);
    B2InPopulationTerms(pop, statePop, touching);
    B12InPopulationTerms(pop, statePop, touching);
    ExpectedInPopulationTerms(pop, statePop);
  }

  lemma B2InPopulationTerms(pop: nat, statePop: nat, touching: seq<District>)
    requires statePop > 0
    ensures BreaksB2(Ratio(pop, statePop, SENATE_SEATS), Ratio(pop, statePop, HOUSE_SEATS), touching)
        <==> 3300 * pop < 95 * statePop && 95 * statePop <= 9900 * pop && |touching| > 1
  {
    assert WHOLE_RATIO_LOW == 95 as real / 100 as real;
    RatioBelow(pop, statePop, SENATE_SEATS, 95, 100);
    RatioBelow(pop, statePop, HOUSE_SEATS, 95, 100);
  }

  lemma B12InPopulationTerms(pop: nat, statePop: nat, touching: seq<District>)
    requires statePop > 0
    ensures BreaksB12(Ratio(pop, statePop, SENATE_SEATS), touching)
        <==> 3300 * pop > 105 * statePop && |touching| > (33 * pop + statePop - 1) / statePop
  {
    assert WHOLE_RATIO_HIGH == 105 as real / 100 as real;
    RatioAbove(pop, statePop, SENATE_SEATS, 105, 100);
    RatioCeil(pop, statePop, SENATE_SEATS);
  }

  lemma ExpectedInPopulationTerms(pop: nat, statePop: nat)
    requires statePop > 0
    ensures ExpectedWhollyWithin(Ratio(pop, statePop, SENATE_SEATS))
         == if 33 * pop < statePop then 1 else (33 * pop) / statePop
  {
    assert 1.0 == 1 as real / 1 as real;
    RatioBelow(pop, statePop, SENATE_SEATS, 1, 1);
    RatioFloor(pop, statePop, SENATE_SEATS);
  }
}
