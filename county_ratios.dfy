/**
 * The county ratio table of the Ohio county rules: each county's
 * population measured in ideal senate districts (a 33-seat chamber) and
 * in ideal house districts (a 99-seat chamber).  Ratios are exact
 * rationals here, where the source computes them in floating point.
 */
module CountyRatios {
  import opened Wrappers
  import opened Sums

  type CountyCode = string

  const SENATE_SEATS: nat := 33
  const HOUSE_SEATS: nat := 99

  /** One census block: the county it lies in and its population. */
  datatype Block = Block(county: CountyCode, pop: nat)

  /** The two tables, house first, as the source returns them. */
  datatype RatioTables = RatioTables(house: map<CountyCode, real>, senate: map<CountyCode, real>)

  /** Raised by the source when a ratio divides by a zero ideal population. */
  datatype RatioError = ZeroStatePopulation

  /** Every county code that some block carries. */
  function CountyCodes(blocks: seq<Block>): set<CountyCode> {
    set i | 0 <= i < |blocks| :: blocks[i].county
  }

  /** Population of the blocks that lie in county `c`. */
  function PopIn(blocks: seq<Block>, c: CountyCode): nat {
    if blocks == [] then 0
    else
      var last := blocks[|blocks| - 1];
      PopIn(blocks[..|blocks| - 1], c) + (if last.county == c then last.pop else 0)
  }

  /** Population of all blocks. */
  function TotalPop(blocks: seq<Block>): nat {
    if blocks == [] then 0 else TotalPop(blocks[..|blocks| - 1]) + blocks[|blocks| - 1].pop
  }

  /** The per-county populations, one entry per county code that appears. */
  function CountyTotals(blocks: seq<Block>): map<CountyCode, nat> {
    map c | c in CountyCodes(blocks) :: PopIn(blocks, c)
  }

  /**
   * A county's population divided by the ideal district population of a
   * chamber: the non-negative number that, times the state population,
   * gives the county's population times the seat count.
   */
  function Ratio(pop: nat, statePop: nat, seats: nat): (r: real)
    requires statePop > 0 && seats > 0
    ensures r >= 0.0
    ensures r * statePop as real == (seats * pop) as real
  {
    DivNested(pop as real, statePop as real, seats as real);
    ProductCast(seats, pop);
    pop as real / (statePop as real / seats as real)
  }

  /** The ratio of every county in `pops` for a chamber of `seats` seats. */
  function Ratios(pops: map<CountyCode, nat>, statePop: nat, seats: nat): (ratios: map<CountyCode, real>)
    requires statePop > 0 && seats > 0
    ensures ratios.Keys == pops.Keys
  {
    map c | c in pops :: Ratio(pops[c], statePop, seats)
  }

  /**
   * What the ratio computation yields: an error when there are counties but
   * no population to divide by, otherwise both tables over the county codes.
   */
  function RatiosOf(blocks: seq<Block>): (r: Result<RatioTables, RatioError>)
    ensures r.Err? <==> TotalPop(blocks) == 0 && CountyCodes(blocks) != {}
    ensures r.Ok? ==> r.value.house.Keys == r.value.senate.Keys == CountyCodes(blocks)
  {
    var pops, statePop := CountyTotals(blocks), TotalPop(blocks);
    assert pops.Keys == CountyCodes(blocks);
    if statePop == 0 then
      if pops == map[] then Ok(RatioTables(map[], map[])) else Err(ZeroStatePopulation)
    else
      Ok(RatioTables(Ratios(pops, statePop, HOUSE_SEATS), Ratios(pops, statePop, SENATE_SEATS)))
  }

  /** The rounding up of a ratio, as `math.ceil` does it. */
  function Ceil(x: real): (r: int)
    ensures x <= r as real < x + 1.0
  {
    -((-x).Floor)
  }

  /** Adds up the block populations of each county code that appears. */
  method CountyPopulations(blocks: seq<Block>) returns (countyPops: map<CountyCode, nat>)
    ensures countyPops == CountyTotals(blocks)
  {
    var codes := CountyCodes(blocks);
    countyPops := map c | c in codes :: 0;
    for i := 0 to |blocks|
      invariant countyPops.Keys == codes
      invariant forall c :: c in codes ==> countyPops[c] == PopIn(blocks[..i], c)
    {
      var block := blocks[i];
      countyPops := countyPops[block.county := countyPops[block.county] + block.pop];
      forall c | c in codes
        ensures countyPops[c] == PopIn(blocks[..i + 1], c)
      {
        PopInPrefix(blocks, i, c);
      }
    }
    assert blocks[..|blocks|] == blocks;
  }

  /** Sums the county populations, visiting the counties in any order. */
  method StatePopulation(countyPops: map<CountyCode, nat>) returns (statePop: nat)
    ensures statePop == SumOver(countyPops, countyPops.Keys)
  {
    statePop := 0;
    var rest := countyPops.Keys;
    while rest != {}
      invariant rest <= countyPops.Keys
      invariant statePop + SumOver(countyPops, rest) == SumOver(countyPops, countyPops.Keys)
    {
      var c :| c in rest;
      SumOverRemove(countyPops, rest, c);
      statePop := statePop + countyPops[c];
      rest := rest - {c};
    }
  }

  /**
   * Builds the county populations, sums them into the state population and
   * divides each county's population by the ideal senate and house district
   * populations; fails when there is a county but the state population is 0.
   */
  method ComputeCountyRatios(blocks: seq<Block>) returns (r: Result<RatioTables, RatioError>)
    ensures r == RatiosOf(blocks)
  {
    var countyPops := CountyPopulations(blocks);
    var statePop := StatePopulation(countyPops);
    CountyTotalsSum(blocks);
    assert countyPops.Keys == CountyCodes(blocks);
    assert statePop == TotalPop(blocks);

    if statePop == 0 {
      if countyPops != map[] {
        return Err(ZeroStatePopulation);
      }
      return Ok(RatioTables(map[], map[]));
    }
    r := Ok(RatioTables(Ratios(countyPops, statePop, HOUSE_SEATS), Ratios(countyPops, statePop, SENATE_SEATS)));
  }

  lemma {:induction false} PopInAbsent(blocks: seq<Block>, c: CountyCode)
    requires c !in CountyCodes(blocks)
    ensures PopIn(blocks, c) == 0
  {
    if blocks != [] {
      var init := blocks[..|blocks| - 1];
      assert forall i :: 0 <= i < |init| ==> init[i] == blocks[i];
      PopInAbsent(init, c);
    }
  }

  lemma PopInPrefix(blocks: seq<Block>, i: nat, c: CountyCode)
    requires i < |blocks|
    ensures PopIn(blocks[..i + 1], c)
         == PopIn(blocks[..i], c) + (if blocks[i].county == c then blocks[i].pop else 0)
  {
    assert blocks[..i + 1][..i] == blocks[..i];
  }

  /** The codes of a block list are those of all but its last block, plus the last block's. */
  lemma CodesSnoc(blocks: seq<Block>)
    requires blocks != []
    ensures var init := blocks[..|blocks| - 1];
      (set i | 0 <= i < |blocks| :: blocks[i].county)
      == (set i | 0 <= i < |init| :: init[i].county) + {blocks[|blocks| - 1].county}
  {
    var init := blocks[..|blocks| - 1];
    var all, front := set i | 0 <= i < |blocks| :: blocks[i].county, set i | 0 <= i < |init| :: init[i].county;
    forall c | c in all
      ensures c in front + {blocks[|blocks| - 1].county}
    {
      var i :| 0 <= i < |blocks| && blocks[i].county == c;
      if i < |init| {
        assert init[i] == blocks[i];
      }
    }
    forall c | c in front
      ensures c in all
    {
      var i :| 0 <= i < |init| && init[i].county == c;
      assert blocks[i] == init[i];
    }
  }

  /** There are at most as many county codes as blocks. */
  lemma {:induction false} CountyCodesBounded(blocks: seq<Block>)
    ensures |CountyCodes(blocks)| <= |blocks|
  {
    if blocks != [] {
      CountyCodesBounded(blocks[..|blocks| - 1]);
      CodesSnoc(blocks);
    }
  }

  lemma ProductCast(a: nat, b: nat)
    ensures (a * b) as real == a as real * b as real
  {
  }

  /** Appending a block changes only its own county's total. */
  lemma CountyTotalsSnoc(blocks: seq<Block>)
    requires blocks != []
    ensures var init, last := blocks[..|blocks| - 1], blocks[|blocks| - 1];
      && CountyTotals(blocks).Keys == CountyTotals(init).Keys + {last.county}
      && (forall c :: c in CountyTotals(init) && c != last.county ==>
            CountyTotals(blocks)[c] == CountyTotals(init)[c])
      && CountyTotals(blocks)[last.county]
         == (if last.county in CountyTotals(init) then CountyTotals(init)[last.county] else 0) + last.pop
  {
    var init, last := blocks[..|blocks| - 1], blocks[|blocks| - 1];
    CodesSnoc(blocks);
    if last.county !in CountyCodes(init) {
      PopInAbsent(init, last.county);
    }
  }

  /** The county populations add up to the population of all blocks. */
  lemma {:induction false} CountyTotalsSum(blocks: seq<Block>)
    ensures var pops := CountyTotals(blocks); SumOver(pops, pops.Keys) == TotalPop(blocks)
  {
    if blocks != [] {
      CountyTotalsSum(blocks[..|blocks| - 1]);
      CountyTotalsSumStep(blocks);
    }
  }

  lemma CountyTotalsSumStep(blocks: seq<Block>)
    requires blocks != []
    requires var before := CountyTotals(blocks[..|blocks| - 1]);
      SumOver(before, before.Keys) == TotalPop(blocks[..|blocks| - 1])
    ensures var pops := CountyTotals(blocks); SumOver(pops, pops.Keys) == TotalPop(blocks)
  {
    var init, last := blocks[..|blocks| - 1], blocks[|blocks| - 1];
    CountyTotalsSnoc(blocks);
    var before, after := CountyTotals(init), CountyTotals(blocks);
    if last.county in before {
      assert after.Keys == before.Keys;
      SumOverBump(before, after, before.Keys, last.county, last.pop);
    } else {
      SumOverExtend(before, after, before.Keys, last.county, last.pop);
    }
  }

  // Real and integer arithmetic behind the ratio lemmas.

  lemma DivNested(p: real, s: real, n: real)
    requires s > 0.0 && n > 0.0
    ensures p / (s / n) == (p * n) / s
  {
    assert (p / (s / n)) * s == p * n;
  }

  lemma DivCompare(a: real, s: real, n: real, d: real)
    requires s > 0.0 && d > 0.0
    ensures a / s < n / d <==> a * d < n * s
  {
    assert a / s * (s * d) == a * d;
    assert n / d * (s * d) == n * s;
  }

  lemma MulAtLeast(a: int, s: int)
    requires a >= 1 && s > 0
    ensures a * s >= s
  {
  }

  lemma DivUnique(x: int, s: int, q: int, m: int)
    requires s > 0 && 0 <= m < s && x == q * s + m
    ensures x / s == q
  {
    var q', m' := x / s, x % s;
    assert (q - q') * s == m' - m;
    if q > q' {
      MulAtLeast(q - q', s);
    } else if q < q' {
      MulAtLeast(q' - q, s);
    }
  }

  lemma FloorOfQuotient(x: int, s: int)
    requires s > 0
    ensures (x as real / s as real).Floor == x / s
  {
    var q, m := x / s, x % s;
    assert x as real == q as real * s as real + m as real;
    assert x as real / s as real == q as real + m as real / s as real;
    assert 0.0 <= m as real / s as real < 1.0 by {
      assert m as real < s as real;
    }
  }

  lemma CeilOfQuotient(x: int, s: int)
    requires s > 0
    ensures Ceil(x as real / s as real) == (x + s - 1) / s
  {
    FloorOfQuotient(-x, s);
    assert (-x) as real / s as real == -(x as real / s as real);
    var q, m := x / s, x % s;
    if m == 0 {
      DivUnique(-x, s, -q, 0);
      DivUnique(x + s - 1, s, q, s - 1);
    } else {
      DivUnique(-x, s, -q - 1, s - m);
      DivUnique(x + s - 1, s, q + 1, m - 1);
    }
  }

  /** A ratio is the chamber's seat count times the county's share of the population. */
  lemma RatioExact(pop: nat, statePop: nat, seats: nat)
    requires statePop > 0 && seats > 0
    ensures Ratio(pop, statePop, seats) == (seats * pop) as real / statePop as real
  {
    DivNested(pop as real, statePop as real, seats as real);
    assert (seats * pop) as real == pop as real * seats as real;
  }

  /**
   * Every county that appears has an entry in both tables, and its house
   * ratio is exactly three times its senate ratio.
   */
  lemma HouseRatioIsThreeSenate(blocks: seq<Block>)
    requires RatiosOf(blocks).Ok?
    ensures var t := RatiosOf(blocks).value;
      && t.house.Keys == t.senate.Keys == CountyCodes(blocks)
      && forall c :: c in t.senate ==> t.house[c] == 3.0 * t.senate[c]
  {
    var pops, statePop := CountyTotals(blocks), TotalPop(blocks);
    var t := RatiosOf(blocks).value;
    if statePop > 0 {
      assert t.senate == Ratios(pops, statePop, SENATE_SEATS);
      assert t.house == Ratios(pops, statePop, HOUSE_SEATS);
      forall c | c in pops
        ensures Ratio(pops[c], statePop, HOUSE_SEATS) == 3.0 * Ratio(pops[c], statePop, SENATE_SEATS)
      {
        HouseIsThreeSenate(pops[c], statePop);
      }
    }
  }

  lemma HouseIsThreeSenate(pop: nat, statePop: nat)
    requires statePop > 0
    ensures Ratio(pop, statePop, HOUSE_SEATS) == 3.0 * Ratio(pop, statePop, SENATE_SEATS)
  {
    RatioExact(pop, statePop, HOUSE_SEATS);
    RatioExact(pop, statePop, SENATE_SEATS);
    var x, s := (SENATE_SEATS * pop) as real, statePop as real;
    assert (HOUSE_SEATS * pop) as real == 3.0 * x;
    assert 3.0 * x / s == 3.0 * (x / s);
  }

  /** The ratios of several counties add up to the ratio of their joint population. */
  lemma {:induction false} RatioSum(pops: map<CountyCode, nat>, ks: set<CountyCode>, statePop: nat, seats: nat)
    requires statePop > 0 && seats > 0 && ks <= pops.Keys
    ensures RealSumOver(Ratios(pops, statePop, seats), ks) == Ratio(SumOver(pops, ks), statePop, seats)
    decreases ks
  {
    if ks != {} {
      var k := Pick(ks);
      RatioSum(pops, ks - {k}, statePop, seats);
      RatioAdd(pops[k], SumOver(pops, ks - {k}), statePop, seats);
    } else {
      RatioExact(0, statePop, seats);
    }
  }

  lemma RatioAdd(p1: nat, p2: nat, statePop: nat, seats: nat)
    requires statePop > 0 && seats > 0
    ensures Ratio(p1, statePop, seats) + Ratio(p2, statePop, seats) == Ratio(p1 + p2, statePop, seats)
  {
    RatioExact(p1, statePop, seats);
    RatioExact(p2, statePop, seats);
    RatioExact(p1 + p2, statePop, seats);
    assert seats * (p1 + p2) == seats * p1 + seats * p2;
    DivAdd((seats * p1) as real, (seats * p2) as real, statePop as real);
  }

  lemma DivAdd(a: real, b: real, s: real)
    requires s != 0.0
    ensures a / s + b / s == (a + b) / s
  {
  }

  /** The whole state holds exactly one ratio per seat. */
  lemma RatioOfState(statePop: nat, seats: nat)
    requires statePop > 0 && seats > 0
    ensures Ratio(statePop, statePop, seats) == seats as real
  {
    RatioExact(statePop, statePop, seats);
    assert (seats * statePop) as real == seats as real * statePop as real;
  }

  /** With a positive state population the senate ratios sum to 33 and the house ratios to 99. */
  lemma RatiosSumToSeats(blocks: seq<Block>)
    requires TotalPop(blocks) > 0
    ensures RatiosOf(blocks).Ok?
    ensures var t := RatiosOf(blocks).value;
      && RealSumOver(t.senate, t.senate.Keys) == SENATE_SEATS as real
      && RealSumOver(t.house, t.house.Keys) == HOUSE_SEATS as real
  {
    var pops, statePop := CountyTotals(blocks), TotalPop(blocks);
    var t := RatiosOf(blocks).value;
    assert t.senate == Ratios(pops, statePop, SENATE_SEATS);
    assert t.house == Ratios(pops, statePop, HOUSE_SEATS);
    CountyTotalsSum(blocks);
    assert pops.Keys == CountyCodes(blocks);
    RatiosSumTo(pops, statePop, SENATE_SEATS);
    RatiosSumTo(pops, statePop, HOUSE_SEATS);
  }

  lemma RatiosSumTo(pops: map<CountyCode, nat>, statePop: nat, seats: nat)
    requires statePop > 0 && seats > 0 && SumOver(pops, pops.Keys) == statePop
    ensures var ratios := Ratios(pops, statePop, seats); RealSumOver(ratios, ratios.Keys) == seats as real
  {
    RatioSum(pops, pops.Keys, statePop, seats);
    RatioOfState(statePop, seats);
  }

  /**
   * A threshold test on a ratio is a test on integers:
   * ratio < num/den exactly when seats * pop * den < num * statePop.
   */
  lemma RatioBelow(pop: nat, statePop: nat, seats: nat, num: nat, den: nat)
    requires statePop > 0 && seats > 0 && den > 0
    ensures Ratio(pop, statePop, seats) < num as real / den as real
        <==> seats * pop * den < num * statePop
  {
    RatioExact(pop, statePop, seats);
    DivCompare((seats * pop) as real, statePop as real, num as real, den as real);
    assert (seats * pop) as real * den as real == (seats * pop * den) as real;
    assert num as real * statePop as real == (num * statePop) as real;
  }

  /** As RatioBelow, for a strict lower threshold. */
  lemma RatioAbove(pop: nat, statePop: nat, seats: nat, num: nat, den: nat)
    requires statePop > 0 && seats > 0 && den > 0
    ensures Ratio(pop, statePop, seats) > num as real / den as real
        <==> seats * pop * den > num * statePop
  {
    RatioExact(pop, statePop, seats);
    DivCompare(num as real, den as real, (seats * pop) as real, statePop as real);
    assert (seats * pop) as real * den as real == (seats * pop * den) as real;
    assert num as real * statePop as real == (num * statePop) as real;
  }

  /** Rounding a ratio down is integer division. */
  lemma RatioFloor(pop: nat, statePop: nat, seats: nat)
    requires statePop > 0 && seats > 0
    ensures Ratio(pop, statePop, seats).Floor == (seats * pop) / statePop
  {
    RatioExact(pop, statePop, seats);
    FloorOfQuotient(seats * pop, statePop);
  }

  /** Rounding a ratio up is integer division rounded up. */
  lemma RatioCeil(pop: nat, statePop: nat, seats: nat)
    requires statePop > 0 && seats > 0
    ensures Ceil(Ratio(pop, statePop, seats)) == (seats * pop + statePop - 1) / statePop
  {
    RatioExact(pop, statePop, seats);
    CeilOfQuotient(seats * pop, statePop);
  }
}
