/**
 * The recombination chain joins the scorer to its acceptance rule: the
 * violation vector the scorer returns is what `recom_county_accept` sums.
 */
module RecomChain {
  import CV = CountyViolations
  import A = Accept

  /** The rule's sum of a score vector is the total number of rule violations. */
  lemma ViolationTotal(v: CV.Violations)
    ensures A.Sum(v.AsList()) == v.b11 + v.b12 + v.b2
  {
    var xs: seq<int> := v.AsList();
    assert xs[..2] == [v.b11, v.b12] && xs[..2][..1] == [v.b11] && xs[..2][..1][..0] == [];
    assert A.Sum(xs[..2][..1]) == v.b11;
    assert A.Sum(xs[..2]) == v.b11 + v.b12;
  }

  /**
   * The summed score of a plan that scores without error is between 0 and
   * twice the number of counties, so two consecutive plans differ by at
   * most that much in the exponent of the Metropolis bound.
   */
  lemma ScoreSumBounded(splits: map<string, seq<CV.District>>, house: map<string, real>,
                        senate: map<string, real>)
    requires CV.Score(splits, house, senate).Ok?
    ensures 0 <= A.Sum(CV.Score(splits, house, senate).value.AsList()) <= 2 * |senate.Keys|
  {
    ViolationTotal(CV.Score(splits, house, senate).value);
  }
}
