/**
 * The acceptance rules of the Markov chain: given a proposed partition
 * (which remembers its parent) and a uniform draw from [0, 1), each rule
 * computes a bound from the parent's and the proposal's scores and accepts
 * exactly when the draw lies below the bound.  The draw is a parameter, so
 * every rule is a function.
 */
module Accept {
  import opened Wrappers

  /** Updater key of the county-violation score of a swap chain. */
  const SWAP_VIOLATIONS_KEY: string := "swap_ohio_county_violations"
  /** Updater key of the county-violation score of a recombination chain. */
  const RECOM_VIOLATIONS_KEY: string := "recom_ohio_county_violations"

  /**
   * What the rules read of a partition: its violation vectors by updater
   * key, the number of its cut edges, and its parent, absent for the
   * initial partition.
   */
  datatype Partition = Partition(scores: map<string, seq<int>>, cutEdges: nat, parent: Option<Partition>)

  datatype AcceptError =
    | MissingScore(key: string)  // the partition or its parent has no updater under `key`
    | ZeroDivision               // zero raised to a negative power, or no cut edges to divide by

  /** The sum of a violation vector. */
  function Sum(xs: seq<int>): (total: int)
    ensures (forall k :: 0 <= k < |xs| ==> xs[k] >= 0) ==> total >= 0
  {
    if xs == [] then 0 else Sum(xs[..|xs| - 1]) + xs[|xs| - 1]
  }

  function Min(a: real, b: real): (m: real)
    ensures m <= a && m <= b && (m == a || m == b)
  {
    if b < a then b else a
  }

  /** `x` raised to the natural power `n`. */
  function NatPow(x: real, n: nat): (p: real)
    ensures x != 0.0 ==> p != 0.0
    ensures x > 0.0 ==> p > 0.0
    ensures x == 1.0 ==> p == 1.0
    ensures x >= 1.0 ==> p >= 1.0
  {
    if n == 0 then 1.0
    else
      var q := NatPow(x, n - 1);
      ProductAtLeastOne(x, q);
      x * q
  }

  /**
   * `x ** k` for an integer exponent: a negative power is the reciprocal of
   * the positive one, so zero has none.
   */
  function Pow(x: real, k: int): (p: real)
    requires x != 0.0 || k >= 0
    ensures k < 0 ==> p * NatPow(x, -k) == 1.0
    ensures x > 0.0 ==> p > 0.0
    ensures x == 1.0 ==> p == 1.0
    ensures x >= 1.0 && k >= 0 ==> p >= 1.0
  {
    if k >= 0 then NatPow(x, k) else 1.0 / NatPow(x, -k)
  }

  /** `always_accept`: every proposal is accepted. */
  function AlwaysAccept(p: Partition): (accepted: bool)
    ensures accepted
  {
    true
  }

  /**
   * The Metropolis bound `min(1, ell ** (parentScore - newScore))`; it fails
   * when `ell` is zero and the score grew.
   */
  function MetropolisBound(parentScore: int, newScore: int, ell: real): (r: Result<real, AcceptError>)
    ensures r.Err? <==> ell == 0.0 && parentScore < newScore
    ensures r.Err? ==> r.error == ZeroDivision
    ensures r.Ok? ==> r.value <= 1.0
    ensures r.Ok? && ell > 0.0 ==> 0.0 < r.value
  {
    if ell == 0.0 && parentScore < newScore then Err(ZeroDivision)
    else Ok(Min(1.0, Pow(ell, parentScore - newScore)))
  }

  /**
   * The bound of the county-violation rules: 1 for the initial partition,
   * otherwise the Metropolis bound on the summed violation vectors stored
   * under `key` in the parent and in the proposal.
   */
  function CountyBound(p: Partition, key: string, ell: real): (r: Result<real, AcceptError>)
    ensures p.parent.None? ==> r == Ok(1.0)
    ensures r.Ok? ==> r.value <= 1.0
    ensures r.Err? && r.error.MissingScore? ==> r.error.key == key
    ensures p.parent.Some? && (key !in p.parent.value.scores || key !in p.scores) ==> r == Err(MissingScore(key))
  {
    match p.parent
    case None => Ok(1.0)
    case Some(parent) =>
      if key !in parent.scores || key !in p.scores then Err(MissingScore(key))
      else MetropolisBound(Sum(parent.scores[key]), Sum(p.scores[key]), ell)
  }

  /** Accepts exactly when the draw lies below the bound. */
  function Decide(bound: Result<real, AcceptError>, draw: real): (r: Result<bool, AcceptError>)
    ensures r.Ok? <==> bound.Ok?
    ensures r.Err? ==> r.error == bound.error
    ensures r.Ok? ==> (r.value <==> draw < bound.value)
  {
    match bound
    case Ok(b) => Ok(draw < b)
    case Err(e) => Err(e)
  }

  /**
   * `swap_county_accept`: the initial partition is accepted on any draw
   * below 1; otherwise the proposal is accepted when the draw lies below
   * both 1 and `ell ** (parent violations - proposal violations)`.
   */
  function SwapCountyAccept(p: Partition, ell: real, draw: real): (r: Result<bool, AcceptError>)
    ensures p.parent.None? ==> r == Ok(draw < 1.0)
    ensures r.Err? <==> p.parent.Some? && (SWAP_VIOLATIONS_KEY !in p.parent.value.scores || SWAP_VIOLATIONS_KEY !in p.scores
                                            || (ell == 0.0 && Sum(p.parent.value.scores[SWAP_VIOLATIONS_KEY]) < Sum(p.scores[SWAP_VIOLATIONS_KEY])))
    ensures r.Ok? && p.parent.Some? ==>
      (r.value <==> draw < 1.0 && draw < Pow(ell, Sum(p.parent.value.scores[SWAP_VIOLATIONS_KEY]) - Sum(p.scores[SWAP_VIOLATIONS_KEY])))
  {
    Decide(CountyBound(p, SWAP_VIOLATIONS_KEY, ell), draw)
  }

  /** `recom_county_accept`: as SwapCountyAccept, on the recombination violations. */
  function RecomCountyAccept(p: Partition, ell: real, draw: real): (r: Result<bool, AcceptError>)
    ensures p.parent.None? ==> r == Ok(draw < 1.0)
    ensures r.Err? <==> p.parent.Some? && (RECOM_VIOLATIONS_KEY !in p.parent.value.scores || RECOM_VIOLATIONS_KEY !in p.scores
                                            || (ell == 0.0 && Sum(p.parent.value.scores[RECOM_VIOLATIONS_KEY]) < Sum(p.scores[RECOM_VIOLATIONS_KEY])))
    ensures r.Ok? && p.parent.Some? ==>
      (r.value <==> draw < 1.0 && draw < Pow(ell, Sum(p.parent.value.scores[RECOM_VIOLATIONS_KEY]) - Sum(p.scores[RECOM_VIOLATIONS_KEY])))
  {
    Decide(CountyBound(p, RECOM_VIOLATIONS_KEY, ell), draw)
  }

  /**
   * The bound of `cut_edge_accept`: 1 for the initial partition, otherwise
   * `min(1, parent cut edges / proposal cut edges)`, which fails when the
   * proposal has no cut edges.
   */
  function CutEdgeBound(p: Partition): (r: Result<real, AcceptError>)
    ensures r.Err? <==> p.parent.Some? && p.cutEdges == 0
    ensures r.Err? ==> r.error == ZeroDivision
    ensures r.Ok? ==> 0.0 <= r.value <= 1.0
    ensures p.parent.None? ==> r == Ok(1.0)
  {
    match p.parent
    case None => Ok(1.0)
    case Some(parent) =>
      if p.cutEdges == 0 then Err(ZeroDivision)
      else Ok(Min(1.0, parent.cutEdges as real / p.cutEdges as real))
  }

  /**
   * `cut_edge_accept`: the initial partition is accepted on any draw below
   * 1; otherwise the proposal is accepted when the draw lies below 1 and,
   * scaled by the proposal's cut edges, below the parent's cut edges.
   */
  function CutEdgeAccept(p: Partition, draw: real): (r: Result<bool, AcceptError>)
    ensures r.Err? <==> p.parent.Some? && p.cutEdges == 0
    ensures p.parent.None? ==> r == Ok(draw < 1.0)
    ensures r.Ok? && p.parent.Some? ==>
      (r.value <==> draw < 1.0 && draw * p.cutEdges as real < p.parent.value.cutEdges as real)
  {
    if p.parent.Some? && p.cutEdges > 0 then
      BelowQuotient(draw, p.parent.value.cutEdges as real, p.cutEdges as real);
      Decide(CutEdgeBound(p), draw)
    else
      Decide(CutEdgeBound(p), draw)
  }

  // ---------------------------------------------------------------------------
  // Powers.

  lemma ProductAtLeastOne(x: real, q: real)
    ensures x >= 1.0 && q >= 1.0 ==> x * q >= 1.0
  {
    if x >= 1.0 && q >= 1.0 {
      assert x * q - q == (x - 1.0) * q;
    }
  }

  /** For a base above one, a higher power is larger. */
  lemma {:induction false} NatPowIncreasing(x: real, m: nat, n: nat)
    requires x > 1.0 && m < n
    ensures NatPow(x, m) < NatPow(x, n)
    decreases n
  {
    NatPowStep(x, n);
    if m < n - 1 {
      NatPowIncreasing(x, m, n - 1);
    }
  }

  lemma NatPowStep(x: real, n: nat)
    requires x > 1.0 && n > 0
    ensures NatPow(x, n - 1) < NatPow(x, n)
  {
    TimesAboveOne(x, NatPow(x, n - 1));
  }

  lemma TimesAboveOne(x: real, q: real)
    requires x > 1.0 && q > 0.0
    ensures x * q > q
  {
    assert x * q - q == (x - 1.0) * q;
  }

  lemma UnitReciprocal(q: real)
    requires q > 1.0
    ensures 0.0 < 1.0 / q < 1.0
  {
  }

  lemma ReciprocalDecreasing(a: real, b: real)
    requires 0.0 < a < b
    ensures 1.0 / b < 1.0 / a
  {
    assert 1.0 / b * b == 1.0 && 1.0 / a * a == 1.0;
    assert (1.0 / b) * a < (1.0 / b) * b;
  }

  // ---------------------------------------------------------------------------
  // Properties of the rules.

  /** The initial partition is accepted by every rule, whatever the draw in [0, 1). */
  lemma InitialProposalAccepted(p: Partition, ell: real, draw: real)
    requires p.parent.None? && 0.0 <= draw < 1.0
    ensures AlwaysAccept(p)
    ensures SwapCountyAccept(p, ell, draw) == Ok(true)
    ensures RecomCountyAccept(p, ell, draw) == Ok(true)
    ensures CutEdgeAccept(p, draw) == Ok(true)
  {
  }

  /** With `ell = 1` the bound is 1 whatever the scores. */
  lemma UnitEllBound(parentScore: int, newScore: int)
    ensures MetropolisBound(parentScore, newScore, 1.0) == Ok(1.0)
  {
  }

  /** With `ell >= 1`, a proposal with no more violations than its parent is always accepted. */
  lemma ImprovementBound(parentScore: int, newScore: int, ell: real)
    requires ell >= 1.0 && newScore <= parentScore
    ensures MetropolisBound(parentScore, newScore, ell) == Ok(1.0)
  {
  }

  /**
   * With `ell > 1`, a proposal with more violations than its parent gets
   * the bound `1 / ell ** (newScore - parentScore)`, strictly between 0 and 1.
   */
  lemma WorseningBound(parentScore: int, newScore: int, ell: real)
    requires ell > 1.0 && newScore > parentScore
    ensures MetropolisBound(parentScore, newScore, ell) == Ok(1.0 / NatPow(ell, newScore - parentScore))
    ensures 0.0 < MetropolisBound(parentScore, newScore, ell).value < 1.0
  {
    NatPowIncreasing(ell, 0, newScore - parentScore);
    UnitReciprocal(NatPow(ell, newScore - parentScore));
  }

  /** With `ell > 1`, the larger the increase in violations, the smaller the bound. */
  lemma WorseningBoundDecreases(parentScore: int, newScore1: int, newScore2: int, ell: real)
    requires ell > 1.0 && parentScore < newScore1 < newScore2
    ensures MetropolisBound(parentScore, newScore2, ell).value < MetropolisBound(parentScore, newScore1, ell).value
  {
    WorseningBound(parentScore, newScore1, ell);
    WorseningBound(parentScore, newScore2, ell);
    NatPowIncreasing(ell, 0, newScore1 - parentScore);
    NatPowIncreasing(ell, newScore1 - parentScore, newScore2 - parentScore);
    ReciprocalDecreasing(NatPow(ell, newScore1 - parentScore), NatPow(ell, newScore2 - parentScore));
  }

  /**
   * The swap and the recombination rules differ only in the updater key:
   * on equal violation sums under the two keys they decide alike.
   */
  lemma SwapRecomSameBound(p: Partition, ell: real, draw: real)
    requires p.parent.Some?
    requires SWAP_VIOLATIONS_KEY in p.scores && RECOM_VIOLATIONS_KEY in p.scores
    requires SWAP_VIOLATIONS_KEY in p.parent.value.scores && RECOM_VIOLATIONS_KEY in p.parent.value.scores
    requires Sum(p.scores[SWAP_VIOLATIONS_KEY]) == Sum(p.scores[RECOM_VIOLATIONS_KEY])
    requires Sum(p.parent.value.scores[SWAP_VIOLATIONS_KEY]) == Sum(p.parent.value.scores[RECOM_VIOLATIONS_KEY])
    ensures SwapCountyAccept(p, ell, draw) == RecomCountyAccept(p, ell, draw)
  {
  }

  /**
   * The cut-edge bound is 1 when the proposal has no more cut edges than
   * its parent, and below 1 when it has more: the rule favours fewer cut
   * edges.
   */
  lemma CutEdgeBoundCases(p: Partition)
    requires p.parent.Some? && p.cutEdges > 0
    ensures p.cutEdges <= p.parent.value.cutEdges ==> CutEdgeBound(p) == Ok(1.0)
    ensures p.cutEdges > p.parent.value.cutEdges
        ==> CutEdgeBound(p) == Ok(p.parent.value.cutEdges as real / p.cutEdges as real)
            && CutEdgeBound(p).value < 1.0
  {
    var parentCut, cut := p.parent.value.cutEdges as real, p.cutEdges as real;
    if p.cutEdges <= p.parent.value.cutEdges {
      DivAtLeastOne(parentCut, cut);
    } else {
      DivBelowOne(parentCut, cut);
    }
  }

  lemma BelowQuotient(d: real, a: real, b: real)
    requires b > 0.0
    ensures d < a / b <==> d * b < a
  {
    assert a / b * b == a;
  }

  lemma DivAtLeastOne(a: real, b: real)
    requires 0.0 < b <= a
    ensures a / b >= 1.0
  {
    assert a / b * b == a;
  }

  lemma DivBelowOne(a: real, b: real)
    requires 0.0 <= a < b
    ensures a / b < 1.0
  {
    assert a / b * b == a;
  }
}
