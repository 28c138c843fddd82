/** The cross-telescope gate: reduced chi-square about the inverse-variance weighted mean. */
module Consistency {
  import opened Common
  import opened Reals

  const DEFAULT_CHI2_RED_MAX := 2.0

  datatype Number = Finite(value: real) | NotFinite

  /** None stands for a key that is absent. */
  datatype Observation = Observation(telescopeId: Option<string>, mag: Option<real>, err: Option<Number>,
                                     transformed: bool)

  /** A magnitude and its error bar. */
  datatype Measured = Measured(mag: real, err: real)

  datatype Refusal =
    | TooFew
    | TwoThresholds
    | BadThreshold
    | MissingMagnitude(index: nat)
    | MissingTelescope(index: nat)
    | MissingTransform(index: nat)
    | BadErrorBar(index: nat)

  /** `barSquared` is the square of the combined error bar. */
  datatype Pair = Pair(a: string, b: string, delta: real, barSquared: real, withinOneSigma: bool)

  datatype Report = Report(
    ids: seq<string>,
    mean: real,
    scatterSquared: real,
    chi2: real,
    chi2Red: real,
    threshold: real,
    pairs: seq<Pair>,
    pass: bool)

  // ----- sums -----

  function Weight(m: Measured): (w: real)
    requires m.err > 0.0
    ensures w > 0.0
  {
    1.0 / (m.err * m.err)
  }

  ghost predicate GoodBars(ms: seq<Measured>) {
    forall i :: 0 <= i < |ms| ==> ms[i].err > 0.0
  }

  function WeightSum(ms: seq<Measured>): (r: real)
    requires GoodBars(ms)
    ensures r >= 0.0 && (ms != [] ==> r > 0.0)
  {
    if ms == [] then 0.0 else WeightSum(ms[..|ms| - 1]) + Weight(ms[|ms| - 1])
  }

  function MagSum(ms: seq<Measured>): real
    requires GoodBars(ms)
  {
    if ms == [] then 0.0 else MagSum(ms[..|ms| - 1]) + Product(ms[|ms| - 1].mag, Weight(ms[|ms| - 1]))
  }

  function WeightedMean(ms: seq<Measured>): real
    requires GoodBars(ms) && ms != []
  {
    Quotient(MagSum(ms), WeightSum(ms))
  }

  /** The sum of squared pulls about `c`. */
  function Chi2(ms: seq<Measured>, c: real): real
    requires GoodBars(ms)
  {
    if ms == [] then 0.0
    else Chi2(ms[..|ms| - 1], c) + Square((ms[|ms| - 1].mag - c) / ms[|ms| - 1].err)
  }

  function SquareSum(ms: seq<Measured>, c: real): real {
    if ms == [] then 0.0 else SquareSum(ms[..|ms| - 1], c) + Square(ms[|ms| - 1].mag - c)
  }

  // ----- chi-square as a sum over pairs -----

  /** One magnitude against each of a list. */
  function Against(ms: seq<Measured>, m: Measured): real
    requires GoodBars(ms) && m.err > 0.0
  {
    if ms == [] then 0.0
    else
      var last := ms[|ms| - 1];
      Against(ms[..|ms| - 1], m) + Weight(last) * Weight(m) * Square(last.mag - m.mag)
  }

  /** Over every pair, the product of the weights times the squared difference. */
  function PairSum(ms: seq<Measured>): real
    requires GoodBars(ms)
  {
    if ms == [] then 0.0 else PairSum(ms[..|ms| - 1]) + Against(ms[..|ms| - 1], ms[|ms| - 1])
  }

  function MagSquareSum(ms: seq<Measured>): real
    requires GoodBars(ms)
  {
    if ms == [] then 0.0
    else MagSquareSum(ms[..|ms| - 1]) + Product(Weight(ms[|ms| - 1]), Square(ms[|ms| - 1].mag))
  }

  /** Chi-square about `c` out of the three sums. */
  function Expansion(q: real, s: real, w: real, c: real): real {
    q - 2.0 * c * s + w * Square(c)
  }

  /** The pair sum out of the three sums. */
  function Spread(q: real, s: real, w: real): real {
    w * q - Square(s)
  }

  lemma PullIsWeighted(m: Measured, c: real)
    requires m.err > 0.0
    ensures Square((m.mag - c) / m.err) == Product(Weight(m), Square(m.mag - c))
  {
    var d, e := m.mag - c, m.err;
    assert d / e == d * (1.0 / e);
    assert (1.0 / e) * (1.0 / e) == 1.0 / (e * e);
  }

  lemma ExpandOneMore(chi: real, pull: real, c: real, q: real, s: real, w: real, w': real, mag: real)
    requires chi == Expansion(q, s, w, c) && pull == Product(w', Square(mag - c))
    ensures chi + pull == Expansion(q + Product(w', Square(mag)), s + Product(mag, w'), w + w', c)
  {
    assert w' * Square(mag - c) == w' * Square(mag) - 2.0 * c * (mag * w') + w' * Square(c);
  }

  lemma {:induction false} Chi2Expanded(ms: seq<Measured>, c: real)
    requires GoodBars(ms)
    ensures Chi2(ms, c) == Expansion(MagSquareSum(ms), MagSum(ms), WeightSum(ms), c)
  {
    if ms != [] {
      var front, last := ms[..|ms| - 1], ms[|ms| - 1];
      Chi2Expanded(front, c);
      PullIsWeighted(last, c);
      ExpandOneMore(Chi2(front, c), Square((last.mag - c) / last.err), c,
                    MagSquareSum(front), MagSum(front), WeightSum(front), Weight(last), last.mag);
    }
  }

  lemma {:induction false} AgainstExpanded(ms: seq<Measured>, m: Measured)
    requires GoodBars(ms) && m.err > 0.0
    ensures Against(ms, m) == Product(Weight(m), Chi2(ms, m.mag))
  {
    if ms != [] {
      var front, last := ms[..|ms| - 1], ms[|ms| - 1];
      AgainstExpanded(front, m);
      PullIsWeighted(last, m.mag);
      AgainstOneMore(Against(front, m), Weight(m), Chi2(front, m.mag), Weight(last), Square(last.mag - m.mag));
    }
  }

  lemma AgainstOneMore(against: real, w: real, chi: real, v: real, s: real)
    requires against == Product(w, chi)
    ensures against + v * w * s == Product(w, chi + Product(v, s))
  {
  }

  /** The pair sum in closed form. */
  lemma {:induction false} PairSumExpanded(ms: seq<Measured>)
    requires GoodBars(ms)
    ensures PairSum(ms) == Spread(MagSquareSum(ms), MagSum(ms), WeightSum(ms))
  {
    if ms != [] {
      var front, last := ms[..|ms| - 1], ms[|ms| - 1];
      PairSumExpanded(front);
      AgainstExpanded(front, last);
      Chi2Expanded(front, last.mag);
      PairOneMore(PairSum(front), Against(front, last), Chi2(front, last.mag),
                  WeightSum(front), MagSum(front), MagSquareSum(front), Weight(last), last.mag);
    }
  }

  lemma PairOneMore(pairs: real, against: real, chi: real, w: real, s: real, q: real, w': real, m: real)
    requires pairs == Spread(q, s, w) && against == Product(w', chi) && chi == Expansion(q, s, w, m)
    ensures pairs + against == Spread(q + Product(w', Square(m)), s + Product(m, w'), w + w')
  {
    assert w' * chi == w' * q - 2.0 * (m * w') * s + w * (w' * Square(m));
    assert Square(s + m * w') == Square(s) + 2.0 * (m * w') * s + w' * (w' * Square(m));
  }

  /** About the weighted mean, chi-square is the pair sum over the total weight. */
  lemma Chi2IsPairSum(ms: seq<Measured>)
    requires GoodBars(ms) && ms != []
    ensures Chi2(ms, WeightedMean(ms)) == Quotient(PairSum(ms), WeightSum(ms))
  {
    Chi2Expanded(ms, WeightedMean(ms));
    PairSumExpanded(ms);
    AtTheMean(Chi2(ms, WeightedMean(ms)), PairSum(ms), WeightedMean(ms), WeightSum(ms), MagSum(ms), MagSquareSum(ms));
  }

  lemma AtTheMean(chi: real, pairs: real, mean: real, w: real, s: real, q: real)
    requires w > 0.0 && mean == Quotient(s, w)
    requires chi == Expansion(q, s, w, mean) && pairs == Spread(q, s, w)
    ensures chi == Quotient(pairs, w)
  {
    assert mean * w == s;
    assert w * Square(mean) == mean * s;
    assert w * chi == w * q - s * s;
  }

  /** Away from the mean chi-square grows by the weight times the squared distance. */
  lemma Chi2AboutAnother(ms: seq<Measured>, c: real)
    requires GoodBars(ms) && ms != []
    ensures Chi2(ms, c) == Chi2(ms, WeightedMean(ms)) + Product(WeightSum(ms), Square(c - WeightedMean(ms)))
  {
    var mean := WeightedMean(ms);
    Chi2Expanded(ms, c);
    Chi2Expanded(ms, mean);
    Recentre(Chi2(ms, c), Chi2(ms, mean), WeightSum(ms), MagSum(ms), MagSquareSum(ms), mean, c);
  }

  lemma Recentre(chi: real, least: real, w: real, s: real, q: real, mean: real, c: real)
    requires w > 0.0 && mean == Quotient(s, w)
    requires chi == Expansion(q, s, w, c) && least == Expansion(q, s, w, mean)
    ensures chi == least + Product(w, Square(c - mean))
  {
    assert mean * w == s;
    assert w * Square(c - mean) == w * Square(c) - 2.0 * c * (mean * w) + mean * (mean * w);
    assert w * Square(mean) == mean * (mean * w);
  }

  /** The weighted mean is the one centre at which chi-square is least. */
  lemma MeanMinimises(ms: seq<Measured>, c: real)
    requires GoodBars(ms) && ms != []
    ensures Chi2(ms, WeightedMean(ms)) <= Chi2(ms, c)
    ensures Chi2(ms, c) == Chi2(ms, WeightedMean(ms)) ==> c == WeightedMean(ms)
  {
    Chi2AboutAnother(ms, c);
    SquareSign(c - WeightedMean(ms));
    ProductSign(WeightSum(ms), Square(c - WeightedMean(ms)));
  }

  lemma ProductSign(w: real, d: real)
    requires w > 0.0 && d >= 0.0
    ensures Product(w, d) >= 0.0 && (Product(w, d) == 0.0 <==> d == 0.0)
  {
  }

  // ----- a common shift, and agreement -----

  function Shift(ms: seq<Measured>, d: real): (r: seq<Measured>)
    ensures |r| == |ms| && forall i :: 0 <= i < |ms| ==> r[i] == Measured(ms[i].mag + d, ms[i].err)
  {
    seq(|ms|, i requires 0 <= i < |ms| => Measured(ms[i].mag + d, ms[i].err))
  }

  lemma {:induction false} ShiftAgainst(ms: seq<Measured>, m: Measured, d: real)
    requires GoodBars(ms) && m.err > 0.0
    ensures Against(Shift(ms, d), Measured(m.mag + d, m.err)) == Against(ms, m)
  {
    if ms != [] {
      var n := |ms| - 1;
      assert Shift(ms, d)[..n] == Shift(ms[..n], d);
      ShiftAgainst(ms[..n], m, d);
      assert ms[n].mag + d - (m.mag + d) == ms[n].mag - m.mag;
    }
  }

  lemma {:induction false} ShiftWeightSum(ms: seq<Measured>, d: real)
    requires GoodBars(ms)
    ensures WeightSum(Shift(ms, d)) == WeightSum(ms)
  {
    if ms != [] {
      var n := |ms| - 1;
      assert Shift(ms, d)[..n] == Shift(ms[..n], d);
      ShiftWeightSum(ms[..n], d);
    }
  }

  lemma {:induction false} ShiftPairSum(ms: seq<Measured>, d: real)
    requires GoodBars(ms)
    ensures PairSum(Shift(ms, d)) == PairSum(ms)
  {
    if ms != [] {
      var n := |ms| - 1;
      assert Shift(ms, d)[..n] == Shift(ms[..n], d);
      ShiftPairSum(ms[..n], d);
      ShiftAgainst(ms[..n], ms[n], d);
    }
  }

  /** The gate's statistic. */
  function ReducedChi2(ms: seq<Measured>): real
    requires GoodBars(ms) && |ms| >= 2
  {
    Quotient(Chi2(ms, WeightedMean(ms)), (|ms| - 1) as real)
  }

  /** Moving every magnitude by the same amount leaves the statistic as it was. */
  lemma ShiftKeepsVerdict(ms: seq<Measured>, d: real)
    requires GoodBars(ms) && |ms| >= 2
    ensures ReducedChi2(Shift(ms, d)) == ReducedChi2(ms)
  {
    Chi2IsPairSum(ms);
    Chi2IsPairSum(Shift(ms, d));
    ShiftPairSum(ms, d);
    ShiftWeightSum(ms, d);
  }

  lemma {:induction false} AgainstZero(ms: seq<Measured>, m: Measured)
    requires GoodBars(ms) && m.err > 0.0
    ensures Against(ms, m) >= 0.0
    ensures Against(ms, m) == 0.0 <==> forall i :: 0 <= i < |ms| ==> ms[i].mag == m.mag
  {
    if ms != [] {
      var n := |ms| - 1;
      AgainstZero(ms[..n], m);
      TermSign(Weight(ms[n]), Weight(m), ms[n].mag - m.mag);
      assert forall i :: 0 <= i < n ==> ms[..n][i] == ms[i];
    }
  }

  lemma TermSign(v: real, w: real, d: real)
    requires v > 0.0 && w > 0.0
    ensures v * w * Square(d) >= 0.0 && (v * w * Square(d) == 0.0 <==> d == 0.0)
  {
    SquareSign(d);
    var vw := v * w;
    assert vw > 0.0;
    ProductSign(vw, Square(d));
  }

  lemma {:induction false} PairSumZero(ms: seq<Measured>)
    requires GoodBars(ms)
    ensures PairSum(ms) >= 0.0
    ensures PairSum(ms) == 0.0 <==> forall i, j :: 0 <= i < j < |ms| ==> ms[i].mag == ms[j].mag
  {
    if ms != [] {
      var n := |ms| - 1;
      PairSumZero(ms[..n]);
      AgainstZero(ms[..n], ms[n]);
      assert forall i :: 0 <= i < n ==> ms[..n][i] == ms[i];
    }
  }

  /** The statistic is never negative, and is zero exactly when all the magnitudes agree. */
  lemma ZeroExactlyWhenAgreed(ms: seq<Measured>)
    requires GoodBars(ms) && |ms| >= 2
    ensures ReducedChi2(ms) >= 0.0
    ensures ReducedChi2(ms) == 0.0 <==> forall i, j :: 0 <= i < j < |ms| ==> ms[i].mag == ms[j].mag
  {
    Chi2IsPairSum(ms);
    PairSumZero(ms);
    QuotientSign(PairSum(ms), WeightSum(ms));
    QuotientSign(Quotient(PairSum(ms), WeightSum(ms)), (|ms| - 1) as real);
  }

  lemma QuotientSign(a: real, b: real)
    requires a >= 0.0 && b > 0.0
    ensures Quotient(a, b) >= 0.0 && (Quotient(a, b) == 0.0 <==> a == 0.0)
  {
  }

  /** The gate in terms of pairs: the pair sum against the threshold. */
  lemma GateByPairs(ms: seq<Measured>, threshold: real)
    requires GoodBars(ms) && |ms| >= 2
    ensures ReducedChi2(ms) <= threshold <==>
            PairSum(ms) <= Product(Product(threshold, (|ms| - 1) as real), WeightSum(ms))
  {
    Chi2IsPairSum(ms);
    CrossMultiply(PairSum(ms), WeightSum(ms), (|ms| - 1) as real, threshold);
  }

  lemma CrossMultiply(p: real, w: real, n: real, t: real)
    requires w > 0.0 && n > 0.0
    ensures Quotient(Quotient(p, w), n) <= t <==> p <= Product(Product(t, n), w)
  {
    var q := p / w;
    var r := q / n;
    assert q * w == p && r * n == q;
    if r <= t {
      assert (t - r) * n >= 0.0;
      assert (t * n - q) * w >= 0.0;
    } else {
      assert (r - t) * n > 0.0;
      assert (q - t * n) * w > 0.0;
    }
  }

  // ----- the harness -----

  function ThresholdOf(chi2RedMax: Option<real>, sigmaThreshold: Option<real>): real {
    if chi2RedMax.Some? then chi2RedMax.value
    else if sigmaThreshold.Some? then sigmaThreshold.value
    else DEFAULT_CHI2_RED_MAX
  }

  /** What is wrong with observation `i`, if anything. */
  function Fault(o: Observation, i: nat, requireTransform: bool): Option<Refusal> {
    if o.mag.None? || o.err.None? then Some(MissingMagnitude(i))
    else if o.telescopeId.None? then Some(MissingTelescope(i))
    else if requireTransform && !o.transformed then Some(MissingTransform(i))
    else if o.err.value.NotFinite? || o.err.value.value <= 0.0 then Some(BadErrorBar(i))
    else None
  }

  predicate Clean(observations: seq<Observation>, requireTransform: bool) {
    forall i :: 0 <= i < |observations| ==> Fault(observations[i], i, requireTransform).None?
  }

  /** `fault` is what is wrong with the first observation that is not clean. */
  ghost predicate FirstFault(observations: seq<Observation>, requireTransform: bool, fault: Refusal) {
    exists i :: 0 <= i < |observations| && Clean(observations[..i], requireTransform)
                && Fault(observations[i], i, requireTransform) == Some(fault)
  }

  function Measure(o: Observation): Measured
    requires o.mag.Some? && o.err.Some? && o.err.value.Finite?
  {
    Measured(o.mag.value, o.err.value.value)
  }

  /** Magnitudes and error bars of clean observations. */
  function Measurements(observations: seq<Observation>, requireTransform: bool): (ms: seq<Measured>)
    requires Clean(observations, requireTransform)
    ensures |ms| == |observations| && GoodBars(ms)
    ensures forall i :: 0 <= i < |ms| ==>
            Some(ms[i].mag) == observations[i].mag && Some(Finite(ms[i].err)) == observations[i].err
  {
    seq(|observations|, i requires 0 <= i < |observations| =>
      assert Fault(observations[i], i, requireTransform).None?;
      Measure(observations[i]))
  }

  function PairOf(ids: seq<string>, ms: seq<Measured>, i: nat, j: nat): Pair
    requires i < j < |ms| == |ids|
  {
    var gap := ms[i].mag - ms[j].mag;
    var delta := if gap < 0.0 then -gap else gap;
    var bar := ms[i].err * ms[i].err + ms[j].err * ms[j].err;
    Pair(ids[i], ids[j], delta, bar, delta * delta <= bar)
  }

  /** The pairs of `i` with each later index from `j` on. */
  function PairsFrom(ids: seq<string>, ms: seq<Measured>, i: nat, j: nat): seq<Pair>
    requires i < j <= |ms| == |ids|
    decreases |ms| - j
  {
    if j == |ms| then [] else [PairOf(ids, ms, i, j)] + PairsFrom(ids, ms, i, j + 1)
  }

  function AllPairs(ids: seq<string>, ms: seq<Measured>, i: nat): seq<Pair>
    requires i <= |ms| == |ids|
    decreases |ms| - i
  {
    if i == |ms| then [] else PairsFrom(ids, ms, i, i + 1) + AllPairs(ids, ms, i + 1)
  }

  lemma Regroup(a: seq<Pair>, b: seq<Pair>, c: seq<Pair>)
    ensures a + (b + c) == (a + b) + c
  {
  }

  /** What a report on clean observations says: the gate compares the reduced chi-square about the
      weighted mean with the threshold; scatter and pairs are diagnostics. */
  ghost predicate ReportOf(report: Report, observations: seq<Observation>, requireTransform: bool, threshold: real)
    requires |observations| >= 2 && Clean(observations, requireTransform)
  {
    var ms := Measurements(observations, requireTransform);
    && report.threshold == threshold
    && report.mean == WeightedMean(ms)
    && report.chi2 == Chi2(ms, WeightedMean(ms))
    && report.chi2Red == ReducedChi2(ms)
    && report.pass == (ReducedChi2(ms) <= threshold)
    && report.scatterSquared == Quotient(SquareSum(ms, WeightedMean(ms)), (|ms| - 1) as real)
    && |report.ids| == |ms| && (forall i :: 0 <= i < |ms| ==> Some(report.ids[i]) == observations[i].telescopeId)
    && report.pairs == AllPairs(report.ids, ms, 0)
  }

  method PairTable(ids: seq<string>, ms: seq<Measured>) returns (pairs: seq<Pair>)
    requires |ids| == |ms|
    ensures pairs == AllPairs(ids, ms, 0)
  {
    pairs := [];
    var i := 0;
    while i < |ms|
      invariant 0 <= i <= |ms|
      invariant AllPairs(ids, ms, 0) == pairs + AllPairs(ids, ms, i)
    {
      ghost var before := pairs;
      var j := i + 1;
      while j < |ms|
        invariant i < j <= |ms|
        invariant before + PairsFrom(ids, ms, i, i + 1) == pairs + PairsFrom(ids, ms, i, j)
      {
        Regroup(pairs, [PairOf(ids, ms, i, j)], PairsFrom(ids, ms, i, j + 1));
        pairs := pairs + [PairOf(ids, ms, i, j)];
        j := j + 1;
      }
      Regroup(before, PairsFrom(ids, ms, i, i + 1), AllPairs(ids, ms, i + 1));
      i := i + 1;
    }
  }

  /** The first faulty observation decides; a clean list is measured in order. */
  method EvaluateConsistency(observations: seq<Observation>, requireTransform: bool,
                             chi2RedMax: Option<real>, sigmaThreshold: Option<real>)
    returns (r: Result<Report, Refusal>)
    ensures |observations| < 2 ==> r == Err(TooFew)
    ensures |observations| >= 2 && chi2RedMax.Some? && sigmaThreshold.Some? ==> r == Err(TwoThresholds)
    ensures var accepted := |observations| >= 2 && !(chi2RedMax.Some? && sigmaThreshold.Some?);
            var threshold := ThresholdOf(chi2RedMax, sigmaThreshold);
            && (accepted && threshold <= 0.0 ==> r == Err(BadThreshold))
            && (accepted && threshold > 0.0 && !Clean(observations, requireTransform) ==>
                  r.Err? && FirstFault(observations, requireTransform, r.error))
            && (accepted && threshold > 0.0 && Clean(observations, requireTransform) ==>
                  r.Ok? && ReportOf(r.value, observations, requireTransform, threshold))
  {
    if |observations| < 2 {
      return Err(TooFew);
    }
    if chi2RedMax.Some? && sigmaThreshold.Some? {
      return Err(TwoThresholds);
    }
    var threshold := ThresholdOf(chi2RedMax, sigmaThreshold);
    if threshold <= 0.0 {
      return Err(BadThreshold);
    }
    var ids, ms := [], [];
    var i := 0;
    while i < |observations|
      invariant 0 <= i <= |observations|
      invariant Clean(observations[..i], requireTransform)
      invariant ms == Measurements(observations[..i], requireTransform)
      invariant |ids| == i && forall j :: 0 <= j < i ==> Some(ids[j]) == observations[j].telescopeId
    {
      var o := observations[i];
      var fault := Fault(o, i, requireTransform);
      if fault.Some? {
        return Err(fault.value);
      }
      assert observations[..i + 1] == observations[..i] + [o];
      ids := ids + [o.telescopeId.value];
      ms := ms + [Measure(o)];
      i := i + 1;
    }
    assert observations[..i] == observations;
    var n := |ms|;
    var mean := WeightedMean(ms);
    var chi2 := Chi2(ms, mean);
    var chi2Red := Quotient(chi2, (n - 1) as real);
    var pairs := PairTable(ids, ms);
    r := Ok(Report(ids, mean, Quotient(SquareSum(ms, mean), (n - 1) as real), chi2, chi2Red, threshold, pairs,
      chi2Red <= threshold));
  }
}
