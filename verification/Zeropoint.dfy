/** The robust zeropoint fit: an inverse-variance weighted median with one clip pass. */
module Zeropoint {
  import opened Common
  import opened Reals
  import Sorting

  const DEFAULT_MIN_CAL_STARS := 5
  const DEFAULT_MAX_ZPRMS := 0.15
  const DEFAULT_REF_ERR := 0.02
  const MAD_TO_SIGMA := 1.4826

  /** A value with the weight it carries. */
  datatype Weighted = Weighted(value: real, weight: real)

  // ----- sorting -----

  function ValueOf(p: Weighted): real {
    p.value
  }

  function Insert(p: Weighted, ps: seq<Weighted>): seq<Weighted> {
    if ps == [] || p.value < ps[0].value then [p] + ps else [ps[0]] + Insert(p, ps[1..])
  }

  function Sort(ps: seq<Weighted>): seq<Weighted> {
    if ps == [] then [] else Insert(ps[|ps| - 1], Sort(ps[..|ps| - 1]))
  }

  lemma {:induction false} InsertElements(p: Weighted, ps: seq<Weighted>)
    ensures multiset(Insert(p, ps)) == multiset(ps) + multiset{p}
    ensures |Insert(p, ps)| == |ps| + 1
  {
    if ps != [] && ps[0].value <= p.value {
      InsertElements(p, ps[1..]);
      assert ps == [ps[0]] + ps[1..];
    }
  }

  lemma {:induction false} InsertAbove(p: Weighted, ps: seq<Weighted>, low: real)
    requires low <= p.value && forall i :: 0 <= i < |ps| ==> low <= ps[i].value
    ensures forall i :: 0 <= i < |Insert(p, ps)| ==> low <= Insert(p, ps)[i].value
  {
    if ps != [] && ps[0].value <= p.value {
      InsertAbove(p, ps[1..], low);
    }
  }

  lemma {:induction false} InsertAscending(p: Weighted, ps: seq<Weighted>)
    requires Sorting.Ascending(ps, ValueOf)
    ensures Sorting.Ascending(Insert(p, ps), ValueOf)
  {
    if ps != [] && ps[0].value <= p.value {
      InsertAscending(p, ps[1..]);
      InsertAbove(p, ps[1..], ps[0].value);
    }
  }

  lemma {:induction false} SortAscending(ps: seq<Weighted>)
    ensures Sorting.Ascending(Sort(ps), ValueOf) && multiset(Sort(ps)) == multiset(ps) && |Sort(ps)| == |ps|
  {
    if ps != [] {
      var front := ps[..|ps| - 1];
      SortAscending(front);
      InsertAscending(ps[|ps| - 1], Sort(front));
      InsertElements(ps[|ps| - 1], Sort(front));
      assert ps == front + [ps[|ps| - 1]];
    }
  }

  // ----- sums over the list -----

  function Total(ps: seq<Weighted>): real {
    if ps == [] then 0.0 else Total(ps[..|ps| - 1]) + ps[|ps| - 1].weight
  }

  function Deviation(p: Weighted, x: real): real {
    p.weight * Abs(p.value - x)
  }

  /** The weighted sum of absolute deviations from `x`. */
  function Cost(ps: seq<Weighted>, x: real): real {
    if ps == [] then 0.0 else Cost(ps[..|ps| - 1], x) + Deviation(ps[|ps| - 1], x)
  }

  /** The weight of the values below `x`, counting `x` itself when `equal`. */
  function WeightBelow(ps: seq<Weighted>, x: real, equal: bool): real {
    if ps == [] then 0.0
    else
      var p := ps[|ps| - 1];
      WeightBelow(ps[..|ps| - 1], x, equal) + if p.value < x || (equal && p.value == x) then p.weight else 0.0
  }

  ghost predicate NonNegative(ps: seq<Weighted>) {
    forall i :: 0 <= i < |ps| ==> ps[i].weight >= 0.0
  }

  // ----- the weighted median -----

  /** The running total of the weights up to and including index `i`. */
  function RunningTotal(ps: seq<Weighted>, i: nat): real
    requires i < |ps|
  {
    Total(ps[..i + 1])
  }

  /** The first index at which the running total reaches `cutoff`; the length when none does. */
  function Crossing(ps: seq<Weighted>, cutoff: real, from: nat): (k: nat)
    requires from <= |ps|
    ensures from <= k <= |ps|
    ensures forall i :: from <= i < k ==> RunningTotal(ps, i) < cutoff
    ensures k < |ps| ==> RunningTotal(ps, k) >= cutoff
    decreases |ps| - from
  {
    if from == |ps| || RunningTotal(ps, from) >= cutoff then from else Crossing(ps, cutoff, from + 1)
  }

  /** The middle value of a sorted list, or the mean of its middle two. */
  function Middle(v: seq<Weighted>): real
    requires v != []
  {
    var n := |v|;
    if n % 2 == 1 then v[n / 2].value else (v[n / 2 - 1].value + v[n / 2].value) / 2.0
  }

  /** The plain median. */
  function Median(ps: seq<Weighted>): real
    requires ps != []
  {
    SortAscending(ps);
    Middle(Sort(ps))
  }

  /** The value at which the sorted weights cross half of their total. */
  function Pick(v: seq<Weighted>): real
    requires v != []
  {
    var idx := Crossing(v, 0.5 * Total(v), 0);
    v[if idx < |v| - 1 then idx else |v| - 1].value
  }

  function WeightedMedian(ps: seq<Weighted>): real
    requires ps != []
  {
    SortAscending(ps);
    var v := Sort(ps);
    if Total(v) <= 0.0 then Median(ps) else Pick(v)
  }

  lemma {:induction false} TotalAppend(a: seq<Weighted>, b: seq<Weighted>)
    ensures Total(a + b) == Total(a) + Total(b)
  {
    if b == [] {
      assert a + b == a;
    } else {
      assert (a + b)[..|a + b| - 1] == a + b[..|b| - 1];
      TotalAppend(a, b[..|b| - 1]);
    }
  }

  lemma {:induction false} CostAppend(a: seq<Weighted>, b: seq<Weighted>, x: real)
    ensures Cost(a + b, x) == Cost(a, x) + Cost(b, x)
  {
    if b == [] {
      assert a + b == a;
    } else {
      assert (a + b)[..|a + b| - 1] == a + b[..|b| - 1];
      CostAppend(a, b[..|b| - 1], x);
    }
  }

  lemma {:induction false} BelowAppend(a: seq<Weighted>, b: seq<Weighted>, x: real, equal: bool)
    ensures WeightBelow(a + b, x, equal) == WeightBelow(a, x, equal) + WeightBelow(b, x, equal)
  {
    if b == [] {
      assert a + b == a;
    } else {
      assert (a + b)[..|a + b| - 1] == a + b[..|b| - 1];
      BelowAppend(a, b[..|b| - 1], x, equal);
    }
  }

  /** Insertion adds the same to every sum as appending does. */
  lemma {:induction false} InsertLikeAppend(p: Weighted, ps: seq<Weighted>, x: real, equal: bool)
    ensures Total(Insert(p, ps)) == Total(ps + [p])
    ensures Cost(Insert(p, ps), x) == Cost(ps + [p], x)
    ensures WeightBelow(Insert(p, ps), x, equal) == WeightBelow(ps + [p], x, equal)
  {
    if ps == [] || p.value < ps[0].value {
      SumsAppend([p], ps, x, equal);
      SumsAppend(ps, [p], x, equal);
    } else {
      var head, tail := [ps[0]], ps[1..];
      InsertLikeAppend(p, tail, x, equal);
      SumsAppend(head, Insert(p, tail), x, equal);
      SumsAppend(head, tail + [p], x, equal);
      assert ps + [p] == head + (tail + [p]);
    }
  }

  lemma SumsAppend(a: seq<Weighted>, b: seq<Weighted>, x: real, equal: bool)
    ensures Total(a + b) == Total(a) + Total(b)
    ensures Cost(a + b, x) == Cost(a, x) + Cost(b, x)
    ensures WeightBelow(a + b, x, equal) == WeightBelow(a, x, equal) + WeightBelow(b, x, equal)
  {
    TotalAppend(a, b);
    CostAppend(a, b, x);
    BelowAppend(a, b, x, equal);
  }

  /** Sorting changes none of the sums. */
  lemma {:induction false} SortKeepsSums(ps: seq<Weighted>, x: real, equal: bool)
    ensures Total(Sort(ps)) == Total(ps)
    ensures Cost(Sort(ps), x) == Cost(ps, x)
    ensures WeightBelow(Sort(ps), x, equal) == WeightBelow(ps, x, equal)
  {
    if ps != [] {
      var front, last := ps[..|ps| - 1], ps[|ps| - 1];
      SortKeepsSums(front, x, equal);
      InsertLikeAppend(last, Sort(front), x, equal);
      SumsAppend(Sort(front), [last], x, equal);
      SumsAppend(front, [last], x, equal);
      assert ps == front + [last];
    }
  }

  lemma SortNonNegative(ps: seq<Weighted>)
    requires NonNegative(ps)
    ensures NonNegative(Sort(ps))
  {
    SortAscending(ps);
    forall i | 0 <= i < |Sort(ps)|
      ensures Sort(ps)[i].weight >= 0.0
    {
      assert Sort(ps)[i] in multiset(ps);
      assert Sort(ps)[i] in ps;
    }
  }

  // ----- it minimises the weighted sum of deviations -----

  function Push(p: Weighted, d: real): real {
    p.weight * d
  }

  /** The weighted sum of one distance. */
  function Pull(ps: seq<Weighted>, d: real): real {
    if ps == [] then 0.0 else Pull(ps[..|ps| - 1], d) + Push(ps[|ps| - 1], d)
  }

  lemma SumTimes(a: real, b: real, d: real)
    ensures (a + b) * d == a * d + b * d
  {
  }

  lemma {:induction false} PullIsProduct(ps: seq<Weighted>, d: real)
    ensures Pull(ps, d) == Total(ps) * d
  {
    if ps != [] {
      PullIsProduct(ps[..|ps| - 1], d);
      SumTimes(Total(ps[..|ps| - 1]), ps[|ps| - 1].weight, d);
    }
  }

  lemma ProductsCompare(pa: real, pb: real, a: real, b: real, d: real)
    requires pa == a * d && pb == b * d && d >= 0.0 && a >= b
    ensures pa >= pb
  {
    var gap := a - b;
    ProductNonNegative(gap, d);
    SumTimes(gap, b, d);
  }

  lemma HeavierPullsMore(a: seq<Weighted>, b: seq<Weighted>, d: real)
    requires d >= 0.0 && Total(a) >= Total(b)
    ensures Pull(a, d) >= Pull(b, d)
  {
    PullIsProduct(a, d);
    PullIsProduct(b, d);
    ProductsCompare(Pull(a, d), Pull(b, d), Total(a), Total(b), d);
  }

  lemma DeviationMoves(p: Weighted, m: real, x: real)
    requires p.weight >= 0.0
    ensures Deviation(p, x) >= Deviation(p, m) - Push(p, Abs(x - m))
    ensures (if m <= x then p.value <= m else m <= p.value) ==> Deviation(p, x) == Deviation(p, m) + Push(p, Abs(x - m))
  {
    var after, before, moved := Abs(p.value - x), Abs(p.value - m), Abs(x - m);
    WeighedDrop(p.weight, after, before, moved);
  }

  lemma WeighedDrop(w: real, after: real, before: real, moved: real)
    requires w >= 0.0 && after >= before - moved
    ensures w * after >= w * before - w * moved
    ensures after == before + moved ==> w * after == w * before + w * moved
  {
    var slack := after - before + moved;
    ProductNonNegative(w, slack);
    assert w * slack == w * after - w * before + w * moved;
  }

  /** Moving from `m` to `x`, on values all on the far side of `m`. */
  lemma {:induction false} MovingAway(ps: seq<Weighted>, m: real, x: real)
    requires NonNegative(ps)
    requires forall i :: 0 <= i < |ps| ==> if m <= x then ps[i].value <= m else m <= ps[i].value
    ensures Cost(ps, x) == Cost(ps, m) + Pull(ps, Abs(x - m))
  {
    if ps != [] {
      MovingAway(ps[..|ps| - 1], m, x);
      DeviationMoves(ps[|ps| - 1], m, x);
    }
  }

  /** Anywhere else a deviation shrinks by at most the distance moved. */
  lemma {:induction false} MovingAnywhere(ps: seq<Weighted>, m: real, x: real)
    requires NonNegative(ps)
    ensures Cost(ps, x) >= Cost(ps, m) - Pull(ps, Abs(x - m))
  {
    if ps != [] {
      MovingAnywhere(ps[..|ps| - 1], m, x);
      DeviationMoves(ps[|ps| - 1], m, x);
    }
  }

  /** `idx` splits the weights in half: less than half lies before it, at least half up to it. */
  ghost predicate Halves(v: seq<Weighted>, idx: nat) {
    idx < |v| && (idx > 0 ==> RunningTotal(v, idx - 1) < 0.5 * Total(v)) && RunningTotal(v, idx) >= 0.5 * Total(v)
  }

  lemma SplitCostRight(low: seq<Weighted>, high: seq<Weighted>, m: real, x: real)
    requires NonNegative(low) && NonNegative(high) && m <= x && Total(low) >= Total(high)
    requires forall i :: 0 <= i < |low| ==> low[i].value <= m
    ensures Cost(low, m) + Cost(high, m) <= Cost(low, x) + Cost(high, x)
  {
    MovingAway(low, m, x);
    MovingAnywhere(high, m, x);
    HeavierPullsMore(low, high, Abs(x - m));
  }

  lemma SplitCostLeft(low: seq<Weighted>, high: seq<Weighted>, m: real, x: real)
    requires NonNegative(low) && NonNegative(high) && x < m && Total(high) >= Total(low)
    requires forall i :: 0 <= i < |high| ==> m <= high[i].value
    ensures Cost(low, m) + Cost(high, m) <= Cost(low, x) + Cost(high, x)
  {
    MovingAnywhere(low, m, x);
    MovingAway(high, m, x);
    HeavierPullsMore(high, low, Abs(x - m));
  }

  lemma HalvesMinimises(v: seq<Weighted>, idx: nat, x: real)
    requires Sorting.Ascending(v, ValueOf) && NonNegative(v) && Halves(v, idx)
    ensures Cost(v, v[idx].value) <= Cost(v, x)
  {
    SplitWeights(v, idx);
    if v[idx].value <= x {
      NoBetterRight(v, idx + 1, v[idx].value, x);
    } else {
      NoBetterLeft(v, idx, v[idx].value, x);
    }
  }

  lemma NoBetterRight(v: seq<Weighted>, cut: nat, m: real, x: real)
    requires NonNegative(v) && cut <= |v| && m <= x && Total(v[..cut]) >= Total(v[cut..])
    requires forall i :: 0 <= i < cut ==> v[i].value <= m
    ensures Cost(v, m) <= Cost(v, x)
  {
    SplitCostRight(v[..cut], v[cut..], m, x);
    SplitCost(v, cut, m);
    SplitCost(v, cut, x);
  }

  lemma NoBetterLeft(v: seq<Weighted>, cut: nat, m: real, x: real)
    requires NonNegative(v) && cut <= |v| && x < m && Total(v[cut..]) >= Total(v[..cut])
    requires forall i :: cut <= i < |v| ==> m <= v[i].value
    ensures Cost(v, m) <= Cost(v, x)
  {
    SplitCostLeft(v[..cut], v[cut..], m, x);
    SplitCost(v, cut, m);
    SplitCost(v, cut, x);
  }

  lemma SplitCost(v: seq<Weighted>, cut: nat, x: real)
    requires cut <= |v|
    ensures Cost(v, x) == Cost(v[..cut], x) + Cost(v[cut..], x)
  {
    assert v[..cut] + v[cut..] == v;
    CostAppend(v[..cut], v[cut..], x);
  }

  lemma SplitWeights(v: seq<Weighted>, idx: nat)
    requires NonNegative(v) && Halves(v, idx)
    ensures Total(v[..idx + 1]) >= Total(v[idx + 1..])
    ensures Total(v[idx..]) >= Total(v[..idx])
  {
    assert v[..idx + 1] + v[idx + 1..] == v && v[..idx] + v[idx..] == v;
    TotalAppend(v[..idx + 1], v[idx + 1..]);
    TotalAppend(v[..idx], v[idx..]);
    if idx > 0 {
      assert v[..idx - 1 + 1] == v[..idx];
    } else {
      TotalNonNegative(v);
    }
  }

  lemma CrossingHalves(v: seq<Weighted>)
    requires v != [] && Total(v) > 0.0
    ensures Halves(v, Crossing(v, 0.5 * Total(v), 0))
  {
    assert v[..|v| - 1 + 1] == v;
    assert RunningTotal(v, |v| - 1) == Total(v);
  }

  lemma MedianHalves(ps: seq<Weighted>)
    requires ps != [] && Total(Sort(ps)) > 0.0
    ensures exists idx: nat :: Halves(Sort(ps), idx) && Sort(ps)[idx].value == WeightedMedian(ps)
  {
    SortAscending(ps);
    var v := Sort(ps);
    CrossingHalves(v);
    assert Halves(v, Crossing(v, 0.5 * Total(v), 0));
  }

  /** No other zeropoint has a smaller weighted sum of absolute deviations. */
  lemma WeightedMedianMinimises(ps: seq<Weighted>, x: real)
    requires ps != [] && NonNegative(ps)
    ensures Cost(ps, WeightedMedian(ps)) <= Cost(ps, x)
  {
    SortAscending(ps);
    SortNonNegative(ps);
    SortKeepsSums(ps, x, true);
    SortKeepsSums(ps, WeightedMedian(ps), true);
    if Total(Sort(ps)) > 0.0 {
      MedianHalves(ps);
    }
    SortedPickMinimises(Sort(ps), WeightedMedian(ps), x);
  }

  lemma SortedPickMinimises(v: seq<Weighted>, m: real, x: real)
    requires v != [] && Sorting.Ascending(v, ValueOf) && NonNegative(v)
    requires Total(v) > 0.0 ==> exists idx: nat :: Halves(v, idx) && v[idx].value == m
    ensures Cost(v, m) <= Cost(v, x)
  {
    if Total(v) > 0.0 {
      var idx: nat :| Halves(v, idx) && v[idx].value == m;
      HalvesMinimises(v, idx, x);
    } else {
      WeightlessCost(v, x);
      WeightlessCost(v, m);
    }
  }

  lemma {:induction false} TotalNonNegative(ps: seq<Weighted>)
    requires NonNegative(ps)
    ensures Total(ps) >= 0.0
  {
    if ps != [] {
      TotalNonNegative(ps[..|ps| - 1]);
    }
  }

  lemma {:induction false} WeightlessCost(ps: seq<Weighted>, x: real)
    requires NonNegative(ps) && Total(ps) <= 0.0
    ensures Cost(ps, x) == 0.0
  {
    if ps != [] {
      TotalNonNegative(ps[..|ps| - 1]);
      WeightlessCost(ps[..|ps| - 1], x);
    }
  }

  // ----- it does not depend on how ties are ordered -----

  lemma {:induction false} BelowBounds(ps: seq<Weighted>, x: real, equal: bool)
    requires NonNegative(ps)
    ensures 0.0 <= WeightBelow(ps, x, equal) <= Total(ps)
    ensures (forall i :: 0 <= i < |ps| ==> x <= ps[i].value) ==> WeightBelow(ps, x, false) == 0.0
    ensures (forall i :: 0 <= i < |ps| ==> ps[i].value <= x) ==> WeightBelow(ps, x, true) == Total(ps)
  {
    if ps != [] {
      BelowBounds(ps[..|ps| - 1], x, equal);
    }
  }

  lemma {:induction false} BelowMonotone(ps: seq<Weighted>, x: real, y: real)
    requires NonNegative(ps) && x < y
    ensures WeightBelow(ps, x, true) <= WeightBelow(ps, y, false)
  {
    if ps != [] {
      BelowMonotone(ps[..|ps| - 1], x, y);
    }
  }

  /** `m` is a value with less than half of the weight below it and at least half at or below it. */
  ghost predicate CrossesHalf(ps: seq<Weighted>, m: real) {
    && (exists i :: 0 <= i < |ps| && ps[i].value == m)
    && WeightBelow(ps, m, false) < 0.5 * Total(ps) <= WeightBelow(ps, m, true)
  }

  lemma SortedBelow(v: seq<Weighted>, cut: nat, m: real)
    requires NonNegative(v) && cut <= |v|
    requires forall i :: cut <= i < |v| ==> m <= v[i].value
    ensures WeightBelow(v, m, false) <= Total(v[..cut])
  {
    var low, high := v[..cut], v[cut..];
    assert low + high == v;
    BelowAppend(low, high, m, false);
    BelowBounds(low, m, false);
    BelowBounds(high, m, false);
  }

  lemma SortedUpTo(v: seq<Weighted>, cut: nat, m: real)
    requires NonNegative(v) && cut <= |v|
    requires forall i :: 0 <= i < cut ==> v[i].value <= m
    ensures WeightBelow(v, m, true) >= Total(v[..cut])
  {
    var low, high := v[..cut], v[cut..];
    assert low + high == v;
    BelowAppend(low, high, m, true);
    BelowBounds(low, m, true);
    BelowBounds(high, m, true);
  }

  lemma SortedCrosses(v: seq<Weighted>, idx: nat)
    requires Sorting.Ascending(v, ValueOf) && NonNegative(v) && Halves(v, idx) && Total(v) > 0.0
    ensures WeightBelow(v, v[idx].value, false) < 0.5 * Total(v) <= WeightBelow(v, v[idx].value, true)
  {
    SortedBelow(v, idx, v[idx].value);
    SortedUpTo(v, idx + 1, v[idx].value);
    RunningBefore(v, idx);
  }

  lemma RunningBefore(v: seq<Weighted>, idx: nat)
    requires idx < |v|
    ensures Total(v[..idx]) == if idx > 0 then RunningTotal(v, idx - 1) else 0.0
  {
    if idx > 0 {
      assert v[..idx - 1 + 1] == v[..idx];
    }
  }

  /** The result is the one value that crosses half of the weight, whatever order a sort gives to ties. */
  lemma WeightedMedianExactly(ps: seq<Weighted>, m: real)
    requires NonNegative(ps) && Total(ps) > 0.0
    ensures ps != [] && (m == WeightedMedian(ps) <==> CrossesHalf(ps, m))
  {
    var r := WeightedMedian(ps);
    SortAscending(ps);
    SortNonNegative(ps);
    SortKeepsSums(ps, r, false);
    SortKeepsSums(ps, r, true);
    MedianHalves(ps);
    var idx: nat :| Halves(Sort(ps), idx) && Sort(ps)[idx].value == r;
    SortedCrosses(Sort(ps), idx);
    assert Sort(ps)[idx] in multiset(ps);
    assert Sort(ps)[idx] in ps;
    assert CrossesHalf(ps, r);
    if m < r {
      BelowMonotone(ps, m, r);
    } else if r < m {
      BelowMonotone(ps, r, m);
    }
  }

  // ----- the fit -----

  /** Values of equal standing. */
  function Residuals(ps: seq<Weighted>, zp: real): (r: seq<Weighted>)
    ensures |r| == |ps| && forall i :: 0 <= i < |ps| ==> r[i] == Weighted(ps[i].value - zp, 1.0)
  {
    seq(|ps|, i requires 0 <= i < |ps| => Weighted(ps[i].value - zp, 1.0))
  }

  function Deviations(rs: seq<Weighted>, center: real): (r: seq<Weighted>)
    ensures |r| == |rs| && forall i :: 0 <= i < |rs| ==> r[i] == Weighted(Abs(rs[i].value - center), 1.0)
  {
    seq(|rs|, i requires 0 <= i < |rs| => Weighted(Abs(rs[i].value - center), 1.0))
  }

  function MadSigma(rs: seq<Weighted>): real
    requires rs != []
  {
    MAD_TO_SIGMA * Median(Deviations(rs, Median(rs)))
  }

  /** The stars whose deviation stays within `limit`. */
  function Clip(ps: seq<Weighted>, deviations: seq<Weighted>, limit: real): seq<Weighted>
    requires |ps| == |deviations|
  {
    if ps == [] then []
    else
      var n := |ps| - 1;
      Clip(ps[..n], deviations[..n], limit) + if deviations[n].value <= limit then [ps[n]] else []
  }

  datatype Reason = InsufficientMatches | InsufficientAfterClip | ScatterExceedsMax

  datatype Outcome = Raised | Failed(reason: Reason, n: int, scatter: Option<real>)
    | Fitted(zp: real, rms: real, n: int)

  function Judge(used: seq<Weighted>, minCal: int, maxRms: real): Outcome {
    if used == [] then Raised
    else
      var zp := WeightedMedian(used);
      var rms := MadSigma(Residuals(used, zp));
      if |used| < minCal then Failed(InsufficientAfterClip, |used|, None)
      else if rms > maxRms then Failed(ScatterExceedsMax, |used|, Some(rms))
      else Fitted(zp, rms, |used|)
  }

  /** The stars whose residual stays within three sigma of the median residual. */
  function Within(ps: seq<Weighted>, rs: seq<Weighted>): seq<Weighted>
    requires |ps| == |rs| && rs != []
  {
    Clip(ps, Deviations(rs, Median(rs)), 3.0 * MadSigma(rs))
  }

  /** The stars left after the one clip pass. */
  function Survivors(ps: seq<Weighted>, minCal: int): seq<Weighted>
    requires ps != []
  {
    var rs := Residuals(ps, WeightedMedian(ps));
    var kept := Within(ps, rs);
    if MadSigma(rs) > 0.0 && minCal <= |kept| < |ps| then kept else ps
  }

  function Fit(ps: seq<Weighted>, minCal: int, maxRms: real): Outcome {
    if |ps| < minCal then Failed(InsufficientMatches, |ps|, None)
    else if ps == [] then Raised
    else Judge(Survivors(ps, minCal), minCal, maxRms)
  }

  // ----- a clip pass keeps at least half -----

  ghost predicate UnitWeights(ps: seq<Weighted>) {
    forall i :: 0 <= i < |ps| ==> ps[i].weight == 1.0
  }

  lemma {:induction false} UnitTotal(ps: seq<Weighted>)
    requires UnitWeights(ps)
    ensures Total(ps) == |ps| as real
  {
    if ps != [] {
      UnitTotal(ps[..|ps| - 1]);
    }
  }

  lemma SortUnitWeights(ps: seq<Weighted>)
    requires UnitWeights(ps)
    ensures UnitWeights(Sort(ps))
  {
    SortAscending(ps);
    forall i | 0 <= i < |Sort(ps)|
      ensures Sort(ps)[i].weight == 1.0
    {
      assert Sort(ps)[i] in multiset(ps);
      assert Sort(ps)[i] in ps;
    }
  }

  lemma MedianNotBelowMiddle(ps: seq<Weighted>)
    requires ps != []
    ensures |Sort(ps)| == |ps| && Sorting.Ascending(Sort(ps), ValueOf)
    ensures Sort(ps)[(|ps| - 1) / 2].value <= Median(ps)
  {
    SortAscending(ps);
    MiddleNotBelow(Sort(ps));
  }

  lemma MiddleNotBelow(v: seq<Weighted>)
    requires v != [] && Sorting.Ascending(v, ValueOf)
    ensures v[(|v| - 1) / 2].value <= Middle(v)
  {
    if |v| % 2 == 0 {
      assert v[|v| / 2 - 1].value <= v[|v| / 2].value;
    }
  }

  /** At least half of the values are at or below the plain median. */
  lemma MedianReachesHalf(ps: seq<Weighted>, x: real)
    requires ps != [] && UnitWeights(ps) && Median(ps) <= x
    ensures WeightBelow(ps, x, true) >= 0.5 * |ps| as real
  {
    MedianNotBelowMiddle(ps);
    SortKeepsSums(ps, x, true);
    SortUnitWeights(ps);
    var half := (|ps| - 1) / 2 + 1;
    FirstHalfCounts(Sort(ps), half, x);
    assert half as real >= 0.5 * |ps| as real;
  }

  lemma FirstHalfCounts(v: seq<Weighted>, half: nat, x: real)
    requires UnitWeights(v) && Sorting.Ascending(v, ValueOf) && 0 < half <= |v| && v[half - 1].value <= x
    ensures WeightBelow(v, x, true) >= half as real
  {
    SortedUpTo(v, half, x);
    UnitTotal(v[..half]);
  }

  lemma {:induction false} ClipCounts(ps: seq<Weighted>, deviations: seq<Weighted>, limit: real)
    requires |ps| == |deviations| && UnitWeights(deviations)
    ensures |Clip(ps, deviations, limit)| as real == WeightBelow(deviations, limit, true)
    ensures |Clip(ps, deviations, limit)| <= |ps|
  {
    if ps != [] {
      var n := |ps| - 1;
      ClipCounts(ps[..n], deviations[..n], limit);
    }
  }

  lemma {:induction false} ClipNonNegative(ps: seq<Weighted>, deviations: seq<Weighted>, limit: real)
    requires |ps| == |deviations| && NonNegative(ps)
    ensures NonNegative(Clip(ps, deviations, limit))
  {
    if ps != [] {
      var n := |ps| - 1;
      ClipNonNegative(ps[..n], deviations[..n], limit);
    }
  }

  /** A limit at or above the median deviation keeps at least half. */
  lemma ClipKeepsHalf(ps: seq<Weighted>, devs: seq<Weighted>, limit: real)
    requires ps != [] && |ps| == |devs| && UnitWeights(devs) && Median(devs) <= limit
    ensures 2 * |Clip(ps, devs, limit)| >= |ps|
  {
    MedianReachesHalf(devs, limit);
    ClipCounts(ps, devs, limit);
  }

  lemma WithinKeepsHalf(ps: seq<Weighted>, rs: seq<Weighted>)
    requires ps != [] && |ps| == |rs| && MadSigma(rs) > 0.0
    ensures 2 * |Within(ps, rs)| >= |ps|
  {
    var devs := Deviations(rs, Median(rs));
    ThreeSigma(Median(devs), MadSigma(rs));
    ClipKeepsHalf(ps, devs, 3.0 * MadSigma(rs));
  }

  lemma ThreeSigma(mad: real, sigma: real)
    requires sigma == MAD_TO_SIGMA * mad && sigma > 0.0
    ensures mad <= 3.0 * sigma
  {
  }

  /** At least half of the stars survive, and never fewer than the required number. */
  lemma SurvivorsAreHalf(ps: seq<Weighted>, minCal: int)
    requires ps != [] && minCal <= |ps|
    ensures var kept := Survivors(ps, minCal);
            kept != [] && 2 * |kept| >= |ps| && minCal <= |kept| <= |ps|
  {
    var rs := Residuals(ps, WeightedMedian(ps));
    if MadSigma(rs) > 0.0 {
      WithinKeepsHalf(ps, rs);
    }
  }

  lemma SurvivorsNonNegative(ps: seq<Weighted>, minCal: int)
    requires ps != [] && NonNegative(ps)
    ensures NonNegative(Survivors(ps, minCal))
  {
    var rs := Residuals(ps, WeightedMedian(ps));
    ClipNonNegative(ps, Deviations(rs, Median(rs)), 3.0 * MadSigma(rs));
  }

  /** What an accepted zeropoint guarantees; and the second count check never fires. */
  lemma FitGuarantees(ps: seq<Weighted>, minCal: int, maxRms: real)
    requires NonNegative(ps)
    ensures var out := Fit(ps, minCal, maxRms);
            && (out.Raised? <==> ps == [] && minCal <= 0)
            && (out.Failed? ==> out.reason != InsufficientAfterClip)
            && (out.Failed? && out.reason == InsufficientMatches <==> |ps| < minCal)
            && (out.Fitted? ==> minCal <= out.n <= |ps| <= 2 * out.n && out.rms <= maxRms)
            && (out.Fitted? ==> forall x :: Cost(Survivors(ps, minCal), out.zp) <= Cost(Survivors(ps, minCal), x))
  {
    if ps != [] && minCal <= |ps| {
      SurvivorsAreHalf(ps, minCal);
      SurvivorsNonNegative(ps, minCal);
      JudgeGuarantees(Survivors(ps, minCal), minCal, maxRms);
    }
  }

  lemma JudgeGuarantees(used: seq<Weighted>, minCal: int, maxRms: real)
    requires used != [] && minCal <= |used| && NonNegative(used)
    ensures var out := Judge(used, minCal, maxRms);
            && !out.Raised? && (out.Failed? ==> out.reason == ScatterExceedsMax)
            && (out.Fitted? ==> out.n == |used| && out.rms <= maxRms)
            && (out.Fitted? ==> forall x :: Cost(used, out.zp) <= Cost(used, x))
  {
    forall x
      ensures Cost(used, WeightedMedian(used)) <= Cost(used, x)
    {
      WeightedMedianMinimises(used, x);
    }
  }

  // ----- adding a constant to every value -----

  function Shift(ps: seq<Weighted>, c: real): (r: seq<Weighted>)
    ensures |r| == |ps| && forall i :: 0 <= i < |ps| ==> r[i] == Weighted(ps[i].value + c, ps[i].weight)
  {
    seq(|ps|, i requires 0 <= i < |ps| => Weighted(ps[i].value + c, ps[i].weight))
  }

  lemma {:induction false} ShiftInsert(p: Weighted, ps: seq<Weighted>, c: real)
    ensures Insert(Weighted(p.value + c, p.weight), Shift(ps, c)) == Shift(Insert(p, ps), c)
  {
    if ps != [] && ps[0].value <= p.value {
      ShiftInsert(p, ps[1..], c);
      assert Shift(ps, c)[1..] == Shift(ps[1..], c);
      assert Shift([ps[0]] + Insert(p, ps[1..]), c) == [Shift(ps, c)[0]] + Shift(Insert(p, ps[1..]), c);
    } else {
      assert Shift([p] + ps, c) == [Weighted(p.value + c, p.weight)] + Shift(ps, c);
    }
  }

  lemma {:induction false} ShiftSort(ps: seq<Weighted>, c: real)
    ensures Sort(Shift(ps, c)) == Shift(Sort(ps), c)
  {
    if ps != [] {
      var n := |ps| - 1;
      assert Shift(ps, c)[..n] == Shift(ps[..n], c);
      ShiftSort(ps[..n], c);
      ShiftInsert(ps[n], Sort(ps[..n]), c);
    }
  }

  lemma {:induction false} ShiftTotal(ps: seq<Weighted>, c: real)
    ensures Total(Shift(ps, c)) == Total(ps)
  {
    if ps != [] {
      var n := |ps| - 1;
      assert Shift(ps, c)[..n] == Shift(ps[..n], c);
      ShiftTotal(ps[..n], c);
    }
  }

  lemma {:induction false} ShiftCrossing(ps: seq<Weighted>, c: real, cutoff: real, from: nat)
    requires from <= |ps|
    ensures Crossing(Shift(ps, c), cutoff, from) == Crossing(ps, cutoff, from)
    decreases |ps| - from
  {
    if from < |ps| {
      assert Shift(ps, c)[..from + 1] == Shift(ps[..from + 1], c);
      ShiftTotal(ps[..from + 1], c);
      ShiftCrossing(ps, c, cutoff, from + 1);
    }
  }

  lemma ShiftMedian(ps: seq<Weighted>, c: real)
    requires ps != []
    ensures Median(Shift(ps, c)) == Median(ps) + c
  {
    SortAscending(ps);
    ShiftSort(ps, c);
  }

  lemma ShiftPick(v: seq<Weighted>, c: real)
    requires v != []
    ensures Pick(Shift(v, c)) == Pick(v) + c
  {
    var cutoff := 0.5 * Total(v);
    ShiftTotal(v, c);
    assert 0.5 * Total(Shift(v, c)) == cutoff;
    ShiftCrossing(v, c, cutoff, 0);
  }

  lemma ShiftWeightedMedian(ps: seq<Weighted>, c: real)
    requires ps != []
    ensures WeightedMedian(Shift(ps, c)) == WeightedMedian(ps) + c
  {
    SortAscending(ps);
    ShiftSort(ps, c);
    ShiftMedian(ps, c);
    ShiftTotal(Sort(ps), c);
    ShiftPick(Sort(ps), c);
  }

  lemma {:induction false} ShiftClip(ps: seq<Weighted>, deviations: seq<Weighted>, limit: real, c: real)
    requires |ps| == |deviations|
    ensures Clip(Shift(ps, c), deviations, limit) == Shift(Clip(ps, deviations, limit), c)
  {
    if ps != [] {
      var n := |ps| - 1;
      assert Shift(ps, c)[..n] == Shift(ps[..n], c);
      ShiftClip(ps[..n], deviations[..n], limit, c);
    }
  }

  lemma ShiftResiduals(ps: seq<Weighted>, c: real)
    requires ps != []
    ensures Residuals(Shift(ps, c), WeightedMedian(Shift(ps, c))) == Residuals(ps, WeightedMedian(ps))
  {
    ShiftWeightedMedian(ps, c);
  }

  function ShiftOutcome(out: Outcome, c: real): Outcome {
    if out.Fitted? then out.(zp := out.zp + c) else out
  }

  lemma ShiftWithin(ps: seq<Weighted>, rs: seq<Weighted>, c: real)
    requires |ps| == |rs| && rs != []
    ensures Within(Shift(ps, c), rs) == Shift(Within(ps, rs), c)
  {
    ShiftClip(ps, Deviations(rs, Median(rs)), 3.0 * MadSigma(rs), c);
  }

  lemma ShiftJudge(used: seq<Weighted>, c: real, minCal: int, maxRms: real)
    ensures Judge(Shift(used, c), minCal, maxRms) == ShiftOutcome(Judge(used, minCal, maxRms), c)
  {
    if used != [] {
      ShiftResiduals(used, c);
      ShiftWeightedMedian(used, c);
    }
  }

  lemma ShiftFit(ps: seq<Weighted>, c: real, minCal: int, maxRms: real)
    ensures Fit(Shift(ps, c), minCal, maxRms) == ShiftOutcome(Fit(ps, minCal, maxRms), c)
  {
    if ps != [] && minCal <= |ps| {
      ShiftResiduals(ps, c);
      ShiftWithin(ps, Residuals(ps, WeightedMedian(ps)), c);
      assert Survivors(Shift(ps, c), minCal) == Shift(Survivors(ps, minCal), c);
      ShiftJudge(Survivors(ps, minCal), c, minCal, maxRms);
    }
  }

  // ----- from matched stars -----

  /** A matched star; None stands for a field that is absent or not a finite number. */
  datatype Match = Match(inst: Option<real>, ref: Option<real>, err: Option<real>, color: Option<real>)

  function RefErr(m: Match): (e: real)
    ensures e > 0.0
  {
    if m.err.Some? && m.err.value > 0.0 then m.err.value else DEFAULT_REF_ERR
  }

  /** The colour correction; an absent or zero colour term means none. */
  function ColorShift(m: Match, colorTerm: Option<real>): real {
    if colorTerm.Some? && colorTerm.value != 0.0 then colorTerm.value * (if m.color.Some? then m.color.value else 0.0)
    else 0.0
  }

  function Delta(m: Match, colorTerm: Option<real>): Weighted
    requires m.inst.Some? && m.ref.Some?
  {
    var e := RefErr(m);
    Weighted(m.ref.value - m.inst.value - ColorShift(m, colorTerm), 1.0 / (e * e))
  }

  /** The weighted differences of the usable matches. */
  function Deltas(matches: seq<Match>, colorTerm: Option<real>): (ps: seq<Weighted>)
    ensures NonNegative(ps)
  {
    if matches == [] then []
    else
      var m := matches[|matches| - 1];
      Deltas(matches[..|matches| - 1], colorTerm) + if m.inst.Some? && m.ref.Some? then [Delta(m, colorTerm)] else []
  }

  /** The environment wins over the argument; a zero count argument counts as not given. */
  function MinCal(env: Option<int>, arg: Option<int>): int {
    if env.Some? then env.value else if arg.Some? && arg.value != 0 then arg.value else DEFAULT_MIN_CAL_STARS
  }

  function MaxRms(env: Option<real>, arg: Option<real>): real {
    if env.Some? then env.value else if arg.Some? then arg.value else DEFAULT_MAX_ZPRMS
  }

  method FitZeropoint(matches: seq<Match>, colorTerm: Option<real>, envMin: Option<int>, argMin: Option<int>,
                      envMax: Option<real>, argMax: Option<real>) returns (out: Outcome)
    ensures out == Fit(Deltas(matches, colorTerm), MinCal(envMin, argMin), MaxRms(envMax, argMax))
  {
    out := FitStars(Deltas(matches, colorTerm), MinCal(envMin, argMin), MaxRms(envMax, argMax));
  }

  method FitStars(stars: seq<Weighted>, minCal: int, maxRms: real) returns (out: Outcome)
    ensures out == Fit(stars, minCal, maxRms)
  {
    if |stars| < minCal {
      return Failed(InsufficientMatches, |stars|, None);
    }
    if |stars| == 0 {
      return Raised;
    }
    var delta := stars;
    var zp := WeightedMedian(delta);
    var resid := Residuals(delta, zp);
    var rms := MadSigma(resid);
    if rms > 0.0 {
      var kept := Within(delta, resid);
      if minCal <= |kept| < |delta| {
        WithinKeepsHalf(delta, resid);
        delta := kept;
        zp := WeightedMedian(delta);
        resid := Residuals(delta, zp);
        rms := MadSigma(resid);
      }
    }
    assert delta == Survivors(stars, minCal);
    var n: int := |delta|;
    if n < minCal {
      return Failed(InsufficientAfterClip, n, None);
    }
    if rms > maxRms {
      return Failed(ScatterExceedsMax, n, Some(rms));
    }
    return Fitted(zp, rms, n);
  }

  function ShiftRef(m: Match, c: real): Match {
    if m.ref.Some? then m.(ref := Some(m.ref.value + c)) else m
  }

  function ShiftRefs(matches: seq<Match>, c: real): (r: seq<Match>)
    ensures |r| == |matches| && forall i :: 0 <= i < |r| ==> r[i] == ShiftRef(matches[i], c)
  {
    seq(|matches|, i requires 0 <= i < |matches| => ShiftRef(matches[i], c))
  }

  lemma ShiftDelta(m: Match, colorTerm: Option<real>, c: real)
    requires m.inst.Some? && m.ref.Some?
    ensures Delta(ShiftRef(m, c), colorTerm) == Weighted(Delta(m, colorTerm).value + c, Delta(m, colorTerm).weight)
  {
    assert RefErr(ShiftRef(m, c)) == RefErr(m);
  }

  lemma {:induction false} ShiftDeltas(matches: seq<Match>, colorTerm: Option<real>, c: real)
    ensures Deltas(ShiftRefs(matches, c), colorTerm) == Shift(Deltas(matches, colorTerm), c)
  {
    if matches != [] {
      var n := |matches| - 1;
      assert ShiftRefs(matches, c)[..n] == ShiftRefs(matches[..n], c);
      ShiftDeltas(matches[..n], colorTerm, c);
      if matches[n].inst.Some? && matches[n].ref.Some? {
        ShiftDelta(matches[n], colorTerm, c);
      }
    }
  }

  /** Adding a constant to every reference magnitude moves the zeropoint by that constant and changes
      nothing else: not the verdict, not the number of stars, not the scatter. */
  lemma ReferenceShiftCommutes(matches: seq<Match>, colorTerm: Option<real>, c: real, minCal: int, maxRms: real)
    ensures Fit(Deltas(ShiftRefs(matches, c), colorTerm), minCal, maxRms)
         == ShiftOutcome(Fit(Deltas(matches, colorTerm), minCal, maxRms), c)
  {
    ShiftDeltas(matches, colorTerm, c);
    ShiftFit(Deltas(matches, colorTerm), c, minCal, maxRms);
  }
}
