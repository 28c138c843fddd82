/** Filling a stacking cohort: an anchor, then telescopes similar to the mean of those already chosen. */
module CohortFill {
  import opened Common
  import opened Reals
  import opened Selector

  const COHORT_MAX_NODES := 8
  const DIMENSIONS := 5
  const COSINE_BONUS := 500.0
  const IDLE_SATURATION_MINUTES := 45.0
  const SCARCITY_STRENGTH := 1.5

  /** A telescope's features, each normalised to 0..1. */
  type Vector = v: seq<real> | |v| == DIMENSIONS witness [0.0, 0.0, 0.0, 0.0, 0.0]

  /** The feature computation and the cosine similarity, which need logarithms and square roots. */
  datatype Features = Features(vector: Node -> Vector, cosine: (Vector, Vector) -> real)

  // ----- bands -----

  const DEFAULT_WIDTHS: Vector := [0.30, 0.50, 0.50, 0.30, 0.0]

  function BandWidthsFor(scienceBand: string): Vector {
    if scienceBand == "planetary" then [0.15, 0.30, 0.40, 0.15, 0.0]
    else if scienceBand == "wide_field" then [0.50, 0.70, 0.60, 0.50, 0.0]
    else DEFAULT_WIDTHS
  }

  /** Every dimension on its own: exact agreement where the width is 0, distance at most the width elsewhere. */
  predicate PassesBands(anchor: Vector, candidate: Vector, widths: Vector) {
    forall i :: 0 <= i < DIMENSIONS ==>
      if widths[i] <= 0.0 then anchor[i] == candidate[i] else Abs(candidate[i] - anchor[i]) <= widths[i]
  }

  function AdaptiveStep(size: nat): real {
    if size < 3 then -0.05 else if size > 8 then 0.05 else 0.0
  }

  function AdaptedWidth(width: real, size: nat): real {
    if width <= 0.0 then width
    else
      var w := width - AdaptiveStep(size);
      var low := if w < 0.05 then 0.05 else w;
      if low > 0.95 then 0.95 else low
  }

  function AdaptiveBandWidth(base: Vector, size: nat): Vector {
    seq(DIMENSIONS, i requires 0 <= i < DIMENSIONS => AdaptedWidth(base[i], size))
  }

  /** The widths in force while the member after the first `members` is looked for. */
  function WidthsFor(scienceBand: string, members: nat): Vector {
    if members == 0 then BandWidthsFor(scienceBand) else AdaptiveBandWidth(WidthsFor(scienceBand, members - 1), members)
  }

  /** The bands widen by 0.05 for each of the first two searches and then stay; they never tighten. */
  lemma {:induction false} WidthsSettle(scienceBand: string, members: nat)
    requires 1 <= members < COHORT_MAX_NODES
    ensures var base := BandWidthsFor(scienceBand);
            forall i :: 0 <= i < DIMENSIONS ==>
              WidthsFor(scienceBand, members)[i]
              == if base[i] == 0.0 then 0.0 else if members == 1 then base[i] + 0.05 else base[i] + 0.1
    decreases members
  {
    if members > 1 {
      WidthsSettle(scienceBand, members - 1);
    } else {
      assert WidthsFor(scienceBand, 0) == BandWidthsFor(scienceBand);
    }
  }

  // ----- ranking fillers -----

  function IdleBonus(idleMinutes: real): (r: real)
    ensures 0.0 <= r <= 1.0
    ensures r == 1.0 <==> idleMinutes >= IDLE_SATURATION_MINUTES
  {
    if idleMinutes <= 0.0 then 0.0
    else
      var b := idleMinutes / IDLE_SATURATION_MINUTES;
      if b > 1.0 then 1.0 else b
  }

  function EffectivePenalty(substitutes: nat, idleMinutes: real): real {
    1.0 / ((1 + substitutes) as real) * (1.0 - IdleBonus(idleMinutes))
  }

  function FillerFactor(substitutes: nat, idleMinutes: real): real {
    1.0 + EffectivePenalty(substitutes, idleMinutes) * SCARCITY_STRENGTH
  }

  function ApplyFillerPenalty(score: int, substitutes: nat, idleMinutes: real): int {
    Truncate(score as real * FillerFactor(substitutes, idleMinutes))
  }

  lemma PenaltyRange(substitutes: nat, idleMinutes: real)
    ensures 0.0 <= EffectivePenalty(substitutes, idleMinutes) <= 1.0
    ensures idleMinutes >= IDLE_SATURATION_MINUTES ==> EffectivePenalty(substitutes, idleMinutes) == 0.0
  {
    var scarcity := 1.0 / ((1 + substitutes) as real);
    assert 0.0 < scarcity <= 1.0;
    var left := 1.0 - IdleBonus(idleMinutes);
    assert 0.0 <= scarcity * left <= left;
  }

  /** A filler's score is raised by at most a factor 2.5, and not at all once it has idled long enough. */
  lemma FillerPenaltyBounded(score: nat, substitutes: nat, idleMinutes: real)
    ensures score <= ApplyFillerPenalty(score, substitutes, idleMinutes)
    ensures 2 * ApplyFillerPenalty(score, substitutes, idleMinutes) <= 5 * score
    ensures idleMinutes >= IDLE_SATURATION_MINUTES ==> ApplyFillerPenalty(score, substitutes, idleMinutes) == score
  {
    PenaltyRange(substitutes, idleMinutes);
    var factor := FillerFactor(substitutes, idleMinutes);
    assert 1.0 <= factor <= 2.5;
    ScaledBetween(score, factor);
    assert ApplyFillerPenalty(score, substitutes, idleMinutes) == Truncate(score as real * factor);
  }

  lemma ScaledBetween(score: nat, factor: real)
    requires 1.0 <= factor <= 2.5
    ensures score <= Truncate(score as real * factor)
    ensures 2 * Truncate(score as real * factor) <= 5 * score
    ensures factor == 1.0 ==> Truncate(score as real * factor) == score
  {
    var s := score as real;
    var extra, room := factor - 1.0, 2.5 - factor;
    assert s * factor == s + s * extra && s * extra >= 0.0;
    assert s * factor == 2.5 * s - s * room && s * room >= 0.0;
  }

  // ----- looking nodes up -----

  function NodeById(nodes: seq<Node>, id: string): Option<Node> {
    if nodes == [] then None
    else if nodes[0].id == id then Some(nodes[0])
    else NodeById(nodes[1..], id)
  }

  lemma {:induction false} NodeByIdFinds(nodes: seq<Node>, n: Node)
    requires n in nodes
    ensures NodeById(nodes, n.id).Some?
  {
    if nodes[0].id != n.id {
      NodeByIdFinds(nodes[1..], n);
    }
  }

  predicate Substitute(n: Node, other: Node, f: Features) {
    other.id != n.id && NodeIsIdle(other) && other.taskId.None?
    && PassesBands(f.vector(n), f.vector(other), DEFAULT_WIDTHS)
  }

  function Substitutes(nodes: seq<Node>, n: Node, f: Features): nat {
    if nodes == [] then 0
    else Substitutes(nodes[..|nodes| - 1], n, f) + if Substitute(n, nodes[|nodes| - 1], f) then 1 else 0
  }

  method CountSubstitutes(nodes: seq<Node>, n: Node, f: Features) returns (count: nat)
    ensures count == Substitutes(nodes, n, f)
  {
    count := 0;
    var i := 0;
    while i < |nodes|
      invariant 0 <= i <= |nodes|
      invariant count == Substitutes(nodes[..i], n, f)
    {
      var other := nodes[i];
      assert nodes[..i + 1][..i] == nodes[..i];
      if other.id != n.id && NodeIsIdle(other) && other.taskId.None? {
        if PassesBands(f.vector(n), f.vector(other), DEFAULT_WIDTHS) {
          count := count + 1;
        }
      }
      i := i + 1;
    }
    assert nodes[..i] == nodes;
  }

  // ----- what a cohort is -----

  /** The features of the node a result names. */
  function VectorOf(nodes: seq<Node>, f: Features, r: SelectorResult): Vector {
    match NodeById(nodes, r.id)
    case Some(n) => f.vector(n)
    case None => [0.0, 0.0, 0.0, 0.0, 0.0]
  }

  function FillerKey(nodes: seq<Node>, f: Features, centroid: Vector, r: SelectorResult): real {
    match NodeById(nodes, r.id)
    case Some(n) =>
      var idle := if n.idleMinutes.Some? then n.idleMinutes.value else 0.0;
      ApplyFillerPenalty(r.score, Substitutes(nodes, n, f), idle) as real
        - f.cosine(centroid, f.vector(n)) * COSINE_BONUS
    case None => 0.0
  }

  function Total(nodes: seq<Node>, f: Features, members: seq<SelectorResult>, i: nat): real
    requires i < DIMENSIONS
  {
    if members == [] then 0.0
    else Total(nodes, f, members[..|members| - 1], i) + VectorOf(nodes, f, members[|members| - 1])[i]
  }

  /** The arithmetic mean of the members' features. */
  function Mean(nodes: seq<Node>, f: Features, members: seq<SelectorResult>): Vector
    requires members != []
  {
    seq(DIMENSIONS, i requires 0 <= i < DIMENSIONS => Total(nodes, f, members, i) / |members| as real)
  }

  predicate InBand(nodes: seq<Node>, req: Requirements, f: Features, members: seq<SelectorResult>, r: SelectorResult)
    requires members != []
  {
    PassesBands(Mean(nodes, f, members), VectorOf(nodes, f, r), WidthsFor(req.scienceBand, |members|))
  }

  /** No worse than `other` as the next member: smaller key, or the same key and no worse fit. */
  predicate NoWorse(nodes: seq<Node>, f: Features, members: seq<SelectorResult>, r: SelectorResult,
                    other: SelectorResult)
    requires members != []
  {
    var key := FillerKey(nodes, f, Mean(nodes, f, members), r);
    var otherKey := FillerKey(nodes, f, Mean(nodes, f, members), other);
    key < otherKey || (key == otherKey && r.score <= other.score)
  }

  /** `r` is a right next member, given the results not yet taken. */
  ghost predicate GoodFiller(nodes: seq<Node>, req: Requirements, f: Features,
                             members: seq<SelectorResult>, rest: multiset<SelectorResult>, r: SelectorResult)
    requires members != []
  {
    && r in rest
    && InBand(nodes, req, f, members, r)
    && forall other :: other in rest && InBand(nodes, req, f, members, other) ==> NoWorse(nodes, f, members, r, other)
  }

  /** `cohort` was built out of `all`, best fit first, each later member the best one in band of the
      mean of those before it. */
  ghost predicate GreedyCohort(nodes: seq<Node>, req: Requirements, f: Features, all: seq<SelectorResult>,
                               cohort: seq<SelectorResult>) {
    && multiset(cohort) <= multiset(all)
    && (cohort != [] ==> forall r :: r in all ==> cohort[0].score <= r.score)
    && forall k :: 1 <= k < |cohort| ==>
         GoodFiller(nodes, req, f, cohort[..k], multiset(all) - multiset(cohort[..k]), cohort[k])
  }

  lemma GreedyExtends(nodes: seq<Node>, req: Requirements, f: Features, all: seq<SelectorResult>,
                      cohort: seq<SelectorResult>, r: SelectorResult)
    requires cohort != [] && GreedyCohort(nodes, req, f, all, cohort)
    requires GoodFiller(nodes, req, f, cohort, multiset(all) - multiset(cohort), r)
    ensures GreedyCohort(nodes, req, f, all, cohort + [r])
  {
    var longer := cohort + [r];
    forall k | 1 <= k < |longer|
      ensures GoodFiller(nodes, req, f, longer[..k], multiset(all) - multiset(longer[..k]), longer[k])
    {
      if k < |cohort| {
        assert longer[..k] == cohort[..k] && longer[k] == cohort[k];
      } else {
        assert longer[..k] == cohort && longer[k] == r;
      }
    }
  }

  /** Every result names a node of the pool, so looking it up cannot fail. */
  ghost predicate AllNamed(nodes: seq<Node>, results: seq<SelectorResult>) {
    forall r :: r in results ==> NodeById(nodes, r.id).Some?
  }

  lemma EligibleNamesNode(nodes: seq<Node>, req: Requirements, sky: Sky, r: SelectorResult)
    requires r in IdleResults(nodes, req, sky)
    ensures NodeById(nodes, r.id).Some?
  {
    IdleResultsAre(nodes, req, sky, r);
    var i :| 0 <= i < |nodes| && r.id == nodes[i].id;
    NodeByIdFinds(nodes, nodes[i]);
  }

  lemma EligibleNamed(nodes: seq<Node>, req: Requirements, sky: Sky, all: seq<SelectorResult>)
    requires all == IdleResults(nodes, req, sky)
    ensures AllNamed(nodes, all)
  {
    forall r | r in all
      ensures NodeById(nodes, r.id).Some?
    {
      EligibleNamesNode(nodes, req, sky, r);
    }
  }

  // ----- the selection itself -----

  /** Index `best` is in band, and is the first with the smallest key of those in band. */
  ghost predicate FirstBest(nodes: seq<Node>, f: Features, centroid: Vector, widths: Vector,
                            remaining: seq<SelectorResult>, best: nat) {
    && best < |remaining|
    && PassesBands(centroid, VectorOf(nodes, f, remaining[best]), widths)
    && forall i :: 0 <= i < |remaining| && PassesBands(centroid, VectorOf(nodes, f, remaining[i]), widths) ==>
         Before(FillerKey(nodes, f, centroid, remaining[best]), best, FillerKey(nodes, f, centroid, remaining[i]), i)
  }

  predicate Before(key: real, i: int, otherKey: real, j: int) {
    key < otherKey || (key == otherKey && i <= j)
  }

  method BestFiller(nodes: seq<Node>, f: Features, centroid: Vector, widths: Vector, remaining: seq<SelectorResult>)
    returns (best: Option<nat>)
    requires AllNamed(nodes, remaining)
    ensures best.None? ==> forall i :: 0 <= i < |remaining| ==>
            !PassesBands(centroid, VectorOf(nodes, f, remaining[i]), widths)
    ensures best.Some? ==> FirstBest(nodes, f, centroid, widths, remaining, best.value)
  {
    best := None;
    var bestKey := 0.0;
    var i := 0;
    while i < |remaining|
      invariant 0 <= i <= |remaining|
      invariant best.None? ==> forall j :: 0 <= j < i ==>
                !PassesBands(centroid, VectorOf(nodes, f, remaining[j]), widths)
      invariant best.Some? ==>
                  && best.value < i && bestKey == FillerKey(nodes, f, centroid, remaining[best.value])
                  && PassesBands(centroid, VectorOf(nodes, f, remaining[best.value]), widths)
                  && forall j :: 0 <= j < i && PassesBands(centroid, VectorOf(nodes, f, remaining[j]), widths) ==>
                       Before(bestKey, best.value, FillerKey(nodes, f, centroid, remaining[j]), j)
    {
      var cand := remaining[i];
      var node := NodeById(nodes, cand.id).value;
      var vector := f.vector(node);
      if PassesBands(centroid, vector, widths) {
        var substitutes := CountSubstitutes(nodes, node, f);
        var idle := 0.0;
        if node.idleMinutes.Some? {
          idle := node.idleMinutes.value;
        }
        var adjusted := ApplyFillerPenalty(cand.score, substitutes, idle);
        var key := adjusted as real - f.cosine(centroid, vector) * COSINE_BONUS;
        assert key == FillerKey(nodes, f, centroid, cand);
        if best.None? || key < bestKey {
          best, bestKey := Some(i), key;
        }
      }
      i := i + 1;
    }
  }

  /** Folding one more value into a mean of `count - 1`. */
  function Fold(mean: real, x: real, count: nat): real
    requires count > 0
  {
    (mean * (count - 1) as real + x) / count as real
  }

  ghost predicate Folded(updated: Vector, centroid: Vector, picked: Vector, count: nat)
    requires count > 0
  {
    forall i :: 0 <= i < DIMENSIONS ==> updated[i] == Fold(centroid[i], picked[i], count)
  }

  method UpdateCentroid(centroid: Vector, picked: Vector, count: nat) returns (updated: Vector)
    requires count > 0
    ensures Folded(updated, centroid, picked, count)
  {
    updated := centroid;
    var i := 0;
    while i < DIMENSIONS
      invariant 0 <= i <= DIMENSIONS
      invariant forall j :: 0 <= j < DIMENSIONS ==>
                  updated[j] == if j < i then Fold(centroid[j], picked[j], count) else centroid[j]
    {
      updated := updated[i := (updated[i] * (count - 1) as real + picked[i]) / count as real];
      i := i + 1;
    }
  }

  lemma MeanStep(total: real, n: nat, x: real)
    requires n > 0
    ensures Fold(total / n as real, x, n + 1) == (total + x) / (n + 1) as real
  {
    assert total / n as real * n as real == total;
  }

  /** The running update keeps the exact mean. */
  lemma MeanGrows(nodes: seq<Node>, f: Features, members: seq<SelectorResult>, r: SelectorResult, updated: Vector)
    requires members != []
    requires Folded(updated, Mean(nodes, f, members), VectorOf(nodes, f, r), |members| + 1)
    ensures updated == Mean(nodes, f, members + [r])
  {
    var longer := members + [r];
    assert longer[..|longer| - 1] == members;
    forall i | 0 <= i < DIMENSIONS
      ensures updated[i] == Mean(nodes, f, longer)[i]
    {
      MeanStep(Total(nodes, f, members, i), |members|, VectorOf(nodes, f, r)[i]);
    }
  }

  lemma MeanOfOne(nodes: seq<Node>, f: Features, r: SelectorResult)
    ensures Mean(nodes, f, [r]) == VectorOf(nodes, f, r)
  {
    assert [r][..0] == [];
    assert forall i :: 0 <= i < DIMENSIONS ==> Total(nodes, f, [r], i) == VectorOf(nodes, f, r)[i];
  }

  lemma BestBeats(nodes: seq<Node>, f: Features, centroid: Vector, widths: Vector, remaining: seq<SelectorResult>,
                  best: nat, other: SelectorResult)
    requires SortedByScore(remaining) && FirstBest(nodes, f, centroid, widths, remaining, best)
    requires other in multiset(remaining) && PassesBands(centroid, VectorOf(nodes, f, other), widths)
    ensures var key, otherKey := FillerKey(nodes, f, centroid, remaining[best]), FillerKey(nodes, f, centroid, other);
            key < otherKey || (key == otherKey && remaining[best].score <= other.score)
  {
    assert other in remaining;
    var i :| 0 <= i < |remaining| && remaining[i] == other;
    assert Before(FillerKey(nodes, f, centroid, remaining[best]), best, FillerKey(nodes, f, centroid, remaining[i]), i);
    assert best < i ==> remaining[best].score <= remaining[i].score;
  }

  /** The candidate the scan picks out of the sorted rest is a right next member. */
  lemma PickedIsGood(nodes: seq<Node>, req: Requirements, f: Features, members: seq<SelectorResult>,
                     remaining: seq<SelectorResult>, best: nat)
    requires members != [] && SortedByScore(remaining)
    requires FirstBest(nodes, f, Mean(nodes, f, members), WidthsFor(req.scienceBand, |members|), remaining, best)
    ensures GoodFiller(nodes, req, f, members, multiset(remaining), remaining[best])
  {
    var centroid, widths := Mean(nodes, f, members), WidthsFor(req.scienceBand, |members|);
    forall other | other in multiset(remaining) && InBand(nodes, req, f, members, other)
      ensures NoWorse(nodes, f, members, remaining[best], other)
    {
      BestBeats(nodes, f, centroid, widths, remaining, best, other);
    }
  }

  lemma RemovedElement<T>(s: seq<T>, i: nat)
    requires i < |s|
    ensures multiset(s[..i] + s[i + 1..]) == multiset(s) - multiset{s[i]}
  {
    assert s == s[..i] + [s[i]] + s[i + 1..];
  }

  /** At most 8 telescopes, chosen greedily; it stops short only when nothing left is in band. */
  method SelectCohort(nodes: seq<Node>, req: Requirements, sky: Sky, f: Features) returns (cohort: seq<SelectorResult>)
    ensures var all := IdleResults(nodes, req, sky);
            && GreedyCohort(nodes, req, f, all, cohort)
            && |cohort| <= COHORT_MAX_NODES
            && (cohort == [] <==> all == [])
            && (0 < |cohort| < COHORT_MAX_NODES ==> NoneLeftInBand(nodes, req, f, all, cohort))
  {
    ghost var all := IdleResults(nodes, req, sky);
    var eligible := SelectEligibleNodes(nodes, req, 0, sky);
    if |eligible| == 0 {
      return [];
    }
    AnchorStarts(nodes, req, sky, f, eligible);
    var anchor := eligible[0];
    var centroid := f.vector(NodeById(nodes, anchor.id).value);
    cohort := FillSeats(nodes, req, f, anchor, eligible[1..], centroid, all);
  }

  /** The loop that fills the seats after the anchor's. */
  method FillSeats(nodes: seq<Node>, req: Requirements, f: Features, anchor: SelectorResult,
                   rest: seq<SelectorResult>, anchorVector: Vector, ghost all: seq<SelectorResult>)
    returns (cohort: seq<SelectorResult>)
    requires Filling(nodes, req, f, all, [anchor], rest, anchorVector)
    ensures GreedyCohort(nodes, req, f, all, cohort)
    ensures 1 <= |cohort| <= COHORT_MAX_NODES
    ensures |cohort| < COHORT_MAX_NODES ==> NoneLeftInBand(nodes, req, f, all, cohort)
  {
    var centroid, remaining := anchorVector, rest;
    var widths := BandWidthsFor(req.scienceBand);
    cohort := [anchor];
    var memberCount := 1;
    while |cohort| < COHORT_MAX_NODES && |remaining| > 0
      invariant 1 <= memberCount == |cohort| <= COHORT_MAX_NODES
      invariant Filling(nodes, req, f, all, cohort, remaining, centroid)
      invariant widths == WidthsFor(req.scienceBand, memberCount - 1)
      decreases |remaining|
    {
      widths := AdaptiveBandWidth(widths, memberCount);
      var best := BestFiller(nodes, f, centroid, widths, remaining);
      if best.None? {
        NothingInBand(nodes, req, f, all, cohort, remaining, centroid);
        return;
      }
      var picked := remaining[best.value];
      var vector := f.vector(NodeById(nodes, picked.id).value);
      memberCount := memberCount + 1;
      var updated := UpdateCentroid(centroid, vector, memberCount);
      FillStep(nodes, req, f, all, cohort, remaining, centroid, best.value, updated);
      centroid := updated;
      cohort := cohort + [picked];
      remaining := remaining[..best.value] + remaining[best.value + 1..];
    }
    if |remaining| == 0 {
      NothingInBand(nodes, req, f, all, cohort, remaining, centroid);
    }
  }

  /** What holds between picks: the centroid is the exact mean of the members, and the rest, still
      sorted, is everything not chosen. */
  ghost predicate Filling(nodes: seq<Node>, req: Requirements, f: Features, all: seq<SelectorResult>,
                          cohort: seq<SelectorResult>, remaining: seq<SelectorResult>, centroid: Vector) {
    && cohort != []
    && GreedyCohort(nodes, req, f, all, cohort)
    && SortedByScore(remaining) && AllNamed(nodes, remaining)
    && multiset(remaining) == multiset(all) - multiset(cohort)
    && centroid == Mean(nodes, f, cohort)
  }

  lemma AnchorStarts(nodes: seq<Node>, req: Requirements, sky: Sky, f: Features, eligible: seq<SelectorResult>)
    requires var all := IdleResults(nodes, req, sky);
             multiset(eligible) <= multiset(all) && |eligible| == |all| && SortedByScore(eligible) && eligible != []
    ensures NodeById(nodes, eligible[0].id).Some?
    ensures Filling(nodes, req, f, IdleResults(nodes, req, sky), [eligible[0]], eligible[1..],
                    f.vector(NodeById(nodes, eligible[0].id).value))
  {
    var all := IdleResults(nodes, req, sky);
    AnchorRest(eligible, all);
    EligibleNamed(nodes, req, sky, all);
    MeanOfOne(nodes, f, eligible[0]);
  }

  lemma AnchorRest(eligible: seq<SelectorResult>, all: seq<SelectorResult>)
    requires multiset(eligible) <= multiset(all) && |eligible| == |all| && SortedByScore(eligible) && eligible != []
    ensures var anchor, rest := eligible[0], eligible[1..];
            && anchor in all && multiset([anchor]) <= multiset(all)
            && (forall r :: r in all ==> anchor.score <= r.score)
            && SortedByScore(rest) && multiset(rest) == multiset(all) - multiset([anchor])
            && forall r :: r in rest ==> r in all
  {
    EligibleIsAll(eligible, all);
    var anchor, rest := eligible[0], eligible[1..];
    assert eligible == [anchor] + rest;
    forall r | r in eligible
      ensures r in all
    {
      assert r in multiset(eligible);
      assert r in multiset(all);
    }
  }

  lemma FillStep(nodes: seq<Node>, req: Requirements, f: Features, all: seq<SelectorResult>,
                 cohort: seq<SelectorResult>, remaining: seq<SelectorResult>, centroid: Vector, best: nat,
                 updated: Vector)
    requires Filling(nodes, req, f, all, cohort, remaining, centroid) && best < |remaining|
    requires FirstBest(nodes, f, centroid, WidthsFor(req.scienceBand, |cohort|), remaining, best)
    requires Folded(updated, centroid, VectorOf(nodes, f, remaining[best]), |cohort| + 1)
    ensures Filling(nodes, req, f, all, cohort + [remaining[best]], remaining[..best] + remaining[best + 1..], updated)
  {
    PickedIsGood(nodes, req, f, cohort, remaining, best);
    GreedyExtends(nodes, req, f, all, cohort, remaining[best]);
    MeanGrows(nodes, f, cohort, remaining[best], updated);
    RestAfter(all, cohort, remaining, best);
  }

  lemma RestAfter(all: seq<SelectorResult>, cohort: seq<SelectorResult>, remaining: seq<SelectorResult>, best: nat)
    requires SortedByScore(remaining) && best < |remaining|
    requires multiset(remaining) == multiset(all) - multiset(cohort) && multiset(cohort) <= multiset(all)
    ensures SortedByScore(remaining[..best] + remaining[best + 1..])
    ensures multiset(remaining[..best] + remaining[best + 1..]) == multiset(all) - multiset(cohort + [remaining[best]])
    ensures multiset(cohort + [remaining[best]]) <= multiset(all)
  {
    RemovedElement(remaining, best);
    assert remaining[best] in multiset(remaining);
  }

  /** Everyone left out is out of band of the final members. */
  ghost predicate NoneLeftInBand(nodes: seq<Node>, req: Requirements, f: Features, all: seq<SelectorResult>,
                                 cohort: seq<SelectorResult>)
    requires cohort != []
  {
    forall r :: r in multiset(all) - multiset(cohort) ==> !InBand(nodes, req, f, cohort, r)
  }

  lemma NothingInBand(nodes: seq<Node>, req: Requirements, f: Features, all: seq<SelectorResult>,
                      cohort: seq<SelectorResult>, remaining: seq<SelectorResult>, centroid: Vector)
    requires Filling(nodes, req, f, all, cohort, remaining, centroid)
    requires forall i :: 0 <= i < |remaining| ==>
               !PassesBands(centroid, VectorOf(nodes, f, remaining[i]), WidthsFor(req.scienceBand, |cohort|))
    ensures NoneLeftInBand(nodes, req, f, all, cohort)
  {
    forall r | r in multiset(remaining)
      ensures !InBand(nodes, req, f, cohort, r)
    {
      assert r in remaining;
    }
  }

  lemma EligibleIsAll(eligible: seq<SelectorResult>, all: seq<SelectorResult>)
    requires multiset(eligible) <= multiset(all) && |eligible| == |all| && SortedByScore(eligible) && eligible != []
    ensures multiset(eligible) == multiset(all)
    ensures forall r :: r in all ==> eligible[0].score <= r.score
  {
    assert |multiset(all) - multiset(eligible)| == 0;
    forall r | r in all
      ensures eligible[0].score <= r.score
    {
      assert r in multiset(eligible);
      var i :| 0 <= i < |eligible| && eligible[i] == r;
    }
  }

  // ----- consequences -----

  predicate DistinctIds(nodes: seq<Node>) {
    forall i, j :: 0 <= i < j < |nodes| ==> nodes[i].id != nodes[j].id
  }

  lemma {:induction false} EligibleOnce(nodes: seq<Node>, req: Requirements, sky: Sky, r: SelectorResult)
    requires DistinctIds(nodes)
    ensures multiset(IdleResults(nodes, req, sky))[r] <= 1
  {
    if nodes != [] {
      var front := nodes[..|nodes| - 1];
      EligibleOnce(front, req, sky, r);
      IdleResultsAre(front, req, sky, r);
      assert forall i :: 0 <= i < |front| ==> front[i] == nodes[i];
    }
  }

  lemma TwoCopies<T>(s: seq<T>, i: nat, j: nat)
    requires i < j < |s| && s[i] == s[j]
    ensures multiset(s)[s[i]] >= 2
  {
    assert s == s[..j] + [s[j]] + s[j + 1..];
    assert s[i] in s[..j];
  }

  /** The members of a cohort are different free telescopes that pass the gates, and the first is a best fit. */
  lemma MembersDistinctAndEligible(nodes: seq<Node>, req: Requirements, sky: Sky, f: Features,
                                   cohort: seq<SelectorResult>)
    requires DistinctIds(nodes) && GreedyCohort(nodes, req, f, IdleResults(nodes, req, sky), cohort)
    ensures forall i, j :: 0 <= i < j < |cohort| ==> cohort[i].id != cohort[j].id
    ensures forall i :: 0 <= i < |cohort| ==>
              exists n :: n in nodes && n.id == cohort[i].id && Free(n) && PassesGates(n, req, sky)
  {
    var all := IdleResults(nodes, req, sky);
    forall i | 0 <= i < |cohort|
      ensures exists n :: n in nodes && n.id == cohort[i].id && Free(n) && PassesGates(n, req, sky)
    {
      assert cohort[i] in multiset(all);
      IdleResultsAre(nodes, req, sky, cohort[i]);
    }
    forall i, j | 0 <= i < j < |cohort|
      ensures cohort[i].id != cohort[j].id
    {
      assert cohort[i] in multiset(all) && cohort[j] in multiset(all);
      IdleResultsAre(nodes, req, sky, cohort[i]);
      IdleResultsAre(nodes, req, sky, cohort[j]);
      if cohort[i] == cohort[j] {
        TwoCopies(cohort, i, j);
        EligibleOnce(nodes, req, sky, cohort[i]);
      }
    }
  }
}
