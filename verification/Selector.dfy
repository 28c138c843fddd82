/** Choosing one telescope for a task: gates, scores, and the barrier before a running task is preempted. */
module Selector {
  import opened Common
  import opened Reals
  import Handoff
  import Sorting

  // ----- what the selector knows -----

  /** `terrain` stands for the obstruction mask, mount limits and horizon profile of the site. */
  datatype Node = Node(
    id: string,
    status: string,
    power: real,
    limitingMagnitude: Option<real>,
    taskId: Option<int>,
    taskPriority: Option<int>,
    startupMs: int,
    tier: string,
    reliability: real,
    mountAlt: Option<real>,
    mountAz: Option<real>,
    siteLat: Option<real>,
    siteLon: Option<real>,
    slewRate: Option<real>,
    filters: seq<string>,
    emulator: bool,
    terrain: int,
    apertureMm: Option<real>,
    focalLengthMm: Option<real>,
    pixelSizeUm: Option<real>,
    fovWidth: Option<real>,
    fovHeight: Option<real>,
    mountType: Option<int>,
    maxExposureS: Option<real>,
    seeing: Option<real>,
    idleMinutes: Option<real>,
    planRemainingS: Option<real>)

  datatype Requirements = Requirements(
    ra: Option<real>,
    dec: Option<real>,
    minAltitude: Option<real>,
    minPower: Option<real>,
    targetMagnitude: Option<real>,
    filters: seq<string>,
    allowEmulator: bool,
    minApertureMm: Option<real>,
    minSubExposureS: Option<real>,
    minResolution: Option<real>,
    maxResolution: Option<real>,
    minPsf: Option<real>,
    maxPsf: Option<real>,
    fovWidth: Option<real>,
    fovHeight: Option<real>,
    scienceBand: string)

  /** Spherical astronomy at the instant of the decision: whether a target is safe to point at from a
      site (down to a minimum altitude), and how long the slew to it takes. */
  datatype Sky = Sky(safe: (real, real, Option<real>, Node) -> bool, slewMs: (real, real, Node) -> int)

  datatype SelectorResult = SelectorResult(
    id: string,
    slewMs: int,
    idle: bool,
    nearby: bool,
    preempting: bool,
    prevTask: Option<int>,
    score: int,
    reason: string)

  /** Conversion of a float to an integer drops the fraction. */
  function Truncate(x: real): (r: int)
    ensures x >= 0.0 ==> r as real <= x < r as real + 1.0
    ensures x <= 0.0 ==> r as real - 1.0 < x <= r as real
  {
    if x < 0.0 then -((-x).Floor) else x.Floor
  }

  lemma TruncateMonotone(x: real, y: real)
    requires x <= y
    ensures Truncate(x) <= Truncate(y)
  {
  }

  // ----- gates -----

  const FOV_HEADROOM := 1.2
  const DIFFRACTION_CONSTANT := 116.0
  const ARCSEC_PER_RADIAN_MICRON := 206.265

  function PlateScale(focalLengthMm: real, pixelSizeUm: real): real {
    if focalLengthMm <= 0.0 then 0.0 else ARCSEC_PER_RADIAN_MICRON * pixelSizeUm / focalLengthMm
  }

  function PredictedPsf(apertureMm: real, seeing: real): real {
    var diffraction := if apertureMm <= 0.0 then 0.0 else DIFFRACTION_CONSTANT / apertureMm;
    if seeing > diffraction then seeing else diffraction
  }

  /** `value` is not below `bound`; a missing side imposes nothing. */
  predicate AtLeast(value: Option<real>, bound: Option<real>) {
    value.Some? && bound.Some? ==> value.value >= bound.value
  }

  predicate AtMost(value: Option<real>, bound: Option<real>) {
    value.Some? && bound.Some? ==> value.value <= bound.value
  }

  predicate HasFilters(available: seq<string>, required: seq<string>) {
    forall f :: f in required ==> f in available
  }

  predicate TargetReachable(n: Node, req: Requirements, sky: Sky) {
    req.ra.Some? && req.dec.Some? ==>
      n.siteLat.Some? && n.siteLon.Some? && sky.safe(req.ra.value, req.dec.value, req.minAltitude, n)
  }

  function Headroom(width: Option<real>): Option<real> {
    if width.Some? then Some(width.value * FOV_HEADROOM) else None
  }

  predicate OpticsFit(n: Node, req: Requirements) {
    && AtLeast(n.apertureMm, req.minApertureMm)
    && AtLeast(n.maxExposureS, req.minSubExposureS)
    && (n.focalLengthMm.Some? && n.pixelSizeUm.Some? ==>
          var scale := Some(PlateScale(n.focalLengthMm.value, n.pixelSizeUm.value));
          AtLeast(scale, req.minResolution) && AtMost(scale, req.maxResolution))
    && (n.apertureMm.Some? && n.seeing.Some? ==>
          var psf := Some(PredictedPsf(n.apertureMm.value, n.seeing.value));
          AtLeast(psf, req.minPsf) && AtMost(psf, req.maxPsf))
    && AtLeast(n.fovWidth, Headroom(req.fovWidth))
    && AtLeast(n.fovHeight, Headroom(req.fovHeight))
  }

  predicate PassesGates(n: Node, req: Requirements, sky: Sky) {
    && n.emulator == req.allowEmulator
    && n.status != "offline" && n.status != "error"
    && HasFilters(n.filters, req.filters)
    && (req.minPower.Some? ==> n.power >= req.minPower.value)
    && (req.targetMagnitude.Some? ==>
       n.limitingMagnitude.Some? && n.limitingMagnitude.value >= req.targetMagnitude.value)
    && TargetReachable(n, req, sky)
    && OpticsFit(n, req)
  }

  // ----- looser requests -----

  predicate LowerBoundLooser(loose: Option<real>, strict: Option<real>) {
    loose.Some? ==> strict.Some? && loose.value <= strict.value
  }

  predicate UpperBoundLooser(loose: Option<real>, strict: Option<real>) {
    loose.Some? ==> strict.Some? && loose.value >= strict.value
  }

  /** Every bound dropped or relaxed, and the target the same or dropped. */
  predicate Looser(loose: Requirements, strict: Requirements) {
    && loose.allowEmulator == strict.allowEmulator
    && (forall f :: f in loose.filters ==> f in strict.filters)
    && LowerBoundLooser(loose.minPower, strict.minPower)
    && LowerBoundLooser(loose.targetMagnitude, strict.targetMagnitude)
    && (loose.ra.Some? && loose.dec.Some? ==>
          loose.ra == strict.ra && loose.dec == strict.dec && loose.minAltitude == strict.minAltitude)
    && LowerBoundLooser(loose.minApertureMm, strict.minApertureMm)
    && LowerBoundLooser(loose.minSubExposureS, strict.minSubExposureS)
    && LowerBoundLooser(loose.minResolution, strict.minResolution)
    && UpperBoundLooser(loose.maxResolution, strict.maxResolution)
    && LowerBoundLooser(loose.minPsf, strict.minPsf)
    && UpperBoundLooser(loose.maxPsf, strict.maxPsf)
    && LowerBoundLooser(loose.fovWidth, strict.fovWidth)
    && LowerBoundLooser(loose.fovHeight, strict.fovHeight)
  }

  /** Relaxing a request never loses a telescope. */
  lemma LooserRequestKeepsNodes(n: Node, strict: Requirements, loose: Requirements, sky: Sky)
    requires Looser(loose, strict) && PassesGates(n, strict, sky)
    ensures PassesGates(n, loose, sky)
  {
  }

  // ----- scores -----

  datatype Slew = Slew(ms: int, nearby: bool)

  function NodeSlew(n: Node, req: Requirements, nearbyMs: int, sky: Sky): Slew {
    if !(req.ra.Some? && req.dec.Some? && n.siteLat.Some? && n.siteLon.Some?) then Slew(0, false)
    else if n.mountAlt.None? || n.mountAz.None? || n.slewRate.None? || n.slewRate.value <= 0.0 then Slew(0, false)
    else
      var ms := sky.slewMs(req.ra.value, req.dec.value, n);
      Slew(ms, nearbyMs > 0 && 0 < ms < nearbyMs)
  }

  function TierScaled(score: int, tier: string): int {
    if tier == "premium" then Truncate(score as real * 0.7)
    else if tier == "community" then Truncate(score as real * 1.3)
    else score
  }

  function ReliabilityScaled(score: int, reliability: real): int {
    Truncate(Product(score as real, 2.0 - reliability))
  }

  function IdleScore(n: Node, slewMs: int): int {
    ReliabilityScaled(TierScaled(n.startupMs + slewMs, n.tier), n.reliability)
  }

  lemma TierScaledMonotone(a: int, b: int, tier: string)
    requires a <= b
    ensures TierScaled(a, tier) <= TierScaled(b, tier)
  {
    TruncateMonotone(a as real * 0.7, b as real * 0.7);
    TruncateMonotone(a as real * 1.3, b as real * 1.3);
  }

  lemma ReliabilityScaledMonotone(a: int, b: int, reliability: real)
    requires a <= b && reliability <= 2.0
    ensures ReliabilityScaled(a, reliability) <= ReliabilityScaled(b, reliability)
  {
    ScaledTruncateMonotone(a as real, b as real, 2.0 - reliability);
  }

  lemma ScaledTruncateMonotone(x: real, y: real, k: real)
    requires x <= y && k >= 0.0
    ensures Truncate(Product(x, k)) <= Truncate(Product(y, k))
  {
    ProductNonNegative(y - x, k);
    assert Product(y, k) == Product(x, k) + Product(y - x, k);
    TruncateMonotone(Product(x, k), Product(y, k));
  }

  /** A longer slew never improves the score of a telescope whose reliability is at most 2. */
  lemma LongerSlewScoresWorse(n: Node, shorter: int, longer: int)
    requires shorter <= longer && n.reliability <= 2.0
    ensures IdleScore(n, shorter) <= IdleScore(n, longer)
  {
    var a, b := n.startupMs + shorter, n.startupMs + longer;
    TierScaledMonotone(a, b, n.tier);
    ReliabilityScaledMonotone(TierScaled(a, n.tier), TierScaled(b, n.tier), n.reliability);
  }

  predicate NodeIsIdle(n: Node) {
    n.status == "" || n.status == "idle" || n.status == "online"
  }

  function IdleResult(n: Node, slew: Slew, reason: string): SelectorResult {
    SelectorResult(n.id, slew.ms, true, slew.nearby, false, None, IdleScore(n, slew.ms), reason)
  }

  // ----- preemption -----

  function PlanPreemptCostMs(remainingS: real): int {
    if remainingS <= 0.0 then 0 else Truncate(remainingS * 1000.0)
  }

  function EffectivePreemptThreshold(base: int, remainingS: real): int {
    var floor := if base < 0 then 0 else base;
    if remainingS <= 0.0 then floor else floor + Truncate(remainingS / 60.0)
  }

  predicate MayPreempt(diff: int, base: int, remainingS: real, nearby: bool) {
    if diff <= 0 then false
    else if nearby then diff >= if remainingS > 0.0 then 1 + Truncate(remainingS / 120.0) else 1
    else diff >= EffectivePreemptThreshold(base, remainingS)
  }

  /** A nearby telescope never needs a larger difference than a far one. */
  lemma NearbyNeedsNoMore(diff: int, base: int, remainingS: real)
    requires MayPreempt(diff, base, remainingS, false)
    ensures MayPreempt(diff, base, remainingS, true)
  {
    if remainingS > 0.0 {
      var half, whole := remainingS / 120.0, remainingS / 60.0;
      assert half + half == whole;
    }
  }

  /** The barrier only rises with the base threshold and with planned work left, and a larger
      difference never stops helping. */
  lemma BarrierMonotone(diff: int, base: int, remainingS: real, diff': int, base': int, remainingS': real, nearby: bool)
    requires MayPreempt(diff, base, remainingS, nearby)
    requires diff <= diff' && base' <= base && remainingS' <= remainingS
    ensures MayPreempt(diff', base', remainingS', nearby)
  {
    TruncateMonotone(remainingS' / 60.0, remainingS / 60.0);
    TruncateMonotone(remainingS' / 120.0, remainingS / 120.0);
  }

  function PlanRemaining(n: Node): real {
    if n.planRemainingS.Some? then n.planRemainingS.value else 0.0
  }

  function PreemptionResult(n: Node, slew: Slew, priority: int, threshold: int): Option<SelectorResult> {
    if n.taskPriority.None? then Some(IdleResult(n, slew, "idle-ish (no current task)"))
    else
      var diff := n.taskPriority.value - priority;
      var cost := PlanPreemptCostMs(PlanRemaining(n));
      if !MayPreempt(diff, threshold, PlanRemaining(n), slew.nearby) then None
      else if slew.nearby then
        Some(SelectorResult(n.id, slew.ms, false, true, true, n.taskId, slew.ms + cost, "nearby_preempt"))
      else
        var score := TierScaled(slew.ms + n.startupMs + cost, n.tier);
        Some(SelectorResult(n.id, slew.ms, false, false, true, n.taskId, score, "priority_preempt"))
  }

  /** What one node offers for a task, if anything. */
  function Offer(n: Node, req: Requirements, priority: int, threshold: int, nearbyMs: int, sky: Sky)
    : Option<SelectorResult>
  {
    if !PassesGates(n, req, sky) then None
    else
      var slew := NodeSlew(n, req, nearbyMs, sky);
      if NodeIsIdle(n) && n.taskId.None? then Some(IdleResult(n, slew, "idle"))
      else if n.taskPriority.None? || n.status == "busy" || n.status == "observing" || n.status == "uploading" then
        PreemptionResult(n, slew, priority, threshold)
      else None
  }

  /** `best` is the earliest of the lowest-scoring offers. */
  ghost predicate EarliestLowest(offers: seq<Option<SelectorResult>>, best: Option<SelectorResult>) {
    match best
    case None => forall i :: 0 <= i < |offers| ==> offers[i].None?
    case Some(r) =>
      exists k :: LowestAt(offers, k, r)
  }

  /** The offer at `k` is `r`: strictly below every earlier one, and no later one is below it. */
  ghost predicate LowestAt(offers: seq<Option<SelectorResult>>, k: int, r: SelectorResult) {
    && 0 <= k < |offers| && offers[k] == Some(r)
    && (forall i :: 0 <= i < k && offers[i].Some? ==> r.score < offers[i].value.score)
    && (forall i :: k < i < |offers| && offers[i].Some? ==> r.score <= offers[i].value.score)
  }

  function Offers(nodes: seq<Node>, req: Requirements, priority: int, threshold: int, nearbyMs: int, sky: Sky)
    : (offers: seq<Option<SelectorResult>>)
    ensures |offers| == |nodes|
    ensures forall i :: 0 <= i < |nodes| ==> offers[i] == Offer(nodes[i], req, priority, threshold, nearbyMs, sky)
  {
    seq(|nodes|, i requires 0 <= i < |nodes| => Offer(nodes[i], req, priority, threshold, nearbyMs, sky))
  }

  method SelectBestNode(nodes: seq<Node>, req: Requirements, priority: int, threshold: int, nearbyMs: int, sky: Sky)
    returns (best: Option<SelectorResult>)
    ensures EarliestLowest(Offers(nodes, req, priority, threshold, nearbyMs, sky), best)
  {
    ghost var offers := Offers(nodes, req, priority, threshold, nearbyMs, sky);
    best := None;
    var i := 0;
    while i < |nodes|
      invariant 0 <= i <= |nodes|
      invariant EarliestLowest(offers[..i], best)
    {
      ghost var before := best;
      var n := nodes[i];
      if PassesGates(n, req, sky) {
        var slew := NodeSlew(n, req, nearbyMs, sky);
        if NodeIsIdle(n) && n.taskId.None? {
          var candidate := IdleResult(n, slew, "idle");
          if best.None? || candidate.score < best.value.score {
            best := Some(candidate);
          }
        } else if n.taskPriority.None? || n.status == "busy" || n.status == "observing" || n.status == "uploading" {
          var candidate := PreemptionResult(n, slew, priority, threshold);
          if candidate.Some? && (best.None? || candidate.value.score < best.value.score) {
            best := candidate;
          }
        }
      }
      assert best == Better(before, offers[i]);
      EarliestLowestExtends(offers, i, before);
      i := i + 1;
    }
    assert offers[..i] == offers;
  }

  function Better(best: Option<SelectorResult>, offer: Option<SelectorResult>): Option<SelectorResult> {
    if offer.Some? && (best.None? || offer.value.score < best.value.score) then offer else best
  }

  lemma EarliestLowestExtends(offers: seq<Option<SelectorResult>>, i: nat, best: Option<SelectorResult>)
    requires i < |offers| && EarliestLowest(offers[..i], best)
    ensures EarliestLowest(offers[..i + 1], Better(best, offers[i]))
  {
    var before, after := offers[..i], offers[..i + 1];
    assert forall j :: 0 <= j < i ==> after[j] == before[j];
    var r := Better(best, offers[i]);
    if r.Some? {
      if r == offers[i] && (best.None? || offers[i].value.score < best.value.score) {
        assert LowestAt(after, i, r.value);
      } else {
        EarliestLowestKept(offers, i, best);
      }
    }
  }

  lemma EarliestLowestKept(offers: seq<Option<SelectorResult>>, i: nat, best: Option<SelectorResult>)
    requires i < |offers| && EarliestLowest(offers[..i], best)
    requires best.Some? && (offers[i].Some? ==> best.value.score <= offers[i].value.score)
    ensures EarliestLowest(offers[..i + 1], best)
  {
    var before, after := offers[..i], offers[..i + 1];
    assert forall j :: 0 <= j < i ==> after[j] == before[j];
    var k :| LowestAt(before, k, best.value);
    assert LowestAt(after, k, best.value);
  }

  /** More work still planned never makes a victim easier or cheaper to take. */
  lemma MorePlanIsHarder(n: Node, more: Option<real>, slew: Slew, priority: int, threshold: int)
    requires n.taskPriority.Some? && PlanRemaining(n) <= PlanRemaining(n.(planRemainingS := more))
    ensures var easy := PreemptionResult(n, slew, priority, threshold);
            var hard := PreemptionResult(n.(planRemainingS := more), slew, priority, threshold);
            hard.Some? ==> easy.Some? && easy.value.score <= hard.value.score
  {
    var hard := n.(planRemainingS := more);
    var diff := n.taskPriority.value - priority;
    if MayPreempt(diff, threshold, PlanRemaining(hard), slew.nearby) {
      BarrierMonotone(diff, threshold, PlanRemaining(hard), diff, threshold, PlanRemaining(n), slew.nearby);
      TruncateMonotone(PlanRemaining(n) * 1000.0, PlanRemaining(hard) * 1000.0);
      var known := slew.ms + n.startupMs;
      TierScaledMonotone(known + PlanPreemptCostMs(PlanRemaining(n)), known + PlanPreemptCostMs(PlanRemaining(hard)),
        n.tier);
    }
  }

  /** What a preempting result says about its victim: it was busy with a strictly less urgent task, and
      the urgency difference met the barrier for the work still planned. */
  lemma PreemptingOfferLowers(n: Node, req: Requirements, priority: int, threshold: int, nearbyMs: int, sky: Sky)
    requires Offer(n, req, priority, threshold, nearbyMs, sky).Some?
    ensures var r := Offer(n, req, priority, threshold, nearbyMs, sky).value;
            r.preempting ==>
              && n.taskPriority.Some? && priority < n.taskPriority.value
              && r.id == n.id && r.prevTask == n.taskId
              && n.status in {"busy", "observing", "uploading"}
              && MayPreempt(n.taskPriority.value - priority, threshold, PlanRemaining(n), r.nearby)
  {
  }

  // ----- successive preemptions of one telescope -----

  /** One assignment: the pool seen at that moment, the task's own priority and handoff state, and the pick. */
  datatype Attempt = Attempt(
    pool: seq<Node>,
    req: Requirements,
    base: int,
    task: Handoff.HandoffTask,
    now: int,
    threshold: int,
    nearbyMs: int,
    sky: Sky,
    picked: Option<SelectorResult>)

  function Priority(a: Attempt, cfg: Handoff.Config): int {
    Handoff.EffectiveAssignPriority(a.base, a.task, a.now, cfg)
  }

  predicate PreemptsNode(a: Attempt, id: string) {
    a.picked.Some? && a.picked.value.preempting && a.picked.value.id == id
  }

  /** Each pick is the selector's, and every pool shows node `id` running a task at the priority of the
      last assignment that took it; everything else may change freely between attempts. */
  ghost predicate Run(id: string, current: int, attempts: seq<Attempt>, cfg: Handoff.Config)
    decreases |attempts|
  {
    attempts == []
    || (var a := attempts[0];
        && EarliestLowest(Offers(a.pool, a.req, Priority(a, cfg), a.threshold, a.nearbyMs, a.sky), a.picked)
        && (forall i :: 0 <= i < |a.pool| && a.pool[i].id == id ==> a.pool[i].taskPriority == Some(current))
        && Run(id, if PreemptsNode(a, id) then Priority(a, cfg) else current, attempts[1..], cfg))
  }

  function Preemptions(id: string, attempts: seq<Attempt>): nat {
    if attempts == [] then 0
    else (if PreemptsNode(attempts[0], id) then 1 else 0) + Preemptions(id, attempts[1..])
  }

  /** A telescope running at priority p is preempted at most p - 1 times before its task ends. */
  lemma {:induction false} PreemptionsBounded(id: string, current: int, attempts: seq<Attempt>, cfg: Handoff.Config)
    requires Run(id, current, attempts, cfg)
    ensures Preemptions(id, attempts) <= if current >= 1 then current - 1 else 0
    decreases |attempts|
  {
    if attempts != [] {
      var a := attempts[0];
      if PreemptsNode(a, id) {
        var offers := Offers(a.pool, a.req, Priority(a, cfg), a.threshold, a.nearbyMs, a.sky);
        var k :| 0 <= k < |offers| && offers[k] == a.picked;
        PreemptingOfferLowers(a.pool[k], a.req, Priority(a, cfg), a.threshold, a.nearbyMs, a.sky);
        assert 1 <= Priority(a, cfg) < current;
      }
      PreemptionsBounded(id, if PreemptsNode(a, id) then Priority(a, cfg) else current, attempts[1..], cfg);
    }
  }

  // ----- idle telescopes in order of fit -----

  /** What the loop collects: an idle result for every free, gate-passing node, in the order of the nodes. */
  function IdleResults(nodes: seq<Node>, req: Requirements, sky: Sky): seq<SelectorResult> {
    if nodes == [] then []
    else
      var n := nodes[|nodes| - 1];
      var front := IdleResults(nodes[..|nodes| - 1], req, sky);
      if Free(n) && PassesGates(n, req, sky) then front + [IdleResult(n, NodeSlew(n, req, 0, sky), "idle")] else front
  }

  predicate Free(n: Node) {
    NodeIsIdle(n) && n.taskId.None?
  }

  predicate SortedByScore(results: seq<SelectorResult>) {
    forall i, j :: 0 <= i < j < |results| ==> results[i].score <= results[j].score
  }

  lemma {:induction false} IdleResultsAre(nodes: seq<Node>, req: Requirements, sky: Sky, r: SelectorResult)
    ensures r in IdleResults(nodes, req, sky)
       <==> exists i :: 0 <= i < |nodes| && Free(nodes[i]) && PassesGates(nodes[i], req, sky)
                        && r == IdleResult(nodes[i], NodeSlew(nodes[i], req, 0, sky), "idle")
  {
    if nodes != [] {
      var front := nodes[..|nodes| - 1];
      IdleResultsAre(front, req, sky, r);
      assert forall i :: 0 <= i < |front| ==> front[i] == nodes[i];
    }
  }

  /** Nothing left out scores better than anything kept. */
  ghost predicate LowestKept(all: seq<SelectorResult>, out: seq<SelectorResult>) {
    forall kept, dropped :: kept in out && dropped in multiset(all) - multiset(out) ==> kept.score <= dropped.score
  }

  /** The free, gate-passing nodes by ascending score, cut to `limit` when it is positive: what is kept
      scores no worse than anything left out. */
  method SelectEligibleNodes(nodes: seq<Node>, req: Requirements, limit: int, sky: Sky)
    returns (out: seq<SelectorResult>)
    ensures var all := IdleResults(nodes, req, sky);
            && SortedByScore(out) && multiset(out) <= multiset(all)
            && |out| == (if 0 < limit < |all| then limit else |all|)
            && LowestKept(all, out)
  {
    ghost var all := IdleResults(nodes, req, sky);
    out := [];
    var i := 0;
    while i < |nodes|
      invariant 0 <= i <= |nodes|
      invariant out == IdleResults(nodes[..i], req, sky)
    {
      var n := nodes[i];
      assert nodes[..i + 1][..i] == nodes[..i];
      if Free(n) && PassesGates(n, req, sky) {
        out := out + [IdleResult(n, NodeSlew(n, req, 0, sky), "idle")];
      }
      i := i + 1;
    }
    assert nodes[..i] == nodes;
    var sorted := Sorting.SortBy(out, (r: SelectorResult) => r.score as real);
    ByScore(sorted);
    SameSize(sorted, all);
    out := sorted;
    if limit > 0 && |out| > limit {
      out := out[..limit];
    }
    CutKeepsLowest(sorted, |out|);
  }

  lemma ByScore(results: seq<SelectorResult>)
    requires Sorting.Ascending(results, (r: SelectorResult) => r.score as real)
    ensures SortedByScore(results)
  {
    var key := (r: SelectorResult) => r.score as real;
    forall i, j | 0 <= i < j < |results|
      ensures results[i].score <= results[j].score
    {
      assert key(results[i]) <= key(results[j]);
    }
  }

  lemma SameSize(a: seq<SelectorResult>, b: seq<SelectorResult>)
    requires multiset(a) == multiset(b)
    ensures |a| == |b|
  {
    assert |multiset(a)| == |a| && |multiset(b)| == |b|;
  }

  lemma CutKeepsLowest(sorted: seq<SelectorResult>, n: nat)
    requires SortedByScore(sorted) && n <= |sorted|
    ensures multiset(sorted[..n]) <= multiset(sorted)
    ensures forall kept, dropped :: kept in sorted[..n] && dropped in multiset(sorted) - multiset(sorted[..n]) ==>
                                      kept.score <= dropped.score
  {
    var front, back := sorted[..n], sorted[n..];
    assert sorted == front + back;
    assert multiset(sorted) - multiset(front) == multiset(back);
    forall kept, dropped | kept in front && dropped in multiset(back)
      ensures kept.score <= dropped.score
    {
      var i :| 0 <= i < n && front[i] == kept;
      assert dropped in back;
      var j :| 0 <= j < |back| && back[j] == dropped;
      assert sorted[i].score <= sorted[n + j].score;
    }
  }
}
