/** When a running observation must be handed over, and how urgent its replacement is. */
module Handoff {
  import opened Common

  const NANOS := 1_000_000_000
  const MIN_STEP_SECONDS := 15
  const SECONDS_PER_HOUR := 3600

  datatype Urgency = NoUrgency | Planned | Obstruction | User | Emergency

  /** Times are nanoseconds on one clock. */
  datatype HandoffTask = HandoffTask(
    scheduledEnd: Option<int>,
    userEnd: Option<int>,
    leadSeconds: Option<int>,
    emergencyAt: Option<int>,
    coverageActive: bool)

  /** The environment's settings; any integers. */
  datatype Config = Config(defaultLead: int, userLead: int, horizonHours: int, scanStep: int)

  function LeadSeconds(task: HandoffTask, cfg: Config): int {
    if task.leadSeconds.Some? && task.leadSeconds.value > 0 then task.leadSeconds.value else cfg.defaultLead
  }

  predicate UserLeadReached(task: HandoffTask, now: int, cfg: Config) {
    task.userEnd.Some? && now >= task.userEnd.value - cfg.userLead * NANOS
  }

  predicate PlannedLeadReached(task: HandoffTask, now: int, cfg: Config) {
    task.scheduledEnd.Some? && now >= task.scheduledEnd.value - LeadSeconds(task, cfg) * NANOS
  }

  function UrgencyForTask(task: HandoffTask, now: int, cfg: Config): Urgency {
    if task.emergencyAt.Some? then Emergency
    else if UserLeadReached(task, now, cfg) then User
    else if PlannedLeadReached(task, now, cfg) || task.coverageActive then Planned
    else NoUrgency
  }

  predicate InSearchWindow(task: HandoffTask, now: int, cfg: Config) {
    task.emergencyAt.Some? || UserLeadReached(task, now, cfg) || PlannedLeadReached(task, now, cfg)
  }

  function Boost(task: HandoffTask, now: int, cfg: Config): nat {
    match UrgencyForTask(task, now, cfg)
    case Emergency => 100
    case User => 50
    case Obstruction => 40
    case Planned => 20
    case NoUrgency => if InSearchWindow(task, now, cfg) then 20 else 0
  }

  /** Lower numbers are more urgent; the result never drops below 1. */
  function EffectiveAssignPriority(base: int, task: HandoffTask, now: int, cfg: Config): (r: int)
    ensures 1 <= r && (base >= 1 ==> r <= base)
  {
    var p := base - Boost(task, now, cfg);
    if p < 1 then 1 else p
  }

  /** The search window and the urgency agree, except for coverage campaigns, which are urgent
      outside it too.  So an urgency of none never carries the window's boost. */
  lemma WindowIsUrgency(task: HandoffTask, now: int, cfg: Config)
    ensures InSearchWindow(task, now, cfg) ==> UrgencyForTask(task, now, cfg) != NoUrgency
    ensures UrgencyForTask(task, now, cfg) != NoUrgency <==> InSearchWindow(task, now, cfg) || task.coverageActive
    ensures Boost(task, now, cfg) == 0 <==> UrgencyForTask(task, now, cfg) == NoUrgency
  {
  }

  /** As time passes with nothing else changed, a task only grows more urgent. */
  lemma UrgencyOnlyGrows(base: int, task: HandoffTask, earlier: int, later: int, cfg: Config)
    requires earlier <= later
    ensures EffectiveAssignPriority(base, task, later, cfg) <= EffectiveAssignPriority(base, task, earlier, cfg)
    ensures InSearchWindow(task, earlier, cfg) ==> InSearchWindow(task, later, cfg)
  {
  }

  // ----- scanning ahead for the target to set behind an obstruction -----

  datatype Eta = Unknown | After(nanos: int) | NotWithinHorizon

  function StepNanos(cfg: Config): (r: int)
    ensures r >= MIN_STEP_SECONDS * NANOS
  {
    (if cfg.scanStep > MIN_STEP_SECONDS then cfg.scanStep else MIN_STEP_SECONDS) * NANOS
  }

  function HorizonNanos(cfg: Config): int {
    cfg.horizonHours * SECONDS_PER_HOUR * NANOS
  }

  /** Look at instants one step apart after `cur`, the last one at `end`, for the first forbidden one. */
  function Scan(forbidden: int -> bool, from: int, cur: int, end: int, step: int): (eta: Eta)
    requires from <= cur && step > 0
    ensures eta.After? ==> cur - from < eta.nanos <= end - from && forbidden(from + eta.nanos)
    decreases end - cur
  {
    if cur >= end then NotWithinHorizon
    else
      var nxt := if cur + step > end then end else cur + step;
      if forbidden(nxt) then After(nxt - from) else Scan(forbidden, from, nxt, end, step)
  }

  function ObstructionLoss(known: bool, forbidden: int -> bool, from: int, cfg: Config): Eta {
    if !known then Unknown
    else if forbidden(from) then After(0)
    else Scan(forbidden, from, from, from + HorizonNanos(cfg), StepNanos(cfg))
  }

  /** `known` says that target, site and mask are all there; `forbidden` is the combined test of
      altitude, mount limits, horizon profile and mask at an instant. */
  method SecondsUntilObstructionLoss(known: bool, forbidden: int -> bool, from: int, cfg: Config) returns (eta: Eta)
    ensures eta == ObstructionLoss(known, forbidden, from, cfg)
  {
    if !known {
      return Unknown;
    }
    var end := from + HorizonNanos(cfg);
    var step := StepNanos(cfg);
    if forbidden(from) {
      return After(0);
    }
    var cur := from;
    while cur < end
      invariant from <= cur
      invariant ObstructionLoss(known, forbidden, from, cfg) == Scan(forbidden, from, cur, end, step)
      decreases end - cur
    {
      var nxt := cur + step;
      if nxt > end {
        nxt := end;
      }
      if forbidden(nxt) {
        var elapsed := nxt - from;
        if elapsed < 0 {
          elapsed := 0;
        }
        return After(elapsed);
      }
      cur := nxt;
    }
    return NotWithinHorizon;
  }

  lemma {:induction false} ScanCatches(forbidden: int -> bool, from: int, cur: int, end: int, step: int, start: int)
    requires from <= cur < start <= end && step > 0
    requires forall t :: start <= t <= start + step && t <= end ==> forbidden(t)
    ensures var eta := Scan(forbidden, from, cur, end, step);
            eta.After? && from + eta.nanos <= start + step
    decreases end - cur
  {
    var nxt := if cur + step > end then end else cur + step;
    if !forbidden(nxt) {
      ScanCatches(forbidden, from, nxt, end, step, start);
    }
  }

  lemma {:induction false} ScanStartsClear(forbidden: int -> bool, from: int, cur: int, end: int, step: int)
    returns (clear: int)
    requires from <= cur && step > 0 && !forbidden(cur)
    requires Scan(forbidden, from, cur, end, step).After?
    ensures var lost := from + Scan(forbidden, from, cur, end, step).nanos;
            cur <= clear < lost <= clear + step && !forbidden(clear)
    decreases end - cur
  {
    var nxt := if cur + step > end then end else cur + step;
    if forbidden(nxt) {
      clear := cur;
    } else {
      clear := ScanStartsClear(forbidden, from, nxt, end, step);
    }
  }

  /** A forbidden stretch one step long (or running into the horizon) that starts within the horizon is
      never missed, and is reported no later than one step after it starts. */
  lemma LossNeverMissed(forbidden: int -> bool, from: int, cfg: Config, start: int)
    requires from <= start && (start == from || start <= from + HorizonNanos(cfg))
    requires forall t :: start <= t <= start + StepNanos(cfg) && (t == from || t <= from + HorizonNanos(cfg)) ==>
             forbidden(t)
    ensures var eta := ObstructionLoss(true, forbidden, from, cfg);
            eta.After? && from + eta.nanos <= start + StepNanos(cfg)
  {
    if !forbidden(from) {
      ScanCatches(forbidden, from, from, from + HorizonNanos(cfg), StepNanos(cfg), start);
    }
  }

  /** A reported loss is real, and unless it is immediate the target was still clear at most one step before. */
  lemma ReportedLossIsReal(known: bool, forbidden: int -> bool, from: int, cfg: Config)
    ensures var eta := ObstructionLoss(known, forbidden, from, cfg);
            eta.After? ==>
              && eta.nanos >= 0 && forbidden(from + eta.nanos)
              && (eta.nanos > 0 ==> eta.nanos <= HorizonNanos(cfg))
              && (eta.nanos > 0 ==>
                    exists clear :: from <= clear < from + eta.nanos <= clear + StepNanos(cfg) && !forbidden(clear))
  {
    if known && !forbidden(from) && ObstructionLoss(known, forbidden, from, cfg).After? {
      var clear := ScanStartsClear(forbidden, from, from, from + HorizonNanos(cfg), StepNanos(cfg));
    }
  }
}
