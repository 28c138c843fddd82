/** The in-memory fixed-window limiter in front of the identity service. */
module RateLimit {
  import opened Common

  const SECOND := 1_000_000_000

  /** A bucket's fields; no expiry before the first hit.  Times are nanoseconds on one clock. */
  datatype Bucket = Bucket(count: nat, expiresAt: Option<int>)

  const EMPTY := Bucket(0, None)

  function Expired(b: Bucket, now: int): bool {
    b.expiresAt.Some? && now > b.expiresAt.value
  }

  /** What a check reads. */
  function Seen(b: Bucket, now: int): nat {
    if Expired(b, now) then 0 else b.count
  }

  /** What a hit leaves: the first hit after an expiry opens a new window. */
  function Hit(b: Bucket, now: int, window: nat): Bucket {
    if b.expiresAt.None? || Expired(b, now) then Bucket(1, Some(now + window)) else b.(count := b.count + 1)
  }

  function ClampRetryAfter(d: int): (r: int)
    ensures r >= SECOND && r >= d
  {
    if d < SECOND then SECOND else d
  }

  class MemBucket {
    var count: nat
    var expiresAt: Option<int>

    constructor ()
      ensures Value() == EMPTY
    {
      count, expiresAt := 0, None;
    }

    function Value(): Bucket
      reads this
    {
      Bucket(count, expiresAt)
    }

    /** `later` is the second reading of the clock, for the time left. */
    method Count(now: int, later: int) returns (n: nat, ttl: int)
      ensures n == Seen(Value(), now) && ttl >= 0
      ensures !Expired(Value(), now) && expiresAt.Some? && later <= expiresAt.value ==> ttl == expiresAt.value - later
    {
      if expiresAt.Some? && now > expiresAt.value {
        return 0, 0;
      }
      ttl := if expiresAt.Some? then expiresAt.value - later else 0;
      if ttl < 0 {
        ttl := 0;
      }
      return count, ttl;
    }

    method Increment(now: int, later: int, window: nat) returns (n: nat, ttl: int)
      modifies this
      ensures Value() == Hit(old(Value()), now, window) && n == count && ttl >= 0
      ensures expiresAt.Some? && (later <= expiresAt.value ==> ttl == expiresAt.value - later)
    {
      if expiresAt.None? || now > expiresAt.value {
        count := 0;
        expiresAt := Some(now + window);
      }
      count := count + 1;
      ttl := expiresAt.value - later;
      if ttl < 0 {
        ttl := 0;
      }
      return count, ttl;
    }

    /** The check before a request: nothing is recorded. */
    method IsLimited(now: int, later: int, limit: int) returns (limited: bool, retryAfter: int)
      ensures limited == !Allowed(Value(), now, limit)
      ensures limited ==> retryAfter >= SECOND
    {
      var n, ttl := Count(now, later);
      if n >= limit {
        return true, ClampRetryAfter(ttl);
      }
      return false, 0;
    }

    /** Recording a request; it passes unless the count has gone over the limit. */
    method RecordHit(now: int, later: int, limit: int, window: nat) returns (limited: bool, retryAfter: int)
      modifies this
      ensures Value() == Hit(old(Value()), now, window)
      ensures limited == (Value().count > limit)
      ensures limited ==> retryAfter >= SECOND
    {
      var n, ttl := Increment(now, later, window);
      if n > limit {
        return true, ClampRetryAfter(ttl);
      }
      return false, 0;
    }
  }

  predicate Allowed(b: Bucket, now: int, limit: int) {
    Seen(b, now) < limit
  }

  /** The check and the recording agree: with nothing in between, a request let through by the check
      passes, and one held back would not have passed. */
  lemma CheckAgreesWithHit(b: Bucket, now: int, limit: int, window: nat)
    requires b.expiresAt.None? ==> b.count == 0
    ensures Allowed(b, now, limit) <==> Hit(b, now, window).count <= limit
  {
  }

  // ----- runs on one key -----

  /** Requests interleave freely: each is a check, then perhaps a hit.  A check changes nothing. */
  datatype Event = Check(now: int) | Record(now: int)

  /** A hit that passed, and when its window began. */
  datatype Pass = Pass(at: int, start: int)

  datatype History = History(bucket: Bucket, passes: seq<Pass>)

  function After(h: History, e: Event, limit: int, window: nat): History {
    match e
    case Check(_) => h
    case Record(now) =>
      var b := Hit(h.bucket, now, window);
      History(b, if b.count <= limit then h.passes + [Pass(now, b.expiresAt.value - window)] else h.passes)
  }

  function Run(events: seq<Event>, limit: int, window: nat): History {
    if events == [] then History(EMPTY, [])
    else After(Run(events[..|events| - 1], limit, window), events[|events| - 1], limit, window)
  }

  predicate MonotoneClock(events: seq<Event>) {
    forall i, j :: 0 <= i < j < |events| ==> events[i].now <= events[j].now
  }

  function InWindow(passes: seq<Pass>, start: int): nat {
    if passes == [] then 0
    else InWindow(passes[..|passes| - 1], start) + if passes[|passes| - 1].start == start then 1 else 0
  }

  /** Passes with `from <= at <= to`. */
  function InInterval(passes: seq<Pass>, from: int, to: int): nat {
    if passes == [] then 0
    else InInterval(passes[..|passes| - 1], from, to) + if from <= passes[|passes| - 1].at <= to then 1 else 0
  }

  ghost predicate HasOpening(passes: seq<Pass>, start: int) {
    exists k :: 0 <= k < |passes| && passes[k] == Pass(start, start)
  }

  /** Each pass lies in its window. */
  ghost predicate InTheirWindows(passes: seq<Pass>, window: nat) {
    forall i :: 0 <= i < |passes| ==> passes[i].start <= passes[i].at <= passes[i].start + window
  }

  /** Windows come in order and do not touch. */
  ghost predicate Apart(passes: seq<Pass>, window: nat) {
    forall i, j :: 0 <= i < j < |passes| ==> SameOrLater(passes[i].start, passes[j].start, window)
  }

  predicate SameOrLater(s: int, s': int, window: nat) {
    s == s' || s + window < s'
  }

  ghost predicate AllOpened(passes: seq<Pass>) {
    forall i :: 0 <= i < |passes| ==> HasOpening(passes, passes[i].start)
  }

  ghost predicate Bounded(passes: seq<Pass>, limit: int) {
    forall s: int :: InWindow(passes, s) <= if limit < 0 then 0 else limit
  }

  /** Windows come in order and do not touch, each holds at most `limit` passes, and each that holds any
      holds the pass that opened it. */
  ghost predicate WellSpaced(passes: seq<Pass>, limit: int, window: nat) {
    InTheirWindows(passes, window) && Apart(passes, window) && AllOpened(passes) && Bounded(passes, limit)
  }

  /** The window that begins at `start` is the last one or a later one. */
  ghost predicate Before(passes: seq<Pass>, start: int, window: nat) {
    forall i :: 0 <= i < |passes| ==> SameOrLater(passes[i].start, start, window)
  }

  /** The bucket's window is the latest, and its count covers the passes made in it. */
  ghost predicate Tracks(h: History, limit: int, window: nat, last: int) {
    var b := h.bucket;
    match b.expiresAt
    case None => b.count == 0 && h.passes == []
    case Some(e) =>
      && b.count >= 1 && e - window <= last
      && InWindow(h.passes, e - window) == (if limit < 0 then 0 else if b.count <= limit then b.count else limit)
      && Before(h.passes, e - window, window)
      && (limit >= 1 ==> HasOpening(h.passes, e - window))
  }

  lemma {:induction false} NoneInNewWindow(passes: seq<Pass>, start: int)
    requires forall i :: 0 <= i < |passes| ==> passes[i].start < start
    ensures InWindow(passes, start) == 0
  {
    if passes != [] {
      NoneInNewWindow(passes[..|passes| - 1], start);
    }
  }

  /** One more pass, in the latest window or a new one. */
  lemma PassAdded(passes: seq<Pass>, p: Pass, limit: int, window: nat)
    requires WellSpaced(passes, limit, window) && p.start <= p.at <= p.start + window
    requires Before(passes, p.start, window)
    requires InWindow(passes, p.start) < limit
    requires p.at == p.start || HasOpening(passes, p.start)
    ensures WellSpaced(passes + [p], limit, window)
    ensures HasOpening(passes + [p], p.start) && Before(passes + [p], p.start, window)
    ensures InWindow(passes + [p], p.start) == InWindow(passes, p.start) + 1
  {
    OpeningKept(passes, p);
    BoundKept(passes, p, limit);
    ApartKept(passes, p, window);
  }

  lemma ApartKept(passes: seq<Pass>, p: Pass, window: nat)
    requires Apart(passes, window) && Before(passes, p.start, window)
    ensures Apart(passes + [p], window)
  {
  }

  lemma BoundKept(passes: seq<Pass>, p: Pass, limit: int)
    requires Bounded(passes, limit) && InWindow(passes, p.start) < limit
    ensures Bounded(passes + [p], limit)
    ensures InWindow(passes + [p], p.start) == InWindow(passes, p.start) + 1
  {
    var more := passes + [p];
    assert more[..|more| - 1] == passes;
    forall s: int
      ensures InWindow(more, s) <= if limit < 0 then 0 else limit
    {
      assert InWindow(more, s) == InWindow(passes, s) + if p.start == s then 1 else 0;
    }
  }

  lemma OpeningKept(passes: seq<Pass>, p: Pass)
    requires AllOpened(passes) && (p.at == p.start || HasOpening(passes, p.start))
    ensures AllOpened(passes + [p]) && HasOpening(passes + [p], p.start)
  {
    var more := passes + [p];
    forall i | 0 <= i < |more|
      ensures HasOpening(more, more[i].start)
    {
      if i < |passes| || p.at != p.start {
        assert HasOpening(passes, more[i].start);
        var k :| 0 <= k < |passes| && passes[k] == Pass(more[i].start, more[i].start);
        assert more[k] == passes[k];
      } else {
        assert more[i] == p;
      }
    }
    assert more[|passes|] == p;
  }

  lemma StepTracks(h: History, e: Event, limit: int, window: nat, last: int)
    requires WellSpaced(h.passes, limit, window) && Tracks(h, limit, window, last) && last <= e.now
    ensures var h' := After(h, e, limit, window);
            WellSpaced(h'.passes, limit, window) && Tracks(h', limit, window, e.now)
  {
    if e.Record? {
      if h.bucket.expiresAt.None? || Expired(h.bucket, e.now) {
        OpensNew(h, e.now, window, limit, last);
        NoneInNewWindow(h.passes, e.now);
        StepOpens(h, e.now, limit, window);
      } else {
        StepStays(h, e.now, limit, window, last);
      }
    }
  }

  lemma StepOpens(h: History, now: int, limit: int, window: nat)
    requires WellSpaced(h.passes, limit, window) && Before(h.passes, now, window) && InWindow(h.passes, now) == 0
    requires h.bucket.expiresAt.None? || Expired(h.bucket, now)
    ensures var h' := After(h, Record(now), limit, window);
            WellSpaced(h'.passes, limit, window) && Tracks(h', limit, window, now)
  {
    if limit >= 1 {
      PassAdded(h.passes, Pass(now, now), limit, window);
    }
  }

  lemma StepStays(h: History, now: int, limit: int, window: nat, last: int)
    requires WellSpaced(h.passes, limit, window) && Tracks(h, limit, window, last) && last <= now
    requires h.bucket.expiresAt.Some? && !Expired(h.bucket, now)
    ensures var h' := After(h, Record(now), limit, window);
            WellSpaced(h'.passes, limit, window) && Tracks(h', limit, window, now)
  {
    if h.bucket.count + 1 <= limit {
      PassAdded(h.passes, Pass(now, h.bucket.expiresAt.value - window), limit, window);
    }
  }

  /** A hit after an expiry opens a window beyond every earlier one. */
  lemma OpensNew(h: History, now: int, window: nat, limit: int, last: int)
    requires Tracks(h, limit, window, last) && (h.bucket.expiresAt.None? || Expired(h.bucket, now))
    ensures Before(h.passes, now, window) && forall i :: 0 <= i < |h.passes| ==> h.passes[i].start < now
  {
    if h.bucket.expiresAt.Some? {
      var start := h.bucket.expiresAt.value - window;
      forall i | 0 <= i < |h.passes|
        ensures SameOrLater(h.passes[i].start, now, window) && h.passes[i].start < now
      {
        assert SameOrLater(h.passes[i].start, start, window);
      }
    }
  }

  lemma {:induction false} RunTracks(events: seq<Event>, limit: int, window: nat)
    requires MonotoneClock(events)
    ensures var h := Run(events, limit, window);
            WellSpaced(h.passes, limit, window)
              && Tracks(h, limit, window, if events == [] then 0 else events[|events| - 1].now)
  {
    if events != [] {
      var front := events[..|events| - 1];
      RunTracks(front, limit, window);
      var last := if front == [] then 0 else front[|front| - 1].now;
      var h := Run(front, limit, window);
      if front == [] {
        StepTracks(h, events[|events| - 1], limit, window, events[|events| - 1].now);
      } else {
        StepTracks(h, events[|events| - 1], limit, window, last);
      }
    }
  }

  /** In every run at most `limit` hits pass in any one window. */
  lemma WindowBound(events: seq<Event>, limit: nat, window: nat, start: int)
    requires MonotoneClock(events)
    ensures InWindow(Run(events, limit, window).passes, start) <= limit
  {
    RunTracks(events, limit, window);
  }

  // ----- any interval of one window's length -----

  lemma {:induction false} NoneInside(passes: seq<Pass>, from: int, to: int)
    requires forall i :: 0 <= i < |passes| ==> !(from <= passes[i].at <= to)
    ensures InInterval(passes, from, to) == 0
  {
    if passes != [] {
      NoneInside(passes[..|passes| - 1], from, to);
    }
  }

  lemma {:induction false} OneWindowInside(passes: seq<Pass>, from: int, to: int, s: int)
    requires forall i :: 0 <= i < |passes| && from <= passes[i].at <= to ==> passes[i].start == s
    ensures InInterval(passes, from, to) <= InWindow(passes, s)
  {
    if passes != [] {
      OneWindowInside(passes[..|passes| - 1], from, to, s);
    }
  }

  /** When two windows reach into the interval, the opening pass of the earlier one stays outside. */
  lemma {:induction false} TwoWindowsInside(passes: seq<Pass>, from: int, to: int, s: int, s': int)
    requires s != s' && s < from
    requires forall i :: 0 <= i < |passes| && from <= passes[i].at <= to ==>
             passes[i].start == s || passes[i].start == s'
    ensures InInterval(passes, from, to) <= InWindow(passes, s) + InWindow(passes, s')
    ensures HasOpening(passes, s) ==> InInterval(passes, from, to) + 1 <= InWindow(passes, s) + InWindow(passes, s')
  {
    if passes != [] {
      var n := |passes| - 1;
      TwoWindowsInside(passes[..n], from, to, s, s');
      if HasOpening(passes, s) && passes[n] != Pass(s, s) {
        var k :| 0 <= k < |passes| && passes[k] == Pass(s, s);
        assert passes[..n][k] == Pass(s, s);
      }
    }
  }

  /** In every run, in any interval one window long, ends included, fewer than twice the limit pass. */
  lemma IntervalBound(events: seq<Event>, limit: nat, window: nat, from: int)
    requires MonotoneClock(events)
    ensures InInterval(Run(events, limit, window).passes, from, from + window)
         <= if limit == 0 then 0 else 2 * limit - 1
  {
    RunTracks(events, limit, window);
    SpacedBound(Run(events, limit, window).passes, limit, window, from);
  }

  lemma SpacedBound(passes: seq<Pass>, limit: nat, window: nat, from: int)
    requires WellSpaced(passes, limit, window)
    ensures InInterval(passes, from, from + window) <= if limit == 0 then 0 else 2 * limit - 1
  {
    var to := from + window;
    if i :| 0 <= i < |passes| && from <= passes[i].at <= to {
      var s := passes[i].start;
      assert InWindow(passes, s) <= limit;
      if j :| 0 <= j < |passes| && from <= passes[j].at <= to && passes[j].start != s {
        var s' := passes[j].start;
        assert InWindow(passes, s') <= limit;
        var early, late := if s < s' then s else s', if s < s' then s' else s;
        TwoOnly(passes, window, from, if s < s' then i else j, if s < s' then j else i);
        TwoWindowsInside(passes, from, to, early, late);
        assert HasOpening(passes, passes[if s < s' then i else j].start);
        LimitPositive(passes, i);
      } else {
        OneWindowInside(passes, from, to, s);
        LimitPositive(passes, i);
      }
    } else {
      NoneInside(passes, from, to);
    }
  }

  /** A pass counts in its own window. */
  lemma {:induction false} LimitPositive(passes: seq<Pass>, i: nat)
    requires i < |passes|
    ensures InWindow(passes, passes[i].start) >= 1
  {
    var n := |passes| - 1;
    if i < n {
      LimitPositive(passes[..n], i);
    }
  }

  /** Windows do not touch, so no third one fits into the interval, and the earlier opened before it. */
  lemma TwoOnly(passes: seq<Pass>, window: nat, from: int, i: nat, j: nat)
    requires InTheirWindows(passes, window) && Apart(passes, window)
    requires i < |passes| && j < |passes| && passes[i].start < passes[j].start
    requires from <= passes[i].at <= from + window && from <= passes[j].at <= from + window
    ensures passes[i].start < from
    ensures forall k :: 0 <= k < |passes| && from <= passes[k].at <= from + window ==>
              passes[k].start == passes[i].start || passes[k].start == passes[j].start
  {
    forall k | 0 <= k < |passes| && from <= passes[k].at <= from + window
      ensures passes[k].start == passes[i].start || passes[k].start == passes[j].start
    {
      InOrder(passes, window, i, j);
      InOrder(passes, window, i, k);
      InOrder(passes, window, k, j);
    }
    InOrder(passes, window, i, j);
  }

  lemma InOrder(passes: seq<Pass>, window: nat, i: nat, j: nat)
    requires Apart(passes, window) && i < |passes| && j < |passes|
    ensures SameOrLater(passes[i].start, passes[j].start, window)
            || SameOrLater(passes[j].start, passes[i].start, window)
  {
    assert i < j ==> SameOrLater(passes[i].start, passes[j].start, window);
    assert j < i ==> SameOrLater(passes[j].start, passes[i].start, window);
  }

  // ----- the bound is reached -----

  function Burst(now: int, n: nat): (events: seq<Event>)
    ensures |events| == n && forall i :: 0 <= i < n ==> events[i] == Record(now)
  {
    seq(n, i requires 0 <= i < n => Record(now))
  }

  /** A run that leaves `bucket`, with `inside` passes between `from` and `to`. */
  ghost predicate Leaves(events: seq<Event>, limit: int, window: nat, from: int, to: int, bucket: Bucket, inside: nat) {
    var h := Run(events, limit, window);
    h.bucket == bucket && InInterval(h.passes, from, to) == inside
  }

  lemma RecordPasses(events: seq<Event>, now: int, limit: int, window: nat, from: int, to: int, b: Bucket, inside: nat)
    requires Leaves(events, limit, window, from, to, b, inside) && Hit(b, now, window).count <= limit
    ensures Leaves(events + [Record(now)], limit, window, from, to, Hit(b, now, window),
            inside + if from <= now <= to then 1 else 0)
  {
    var more := events + [Record(now)];
    assert more[..|more| - 1] == events;
    var h := Run(events, limit, window);
    var p := Pass(now, Hit(b, now, window).expiresAt.value - window);
    assert (h.passes + [p])[..|h.passes|] == h.passes;
  }

  /** A burst inside an open window passes as long as the count stays within the limit. */
  lemma {:induction false} BurstPasses(events: seq<Event>, now: int, n: nat, limit: int, window: nat, from: int,
                                       to: int, b: Bucket, inside: nat)
    requires Leaves(events, limit, window, from, to, b, inside)
    requires b.expiresAt.Some? && now <= b.expiresAt.value && b.count + n <= limit
    ensures Leaves(events + Burst(now, n), limit, window, from, to, b.(count := b.count + n),
                   inside + if from <= now <= to then n else 0)
  {
    if n == 0 {
      assert events + Burst(now, 0) == events;
    } else {
      BurstPasses(events, now, n - 1, limit, window, from, to, b, inside);
      BurstGrows(events, now, n);
      var last := b.(count := b.count + n - 1);
      assert Hit(last, now, window) == b.(count := b.count + n);
      RecordPasses(events + Burst(now, n - 1), now, limit, window, from, to, last,
                   inside + if from <= now <= to then n - 1 else 0);
    }
  }

  lemma BurstGrows(events: seq<Event>, now: int, n: nat)
    requires n > 0
    ensures events + Burst(now, n) == events + Burst(now, n - 1) + [Record(now)]
  {
  }

  /** One hit opens a window at 0; the rest of the limit comes at its end, and the whole limit right after it. */
  function Clustered(limit: nat, window: nat): seq<Event>
    requires limit >= 1
  {
    [] + [Record(0)] + Burst(window, limit - 1) + [Record(window + 1)] + Burst(window + 1, limit - 1)
  }

  lemma ClusteredClock(limit: nat, window: nat)
    requires limit >= 1
    ensures MonotoneClock(Clustered(limit, window))
  {
    var events := Clustered(limit, window);
    assert forall i :: 0 <= i < |events| ==>
             events[i].now == if i == 0 then 0 else if i < limit then window else window + 1;
  }

  /** Some run lets through one fewer than twice the limit within one window's length. */
  lemma BoundIsReached(limit: nat, window: nat)
    requires limit >= 1 && window >= 1
    ensures var events := Clustered(limit, window);
            MonotoneClock(events) && InInterval(Run(events, limit, window).passes, 1, 1 + window) == 2 * limit - 1
  {
    ClusteredClock(limit, window);
    var to := 1 + window;
    var begun := [] + [Record(0)];
    RecordPasses([], 0, limit, window, 1, to, EMPTY, 0);
    BurstPasses(begun, window, limit - 1, limit, window, 1, to, Bucket(1, Some(window)), 0);
    var full := begun + Burst(window, limit - 1);
    RecordPasses(full, window + 1, limit, window, 1, to, Bucket(limit, Some(window)), limit - 1);
    BurstPasses(full + [Record(window + 1)], window + 1, limit - 1, limit, window, 1, to,
                Bucket(1, Some(window + 1 + window)), limit);
  }
}
