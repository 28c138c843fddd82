/** Realized coverage: the longitude arc, the longest gap and the duty cycle of a season's frames. */
module Coverage {
  import Sorting

  const CIRCLE := 360.0

  // ----- longitudes on a circle -----

  /** The remainder in [0, 360) that the source language's `%` gives. */
  function Mod360(x: real): (r: real)
    ensures 0.0 <= r < CIRCLE
  {
    Mod360Range(x);
    x - CIRCLE * (x / CIRCLE).Floor as real
  }

  lemma Mod360Range(x: real)
    ensures 0.0 <= x - CIRCLE * (x / CIRCLE).Floor as real < CIRCLE
  {
    var q := x / CIRCLE;
    assert q.Floor as real <= q < q.Floor as real + 1.0;
  }

  lemma Mod360Is(x: real, r: real, turns: int)
    requires x == r + CIRCLE * turns as real && 0.0 <= r < CIRCLE
    ensures Mod360(x) == r
  {
    var q := x / CIRCLE;
    assert q == r / CIRCLE + turns as real;
    assert q.Floor == turns;
  }

  function Norm(lon: real): (r: real)
    ensures 0.0 <= r < CIRCLE
  {
    Mod360(Mod360(lon) + CIRCLE)
  }

  lemma NormIsMod(lon: real)
    ensures Norm(lon) == Mod360(lon)
  {
    Mod360Is(Mod360(lon) + CIRCLE, Mod360(lon), 1);
  }

  /** How far east of `s` a longitude lies, going once around. */
  function East(lon: real, s: real): (r: real)
    ensures 0.0 <= r < CIRCLE
  {
    Mod360(lon - s)
  }

  /** Only the reduced longitudes matter. */
  lemma EastReduced(lon: real, s: real)
    ensures var v, t := Mod360(lon), Mod360(s);
            East(lon, s) == if t <= v then v - t else v - t + CIRCLE
  {
    var v, t := Mod360(lon), Mod360(s);
    var turns := (lon / CIRCLE).Floor - (s / CIRCLE).Floor;
    assert lon - s == v - t + CIRCLE * turns as real;
    if t <= v {
      Mod360Is(lon - s, v - t, turns);
    } else {
      Mod360Is(lon - s, v - t + CIRCLE, turns - 1);
    }
  }

  /** The arc that starts at `s` and runs `length` degrees east holds every longitude. */
  ghost predicate ArcCovers(lons: seq<real>, s: real, length: real) {
    length >= 0.0 && forall i :: 0 <= i < |lons| ==> East(lons[i], s) <= length
  }

  /** Sorted as they are. */
  function Plain(x: real): real {
    x
  }

  /** The gap after index `i`; the last one wraps around to the first. */
  function GapAfter(norm: seq<real>, i: nat): real
    requires i < |norm|
  {
    if i == |norm| - 1 then norm[0] + CIRCLE - norm[i] else norm[i + 1] - norm[i]
  }

  // ----- the same on longitudes already in [0, 360) -----

  /** How far east of `t` the longitude `v` lies, both reduced. */
  function EastOf(v: real, t: real): real {
    if t <= v then v - t else v - t + CIRCLE
  }

  /** `norm` holds reduced longitudes in order. */
  ghost predicate Reduced(norm: seq<real>) {
    Sorting.Ascending(norm, Plain) && forall i :: 0 <= i < |norm| ==> 0.0 <= norm[i] < CIRCLE
  }

  ghost predicate CoversReduced(norm: seq<real>, t: real, length: real) {
    forall i :: 0 <= i < |norm| ==> EastOf(norm[i], t) <= length
  }

  /** Where an arc starts that leaves out the gap after `i`. */
  function AfterGap(norm: seq<real>, i: nat): real
    requires i < |norm|
  {
    if i == |norm| - 1 then norm[0] else norm[i + 1]
  }

  /** The arc that leaves out the gap after `i` covers everything. */
  lemma RestOfCircleCovers(norm: seq<real>, i: nat)
    requires Reduced(norm) && i < |norm| && GapAfter(norm, i) > 0.0
    ensures CoversReduced(norm, AfterGap(norm, i), CIRCLE - GapAfter(norm, i))
  {
    forall k | 0 <= k < |norm|
      ensures EastOf(norm[k], AfterGap(norm, i)) <= CIRCLE - GapAfter(norm, i)
    {
      assert norm[0] <= norm[k] <= norm[|norm| - 1];
      assert if k <= i then norm[k] <= norm[i] else norm[i + 1] <= norm[k];
    }
  }

  /** Any covering arc leaves out no more than one of the gaps. */
  lemma CoveringArcSkipsOneGap(norm: seq<real>, t: real, length: real) returns (i: nat)
    requires Reduced(norm) && norm != [] && 0.0 <= t < CIRCLE && CoversReduced(norm, t, length)
    ensures i < |norm| && CIRCLE - length <= GapAfter(norm, i)
  {
    i := |norm| - 1;
    if norm[0] < t {
      while norm[i] >= t
        invariant i < |norm|
        invariant i < |norm| - 1 ==> t <= norm[i + 1]
        decreases i
      {
        i := i - 1;
      }
    }
    assert EastOf(norm[i], t) <= length;
  }

  /** Covering longitudes is covering their reduced values. */
  lemma CoversBothWays(lons: seq<real>, raw: seq<real>, norm: seq<real>, s: real, length: real)
    requires |raw| == |lons| && forall i :: 0 <= i < |lons| ==> raw[i] == Norm(lons[i])
    requires multiset(norm) == multiset(raw) && length >= 0.0
    ensures ArcCovers(lons, s, length) <==> CoversReduced(norm, Mod360(s), length)
  {
    var t := Mod360(s);
    forall i | 0 <= i < |lons|
      ensures East(lons[i], s) == EastOf(raw[i], t)
    {
      NormIsMod(lons[i]);
      EastReduced(lons[i], s);
    }
    assert CoversReduced(raw, t, length) <==> ArcCovers(lons, s, length);
    if CoversReduced(raw, t, length) {
      SameElements(raw, norm, t, length);
    }
    if CoversReduced(norm, t, length) {
      SameElements(norm, raw, t, length);
    }
  }

  lemma SameElements(xs: seq<real>, ys: seq<real>, t: real, length: real)
    requires multiset(xs) == multiset(ys) && CoversReduced(xs, t, length)
    ensures CoversReduced(ys, t, length)
  {
    forall i | 0 <= i < |ys|
      ensures EastOf(ys[i], t) <= length
    {
      assert ys[i] in multiset(xs);
      var j :| 0 <= j < |xs| && xs[j] == ys[i];
    }
  }

  lemma SortedIsReduced(lons: seq<real>, raw: seq<real>, norm: seq<real>)
    requires |raw| == |lons| && forall i :: 0 <= i < |lons| ==> raw[i] == Norm(lons[i])
    requires Sorting.Ascending(norm, Plain) && multiset(norm) == multiset(raw)
    ensures Reduced(norm) && |norm| == |lons|
  {
    assert |multiset(norm)| == |norm| && |multiset(raw)| == |raw|;
    forall i | 0 <= i < |norm|
      ensures 0.0 <= norm[i] < CIRCLE
    {
      assert norm[i] in multiset(raw);
    }
  }

  /** The largest gap, in the order the loop looks at them. */
  method LargestGap(norm: seq<real>) returns (maxGap: real, ghost at: nat)
    requires Reduced(norm) && |norm| >= 2
    ensures at < |norm| && maxGap == GapAfter(norm, at) > 0.0
    ensures forall k :: 0 <= k < |norm| ==> GapAfter(norm, k) <= maxGap
  {
    maxGap, at := 0.0, 0;
    var i := 0;
    while i < |norm| - 1
      invariant 0 <= i <= |norm| - 1
      invariant forall k :: 0 <= k < i ==> GapAfter(norm, k) <= maxGap
      invariant maxGap == 0.0 || (0 <= at < i && GapAfter(norm, at) == maxGap > 0.0)
    {
      if norm[i + 1] - norm[i] > maxGap {
        maxGap := norm[i + 1] - norm[i];
        at := i;
      }
      i := i + 1;
    }
    var wrap := norm[0] + CIRCLE - norm[|norm| - 1];
    if wrap > maxGap {
      maxGap := wrap;
      at := |norm| - 1;
    }
  }

  /** The length of the shortest arc that holds every longitude. */
  method CircularLonSpan(lons: seq<real>) returns (span: real)
    ensures exists s :: ArcCovers(lons, s, span)
    ensures forall s, length :: ArcCovers(lons, s, length) ==> span <= length
  {
    if |lons| == 0 {
      assert ArcCovers(lons, 0.0, 0.0);
      return 0.0;
    }
    if |lons| == 1 {
      Mod360Is(0.0, 0.0, 0);
      assert ArcCovers(lons, lons[0], 0.0);
      return 0.0;
    }
    var raw := seq(|lons|, i requires 0 <= i < |lons| => Norm(lons[i]));
    var norm := Sorting.SortBy(raw, Plain);
    SortedIsReduced(lons, raw, norm);
    var maxGap, at := LargestGap(norm);
    span := CIRCLE - maxGap;
    if span < 0.0 {
      span := 0.0;
    }
    ShortestArc(lons, raw, norm, at, span);
  }

  lemma ShortestArc(lons: seq<real>, raw: seq<real>, norm: seq<real>, at: nat, span: real)
    requires |raw| == |lons| && forall i :: 0 <= i < |lons| ==> raw[i] == Norm(lons[i])
    requires multiset(norm) == multiset(raw) && Reduced(norm)
    requires at < |norm| && GapAfter(norm, at) > 0.0
    requires forall k :: 0 <= k < |norm| ==> GapAfter(norm, k) <= GapAfter(norm, at)
    requires span == if GapAfter(norm, at) <= CIRCLE then CIRCLE - GapAfter(norm, at) else 0.0
    ensures ArcCovers(lons, AfterGap(norm, at), span)
    ensures forall s, length :: ArcCovers(lons, s, length) ==> span <= length
  {
    GapAtMostCircle(norm, at);
    RestOfCircleCovers(norm, at);
    Mod360Is(AfterGap(norm, at), AfterGap(norm, at), 0);
    CoversBothWays(lons, raw, norm, AfterGap(norm, at), span);
    forall s, length | ArcCovers(lons, s, length)
      ensures span <= length
    {
      CoversBothWays(lons, raw, norm, s, length);
      var k := CoveringArcSkipsOneGap(norm, Mod360(s), length);
    }
  }

  lemma GapAtMostCircle(norm: seq<real>, i: nat)
    requires Reduced(norm) && i < |norm|
    ensures GapAfter(norm, i) <= CIRCLE
  {
    assert norm[0] <= norm[|norm| - 1];
  }

  // ----- gaps between frames -----

  /** Every stretch of `m` minutes between the first and the last frame has a frame in it. */
  ghost predicate EveryWindowHit(ts: seq<real>, m: real)
    requires ts != []
  {
    forall t :: ts[0] <= t && t + m <= ts[|ts| - 1] ==> WindowHit(ts, t, m)
  }

  ghost predicate WindowHit(ts: seq<real>, t: real, m: real) {
    exists i :: 0 <= i < |ts| && t <= ts[i] <= t + m
  }

  /** The first frame at or after `t` comes within one gap. */
  lemma NextFrame(ts: seq<real>, t: real, m: real)
    requires Sorting.Ascending(ts, Plain) && ts != [] && ts[0] <= t && t + m <= ts[|ts| - 1] && m >= 0.0
    requires forall i :: 1 <= i < |ts| ==> ts[i] - ts[i - 1] <= m
    ensures WindowHit(ts, t, m)
  {
    var i := |ts| - 1;
    while ts[0] < t && i > 0 && ts[i - 1] >= t
      invariant 0 <= i < |ts| && ts[i] >= t
      decreases i
    {
      i := i - 1;
    }
    if ts[0] < t {
      assert ts[i] - ts[i - 1] <= m;
    } else {
      assert ts[0] == t;
    }
  }

  lemma GapsHitEveryWindow(ts: seq<real>, m: real)
    requires Sorting.Ascending(ts, Plain) && ts != [] && m >= 0.0
    requires forall i :: 1 <= i < |ts| ==> ts[i] - ts[i - 1] <= m
    ensures EveryWindowHit(ts, m)
  {
    forall t: real
      ensures ts[0] <= t && t + m <= ts[|ts| - 1] ==> WindowHit(ts, t, m)
    {
      if ts[0] <= t && t + m <= ts[|ts| - 1] {
        NextFrame(ts, t, m);
      }
    }
  }

  /** A shorter window fits inside the gap and misses every frame. */
  lemma GapMissed(ts: seq<real>, k: nat, m: real)
    requires Sorting.Ascending(ts, Plain) && 1 <= k < |ts| && 0.0 <= m < ts[k] - ts[k - 1]
    ensures !EveryWindowHit(ts, m)
  {
    var t := ts[k - 1] + (ts[k] - ts[k - 1] - m) / 2.0;
    assert ts[0] <= ts[k - 1] < t && t + m < ts[k] <= ts[|ts| - 1];
    forall i | 0 <= i < |ts|
      ensures !(t <= ts[i] <= t + m)
    {
      assert if i < k then ts[i] <= ts[k - 1] else ts[k] <= ts[i];
    }
    assert !WindowHit(ts, t, m);
  }

  /** The realized gap is the shortest window that can be put anywhere in the season without missing
      every frame. */
  method RealizedMaxGap(ts: seq<real>) returns (maxGap: real)
    requires Sorting.Ascending(ts, Plain) && |ts| >= 2
    ensures maxGap >= 0.0 && EveryWindowHit(ts, maxGap)
    ensures forall m :: m >= 0.0 && EveryWindowHit(ts, m) ==> maxGap <= m
    ensures forall i :: 1 <= i < |ts| ==> ts[i] - ts[i - 1] <= maxGap
  {
    maxGap := 0.0;
    ghost var at := 0;
    var i := 1;
    while i < |ts|
      invariant 1 <= i <= |ts|
      invariant forall k :: 1 <= k < i ==> ts[k] - ts[k - 1] <= maxGap
      invariant maxGap == 0.0 || (1 <= at < i && ts[at] - ts[at - 1] == maxGap > 0.0)
    {
      var gap := ts[i] - ts[i - 1];
      if gap > maxGap {
        maxGap := gap;
        at := i;
      }
      i := i + 1;
    }
    GapsHitEveryWindow(ts, maxGap);
    forall m | m >= 0.0 && EveryWindowHit(ts, m)
      ensures maxGap <= m
    {
      if m < maxGap {
        GapMissed(ts, at, m);
      }
    }
  }

  // ----- duty cycle -----

  const ALMOST_ONE := 0.999999

  /** The number of bins of `bin` minutes, rounded up but for a last millionth of a bin. */
  function Bins(ts: seq<real>, bin: real): (n: nat)
    requires ts != [] && bin > 0.0
    ensures n >= 1
  {
    var n := ((ts[|ts| - 1] - ts[0]) / bin + ALMOST_ONE).Floor;
    if n < 1 then 1 else n
  }

  /** The bin a frame falls into, held within the range. */
  function BinOf(ts: seq<real>, i: nat, bin: real): (b: int)
    requires i < |ts| && bin > 0.0
    ensures 0 <= b < Bins(ts, bin)
  {
    var b := ((ts[i] - ts[0]) / bin).Floor;
    var top := Bins(ts, bin) - 1;
    var low := if b < top then b else top;
    if low < 0 then 0 else low
  }

  predicate BinHit(ts: seq<real>, b: int, bin: real)
    requires bin > 0.0
  {
    exists i :: 0 <= i < |ts| && BinOf(ts, i, bin) == b
  }

  function Below(n: nat): (s: set<int>)
    ensures |s| == n && forall b :: b in s <==> 0 <= b < n
  {
    if n == 0 then {} else Below(n - 1) + {n - 1}
  }

  lemma SubsetSize(a: set<int>, b: set<int>)
    requires a <= b
    ensures |a| <= |b| && (|a| == |b| <==> a == b)
  {
    assert b == a + (b - a);
    assert |b| == |a| + |b - a|;
  }

  /** The share of bins with a frame; a season of no length counts as fully covered. */
  method DutyCycle(ts: seq<real>, bin: real) returns (duty: real)
    requires Sorting.Ascending(ts, Plain) && |ts| >= 2
    ensures 0.0 < duty <= 1.0
    ensures duty == 1.0 <==>
              ts[0] == ts[|ts| - 1] || bin <= 0.0 || forall b :: 0 <= b < Bins(ts, bin) ==> BinHit(ts, b, bin)
  {
    if !(ts[|ts| - 1] > ts[0] && bin > 0.0) {
      return 1.0;
    }
    var bins := Bins(ts, bin);
    var filled: set<int> := {};
    var i := 0;
    while i < |ts|
      invariant 0 <= i <= |ts|
      invariant forall b :: b in filled <==> exists j :: 0 <= j < i && BinOf(ts, j, bin) == b
    {
      filled := filled + {BinOf(ts, i, bin)};
      i := i + 1;
    }
    duty := |filled| as real / bins as real;
    assert BinOf(ts, 0, bin) in filled;
    FilledShare(filled, bins);
    assert forall b :: b in filled <==> 0 <= b < bins && BinHit(ts, b, bin);
  }

  lemma FilledShare(filled: set<int>, bins: nat)
    requires bins > 0 && filled != {} && forall b :: b in filled ==> 0 <= b < bins
    ensures 0.0 < |filled| as real / bins as real <= 1.0
    ensures |filled| as real / bins as real == 1.0 <==> forall b :: 0 <= b < bins ==> b in filled
  {
    SubsetSize(filled, Below(bins));
    assert |filled| > 0;
    assert filled == Below(bins) <==> forall b :: 0 <= b < bins ==> b in filled;
    Share(|filled|, bins);
  }

  lemma Share(n: nat, m: nat)
    requires 0 < n <= m
    ensures 0.0 < n as real / m as real <= 1.0 && (n as real / m as real == 1.0 <==> n == m)
  {
  }

  /** When no gap is longer than a bin, every bin has a frame, so the duty cycle is 1. */
  lemma ShortGapsFillEveryBin(ts: seq<real>, bin: real, b: nat)
    requires Sorting.Ascending(ts, Plain) && |ts| >= 2 && bin > 0.0 && b < Bins(ts, bin)
    requires forall i :: 1 <= i < |ts| ==> ts[i] - ts[i - 1] <= bin
    ensures BinHit(ts, b, bin)
  {
    if b == 0 {
      assert (ts[0] - ts[0]) / bin == 0.0;
      assert BinOf(ts, 0, bin) == 0;
    } else {
      var from := ts[0] + b as real * bin;
      BinStartsBeforeEnd(ts[|ts| - 1] - ts[0], bin, b);
      var i := |ts| - 1;
      while ts[i - 1] >= from
        invariant 1 <= i < |ts| && ts[i] >= from
        decreases i
      {
        i := i - 1;
      }
      assert ts[i] - ts[i - 1] <= bin;
      InBin(ts[i] - ts[0], bin, b);
      assert BinOf(ts, i, bin) == b;
    }
  }

  lemma BinStartsBeforeEnd(span: real, bin: real, b: nat)
    requires bin > 0.0 && 1 <= b < (span / bin + ALMOST_ONE).Floor
    ensures b as real * bin <= span
  {
    var q := span / bin;
    assert q * bin == span;
    assert b as real <= q;
    assert (q - b as real) * bin >= 0.0;
  }

  lemma InBin(x: real, bin: real, b: nat)
    requires bin > 0.0 && b as real * bin <= x < b as real * bin + bin
    ensures (x / bin).Floor == b
  {
    assert (b + 1) as real == b as real + 1.0;
    assert (b as real + 1.0) * bin == b as real * bin + bin;
    QuotientBounds(x, bin, b as real);
    QuotientBounds(x, bin, (b + 1) as real);
  }

  lemma QuotientBounds(x: real, bin: real, c: real)
    requires bin > 0.0
    ensures c * bin <= x <==> c <= x / bin
  {
    var gap := x / bin - c;
    assert x == (c + gap) * bin == c * bin + gap * bin;
    assert gap >= 0.0 ==> gap * bin >= 0.0;
    assert gap < 0.0 ==> gap * bin < 0.0;
  }
}
