/** Obstruction masks: the ray-casting polygon test and the forbidden alt/az lookup. */
module Obstruction {
  import opened Common
  import opened Reals

  /** The constant added to an edge's height before dividing by it. */
  const GUARD := 0.000_000_000_000_001

  datatype Point = Point(x: real, y: real)

  /** A listed vertex; None stands for one with fewer than two coordinates or one that is not finite. */
  type Listed = Option<Point>

  // ----- one edge -----

  function Above(p: Point, y: real): bool {
    p.y > y
  }

  /** Where the line from `a` to `b` is taken to meet the level `y`. */
  function MeetsAt(y: real, a: Point, b: Point, guard: real): real
    requires b.y - a.y + guard != 0.0
  {
    (b.x - a.x) * (y - a.y) / (b.y - a.y + guard) + a.x
  }

  /** `x` lies left of the meeting point.  A zero divisor gives an infinity of the numerator's sign, or
      not-a-number, to which nothing compares less. */
  predicate LeftOfEdge(x: real, y: real, a: Point, b: Point, guard: real) {
    if b.y - a.y + guard == 0.0 then (b.x - a.x) * (y - a.y) > 0.0 else x < MeetsAt(y, a, b, guard)
  }

  predicate Straddles(y: real, a: Point, b: Point) {
    Above(a, y) != Above(b, y)
  }

  predicate EdgeCrossed(x: real, y: real, a: Point, b: Point, guard: real) {
    Straddles(y, a, b) && LeftOfEdge(x, y, a, b, guard)
  }

  /** The vertex before `i`, going around. */
  function Before(ps: seq<Point>, i: nat): Point
    requires i < |ps|
  {
    if i == 0 then ps[|ps| - 1] else ps[i - 1]
  }

  /** How many of the first `n` edges the ray crosses. */
  function Crossings(x: real, y: real, ps: seq<Point>, n: nat, guard: real): nat
    requires n <= |ps|
  {
    if n == 0 then 0
    else Crossings(x, y, ps, n - 1, guard) + if EdgeCrossed(x, y, ps[n - 1], Before(ps, n - 1), guard) then 1 else 0
  }

  predicate Odd(n: nat) {
    n % 2 == 1
  }

  /** The polygon test: an odd number of crossings. */
  predicate Inside(x: real, y: real, ps: seq<Point>, guard: real) {
    |ps| >= 3 && Odd(Crossings(x, y, ps, |ps|, guard))
  }

  predicate AllFinite(vertices: seq<Listed>) {
    forall i :: 0 <= i < |vertices| ==> vertices[i].Some?
  }

  function Points(vertices: seq<Listed>): (ps: seq<Point>)
    requires AllFinite(vertices)
    ensures |ps| == |vertices| && forall i :: 0 <= i < |ps| ==> Some(ps[i]) == vertices[i]
  {
    seq(|vertices|, i requires 0 <= i < |vertices| => vertices[i].value)
  }

  method PointInPolygon(x: real, y: real, vertices: seq<Listed>, guard: real) returns (inside: bool)
    ensures inside == (AllFinite(vertices) && Inside(x, y, Points(vertices), guard))
  {
    var n := |vertices|;
    if n < 3 {
      return false;
    }
    inside := false;
    var j := n - 1;
    var k := 0;
    while k < n
      invariant 0 <= k <= n && AllFinite(vertices[..k])
    {
      if vertices[k].None? {
        return false;
      }
      assert vertices[..k + 1] == vertices[..k] + [vertices[k]];
      k := k + 1;
    }
    assert vertices[..n] == vertices;
    var i := 0;
    while i < n
      invariant 0 <= i <= n && j == if i == 0 then n - 1 else i - 1
      invariant inside == Odd(Crossings(x, y, Points(vertices), i, guard))
    {
      var a, b := vertices[i].value, vertices[j].value;
      if Straddles(y, a, b) && LeftOfEdge(x, y, a, b, guard) {
        inside := !inside;
      }
      j := i;
      i := i + 1;
    }
  }

  // ----- a closed polygon crosses any level an even number of times -----

  /** How many of the first `n` edges pass from one side of the level to the other. */
  function LevelChanges(y: real, ps: seq<Point>, n: nat): nat
    requires n <= |ps|
  {
    if n == 0 then 0
    else LevelChanges(y, ps, n - 1) + if Straddles(y, ps[n - 1], Before(ps, n - 1)) then 1 else 0
  }

  lemma {:induction false} ChangesSoFar(y: real, ps: seq<Point>, n: nat)
    requires 1 <= n <= |ps|
    ensures Odd(LevelChanges(y, ps, n)) <==> Above(ps[n - 1], y) != Above(ps[|ps| - 1], y)
  {
    if n > 1 {
      ChangesSoFar(y, ps, n - 1);
    } else {
      assert LevelChanges(y, ps, 0) == 0;
    }
  }

  lemma EvenLevelChanges(y: real, ps: seq<Point>)
    ensures !Odd(LevelChanges(y, ps, |ps|))
  {
    if ps != [] {
      ChangesSoFar(y, ps, |ps|);
    }
  }

  // ----- the bounding box -----

  ghost predicate InBoundingBox(x: real, y: real, ps: seq<Point>) {
    && (exists i :: 0 <= i < |ps| && ps[i].x <= x)
    && (exists i :: 0 <= i < |ps| && x <= ps[i].x)
    && (exists i :: 0 <= i < |ps| && ps[i].y <= y)
    && (exists i :: 0 <= i < |ps| && y <= ps[i].y)
  }

  /** An edge whose meeting point the guard moves off the edge: its first end lies above the level, its
      second below it but by less than the guard. */
  predicate Harmful(y: real, a: real, b: real, guard: real) {
    a > y && b <= y < b + guard
  }

  ghost predicate GuardHarmless(y: real, ps: seq<Point>, guard: real) {
    forall i :: 0 <= i < |ps| ==> !Harmful(y, ps[i].y, Before(ps, i).y, guard)
  }

  /** A convex combination stays between its ends. */
  lemma Between(a: real, b: real, t: real, low: real, high: real)
    requires 0.0 <= t <= 1.0 && low <= a <= high && low <= b <= high
    ensures low <= (b - a) * t + a <= high
  {
    assert (b - a) * t + a == a * (1.0 - t) + b * t;
    assert low * (1.0 - t) + low * t == low && high * (1.0 - t) + high * t == high;
    ProductNonNegative(a - low, 1.0 - t);
    ProductNonNegative(b - low, t);
    ProductNonNegative(high - a, 1.0 - t);
    ProductNonNegative(high - b, t);
  }

  /** A straddling edge meets the level between its ends. */
  lemma MeetsBetweenEnds(y: real, a: Point, b: Point, guard: real, low: real, high: real)
    requires guard >= 0.0 && Straddles(y, a, b) && !Harmful(y, a.y, b.y, guard)
    requires low <= a.x <= high && low <= b.x <= high
    ensures b.y - a.y + guard != 0.0
    ensures low <= MeetsAt(y, a, b, guard) <= high
  {
    var rise, height := y - a.y, b.y - a.y + guard;
    assert if Above(a, y) then height <= rise < 0.0 else 0.0 <= rise < height;
    var t := rise / height;
    Fraction(rise, height);
    assert (b.x - a.x) * rise / height == (b.x - a.x) * t;
    Between(a.x, b.x, t, low, high);
  }

  lemma Fraction(p: real, q: real)
    requires q <= p < 0.0 || 0.0 <= p < q
    ensures 0.0 <= p / q <= 1.0
  {
  }

  /** Left of every vertex, the ray crosses each edge that changes level. */
  lemma {:induction false} LeftCrossesAll(x: real, y: real, ps: seq<Point>, n: nat, guard: real)
    requires n <= |ps| && guard >= 0.0 && GuardHarmless(y, ps, guard)
    requires forall i :: 0 <= i < |ps| ==> x < ps[i].x
    ensures Crossings(x, y, ps, n, guard) == LevelChanges(y, ps, n)
  {
    if n > 0 {
      LeftCrossesAll(x, y, ps, n - 1, guard);
      var a, b := ps[n - 1], Before(ps, n - 1);
      if Straddles(y, a, b) {
        var low, high := if a.x <= b.x then a.x else b.x, if a.x <= b.x then b.x else a.x;
        MeetsBetweenEnds(y, a, b, guard, low, high);
      }
    }
  }

  /** Right of every vertex it crosses none. */
  lemma {:induction false} RightCrossesNone(x: real, y: real, ps: seq<Point>, n: nat, guard: real)
    requires n <= |ps| && guard >= 0.0 && GuardHarmless(y, ps, guard)
    requires forall i :: 0 <= i < |ps| ==> ps[i].x < x
    ensures Crossings(x, y, ps, n, guard) == 0
  {
    if n > 0 {
      RightCrossesNone(x, y, ps, n - 1, guard);
      var a, b := ps[n - 1], Before(ps, n - 1);
      if Straddles(y, a, b) {
        var low, high := if a.x <= b.x then a.x else b.x, if a.x <= b.x then b.x else a.x;
        MeetsBetweenEnds(y, a, b, guard, low, high);
      }
    }
  }

  lemma {:induction false} LevelMissed(x: real, y: real, ps: seq<Point>, n: nat, guard: real)
    requires n <= |ps| && ((forall i :: 0 <= i < |ps| ==> y < ps[i].y) || (forall i :: 0 <= i < |ps| ==> ps[i].y < y))
    ensures Crossings(x, y, ps, n, guard) == 0
  {
    if n > 0 {
      LevelMissed(x, y, ps, n - 1, guard);
    }
  }

  /** A point outside the bounding box is never inside, as long as no edge is harmful. */
  lemma OutsideBoxIsOutside(x: real, y: real, ps: seq<Point>, guard: real)
    requires !InBoundingBox(x, y, ps) && guard >= 0.0 && GuardHarmless(y, ps, guard)
    ensures !Inside(x, y, ps, guard)
  {
    if (forall i :: 0 <= i < |ps| ==> y < ps[i].y) || (forall i :: 0 <= i < |ps| ==> ps[i].y < y) {
      LevelMissed(x, y, ps, |ps|, guard);
    } else if forall i :: 0 <= i < |ps| ==> ps[i].x < x {
      RightCrossesNone(x, y, ps, |ps|, guard);
    } else {
      LeftCrossesAll(x, y, ps, |ps|, guard);
      EvenLevelChanges(y, ps);
    }
  }

  /** In exact arithmetic without the guard this holds of every polygon and every point. */
  lemma OutsideBoxIsOutsideExactly(x: real, y: real, ps: seq<Point>)
    requires !InBoundingBox(x, y, ps)
    ensures !Inside(x, y, ps, 0.0)
  {
    OutsideBoxIsOutside(x, y, ps, 0.0);
  }

  // ----- exactly when the guard is safe -----

  function HeightBefore(ys: seq<real>, i: nat): real
    requires i < |ys|
  {
    if i == 0 then ys[|ys| - 1] else ys[i - 1]
  }

  /** The heights alone decide whether an edge is harmful at a level. */
  ghost predicate NoHarmfulEdge(ys: seq<real>, y: real, guard: real) {
    forall i :: 0 <= i < |ys| ==> !Harmful(y, ys[i], HeightBefore(ys, i), guard)
  }

  ghost predicate HasHeights(ps: seq<Point>, ys: seq<real>) {
    |ps| == |ys| && forall i :: 0 <= i < |ps| ==> ps[i].y == ys[i]
  }

  /** At level `y`, no polygon with these heights reports a point outside its bounding box as inside. */
  ghost predicate BoxRespected(ys: seq<real>, y: real, guard: real) {
    forall ps, x :: HasHeights(ps, ys) && !InBoundingBox(x, y, ps) ==> !Inside(x, y, ps, guard)
  }

  /** Edge `k` is crossed and no other. */
  ghost predicate OnlyCrosses(x: real, y: real, ps: seq<Point>, k: nat, guard: real)
    requires k < |ps|
  {
    && EdgeCrossed(x, y, ps[k], Before(ps, k), guard)
    && forall i :: 0 <= i < |ps| && i != k ==> !EdgeCrossed(x, y, ps[i], Before(ps, i), guard)
  }

  lemma {:induction false} OneCrossing(x: real, y: real, ps: seq<Point>, n: nat, k: nat, guard: real)
    requires n <= |ps| && k < |ps| && OnlyCrosses(x, y, ps, k, guard)
    ensures Crossings(x, y, ps, n, guard) == if k < n then 1 else 0
  {
    if n > 0 {
      OneCrossing(x, y, ps, n - 1, k, guard);
    }
  }

  /** The polygon that shows the harm: everything at x = 0 but the second end of the harmful edge. */
  function Witness(ys: seq<real>, j: nat, side: real): (ps: seq<Point>)
    ensures |ps| == |ys| && forall i :: 0 <= i < |ps| ==> ps[i] == Point(if i == j then side else 0.0, ys[i])
  {
    seq(|ys|, i requires 0 <= i < |ys| => Point(if i == j then side else 0.0, ys[i]))
  }

  /** Where the harmful edge of the witness is taken to meet the level, and a point just left of it. */
  lemma HarmfulEdgeOvershoots(y: real, a: real, b: real, guard: real) returns (side: real, x: real)
    requires Harmful(y, a, b, guard)
    ensures side == 1.0 || side == -1.0
    ensures x > 0.0 && x > side
    ensures LeftOfEdge(x, y, Point(0.0, a), Point(side, b), guard)
  {
    var height, rise := b - a + guard, a - y;
    if height == 0.0 {
      side, x := -1.0, 1.0;
      assert (side - 0.0) * (y - a) > 0.0;
    } else if height > 0.0 {
      var meet := rise / height;
      side, x := -1.0, meet / 2.0;
      assert meet > 0.0;
      assert MeetsAt(y, Point(0.0, a), Point(side, b), guard) == meet;
    } else {
      var meet := rise / (-height);
      side, x := 1.0, (1.0 + meet) / 2.0;
      assert rise > -height;
      MoreThanOne(rise, -height);
      assert MeetsAt(y, Point(0.0, a), Point(side, b), guard) == meet;
    }
  }

  lemma MoreThanOne(p: real, q: real)
    requires p > q > 0.0
    ensures p / q > 1.0
  {
  }

  /** The other edges of the witness lie left of the point. */
  lemma OthersNotCrossed(x: real, y: real, ys: seq<real>, k: nat, j: nat, side: real, i: nat, guard: real)
    requires |ys| >= 3 && k < |ys| && j == (if k == 0 then |ys| - 1 else k - 1) && i < |ys| && i != k
    requires ys[j] <= y && guard >= 0.0 && x > 0.0 && x > side && (side == 1.0 || side == -1.0)
    ensures var ps := Witness(ys, j, side); !EdgeCrossed(x, y, ps[i], Before(ps, i), guard)
  {
    var ps := Witness(ys, j, side);
    var a, b := ps[i], Before(ps, i);
    if Straddles(y, a, b) {
      if i == j {
        assert b.x == 0.0;
        MeetsBetweenEnds(y, a, b, guard, if side < 0.0 then side else 0.0, if side < 0.0 then 0.0 else side);
      } else {
        assert a.x == 0.0 && b.x == 0.0;
      }
    }
  }

  lemma WitnessCrossesOne(x: real, y: real, ys: seq<real>, k: nat, j: nat, side: real, guard: real)
    requires |ys| >= 3 && k < |ys| && j == (if k == 0 then |ys| - 1 else k - 1)
    requires Harmful(y, ys[k], ys[j], guard) && x > 0.0 && x > side && (side == 1.0 || side == -1.0)
    requires EdgeCrossed(x, y, Point(0.0, ys[k]), Point(side, ys[j]), guard)
    ensures OnlyCrosses(x, y, Witness(ys, j, side), k, guard)
  {
    var ps := Witness(ys, j, side);
    assert ps[k] == Point(0.0, ys[k]) && Before(ps, k) == Point(side, ys[j]);
    forall i | 0 <= i < |ps| && i != k
      ensures !EdgeCrossed(x, y, ps[i], Before(ps, i), guard)
    {
      OthersNotCrossed(x, y, ys, k, j, side, i, guard);
    }
  }

  lemma OneCrossingIsInside(x: real, y: real, ps: seq<Point>, k: nat, guard: real)
    requires |ps| >= 3 && k < |ps| && OnlyCrosses(x, y, ps, k, guard)
    ensures Inside(x, y, ps, guard)
  {
    OneCrossing(x, y, ps, |ps|, k, guard);
  }

  lemma RightOfBox(x: real, y: real, ps: seq<Point>)
    requires forall i :: 0 <= i < |ps| ==> ps[i].x < x
    ensures !InBoundingBox(x, y, ps)
  {
  }

  lemma HarmfulEdgeBreaksBox(ys: seq<real>, y: real, guard: real, k: nat)
    requires |ys| >= 3 && k < |ys| && Harmful(y, ys[k], HeightBefore(ys, k), guard)
    ensures exists ps, x :: HasHeights(ps, ys) && !InBoundingBox(x, y, ps) && Inside(x, y, ps, guard)
  {
    var j := if k == 0 then |ys| - 1 else k - 1;
    var side, x := HarmfulEdgeOvershoots(y, ys[k], ys[j], guard);
    WitnessCrossesOne(x, y, ys, k, j, side, guard);
    OneCrossingIsInside(x, y, Witness(ys, j, side), k, guard);
    RightOfBox(x, y, Witness(ys, j, side));
    assert HasHeights(Witness(ys, j, side), ys);
  }

  /** With a guard, the bounding box is respected at a level exactly when no edge is harmful there. */
  lemma BoxRespectedExactly(ys: seq<real>, y: real, guard: real)
    requires |ys| >= 3 && guard >= 0.0
    ensures BoxRespected(ys, y, guard) <==> NoHarmfulEdge(ys, y, guard)
  {
    if NoHarmfulEdge(ys, y, guard) {
      forall ps, x | HasHeights(ps, ys) && !InBoundingBox(x, y, ps)
        ensures !Inside(x, y, ps, guard)
      {
        assert forall i :: 0 <= i < |ps| ==> Before(ps, i).y == HeightBefore(ys, i);
        OutsideBoxIsOutside(x, y, ps, guard);
      }
    } else {
      var k :| 0 <= k < |ys| && Harmful(y, ys[k], HeightBefore(ys, k), guard);
      HarmfulEdgeBreaksBox(ys, y, guard, k);
    }
  }

  /** With the guard it can fail: a triangle with a vertex half a guard below the level, and a point
      half a unit east of its bounding box that is reported inside. */
  lemma GuardCanPutOutsideInside()
    ensures var ps := [Point(1.0, -GUARD / 2.0), Point(0.0, GUARD), Point(0.0, -1.0)];
            !InBoundingBox(1.5, 0.0, ps) && Inside(1.5, 0.0, ps, GUARD)
  {
    var ps := [Point(1.0, -GUARD / 2.0), Point(0.0, GUARD), Point(0.0, -1.0)];
    assert !EdgeCrossed(1.5, 0.0, ps[0], ps[2], GUARD);
    assert EdgeCrossed(1.5, 0.0, ps[1], ps[0], GUARD);
    assert !EdgeCrossed(1.5, 0.0, ps[2], ps[1], GUARD);
    assert Crossings(1.5, 0.0, ps, 0, GUARD) == 0;
    assert Crossings(1.5, 0.0, ps, 1, GUARD) == 0;
    assert Crossings(1.5, 0.0, ps, 2, GUARD) == 1;
    assert Crossings(1.5, 0.0, ps, 3, GUARD) == 1;
  }

  // ----- the first vertex does not matter -----

  function Rotated(ps: seq<Point>, r: nat): seq<Point>
    requires r <= |ps|
  {
    ps[r..] + ps[..r]
  }

  lemma {:induction false} RotateOne(x: real, y: real, ps: seq<Point>, n: nat, guard: real)
    requires n < |ps|
    ensures Crossings(x, y, Rotated(ps, 1), n, guard) + (if EdgeCrossed(x, y, ps[0], ps[|ps| - 1], guard) then 1 else 0)
         == Crossings(x, y, ps, n + 1, guard)
  {
    var qs := Rotated(ps, 1);
    if n == 0 {
      assert Crossings(x, y, ps, 0, guard) == 0;
    } else {
      RotateOne(x, y, ps, n - 1, guard);
      assert qs[n - 1] == ps[n];
      assert Before(qs, n - 1) == Before(ps, n);
    }
  }

  lemma RotateOneAll(x: real, y: real, ps: seq<Point>, guard: real)
    requires ps != []
    ensures Crossings(x, y, Rotated(ps, 1), |ps|, guard) == Crossings(x, y, ps, |ps|, guard)
  {
    var n := |ps|;
    var qs := Rotated(ps, 1);
    RotateOne(x, y, ps, n - 1, guard);
    assert qs[n - 1] == ps[0];
    assert Before(qs, n - 1) == ps[n - 1];
  }

  /** Starting the list of vertices elsewhere gives the same answer, whatever the guard. */
  lemma {:induction false} RotationIndependent(x: real, y: real, ps: seq<Point>, r: nat, guard: real)
    requires r <= |ps|
    ensures |Rotated(ps, r)| == |ps|
    ensures Crossings(x, y, Rotated(ps, r), |ps|, guard) == Crossings(x, y, ps, |ps|, guard)
    ensures Inside(x, y, Rotated(ps, r), guard) == Inside(x, y, ps, guard)
  {
    if r == 0 {
      assert Rotated(ps, 0) == ps;
    } else {
      RotationIndependent(x, y, ps, r - 1, guard);
      var qs := Rotated(ps, r - 1);
      RotateOneAll(x, y, qs, guard);
      assert Rotated(qs, 1) == Rotated(ps, r);
    }
  }

  // ----- the forbidden region -----

  /** A listed mask point is altitude first, azimuth second. */
  datatype AltAz = AltAz(alt: real, az: real)

  type Polygon = seq<Option<AltAz>>

  /** The azimuth reduced to a full circle: at least 0 and less than 360. */
  function Mod360(x: real): (r: real)
    ensures 0.0 <= r < 360.0
  {
    x - 360.0 * (x / 360.0).Floor as real
  }

  /** The remainder the code takes, which keeps the sign of its left operand. */
  function GoMod360(x: real): real {
    if x < 0.0 then -Mod360(-x) else Mod360(x)
  }

  function Vertex(p: Option<AltAz>): Listed {
    if p.Some? then Some(Point(GoMod360(p.value.az), p.value.alt)) else None
  }

  function Vertices(poly: Polygon): (vs: seq<Listed>)
    ensures |vs| == |poly| && forall i :: 0 <= i < |vs| ==> vs[i] == Vertex(poly[i])
  {
    seq(|poly|, i requires 0 <= i < |poly| => Vertex(poly[i]))
  }

  predicate HoldsPoint(poly: Polygon, alt: real, az: real, guard: real) {
    AllFinite(Vertices(poly)) && Inside(GoMod360(az), alt, Points(Vertices(poly)), guard)
  }

  /** Forbidden exactly when some well-formed polygon of the mask holds the point. */
  method PointInForbiddenAltAz(alt: real, az: real, mask: seq<Polygon>, guard: real) returns (forbidden: bool)
    ensures forbidden <==> exists i :: 0 <= i < |mask| && HoldsPoint(mask[i], alt, az, guard)
  {
    if |mask| == 0 {
      return false;
    }
    var azNorm := GoMod360(az);
    var i := 0;
    while i < |mask|
      invariant 0 <= i <= |mask|
      invariant forall k :: 0 <= k < i ==> !HoldsPoint(mask[k], alt, az, guard)
    {
      var poly := mask[i];
      if |poly| >= 3 {
        var verts := Vertices(poly);
        var inside := PointInPolygon(azNorm, alt, verts, guard);
        if inside {
          return true;
        }
      }
      i := i + 1;
    }
    return false;
  }

  // ----- when the sign-keeping remainder is harmless -----

  predicate MultipleOf360(x: real) {
    x == 360.0 * (x / 360.0).Floor as real
  }

  lemma TurnsFloor(x: real, k: int)
    ensures ((x + 360.0 * k as real) / 360.0).Floor == (x / 360.0).Floor + k
  {
    assert (x + 360.0 * k as real) / 360.0 == x / 360.0 + k as real;
  }

  lemma FloorOfNegated(x: real)
    ensures (-x).Floor == if x == x.Floor as real then -x.Floor else -x.Floor - 1
  {
  }

  /** Whole turns change nothing. */
  lemma Mod360Turns(x: real, k: int)
    ensures Mod360(x + 360.0 * k as real) == Mod360(x)
  {
    TurnsFloor(x, k);
  }

  lemma Mod360Negated(x: real)
    ensures Mod360(-x) == if MultipleOf360(x) then 0.0 else 360.0 - Mod360(x)
  {
    assert (-x) / 360.0 == -(x / 360.0);
    FloorOfNegated(x / 360.0);
  }

  /** The remainder is the reduced azimuth exactly for azimuths that are not negative and for whole turns. */
  lemma RemainderReducesExactlyWhen(x: real)
    ensures GoMod360(x) == Mod360(x) <==> x >= 0.0 || MultipleOf360(x)
    ensures GoMod360(x) == Mod360(x) <==> GoMod360(x) >= 0.0
    ensures GoMod360(x) != Mod360(x) ==> GoMod360(x) == Mod360(x) - 360.0
  {
    Mod360Negated(x);
  }

  /** From 0 up, adding whole turns to the azimuth never changes a verdict. */
  lemma TurnsKeepVerdict(poly: Polygon, alt: real, az: real, k: nat, guard: real)
    requires az >= 0.0
    ensures HoldsPoint(poly, alt, az + 360.0 * k as real, guard) == HoldsPoint(poly, alt, az, guard)
  {
    Mod360Turns(az, k);
  }

  /** A mask polygon whose azimuths the remainder reduces. */
  ghost predicate WrittenFromZero(poly: Polygon) {
    forall i :: 0 <= i < |poly| && poly[i].Some? ==> GoMod360(poly[i].value.az) >= 0.0
  }

  /** A mask polygon whose azimuths it leaves negative. */
  ghost predicate WrittenBelowZero(poly: Polygon) {
    forall i :: 0 <= i < |poly| && poly[i].Some? ==> GoMod360(poly[i].value.az) < 0.0
  }

  ghost predicate MaskHarmless(poly: Polygon, alt: real, guard: real) {
    AllFinite(Vertices(poly)) ==> GuardHarmless(alt, Points(Vertices(poly)), guard)
  }

  lemma VertexAzimuths(poly: Polygon)
    requires AllFinite(Vertices(poly))
    ensures forall i :: 0 <= i < |poly| ==>
              poly[i].Some? && Points(Vertices(poly))[i] == Point(GoMod360(poly[i].value.az), poly[i].value.alt)
  {
    var vs := Vertices(poly);
    forall i | 0 <= i < |poly|
      ensures poly[i].Some? && Points(vs)[i] == Point(GoMod360(poly[i].value.az), poly[i].value.alt)
    {
      assert vs[i] == Vertex(poly[i]) && vs[i].Some? && Some(Points(vs)[i]) == vs[i];
    }
  }

  /** A remainder on the other side of zero from all of a polygon's is outside its bounding box. */
  lemma OppositeSignMisses(poly: Polygon, alt: real, az: real, guard: real)
    requires guard >= 0.0 && MaskHarmless(poly, alt, guard)
    requires (GoMod360(az) < 0.0 && WrittenFromZero(poly)) || (GoMod360(az) >= 0.0 && WrittenBelowZero(poly))
    ensures !HoldsPoint(poly, alt, az, guard)
  {
    if AllFinite(Vertices(poly)) {
      VertexAzimuths(poly);
      OutsideBoxIsOutside(GoMod360(az), alt, Points(Vertices(poly)), guard);
    }
  }

  /** Without the guard, no azimuth below zero but a whole turn meets any mask written from zero. */
  lemma NegativeAzimuthMissesMask(poly: Polygon, alt: real, az: real)
    requires az < 0.0 && !MultipleOf360(az)
    requires forall i :: 0 <= i < |poly| && poly[i].Some? ==> poly[i].value.az >= 0.0
    ensures !HoldsPoint(poly, alt, az, 0.0)
  {
    RemainderReducesExactlyWhen(az);
    OppositeSignMisses(poly, alt, az, 0.0);
  }

  /** Nor does any azimuth from zero up meet a mask written below zero. */
  lemma NegativeMaskMissesAzimuth(poly: Polygon, alt: real, az: real)
    requires az >= 0.0
    requires forall i :: 0 <= i < |poly| && poly[i].Some? ==> poly[i].value.az < 0.0 && !MultipleOf360(poly[i].value.az)
    ensures !HoldsPoint(poly, alt, az, 0.0)
  {
    forall i | 0 <= i < |poly| && poly[i].Some?
      ensures GoMod360(poly[i].value.az) < 0.0
    {
      RemainderReducesExactlyWhen(poly[i].value.az);
    }
    OppositeSignMisses(poly, alt, az, 0.0);
  }

  /** Every mask written from zero gives the azimuth the verdict it gives the reduced azimuth. */
  ghost predicate AgreesWithReduced(az: real, guard: real) {
    forall poly, alt :: WrittenFromZero(poly) && MaskHarmless(poly, alt, guard) ==>
      HoldsPoint(poly, alt, az, guard) == HoldsPoint(poly, alt, Mod360(az), guard)
  }

  /** A rectangle of the sky around the azimuth `m`. */
  function Around(m: real, guard: real): Polygon {
    var left, right, top := m / 2.0, (m + 360.0) / 2.0, guard + 2.0;
    [Some(AltAz(0.0, left)), Some(AltAz(0.0, right)), Some(AltAz(top, right)), Some(AltAz(top, left))]
  }

  lemma SmallAzimuth(x: real)
    requires 0.0 <= x < 360.0
    ensures GoMod360(x) == x && Mod360(x) == x
  {
    assert 0.0 <= x / 360.0 < 1.0;
  }

  lemma AroundVertices(m: real, guard: real)
    requires 0.0 < m < 360.0
    ensures var vs := Vertices(Around(m, guard));
            var left, right, top := m / 2.0, (m + 360.0) / 2.0, guard + 2.0;
            AllFinite(vs) && Points(vs) == [Point(left, 0.0), Point(right, 0.0), Point(right, top), Point(left, top)]
  {
    var left, right, top := m / 2.0, (m + 360.0) / 2.0, guard + 2.0;
    SmallAzimuth(left);
    SmallAzimuth(right);
    var poly := Around(m, guard);
    assert forall i :: 0 <= i < |poly| ==> Vertices(poly)[i] == Vertex(poly[i]);
    VertexAzimuths(poly);
  }

  lemma RectangleHolds(m: real, left: real, right: real, top: real, guard: real, ps: seq<Point>)
    requires guard >= 0.0 && left < m < right && top == guard + 2.0
    requires ps == [Point(left, 0.0), Point(right, 0.0), Point(right, top), Point(left, top)]
    ensures Inside(m, guard + 1.0, ps, guard) && GuardHarmless(guard + 1.0, ps, guard)
  {
    var y := guard + 1.0;
    assert !EdgeCrossed(m, y, ps[0], ps[3], guard);
    assert !EdgeCrossed(m, y, ps[1], ps[0], guard);
    assert EdgeCrossed(m, y, ps[2], ps[1], guard);
    assert !EdgeCrossed(m, y, ps[3], ps[2], guard);
    assert Crossings(m, y, ps, 0, guard) == 0;
    assert Crossings(m, y, ps, 1, guard) == 0;
    assert Crossings(m, y, ps, 2, guard) == 0;
    assert Crossings(m, y, ps, 3, guard) == 1;
    assert Crossings(m, y, ps, 4, guard) == 1;
  }

  lemma AroundHolds(m: real, guard: real)
    requires 0.0 < m < 360.0 && guard >= 0.0
    ensures var poly := Around(m, guard);
            && WrittenFromZero(poly) && MaskHarmless(poly, guard + 1.0, guard)
            && HoldsPoint(poly, guard + 1.0, m, guard)
  {
    var left, right, top := m / 2.0, (m + 360.0) / 2.0, guard + 2.0;
    SmallAzimuth(m);
    SmallAzimuth(left);
    SmallAzimuth(right);
    AroundVertices(m, guard);
    RectangleHolds(m, left, right, top, guard, Points(Vertices(Around(m, guard))));
  }

  /** The forbidden verdict depends only on the direction an azimuth names exactly when the remainder taken
      of it is not negative, which is what the code leaves unchecked. */
  lemma DirectionDecidesExactlyWhen(az: real, guard: real)
    requires guard >= 0.0
    ensures AgreesWithReduced(az, guard) <==> GoMod360(az) >= 0.0
  {
    RemainderReducesExactlyWhen(az);
    SmallAzimuth(Mod360(az));
    if GoMod360(az) < 0.0 {
      var poly, alt := Around(Mod360(az), guard), guard + 1.0;
      assert 0.0 < Mod360(az) by {
        Mod360Negated(az);
      }
      AroundHolds(Mod360(az), guard);
      OppositeSignMisses(poly, alt, az, guard);
      assert HoldsPoint(poly, alt, az, guard) != HoldsPoint(poly, alt, Mod360(az), guard);
    }
  }
}
