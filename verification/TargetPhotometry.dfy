/** Aperture photometry at a known position: the bounded pixel box against the full frame. */
module TargetPhotometry {
  import opened Common
  import opened Reals
  import Zeropoint

  datatype Position = ProjectionFailed | NonFinitePosition | At(x: real, y: real)

  datatype Radius = Finite(value: real) | PositiveInfinity | NegativeInfinity | NotANumber

  /** A pixel by row and column. */
  datatype Pixel = Pixel(row: int, col: int)

  /** What a pixel holds; None is not-a-number. */
  type Image = Pixel -> Option<real>

  datatype Measurement =
    | WcsFailed
    | PositionNotFinite
    | OffFrame
    | Measured(apertureSum: real, background: Option<real>, count: nat, flux: Option<real>)

  // ----- masks -----

  function DistanceSquared(p: Pixel, x: real, y: real): real {
    Square(p.col as real - x) + Square(p.row as real - y)
  }

  /** The distance is at most the radius. */
  predicate AtMost(squared: real, radius: Radius) {
    match radius
    case Finite(r) => r >= 0.0 && squared <= Square(r)
    case PositiveInfinity => true
    case NegativeInfinity => false
    case NotANumber => false
  }

  /** The distance is at least the radius. */
  predicate AtLeast(squared: real, radius: Radius) {
    match radius
    case Finite(r) => r <= 0.0 || squared >= Square(r)
    case PositiveInfinity => false
    case NegativeInfinity => true
    case NotANumber => false
  }

  predicate InAperture(p: Pixel, x: real, y: real, aperture: Radius) {
    AtMost(DistanceSquared(p, x, y), aperture)
  }

  predicate InAnnulus(p: Pixel, x: real, y: real, inner: Radius, outer: Radius) {
    AtLeast(DistanceSquared(p, x, y), inner) && AtMost(DistanceSquared(p, x, y), outer)
  }

  // ----- the pixels a mask selects, row by row -----

  function SelectRow(mask: Pixel -> bool, row: int, x0: int, x1: int): seq<Pixel>
    decreases x1 - x0
  {
    if x0 >= x1 then []
    else (if mask(Pixel(row, x0)) then [Pixel(row, x0)] else []) + SelectRow(mask, row, x0 + 1, x1)
  }

  function Select(mask: Pixel -> bool, y0: int, y1: int, x0: int, x1: int): seq<Pixel>
    decreases y1 - y0
  {
    if y0 >= y1 then [] else SelectRow(mask, y0, x0, x1) + Select(mask, y0 + 1, y1, x0, x1)
  }

  // ----- the measurement over a grid -----

  function NanSum(image: Image, pixels: seq<Pixel>): real {
    if pixels == [] then 0.0
    else
      var v := image(pixels[|pixels| - 1]);
      NanSum(image, pixels[..|pixels| - 1]) + if v.Some? then v.value else 0.0
  }

  /** The numbers among the pixels. */
  function Numbers(image: Image, pixels: seq<Pixel>): seq<Zeropoint.Weighted> {
    if pixels == [] then []
    else
      var v := image(pixels[|pixels| - 1]);
      Numbers(image, pixels[..|pixels| - 1]) + if v.Some? then [Zeropoint.Weighted(v.value, 1.0)] else []
  }

  /** The median of the numbers; of none, not-a-number. */
  function NanMedian(image: Image, pixels: seq<Pixel>): Option<real> {
    var numbers := Numbers(image, pixels);
    if numbers == [] then None else Some(Zeropoint.Median(numbers))
  }

  /** The sum less the background under every counted pixel. */
  function FluxOf(sum: real, median: real, n: nat): real {
    sum - Product(median, n as real)
  }

  function Summarise(image: Image, aperture: seq<Pixel>, annulus: seq<Pixel>): Measurement {
    if aperture == [] then OffFrame
    else
      var sum := NanSum(image, aperture);
      var background := if annulus == [] then Some(0.0) else NanMedian(image, annulus);
      var flux := if background.Some? then Some(FluxOf(sum, background.value, |aperture|)) else None;
      Measured(sum, background, |aperture|, flux)
  }

  function MeasureOver(image: Image, y0: int, y1: int, x0: int, x1: int, x: real, y: real,
                       aperture: Radius, inner: Radius, outer: Radius): Measurement {
    Summarise(image,
              Select((p: Pixel) => InAperture(p, x, y, aperture), y0, y1, x0, x1),
              Select((p: Pixel) => InAnnulus(p, x, y, inner, outer), y0, y1, x0, x1))
  }

  function Max(a: int, b: int): int {
    if a < b then b else a
  }

  function Ceiling(x: real): int {
    -((-x).Floor)
  }

  /** The largest radius asked for, or 0. */
  function Reach(aperture: real, outer: real): real {
    var a := if aperture > 0.0 then aperture else 0.0;
    if outer > a then outer else a
  }

  function BoxLow(center: real, reach: real): int {
    Max(0, Ceiling(center - reach))
  }

  function BoxHigh(center: real, reach: real, size: nat): int {
    Max(0, Lesser(size, (center + reach).Floor + 1))
  }

  /** The measurement as the pipeline makes it: a box around the target when the radii allow one. */
  function MeasureTargetFlux(image: Image, h: nat, w: nat, at: Position, aperture: Radius, inner: Radius,
                             outer: Radius): Measurement {
    match at
    case ProjectionFailed => WcsFailed
    case NonFinitePosition => PositionNotFinite
    case At(x, y) =>
      if aperture.Finite? && outer.Finite? then
        var reach := Reach(aperture.value, outer.value);
        var x0, x1 := BoxLow(x, reach), BoxHigh(x, reach, w);
        var y0, y1 := BoxLow(y, reach), BoxHigh(y, reach, h);
        if x0 >= x1 || y0 >= y1 then OffFrame
        else MeasureOver(image, y0, y1, x0, x1, x, y, aperture, inner, outer)
      else MeasureOver(image, 0, h, 0, w, x, y, aperture, inner, outer)
  }

  // ----- the box misses nothing -----

  ghost predicate Nowhere(mask: Pixel -> bool, row: int, x0: int, x1: int) {
    forall col :: x0 <= col < x1 ==> !mask(Pixel(row, col))
  }

  lemma {:induction false} EmptyRow(mask: Pixel -> bool, row: int, x0: int, x1: int)
    requires Nowhere(mask, row, x0, x1)
    ensures SelectRow(mask, row, x0, x1) == []
    decreases x1 - x0
  {
    if x0 < x1 {
      EmptyRow(mask, row, x0 + 1, x1);
    }
  }

  lemma {:induction false} RowSplits(mask: Pixel -> bool, row: int, x0: int, cut: int, x1: int)
    requires x0 <= cut <= x1
    ensures SelectRow(mask, row, x0, x1) == SelectRow(mask, row, x0, cut) + SelectRow(mask, row, cut, x1)
    decreases cut - x0
  {
    if x0 < cut {
      RowSplits(mask, row, x0 + 1, cut, x1);
    }
  }

  lemma {:induction false} RowsSplit(mask: Pixel -> bool, y0: int, cut: int, y1: int, x0: int, x1: int)
    requires y0 <= cut <= y1
    ensures Select(mask, y0, y1, x0, x1) == Select(mask, y0, cut, x0, x1) + Select(mask, cut, y1, x0, x1)
    decreases cut - y0
  {
    if y0 < cut {
      RowsSplit(mask, y0 + 1, cut, y1, x0, x1);
    }
  }

  lemma {:induction false} EmptyRows(mask: Pixel -> bool, y0: int, y1: int, x0: int, x1: int)
    requires forall row :: y0 <= row < y1 ==> Nowhere(mask, row, x0, x1)
    ensures Select(mask, y0, y1, x0, x1) == []
    decreases y1 - y0
  {
    if y0 < y1 {
      EmptyRow(mask, y0, x0, x1);
      EmptyRows(mask, y0 + 1, y1, x0, x1);
    }
  }

  /** Within the frame's width the mask selects nothing outside the box's columns. */
  ghost predicate ColumnsHold(mask: Pixel -> bool, x0: int, x1: int, w: int) {
    forall p :: mask(p) && 0 <= p.col < w ==> x0 <= p.col < x1
  }

  lemma RowNarrows(mask: Pixel -> bool, row: int, x0: int, x1: int, w: int)
    requires 0 <= x0 <= x1 <= w && ColumnsHold(mask, x0, x1, w)
    ensures SelectRow(mask, row, 0, w) == SelectRow(mask, row, x0, x1)
  {
    RowSplits(mask, row, 0, x0, w);
    RowSplits(mask, row, x0, x1, w);
    EmptyRow(mask, row, 0, x0);
    EmptyRow(mask, row, x1, w);
  }

  lemma {:induction false} RowsNarrow(mask: Pixel -> bool, y0: int, y1: int, x0: int, x1: int, w: int)
    requires 0 <= x0 <= x1 <= w && ColumnsHold(mask, x0, x1, w)
    ensures Select(mask, y0, y1, 0, w) == Select(mask, y0, y1, x0, x1)
    decreases y1 - y0
  {
    if y0 < y1 {
      RowsNarrow(mask, y0 + 1, y1, x0, x1, w);
      RowNarrows(mask, y0, x0, x1, w);
    }
  }

  /** Within the frame's height the mask selects nothing outside the box's rows. */
  ghost predicate RowsHold(mask: Pixel -> bool, y0: int, y1: int, h: int) {
    forall p :: mask(p) && 0 <= p.row < h ==> y0 <= p.row < y1
  }

  lemma RowsKept(mask: Pixel -> bool, h: int, w: int, y0: int, y1: int)
    requires 0 <= y0 <= y1 <= h && RowsHold(mask, y0, y1, h)
    ensures Select(mask, 0, h, 0, w) == Select(mask, y0, y1, 0, w)
  {
    RowsSplit(mask, 0, y0, h, 0, w);
    RowsSplit(mask, y0, y1, h, 0, w);
    EmptyRows(mask, 0, y0, 0, w);
    EmptyRows(mask, y1, h, 0, w);
  }

  /** A square larger than another has the larger side. */
  lemma SideWithin(d: real, r: real)
    requires r >= 0.0 && Square(d) <= Square(r)
    ensures -r <= d <= r
  {
    SquareEven(d);
    if d > r {
      SquareGrows(r, d);
    } else if d < -r {
      SquareGrows(r, -d);
    }
  }

  lemma SquareGrows(a: real, b: real)
    requires 0.0 <= a < b
    ensures Square(a) < Square(b)
  {
    var gap := b - a;
    ProductPositive(gap, b);
    ProductNonNegative(a, gap);
    assert Square(b) == Square(a) + Product(a, gap) + Product(gap, b);
  }

  /** A pixel within a radius is within it along each axis. */
  lemma WithinRadius(p: Pixel, x: real, y: real, r: real)
    requires AtMost(DistanceSquared(p, x, y), Finite(r))
    ensures -r <= p.col as real - x <= r && -r <= p.row as real - y <= r
  {
    var dx, dy := p.col as real - x, p.row as real - y;
    SquareSign(dx);
    SquareSign(dy);
    SideWithin(dx, r);
    SideWithin(dy, r);
  }

  /** A coordinate of the frame within reach of the center lies in the box. */
  lemma InBox(i: int, center: real, reach: real, size: nat)
    requires 0 <= i < size && -reach <= i as real - center <= reach
    ensures BoxLow(center, reach) <= i < BoxHigh(center, reach, size)
  {
    assert i as real >= center - reach;
    assert i <= (center + reach).Floor;
  }

  /** Every pixel the mask selects lies within reach of the target along each axis. */
  ghost predicate Reaches(mask: Pixel -> bool, x: real, y: real, reach: real) {
    forall p :: mask(p) ==> -reach <= p.col as real - x <= reach && -reach <= p.row as real - y <= reach
  }

  /** Selecting over the whole frame is selecting over the box, in the same order. */
  lemma BoxSelectsAll(mask: Pixel -> bool, h: nat, w: nat, x: real, y: real, reach: real)
    requires Reaches(mask, x, y, reach)
    ensures var x0, x1 := BoxLow(x, reach), BoxHigh(x, reach, w);
            var y0, y1 := BoxLow(y, reach), BoxHigh(y, reach, h);
            Select(mask, 0, h, 0, w) == if x0 >= x1 || y0 >= y1 then [] else Select(mask, y0, y1, x0, x1)
  {
    var x0, x1 := BoxLow(x, reach), BoxHigh(x, reach, w);
    var y0, y1 := BoxLow(y, reach), BoxHigh(y, reach, h);
    BoxHoldsMask(mask, h, w, x, y, reach);
    if x0 >= x1 || y0 >= y1 {
      EmptyRows(mask, 0, h, 0, w);
    } else {
      RowsKept(mask, h, w, y0, y1);
      RowsNarrow(mask, y0, y1, x0, x1, w);
    }
  }

  lemma BoxHoldsMask(mask: Pixel -> bool, h: nat, w: nat, x: real, y: real, reach: real)
    requires Reaches(mask, x, y, reach)
    ensures ColumnsHold(mask, BoxLow(x, reach), BoxHigh(x, reach, w), w)
    ensures RowsHold(mask, BoxLow(y, reach), BoxHigh(y, reach, h), h)
  {
    forall p | mask(p) && 0 <= p.col < w
      ensures BoxLow(x, reach) <= p.col < BoxHigh(x, reach, w)
    {
      InBox(p.col, x, reach, w);
    }
    forall p | mask(p) && 0 <= p.row < h
      ensures BoxLow(y, reach) <= p.row < BoxHigh(y, reach, h)
    {
      InBox(p.row, y, reach, h);
    }
  }

  lemma MasksReach(x: real, y: real, aperture: real, inner: Radius, outer: real)
    ensures var reach := Reach(aperture, outer);
            && Reaches((p: Pixel) => InAperture(p, x, y, Finite(aperture)), x, y, reach)
            && Reaches((p: Pixel) => InAnnulus(p, x, y, inner, Finite(outer)), x, y, reach)
  {
    forall p | InAperture(p, x, y, Finite(aperture))
      ensures var reach := Reach(aperture, outer);
              -reach <= p.col as real - x <= reach && -reach <= p.row as real - y <= reach
    {
      WithinRadius(p, x, y, aperture);
    }
    forall p | InAnnulus(p, x, y, inner, Finite(outer))
      ensures var reach := Reach(aperture, outer);
              -reach <= p.col as real - x <= reach && -reach <= p.row as real - y <= reach
    {
      WithinRadius(p, x, y, outer);
    }
  }

  /** The pipeline's measurement is the full-frame measurement: for every frame, position and radii,
      the same verdict, the same pixels, sum, count, background and flux. */
  lemma BoxedIsFullFrame(image: Image, h: nat, w: nat, x: real, y: real, aperture: Radius, inner: Radius, outer: Radius)
    ensures MeasureTargetFlux(image, h, w, At(x, y), aperture, inner, outer)
         == MeasureOver(image, 0, h, 0, w, x, y, aperture, inner, outer)
  {
    if aperture.Finite? && outer.Finite? {
      var reach := Reach(aperture.value, outer.value);
      MasksReach(x, y, aperture.value, inner, outer.value);
      BoxSelectsAll((p: Pixel) => InAperture(p, x, y, aperture), h, w, x, y, reach);
      BoxSelectsAll((p: Pixel) => InAnnulus(p, x, y, inner, outer), h, w, x, y, reach);
    }
  }

  // ----- a constant added to the whole frame -----

  function Brighter(image: Image, c: real): Image {
    (p: Pixel) => if image(p).Some? then Some(image(p).value + c) else None
  }

  lemma {:induction false} BrighterNumbers(image: Image, pixels: seq<Pixel>, c: real)
    ensures Numbers(Brighter(image, c), pixels) == Zeropoint.Shift(Numbers(image, pixels), c)
  {
    if pixels != [] {
      BrighterNumbers(image, pixels[..|pixels| - 1], c);
    }
  }

  lemma {:induction false} BrighterSum(image: Image, pixels: seq<Pixel>, c: real)
    ensures NanSum(Brighter(image, c), pixels) == NanSum(image, pixels) + Product(c, |Numbers(image, pixels)| as real)
  {
    if pixels != [] {
      var front := pixels[..|pixels| - 1];
      BrighterSum(image, front, c);
      var n := |Numbers(image, front)| as real;
      assert Product(c, n + 1.0) == Product(c, n) + c;
    }
  }

  lemma {:induction false} NumbersAtMost(image: Image, pixels: seq<Pixel>)
    ensures |Numbers(image, pixels)| <= |pixels|
    ensures |Numbers(image, pixels)| == |pixels| <==> forall i :: 0 <= i < |pixels| ==> image(pixels[i]).Some?
  {
    if pixels != [] {
      var front := pixels[..|pixels| - 1];
      NumbersAtMost(image, front);
      assert forall i :: 0 <= i < |front| ==> front[i] == pixels[i];
    }
  }

  /** Brightening the whole frame by a constant cancels out of the flux exactly when every aperture pixel
      is a number: the sum skips the others but the background is taken off for them too. */
  lemma BackgroundCancelsExactly(image: Image, aperture: seq<Pixel>, annulus: seq<Pixel>, c: real)
    requires aperture != [] && Numbers(image, annulus) != [] && c != 0.0
    ensures var before, after := Summarise(image, aperture, annulus), Summarise(Brighter(image, c), aperture, annulus);
            && before.Measured? && after.Measured? && before.flux.Some? && after.flux.Some?
            && before.count == after.count
            && after.flux.value
               == before.flux.value + Product(c, |Numbers(image, aperture)| as real) - Product(c, |aperture| as real)
            && (after.flux == before.flux <==> forall i :: 0 <= i < |aperture| ==> image(aperture[i]).Some?)
  {
    var median := Zeropoint.Median(Numbers(image, annulus));
    BrighterSum(image, aperture, c);
    BrighterMedian(image, annulus, c);
    SummariseIs(image, aperture, annulus, median);
    SummariseIs(Brighter(image, c), aperture, annulus, median + c);
    NumbersAtMost(image, aperture);
    FluxShift(NanSum(image, aperture), NanSum(Brighter(image, c), aperture), median, c, |Numbers(image, aperture)|,
      |aperture|);
  }

  lemma BrighterMedian(image: Image, annulus: seq<Pixel>, c: real)
    requires Numbers(image, annulus) != []
    ensures NanMedian(Brighter(image, c), annulus) == Some(Zeropoint.Median(Numbers(image, annulus)) + c)
  {
    BrighterNumbers(image, annulus, c);
    Zeropoint.ShiftMedian(Numbers(image, annulus), c);
  }

  lemma SummariseIs(image: Image, aperture: seq<Pixel>, annulus: seq<Pixel>, median: real)
    requires aperture != [] && NanMedian(image, annulus) == Some(median)
    ensures Summarise(image, aperture, annulus)
         == Measured(NanSum(image, aperture), Some(median), |aperture|,
           Some(FluxOf(NanSum(image, aperture), median, |aperture|)))
  {
    assert annulus != [];
  }

  lemma FluxShift(sum: real, sum': real, median: real, c: real, valid: nat, n: nat)
    requires sum' == sum + Product(c, valid as real) && c != 0.0
    ensures FluxOf(sum', median + c, n) == FluxOf(sum, median, n) + Product(c, valid as real) - Product(c, n as real)
    ensures FluxOf(sum', median + c, n) == FluxOf(sum, median, n) <==> valid == n
  {
    assert Product(median + c, n as real) == Product(median, n as real) + Product(c, n as real);
    ProductInjective(c, valid as real, n as real);
  }

  lemma ProductInjective(c: real, a: real, b: real)
    requires c != 0.0
    ensures Product(c, a) == Product(c, b) <==> a == b
  {
    if a != b {
      var d := a - b;
      assert Product(c, a) - Product(c, b) == c * d;
      assert c * d != 0.0;
    }
  }
}
