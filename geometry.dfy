/** Bounding-box geometry of the SORT tracker: corner boxes, the
    centre/area/aspect-ratio measurement the Kalman filter observes, and
    intersection over union. Coordinates are exact reals. */
module Geometry {

  /** An axis-aligned box given by its corners [x1, y1, x2, y2]. */
  datatype Box = Box(x1: real, y1: real, x2: real, y2: real)

  /** The measurement [x, y, s, r]: centre, scale (area) and aspect ratio. */
  datatype Measurement = Measurement(cx: real, cy: real, s: real, r: real)

  function Width(b: Box): real { b.x2 - b.x1 }
  function Height(b: Box): real { b.y2 - b.y1 }
  function Area(b: Box): real { Width(b) * Height(b) }

  function Max(a: real, b: real): real { if a >= b then a else b }
  function Min(a: real, b: real): real { if a <= b then a else b }

  /** np.sqrt is not part of this model: the conversions take a square-root
      function as a parameter, and the lemmas that need its meaning ask for
      this property of it. */
  ghost predicate IsSqrt(sqrt: real -> real)
  {
    forall x :: x >= 0.0 ==> sqrt(x) >= 0.0 && sqrt(x) * sqrt(x) == x
  }

  /** The midpoint of a box (Track.get_center, and the history point of a
      snapshot): it lies halfway between the corners on both axes. */
  function Center(b: Box): (c: (real, real))
    ensures c.0 - b.x1 == b.x2 - c.0 && c.1 - b.y1 == b.y2 - c.1
    ensures b.x1 <= b.x2 ==> b.x1 <= c.0 <= b.x2
    ensures b.y1 <= b.y2 ==> b.y1 <= c.1 <= b.y2
  {
    ((b.x1 + b.x2) / 2.0, (b.y1 + b.y2) / 2.0)
  }

  // ---------------------------------------------------------------------------
  // Intersection over union (Tracker._iou)
  // ---------------------------------------------------------------------------

  function OverlapWidth(a: Box, b: Box): real { Max(0.0, Min(a.x2, b.x2) - Max(a.x1, b.x1)) }
  function OverlapHeight(a: Box, b: Box): real { Max(0.0, Min(a.y2, b.y2) - Max(a.y1, b.y1)) }

  function Intersection(a: Box, b: Box): real { OverlapWidth(a, b) * OverlapHeight(a, b) }

  function Union(a: Box, b: Box): real { Area(a) + Area(b) - Intersection(a, b) }

  /** Intersection area over union area, 0.0 when the union is not positive. */
  function IoU(a: Box, b: Box): real
  {
    var union := Union(a, b);
    if union <= 0.0 then 0.0 else Intersection(a, b) / union
  }

  /** Two boxes that are separated along some axis. */
  predicate Disjoint(a: Box, b: Box)
  {
    a.x2 <= b.x1 || b.x2 <= a.x1 || a.y2 <= b.y1 || b.y2 <= a.y1
  }

  lemma IoUSymmetric(a: Box, b: Box)
    ensures IoU(a, b) == IoU(b, a)
  {
    assert OverlapWidth(a, b) == OverlapWidth(b, a);
    assert OverlapHeight(a, b) == OverlapHeight(b, a);
    assert Intersection(a, b) == Intersection(b, a);
    assert Union(a, b) == Union(b, a);
  }

  lemma MulNonneg(x: real, y: real)
    requires x >= 0.0 && y >= 0.0
    ensures x * y >= 0.0
  {
  }

  lemma DivSelf(x: real)
    requires x > 0.0
    ensures x / x == 1.0
  {
  }

  lemma MulMonotone(x: real, y: real, xMax: real, yMax: real)
    requires 0.0 <= x <= xMax && 0.0 <= y <= yMax
    ensures x * y <= xMax * yMax
  {
    assert x * y <= xMax * y;
    assert xMax * y <= xMax * yMax;
  }

  /** The overlap is never larger than either box. */
  lemma IntersectionBounded(a: Box, b: Box)
    ensures 0.0 <= Intersection(a, b)
    ensures Intersection(a, b) > 0.0 ==> Intersection(a, b) <= Area(a) && Intersection(a, b) <= Area(b)
  {
    var iw, ih := OverlapWidth(a, b), OverlapHeight(a, b);
    MulNonneg(iw, ih);
    if iw > 0.0 && ih > 0.0 {
      assert iw <= Width(a) && iw <= Width(b);
      assert ih <= Height(a) && ih <= Height(b);
      MulMonotone(iw, ih, Width(a), Height(a));
      MulMonotone(iw, ih, Width(b), Height(b));
    } else {
      assert iw == 0.0 || ih == 0.0;
      assert iw * ih == 0.0;
    }
  }

  lemma IoUInUnitInterval(a: Box, b: Box)
    ensures 0.0 <= IoU(a, b) <= 1.0
  {
    IntersectionBounded(a, b);
    var i, u := Intersection(a, b), Union(a, b);
    if u > 0.0 {
      assert i <= u;
      var q := i / u;
      assert q * u == i;
    }
  }

  /** Identical boxes of positive width and height overlap completely.
      (Identical boxes with inverted corners have no overlap and score 0.) */
  lemma IoUIdentical(a: Box)
    requires Width(a) > 0.0 && Height(a) > 0.0
    ensures IoU(a, a) == 1.0
  {
    assert OverlapWidth(a, a) == Width(a);
    assert OverlapHeight(a, a) == Height(a);
    MulNonneg(Width(a), Height(a));
    assert Area(a) > 0.0 by {
      assert Width(a) * Height(a) > 0.0;
    }
    var area := Area(a);
    assert Intersection(a, a) == area;
    assert Union(a, a) == area;
    DivSelf(area);
  }

  /** No overlap, or no positive union, means a score of 0. */
  lemma IoUZero(a: Box, b: Box)
    ensures Disjoint(a, b) ==> IoU(a, b) == 0.0
    ensures Union(a, b) <= 0.0 ==> IoU(a, b) == 0.0
  {
    if Disjoint(a, b) {
      assert OverlapWidth(a, b) == 0.0 || OverlapHeight(a, b) == 0.0;
      assert Intersection(a, b) == 0.0;
    }
  }

  /** Two 100x100 boxes offset by half a width. */
  lemma IoUHalfOverlapExample()
    ensures IoU(Box(100.0, 100.0, 200.0, 200.0), Box(150.0, 100.0, 250.0, 200.0)) == 1.0 / 3.0
  {
    var a, b := Box(100.0, 100.0, 200.0, 200.0), Box(150.0, 100.0, 250.0, 200.0);
    assert OverlapWidth(a, b) == 50.0 && OverlapHeight(a, b) == 100.0;
    assert Intersection(a, b) == 5000.0;
    assert Union(a, b) == 15000.0;
  }

  // ---------------------------------------------------------------------------
  // Box <-> measurement conversion (_bbox_to_z, _z_to_bbox)
  // ---------------------------------------------------------------------------

  /** [x1, y1, x2, y2] to [x, y, s, r]; the aspect ratio is 1.0 when the
      height is not positive. */
  function BBoxToZ(b: Box): (z: Measurement)
    ensures (z.cx, z.cy) == Center(b)
    ensures z.s == Area(b)
    ensures Height(b) > 0.0 ==> z.r * Height(b) == Width(b)
    ensures Height(b) <= 0.0 ==> z.r == 1.0
  {
    var w := b.x2 - b.x1;
    var h := b.y2 - b.y1;
    Measurement(b.x1 + w / 2.0, b.y1 + h / 2.0, w * h, if h > 0.0 then w / h else 1.0)
  }

  /** The product under the square root is negative: np.sqrt yields NaN,
      so the box built from this measurement holds NaN coordinates. */
  predicate SqrtOfNegative(z: Measurement)
  {
    WidthSquared(z) < 0.0
  }

  /** s * r, the square of the width the measurement describes. */
  function WidthSquared(z: Measurement): real
  {
    z.s * z.r
  }

  /** [x, y, s, r] to [x1, y1, x2, y2]: width sqrt(s*r), height s/width
      when the width is positive and 0 otherwise. */
  function ZToBBox(z: Measurement, sqrt: real -> real): (b: Box)
    ensures Center(b) == (z.cx, z.cy)
    ensures Width(b) > 0.0 ==> Area(b) == z.s
    ensures Width(b) <= 0.0 ==> Height(b) == 0.0
    ensures IsSqrt(sqrt) && !SqrtOfNegative(z) ==> Width(b) >= 0.0 && Width(b) * Width(b) == WidthSquared(z)
  {
    var sr := WidthSquared(z);
    var w := if sr >= 0.0 then sqrt(sr) else 0.0;
    var h := if w > 0.0 then z.s / w else 0.0;
    Box(z.cx - w / 2.0, z.cy - h / 2.0, z.cx + w / 2.0, z.cy + h / 2.0)
  }

  lemma SqrtOfSquare(sqrt: real -> real, w: real)
    requires IsSqrt(sqrt) && w > 0.0
    ensures sqrt(w * w) == w
  {
    MulNonneg(w, w);
    var y := sqrt(w * w);
    assert y >= 0.0 && y * y == w * w;
    var d, p := y - w, y + w;
    assert d * p == 0.0;
    assert p > 0.0;
    assert d == (d * p) / p;
  }

  lemma AreaTimesRatio(w: real, h: real)
    requires h > 0.0
    ensures (w * h) * (w / h) == w * w
  {
    assert (w * h) * (w / h) == w * (h * (w / h));
    assert h * (w / h) == w;
  }

  lemma AreaOverWidth(w: real, h: real)
    requires w > 0.0
    ensures (w * h) / w == h
  {
  }

  /** The width and height that _z_to_bbox recovers from the measurement
      of a box of positive width and height. */
  lemma RoundTripSides(b: Box, sqrt: real -> real)
    requires IsSqrt(sqrt)
    requires Width(b) > 0.0 && Height(b) > 0.0
    ensures var z := BBoxToZ(b);
      WidthSquared(z) >= 0.0 && sqrt(WidthSquared(z)) == Width(b) && z.s / Width(b) == Height(b)
  {
    var w, h := Width(b), Height(b);
    var z := BBoxToZ(b);
    assert z.s == w * h && z.r == w / h;
    AreaTimesRatio(w, h);
    assert WidthSquared(z) == w * w;
    SqrtOfSquare(sqrt, w);
    AreaOverWidth(w, h);
  }

  /** The box _z_to_bbox builds once its width w and height h are known. */
  lemma ZToBBoxSides(z: Measurement, sqrt: real -> real, w: real, h: real)
    requires WidthSquared(z) >= 0.0 && sqrt(WidthSquared(z)) == w && w > 0.0 && z.s / w == h
    ensures ZToBBox(z, sqrt) == Box(z.cx - w / 2.0, z.cy - h / 2.0, z.cx + w / 2.0, z.cy + h / 2.0)
  {
  }

  /** A box of positive width and height survives the round trip exactly. */
  lemma BoxRoundTrip(b: Box, sqrt: real -> real)
    requires IsSqrt(sqrt)
    requires Width(b) > 0.0 && Height(b) > 0.0
    ensures ZToBBox(BBoxToZ(b), sqrt) == b
  {
    RoundTripSides(b, sqrt);
    ZToBBoxSides(BBoxToZ(b), sqrt, Width(b), Height(b));
  }

  lemma BBoxToZExample()
    ensures BBoxToZ(Box(100.0, 100.0, 200.0, 200.0)) == Measurement(150.0, 150.0, 10000.0, 1.0)
  {
  }
}
