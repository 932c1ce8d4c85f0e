/** The cylinder zone form: a disc in the x/y plane, extruded between two
    heights. Coordinates are Java `int`s; the source squares differences
    with `Math.pow`, which the model computes as exact integer squares. */
module ZoneForms {
  import opened Common

  /** A cylinder around (centerX, centerY) of `radius`, from `minZ` to
      `maxZ`; `radS` is the radius squared in Java `int` arithmetic. */
  datatype ZoneCylinderArea = ZoneCylinderArea(
    centerX: int32, centerY: int32, minZ: int32, maxZ: int32, radius: int32, radS: int32)

  /** The constructor. */
  function Cylinder(x: int32, y: int32, minZ: int32, maxZ: int32, radius: int32): (z: ZoneCylinderArea)
    ensures z.centerX == x && z.centerY == y && z.minZ == minZ && z.maxZ == maxZ && z.radius == radius
    ensures IsInt32(radius as int * radius as int) ==> z.radS as int == radius as int * radius as int
  {
    ZoneCylinderArea(x, y, minZ, maxZ, radius, Wrap32(radius as int * radius as int))
  }

  /** `a - b` on Java `int`s. */
  function Sub32(a: int32, b: int32): int32 {
    Wrap32(a as int - b as int)
  }

  function Sq(d: int): int {
    d * d
  }

  predicate IsInside(z: ZoneCylinderArea, x: int32, y: int32, h: int32) {
    Sq(Sub32(z.centerX, x)) + Sq(Sub32(z.centerY, y)) <= z.radS && h >= z.minZ && h <= z.maxZ
  }

  /** The tests of `intersectsRectangle`, in the order the source makes
      them: the centre strictly inside the rectangle, one of the four
      corners strictly inside the disc, the centre beside a horizontal side
      and nearer to it than the radius, beside a vertical side likewise. */
  predicate IntersectsRectangle(z: ZoneCylinderArea, ax1: int32, ax2: int32, ay1: int32, ay2: int32) {
    var cx, cy := z.centerX, z.centerY;
    if cx > ax1 && cx < ax2 && cy > ay1 && cy < ay2 then true
    else if Sq(Sub32(ax1, cx)) + Sq(Sub32(ay1, cy)) < z.radS then true
    else if Sq(Sub32(ax1, cx)) + Sq(Sub32(ay2, cy)) < z.radS then true
    else if Sq(Sub32(ax2, cx)) + Sq(Sub32(ay1, cy)) < z.radS then true
    else if Sq(Sub32(ax2, cx)) + Sq(Sub32(ay2, cy)) < z.radS then true
    else if cx > ax1 && cx < ax2 && (Abs32(Sub32(cy, ay2)) < z.radius || Abs32(Sub32(cy, ay1)) < z.radius) then true
    else if cy > ay1 && cy < ay2 then Abs32(Sub32(cx, ax2)) < z.radius || Abs32(Sub32(cx, ax1)) < z.radius
    else false
  }

  function GetLowZ(z: ZoneCylinderArea): int32 {
    z.minZ
  }

  function GetHighZ(z: ZoneCylinderArea): int32 {
    z.maxZ
  }

  // ---- exact geometry, away from 32-bit overflow

  /** A coordinate whose differences with other such coordinates fit an `int`. */
  predicate Coordinate(v: int) {
    -0x4000_0000 < v < 0x4000_0000
  }

  /** The largest radius whose square fits an `int`. */
  const MAX_RADIUS: int := 46340

  lemma SquareFits(r: int)
    requires -MAX_RADIUS <= r <= MAX_RADIUS
    ensures 0 <= r * r <= INT32_MAX
  {
    var a := if r < 0 then -r else r;
    assert r * r == a * a;
    SquareMonotone(a, MAX_RADIUS);
  }

  lemma SquareMonotone(a: int, b: int)
    requires 0 <= a <= b
    ensures a * a <= b * b
  {
    assert a * a <= a * b;
    assert a * b <= b * b;
  }

  /** Below a positive radius exactly when its square is below the radius's square. */
  lemma SquareBelow(a: int, r: int)
    requires r > 0
    ensures a * a < r * r <==> -r < a < r
  {
    var m := if a < 0 then -a else a;
    assert a * a == m * m;
    if m < r {
      assert m * m <= m * r;
      assert m * r < r * r;
    } else {
      SquareMonotone(r, m);
    }
  }

  /** The gap between `v` and the interval `[lo, hi]`. */
  function Gap(v: int, lo: int, hi: int): int {
    if v < lo then lo - v else if v > hi then v - hi else 0
  }

  /** The point of `[lo, hi]` nearest to `v`. */
  function Clamp(v: int, lo: int, hi: int): int
    requires lo <= hi
  {
    if v < lo then lo else if v > hi then hi else v
  }

  /** The reference for `intersectsRectangle`: some point of the closed
      rectangle is strictly nearer to the centre than the radius. */
  predicate DiscMeetsRectangle(cx: int, cy: int, r: int, ax1: int, ax2: int, ay1: int, ay2: int) {
    Sq(Gap(cx, ax1, ax2)) + Sq(Gap(cy, ay1, ay2)) < r * r
  }

  /** The gaps measure the nearest point: no point of the rectangle is
      nearer, and the clamped centre is that near. */
  lemma NearestPoint(cx: int, cy: int, ax1: int, ax2: int, ay1: int, ay2: int, px: int, py: int)
    requires ax1 <= ax2 && ay1 <= ay2
    requires ax1 <= px <= ax2 && ay1 <= py <= ay2
    ensures Sq(Gap(cx, ax1, ax2)) + Sq(Gap(cy, ay1, ay2)) <= Sq(px - cx) + Sq(py - cy)
    ensures var qx, qy := Clamp(cx, ax1, ax2), Clamp(cy, ay1, ay2);
      && ax1 <= qx <= ax2 && ay1 <= qy <= ay2
      && Sq(qx - cx) + Sq(qy - cy) == Sq(Gap(cx, ax1, ax2)) + Sq(Gap(cy, ay1, ay2))
  {
    GapUnderDistance(cx, ax1, ax2, px);
    GapUnderDistance(cy, ay1, ay2, py);
  }

  lemma GapUnderDistance(v: int, lo: int, hi: int, p: int)
    requires lo <= p <= hi
    ensures Sq(Gap(v, lo, hi)) <= Sq(p - v)
    ensures Sq(Clamp(v, lo, hi) - v) == Sq(Gap(v, lo, hi))
  {
    var d := if p < v then v - p else p - v;
    assert Sq(p - v) == d * d;
    SquareMonotone(Gap(v, lo, hi), d);
  }

  /** Inside exactly when within the radius of the axis (boundary included)
      and within the height band (both ends included). */
  lemma IsInsideExactly(cx: int32, cy: int32, minZ: int32, maxZ: int32, r: int32, x: int32, y: int32, h: int32)
    requires Coordinate(cx) && Coordinate(cy) && Coordinate(x) && Coordinate(y)
    requires -MAX_RADIUS <= r as int <= MAX_RADIUS
    ensures IsInside(Cylinder(cx, cy, minZ, maxZ, r), x, y, h)
       <==> (cx - x) * (cx - x) + (cy - y) * (cy - y) <= r * r && minZ <= h <= maxZ
  {
    SquareFits(r as int);
  }

  /** The centre of the disc is inside at every height of the band, and no
      point outside the band is inside. */
  lemma BandOfTheCentre(cx: int32, cy: int32, minZ: int32, maxZ: int32, r: int32, x: int32, y: int32, h: int32)
    requires -MAX_RADIUS <= r as int <= MAX_RADIUS
    ensures IsInside(Cylinder(cx, cy, minZ, maxZ, r), cx, cy, h) <==> minZ <= h <= maxZ
    ensures (h < minZ || h > maxZ) ==> !IsInside(Cylinder(cx, cy, minZ, maxZ, r), x, y, h)
  {
    SquareFits(r as int);
  }

  /** The constructor's height band and squared radius. */
  lemma ConstructorFields(x: int32, y: int32, minZ: int32, maxZ: int32, r: int32)
    requires -MAX_RADIUS <= r as int <= MAX_RADIUS
    ensures GetLowZ(Cylinder(x, y, minZ, maxZ, r)) == minZ && GetHighZ(Cylinder(x, y, minZ, maxZ, r)) == maxZ
    ensures Cylinder(x, y, minZ, maxZ, r).radS as int == r as int * r as int
  {
    SquareFits(r as int);
  }

  /** Past the largest radius the square wraps negative and even the centre is outside. */
  lemma WideRadiusWraps()
    ensures Cylinder(0, 0, -100, 100, 46341).radS < 0
    ensures !IsInside(Cylinder(0, 0, -100, 100, 46341), 0, 0, 0)
  {
  }

  /** A well-formed zone away from overflow: `radS` is the square of a
      positive radius that fits, and the centre is a coordinate. */
  predicate Regular(z: ZoneCylinderArea) {
    && 0 < z.radius as int <= MAX_RADIUS
    && z.radS as int == z.radius as int * z.radius as int
    && Coordinate(z.centerX) && Coordinate(z.centerY)
  }

  /** `intersectsRectangle`'s tests in exact arithmetic. */
  predicate ExactTests(cx: int, cy: int, r: int, ax1: int, ax2: int, ay1: int, ay2: int) {
    || (ax1 < cx < ax2 && ay1 < cy < ay2)
    || Sq(ax1 - cx) + Sq(ay1 - cy) < r * r
    || Sq(ax1 - cx) + Sq(ay2 - cy) < r * r
    || Sq(ax2 - cx) + Sq(ay1 - cy) < r * r
    || Sq(ax2 - cx) + Sq(ay2 - cy) < r * r
    || (ax1 < cx < ax2 && (-r < cy - ay2 < r || -r < cy - ay1 < r))
    || (ay1 < cy < ay2 && (-r < cx - ax2 < r || -r < cx - ax1 < r))
  }

  lemma Sub32Exact(a: int32, b: int32)
    requires Coordinate(a) && Coordinate(b)
    ensures Sub32(a, b) as int == a as int - b as int
    ensures Abs32(Sub32(a, b)) as int == if a >= b then a as int - b as int else b as int - a as int
  {
  }

  /** Away from overflow, `intersectsRectangle` holds exactly when one of
      its tests holds in exact arithmetic: the centre strictly inside, a
      corner strictly inside the disc, or the centre beside a side and
      nearer to it than the radius. */
  lemma IntersectsRectangleTests(z: ZoneCylinderArea, ax1: int32, ax2: int32, ay1: int32, ay2: int32)
    requires Regular(z) && Coordinate(ax1) && Coordinate(ax2) && Coordinate(ay1) && Coordinate(ay2)
    ensures IntersectsRectangle(z, ax1, ax2, ay1, ay2)
        <==> ExactTests(z.centerX as int, z.centerY as int, z.radius as int, ax1 as int, ax2 as int, ay1 as int, ay2 as int)
  {
    Sub32Exact(ax1, z.centerX);
    Sub32Exact(ax2, z.centerX);
    Sub32Exact(ay1, z.centerY);
    Sub32Exact(ay2, z.centerY);
    Sub32Exact(z.centerX, ax1);
    Sub32Exact(z.centerX, ax2);
    Sub32Exact(z.centerY, ay1);
    Sub32Exact(z.centerY, ay2);
  }

  /** For a rectangle with its corners in order, `intersectsRectangle` is
      exact: it holds iff some point of the closed rectangle is strictly
      nearer to the centre than the radius. */
  lemma IntersectsRectangleExactly(z: ZoneCylinderArea, ax1: int32, ax2: int32, ay1: int32, ay2: int32)
    requires Regular(z) && Coordinate(ax1) && Coordinate(ax2) && Coordinate(ay1) && Coordinate(ay2)
    requires ax1 <= ax2 && ay1 <= ay2
    ensures IntersectsRectangle(z, ax1, ax2, ay1, ay2)
        <==> DiscMeetsRectangle(z.centerX as int, z.centerY as int, z.radius as int, ax1 as int, ax2 as int, ay1 as int, ay2 as int)
  {
    IntersectsRectangleTests(z, ax1, ax2, ay1, ay2);
    TestsMeetDisc(z.centerX as int, z.centerY as int, z.radius as int, ax1 as int, ax2 as int, ay1 as int, ay2 as int);
  }

  /** The tests decide exactly whether the disc meets the rectangle. */
  lemma TestsMeetDisc(cx: int, cy: int, r: int, ax1: int, ax2: int, ay1: int, ay2: int)
    requires r > 0 && ax1 <= ax2 && ay1 <= ay2
    ensures ExactTests(cx, cy, r, ax1, ax2, ay1, ay2) <==> DiscMeetsRectangle(cx, cy, r, ax1, ax2, ay1, ay2)
  {
    if ExactTests(cx, cy, r, ax1, ax2, ay1, ay2) {
      TestsFindPoint(cx, cy, r, ax1, ax2, ay1, ay2);
    }
    if DiscMeetsRectangle(cx, cy, r, ax1, ax2, ay1, ay2) {
      NearPointPassesTests(cx, cy, r, ax1, ax2, ay1, ay2);
    }
  }

  /** Each test that passes names a point of the rectangle inside the disc. */
  lemma TestsFindPoint(cx: int, cy: int, r: int, ax1: int, ax2: int, ay1: int, ay2: int)
    requires r > 0 && ax1 <= ax2 && ay1 <= ay2
    requires ExactTests(cx, cy, r, ax1, ax2, ay1, ay2)
    ensures DiscMeetsRectangle(cx, cy, r, ax1, ax2, ay1, ay2)
  {
    if ax1 < cx < ax2 && ay1 < cy < ay2 {
      assert Gap(cx, ax1, ax2) == 0 && Gap(cy, ay1, ay2) == 0;
      assert 0 < r * r;
    } else if Sq(ax1 - cx) + Sq(ay1 - cy) < r * r {
      NearestPoint(cx, cy, ax1, ax2, ay1, ay2, ax1, ay1);
    } else if Sq(ax1 - cx) + Sq(ay2 - cy) < r * r {
      NearestPoint(cx, cy, ax1, ax2, ay1, ay2, ax1, ay2);
    } else if Sq(ax2 - cx) + Sq(ay1 - cy) < r * r {
      NearestPoint(cx, cy, ax1, ax2, ay1, ay2, ax2, ay1);
    } else if Sq(ax2 - cx) + Sq(ay2 - cy) < r * r {
      NearestPoint(cx, cy, ax1, ax2, ay1, ay2, ax2, ay2);
    } else if ax1 < cx < ax2 {
      var py := if -r < cy - ay2 < r then ay2 else ay1;
      SquareBelow(cy - py, r);
      NearestPoint(cx, cy, ax1, ax2, ay1, ay2, cx, py);
      assert Sq(cx - cx) == 0;
    } else {
      var px := if -r < cx - ax2 < r then ax2 else ax1;
      SquareBelow(cx - px, r);
      NearestPoint(cx, cy, ax1, ax2, ay1, ay2, px, cy);
      assert Sq(cy - cy) == 0;
    }
  }

  /** When the disc meets the rectangle, the test for the region the centre
      lies in passes: a side test beside a side, a corner test otherwise. */
  lemma NearPointPassesTests(cx: int, cy: int, r: int, ax1: int, ax2: int, ay1: int, ay2: int)
    requires r > 0 && ax1 <= ax2 && ay1 <= ay2
    requires DiscMeetsRectangle(cx, cy, r, ax1, ax2, ay1, ay2)
    ensures ExactTests(cx, cy, r, ax1, ax2, ay1, ay2)
  {
    var gx, gy := Gap(cx, ax1, ax2), Gap(cy, ay1, ay2);
    assert 0 <= Sq(gx) && 0 <= Sq(gy);
    if ax1 < cx < ax2 {
      SquareBelow(gy, r);
    } else if ay1 < cy < ay2 {
      SquareBelow(gx, r);
    } else {
      var qx := if cx <= ax1 then ax1 else ax2;
      var qy := if cy <= ay1 then ay1 else ay2;
      assert Sq(qx - cx) == Sq(gx) by { assert qx - cx == gx || qx - cx == -gx; }
      assert Sq(qy - cy) == Sq(gy) by { assert qy - cy == gy || qy - cy == -gy; }
    }
  }
}
