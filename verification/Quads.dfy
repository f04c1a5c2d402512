/**
 * Which quads can be straightened: exactly when the map reaches all four corners, and what it does to the
 * points between them.
 */
module Quads {
  import opened Elimination
  import opened Straighten

  /** The map is defined at every from-corner and takes it to its partner. */
  predicate ReachesAll(c: seq<real>, from: seq<Point>, to: seq<Point>)
    requires |c| == 8 && |from| == 4 && |to| == 4
  {
    forall i :: 0 <= i < 4 ==> Denominator(c, from[i]) != 0.0 && MapPoint(c, from[i]) == to[i]
  }

  predicate AllInLine(quad: seq<Point>)
    requires |quad| == 4
  {
    && Cross(quad[0], quad[1], quad[2]) == 0.0 && Cross(quad[1], quad[2], quad[3]) == 0.0
    && Cross(quad[2], quad[3], quad[0]) == 0.0 && Cross(quad[3], quad[0], quad[1]) == 0.0
  }

  lemma NoThreeMeansTurns(quad: seq<Point>)
    requires |quad| == 4
    ensures NoThreeInLine(quad) <==>
      && Cross(quad[0], quad[1], quad[2]) != 0.0 && Cross(quad[1], quad[2], quad[3]) != 0.0
      && Cross(quad[2], quad[3], quad[0]) != 0.0 && Cross(quad[3], quad[0], quad[1]) != 0.0
  {
    CrossTurns(quad[0], quad[1], quad[2]);
    CrossTurns(quad[1], quad[2], quad[3]);
    CrossTurns(quad[2], quad[3], quad[0]);
    CrossTurns(quad[3], quad[0], quad[1]);
  }

  /** Starting elsewhere keeps the area; going the other way turns its sign. */
  lemma CrossTurns(p: Point, q: Point, r: Point)
    ensures Cross(q, r, p) == Cross(p, q, r) && Cross(r, p, q) == Cross(p, q, r)
    ensures Cross(r, q, p) == -Cross(p, q, r) && Cross(q, p, r) == -Cross(p, q, r) && Cross(p, r, q) == -Cross(p, q, r)
  {
    CrossExpanded(p, q, r);
    CrossExpanded(q, r, p);
    CrossExpanded(r, p, q);
    CrossExpanded(r, q, p);
    CrossExpanded(q, p, r);
    CrossExpanded(p, r, q);
  }

  lemma CrossExpanded(p: Point, q: Point, r: Point)
    ensures Cross(p, q, r) == q.x * r.y - q.x * p.y - p.x * r.y - q.y * r.x + q.y * p.x + p.y * r.x
  {
    assert (q.x - p.x) * (r.y - p.y) == q.x * r.y - q.x * p.y - p.x * r.y + p.x * p.y;
    assert (q.y - p.y) * (r.x - p.x) == q.y * r.x - q.y * p.x - p.y * r.x + p.y * p.x;
  }

  // ------------------------------------------------ areas at the corners

  /** The denominators at the rectangle's corners other than the first, where it is one. */
  function Corner1(c: seq<real>, width: real): real
    requires |c| == 8
  {
    c[6] * width + 1.0
  }

  function Corner3(c: seq<real>, height: real): real
    requires |c| == 8
  {
    c[7] * height + 1.0
  }

  function Corner2(c: seq<real>, width: real, height: real): real
    requires |c| == 8
  {
    Corner1(c, width) + Corner3(c, height) - 1.0
  }

  lemma CornerDenominators(c: seq<real>, width: real, height: real)
    requires |c| == 8
    ensures Denominator(c, Rectangle(width, height)[0]) == 1.0
    ensures Denominator(c, Rectangle(width, height)[1]) == Corner1(c, width)
    ensures Denominator(c, Rectangle(width, height)[2]) == Corner2(c, width, height)
    ensures Denominator(c, Rectangle(width, height)[3]) == Corner3(c, height)
  {
  }

  lemma Undivided(n: real, d: real, q: real)
    requires d != 0.0 && n / d == q
    ensures n == q * d
  {
  }

  /** What the numerators are at the corners. */
  lemma NearNumerators(c: seq<real>, width: real, height: real, quad: seq<Point>)
    requires |c| == 8 && |quad| == 4 && ReachesAll(c, Rectangle(width, height), quad)
    ensures c[2] == quad[0].x && c[5] == quad[0].y
    ensures c[2] + c[0] * width == quad[1].x * Corner1(c, width) && c[5] + c[3] * width == quad[1].y * Corner1(c, width)
  {
    CornerDenominators(c, width, height);
    Numerators(c, Rectangle(width, height)[0], quad[0]);
    Numerators(c, Rectangle(width, height)[1], quad[1]);
    AtCorners(c[2], c[0], c[1], width, height);
    AtCorners(c[5], c[3], c[4], width, height);
  }

  lemma FarNumerators(c: seq<real>, width: real, height: real, quad: seq<Point>)
    requires |c| == 8 && |quad| == 4 && ReachesAll(c, Rectangle(width, height), quad)
    ensures c[2] + c[0] * width + c[1] * height == quad[2].x * Corner2(c, width, height)
    ensures c[5] + c[3] * width + c[4] * height == quad[2].y * Corner2(c, width, height)
    ensures c[2] + c[1] * height == quad[3].x * Corner3(c, height) && c[5] + c[4] * height == quad[3].y * Corner3(c, height)
  {
    CornerDenominators(c, width, height);
    Numerators(c, Rectangle(width, height)[2], quad[2]);
    Numerators(c, Rectangle(width, height)[3], quad[3]);
    AtCorners(c[2], c[0], c[1], width, height);
    AtCorners(c[5], c[3], c[4], width, height);
  }

  /** A map that reaches the corners weighs them: p0 + d2 p2 = d1 p1 + d3 p3, in both coordinates. */
  lemma CornersWeigh(c: seq<real>, width: real, height: real, quad: seq<Point>)
    requires |c| == 8 && |quad| == 4 && ReachesAll(c, Rectangle(width, height), quad)
    ensures var (d1, d2, d3) := (Corner1(c, width), Corner2(c, width, height), Corner3(c, height));
            && quad[0].x + quad[2].x * d2 == quad[1].x * d1 + quad[3].x * d3
            && quad[0].y + quad[2].y * d2 == quad[1].y * d1 + quad[3].y * d3
  {
    CornersWeighAcross(c, width, height, quad);
    CornersWeighDown(c, width, height, quad);
  }

  lemma CornersWeighAcross(c: seq<real>, width: real, height: real, quad: seq<Point>)
    requires |c| == 8 && |quad| == 4 && ReachesAll(c, Rectangle(width, height), quad)
    ensures var (d1, d2, d3) := (Corner1(c, width), Corner2(c, width, height), Corner3(c, height));
            quad[0].x + quad[2].x * d2 == quad[1].x * d1 + quad[3].x * d3
  {
    NearNumerators(c, width, height, quad);
    FarNumerators(c, width, height, quad);
    var (d1, d2, d3) := (Corner1(c, width), Corner2(c, width, height), Corner3(c, height));
    Opposite(c[2], c[0] * width, c[1] * height, quad[0].x, quad[1].x * d1, quad[2].x * d2, quad[3].x * d3);
  }

  lemma CornersWeighDown(c: seq<real>, width: real, height: real, quad: seq<Point>)
    requires |c| == 8 && |quad| == 4 && ReachesAll(c, Rectangle(width, height), quad)
    ensures var (d1, d2, d3) := (Corner1(c, width), Corner2(c, width, height), Corner3(c, height));
            quad[0].y + quad[2].y * d2 == quad[1].y * d1 + quad[3].y * d3
  {
    NearNumerators(c, width, height, quad);
    FarNumerators(c, width, height, quad);
    var (d1, d2, d3) := (Corner1(c, width), Corner2(c, width, height), Corner3(c, height));
    Opposite(c[5], c[3] * width, c[4] * height, quad[0].y, quad[1].y * d1, quad[2].y * d2, quad[3].y * d3);
  }

  lemma Opposite(a: real, b: real, g: real, n0: real, n1: real, n2: real, n3: real)
    requires a == n0 && a + b == n1 && a + b + g == n2 && a + g == n3
    ensures n0 + n2 == n1 + n3
  {
  }

  lemma Numerators(c: seq<real>, p: Point, q: Point)
    requires |c| == 8 && Denominator(c, p) != 0.0 && MapPoint(c, p) == q
    ensures Affine(c[2], c[0], c[1], p) == q.x * Denominator(c, p)
    ensures Affine(c[5], c[3], c[4], p) == q.y * Denominator(c, p)
  {
    Undivided(c[0] * p.x + c[1] * p.y + c[2], Denominator(c, p), q.x);
    Undivided(c[3] * p.x + c[4] * p.y + c[5], Denominator(c, p), q.y);
  }

  /** A point weighed from three others: its areas with two of them are theirs, weighed. */
  lemma WeighedArea(p: Point, q: Point, r: Point, s: Point, dq: real, dr: real, ds: real)
    requires p.x == q.x * dq - r.x * dr + s.x * ds && p.y == q.y * dq - r.y * dr + s.y * ds && dq - dr + ds == 1.0
    ensures Cross(p, r, s) == dq * Cross(q, r, s)
  {
    assert p.x - r.x == (q.x - r.x) * dq + (s.x - r.x) * ds;
    assert p.y - r.y == (q.y - r.y) * dq + (s.y - r.y) * ds;
    FromSecond(p, r, s);
    FromSecond(q, r, s);
    WeighedProduct(s.x - r.x, s.y - r.y, q.x - r.x, q.y - r.y, dq, ds);
  }

  lemma FromSecond(p: Point, r: Point, s: Point)
    ensures Cross(p, r, s) == (s.x - r.x) * (p.y - r.y) - (s.y - r.y) * (p.x - r.x)
  {
    CrossTurns(p, r, s);
  }

  lemma WeighedProduct(sx: real, sy: real, qx: real, qy: real, dq: real, ds: real)
    ensures sx * (qy * dq + sy * ds) - sy * (qx * dq + sx * ds) == dq * (sx * qy - sy * qx)
  {
    assert sx * (qy * dq + sy * ds) == sx * (qy * dq) + sx * (sy * ds);
    assert sy * (qx * dq + sx * ds) == sy * (qx * dq) + sy * (sx * ds);
    assert sx * (sy * ds) == sy * (sx * ds);
    assert sx * (qy * dq) == dq * (sx * qy);
    assert sy * (qx * dq) == dq * (sy * qx);
    assert dq * (sx * qy - sy * qx) == dq * (sx * qy) - dq * (sy * qx);
  }

  /** The turn at each corner is the turn at the third times that corner's opposite denominator. */
  lemma TurnsAreDenominators(c: seq<real>, width: real, height: real, quad: seq<Point>)
    requires |c| == 8 && |quad| == 4 && ReachesAll(c, Rectangle(width, height), quad)
    ensures var k := Cross(quad[1], quad[2], quad[3]);
            && Cross(quad[2], quad[3], quad[0]) == Corner1(c, width) * k
            && Cross(quad[3], quad[0], quad[1]) == Corner2(c, width, height) * k
            && Cross(quad[0], quad[1], quad[2]) == Corner3(c, height) * k
  {
    var (d1, d2, d3) := (Corner1(c, width), Corner2(c, width, height), Corner3(c, height));
    var (p0, p1, p2, p3) := (quad[0], quad[1], quad[2], quad[3]);
    CornersWeigh(c, width, height, quad);
    WeighedArea(p0, p1, p2, p3, d1, d2, d3);
    CrossTurns(p0, p2, p3);
    WeighedArea(p0, p3, p2, p1, d3, d2, d1);
    CrossTurns(p0, p1, p2);
    CrossTurns(p1, p2, p3);
    SecondArea(p0, p1, p2, p3, d1, d2, d3);
  }

  lemma SecondArea(p0: Point, p1: Point, p2: Point, p3: Point, d1: real, d2: real, d3: real)
    requires p0.x == p1.x * d1 - p2.x * d2 + p3.x * d3 && p0.y == p1.y * d1 - p2.y * d2 + p3.y * d3 && d1 - d2 + d3 == 1.0
    ensures Cross(p3, p0, p1) == d2 * Cross(p1, p2, p3)
  {
    assert p2.x * -d2 == -(p2.x * d2) && p1.x * -d1 == -(p1.x * d1);
    assert p2.y * -d2 == -(p2.y * d2) && p1.y * -d1 == -(p1.y * d1);
    WeighedArea(p0, p2, p1, p3, -d2, -d1, d3);
    CrossTurns(p0, p1, p3);
    CrossTurns(p1, p2, p3);
    CrossTurns(p2, p1, p3);
  }

  // ---------------------------------------------- when corners are reached

  lemma NoFactor(a: real, b: real)
    requires a != 0.0
    ensures a * b == 0.0 <==> b == 0.0
  {
    if a * b == 0.0 { NoProduct(b, a); }
  }

  /** No map at all reaches the corners of a quad with three corners in a line, unless all four are. */
  lemma ReachedIsGeneral(c: seq<real>, width: real, height: real, quad: seq<Point>)
    requires |c| == 8 && |quad| == 4 && ReachesAll(c, Rectangle(width, height), quad)
    ensures NoThreeInLine(quad) || AllInLine(quad)
  {
    var k := Cross(quad[1], quad[2], quad[3]);
    var r := Rectangle(width, height);
    CornerDenominators(c, width, height);
    assert Denominator(c, r[1]) != 0.0 && Denominator(c, r[2]) != 0.0 && Denominator(c, r[3]) != 0.0;
    TurnsAreDenominators(c, width, height, quad);
    NoFactor(Corner1(c, width), k);
    NoFactor(Corner2(c, width, height), k);
    NoFactor(Corner3(c, height), k);
    NoThreeMeansTurns(quad);
  }

  /** With three corners in a line but not all four, no coefficients whatever reach all corners. */
  lemma InLineIsMissed(c: seq<real>, width: real, height: real, quad: seq<Point>)
    requires |c| == 8 && |quad| == 4 && SomeInLine(quad)
    ensures !ReachesAll(c, Rectangle(width, height), quad)
  {
    if ReachesAll(c, Rectangle(width, height), quad) {
      ReachedIsGeneral(c, width, height, quad);
    }
  }

  predicate At(p: Point, x: real, y: real) {
    p.x == x && p.y == y
  }

  /** The top edge goes straight on to the third corner. */
  predicate TopInLine(quad: seq<Point>) {
    |quad| == 4 && At(quad[0], 0.0, 0.0) && At(quad[1], 1.0, 0.0) && At(quad[2], 2.0, 0.0) && At(quad[3], 0.0, 1.0)
  }

  /** The three corners other than the first lie on a diagonal. */
  predicate DiagonalInLine(quad: seq<Point>) {
    |quad| == 4 && At(quad[0], 0.0, 0.0) && At(quad[1], 2.0, 0.0) && At(quad[2], 1.0, 1.0) && At(quad[3], 0.0, 2.0)
  }

  ghost predicate SomeInLine(quad: seq<Point>)
    requires |quad| == 4
  {
    !NoThreeInLine(quad) && !AllInLine(quad)
  }

  lemma TopHasThree(q: seq<Point>)
    requires TopInLine(q)
    ensures !NoThreeInLine(q)
  {
    assert Cross(q[2], q[0], q[1]) == 0.0;
  }

  lemma TopHasNotAll(q: seq<Point>)
    requires TopInLine(q)
    ensures !AllInLine(q)
  {
    assert Cross(q[1], q[2], q[3]) == 1.0;
  }

  lemma TopTurns(q: seq<Point>)
    requires TopInLine(q)
    ensures Cross(q[2], q[1], q[3]) == -1.0
  {
  }

  lemma DiagonalHasThree(q: seq<Point>)
    requires DiagonalInLine(q)
    ensures !NoThreeInLine(q) && Cross(q[2], q[1], q[3]) == 0.0
  {
  }

  lemma DiagonalHasNotAll(q: seq<Point>)
    requires DiagonalInLine(q)
    ensures !AllInLine(q)
  {
    assert Cross(q[0], q[1], q[2]) == 2.0;
  }

  /** A quad whose equations determine a map, which then misses a corner: as every other map does. */
  lemma TopIsMissed(c: seq<real>, width: real, height: real, quad: seq<Point>)
    requires width > 0.0 && height > 0.0 && |c| == 8 && |quad| == 4 && TopInLine(quad)
    ensures Regular(Equations(Rectangle(width, height), quad)) && !ReachesAll(c, Rectangle(width, height), quad)
  {
    TopHasThree(quad);
    TopHasNotAll(quad);
    TopTurns(quad);
    RectangleIsRegular(width, height, quad);
    InLineIsMissed(c, width, height, quad);
  }

  /** And one whose equations determine none. */
  lemma DiagonalIsMissed(c: seq<real>, width: real, height: real, quad: seq<Point>)
    requires width > 0.0 && height > 0.0 && |c| == 8 && |quad| == 4 && DiagonalInLine(quad)
    ensures !Regular(Equations(Rectangle(width, height), quad)) && !ReachesAll(c, Rectangle(width, height), quad)
  {
    DiagonalHasThree(quad);
    DiagonalHasNotAll(quad);
    RectangleIsRegular(width, height, quad);
    InLineIsMissed(c, width, height, quad);
  }

  // ------------------------------------------------- between the corners

  predicate InRectangle(p: Point, width: real, height: real) {
    0.0 <= p.x <= width && 0.0 <= p.y <= height
  }

  /** An area seen from one side or from the other. */
  function Toward(clockwise: bool, area: real): real {
    if clockwise then area else -area
  }

  /** All four corners turn the same way. */
  predicate Turning(quad: seq<Point>, clockwise: bool)
    requires |quad| == 4
  {
    && Toward(clockwise, Cross(quad[0], quad[1], quad[2])) > 0.0 && Toward(clockwise, Cross(quad[1], quad[2], quad[3])) > 0.0
    && Toward(clockwise, Cross(quad[2], quad[3], quad[0])) > 0.0 && Toward(clockwise, Cross(quad[3], quad[0], quad[1])) > 0.0
  }

  predicate StrictlyConvex(quad: seq<Point>)
    requires |quad| == 4
  {
    Turning(quad, true) || Turning(quad, false)
  }

  /** On the inner side of the edge from a to b, or on it. */
  predicate Inner(clockwise: bool, a: Point, b: Point, p: Point) {
    Toward(clockwise, Cross(a, b, p)) >= 0.0
  }

  predicate InQuad(quad: seq<Point>, clockwise: bool, p: Point)
    requires |quad| == 4
  {
    && Inner(clockwise, quad[0], quad[1], p) && Inner(clockwise, quad[1], quad[2], p)
    && Inner(clockwise, quad[2], quad[3], p) && Inner(clockwise, quad[3], quad[0], p)
  }

  function Affine(a: real, b: real, g: real, p: Point): real {
    a + b * p.x + g * p.y
  }

  /** Between two places of a line, a linear quantity lies between its values there. */
  lemma Between(a: real, b: real, t: real, top: real)
    requires 0.0 <= t <= top && top > 0.0
    ensures a >= 0.0 && a + b * top >= 0.0 ==> a + b * t >= 0.0
    ensures a > 0.0 && a + b * top > 0.0 ==> a + b * t > 0.0
  {
    if b >= 0.0 {
      assert b * t >= 0.0;
    } else {
      assert b * (top - t) <= 0.0;
      assert b * t == b * top - b * (top - t);
    }
  }

  /** What is so at the four corners of a rectangle is so in all of it. */
  lemma OverRectangle(a: real, b: real, g: real, width: real, height: real, p: Point)
    requires width > 0.0 && height > 0.0 && InRectangle(p, width, height)
    ensures a >= 0.0 && a + b * width >= 0.0 && a + b * width + g * height >= 0.0 && a + g * height >= 0.0 ==>
      Affine(a, b, g, p) >= 0.0
    ensures a > 0.0 && a + b * width > 0.0 && a + b * width + g * height > 0.0 && a + g * height > 0.0 ==>
      Affine(a, b, g, p) > 0.0
  {
    var (bw, bx, gh, gy) := (b * width, b * p.x, g * height, g * p.y);
    Between(a, b, p.x, width);
    Between(a + gh, b, p.x, width);
    Between(a + bx, g, p.y, height);
    assert a + gh + bw == a + bw + gh && a + gh + bx == a + bx + gh;
    assert Affine(a, b, g, p) == a + bx + gy;
  }

  lemma SameSign(a: real, k: real, clockwise: bool)
    requires Toward(clockwise, k) > 0.0
    ensures a > 0.0 <==> Toward(clockwise, a * k) > 0.0
  {
    var m := Toward(clockwise, k);
    assert Toward(clockwise, a * k) == a * m;
    if a > 0.0 { assert a * m > 0.0; }
    if a <= 0.0 { assert a * m <= 0.0; }
  }

  lemma ConvexIsPositive(c: seq<real>, width: real, height: real, quad: seq<Point>, clockwise: bool)
    requires |c| == 8 && |quad| == 4 && ReachesAll(c, Rectangle(width, height), quad)
    requires Toward(clockwise, Cross(quad[1], quad[2], quad[3])) > 0.0
    ensures Turning(quad, clockwise) <==>
      Corner1(c, width) > 0.0 && Corner2(c, width, height) > 0.0 && Corner3(c, height) > 0.0
  {
    var k := Cross(quad[1], quad[2], quad[3]);
    TurnsAreDenominators(c, width, height, quad);
    SameSign(Corner1(c, width), k, clockwise);
    SameSign(Corner2(c, width, height), k, clockwise);
    SameSign(Corner3(c, height), k, clockwise);
  }

  lemma PositiveOverRectangle(c: seq<real>, width: real, height: real, p: Point)
    requires |c| == 8 && width > 0.0 && height > 0.0 && InRectangle(p, width, height)
    requires Corner1(c, width) > 0.0 && Corner2(c, width, height) > 0.0 && Corner3(c, height) > 0.0
    ensures Denominator(c, p) > 0.0
  {
    OverRectangle(1.0, c[6], c[7], width, height, p);
  }

  lemma NegativeFactor(b: real, top: real)
    requires top > 0.0 && b * top < 0.0
    ensures b < 0.0
  {
  }

  lemma Ordered(s: real, t: real, k: real)
    requires k > 0.0
    ensures s <= t <==> s * k <= t * k
  {
    if s <= t { assert (t - s) * k >= 0.0; } else { assert (s - t) * k > 0.0; }
  }

  /** A linear quantity that changes its sign is nothing in between. */
  lemma Vanishes(a: real, b: real, top: real) returns (t: real)
    requires top > 0.0 && a > 0.0 && a + b * top < 0.0
    ensures 0.0 <= t <= top && a + b * t == 0.0
  {
    NegativeFactor(b, top);
    t := a / -b;
    assert t * -b == a;
    assert b * t == -(t * -b);
    Ordered(t, top, -b);
    assert top * -b == -(b * top);
    Ordered(0.0, t, -b);
  }

  /** Where some corner's denominator is negative, it vanishes on the way there. */
  lemma NegativeVanishes(c: seq<real>, width: real, height: real) returns (p: Point)
    requires |c| == 8 && width > 0.0 && height > 0.0
    requires Corner1(c, width) != 0.0 && Corner2(c, width, height) != 0.0 && Corner3(c, height) != 0.0
    requires !(Corner1(c, width) > 0.0 && Corner2(c, width, height) > 0.0 && Corner3(c, height) > 0.0)
    ensures InRectangle(p, width, height) && Denominator(c, p) == 0.0
  {
    if Corner1(c, width) < 0.0 {
      var t := Vanishes(1.0, c[6], width);
      p := Point(t, 0.0);
    } else if Corner3(c, height) < 0.0 {
      var t := Vanishes(1.0, c[7], height);
      p := Point(0.0, t);
    } else {
      var t := Vanishes(Corner1(c, width), c[7], height);
      p := Point(width, t);
    }
  }

  /**
   * A map that reaches the corners of a quad not all in one line is defined all over the upright picture
   * if and only if the quad is strictly convex.
   */
  lemma DefinedIffConvex(c: seq<real>, width: real, height: real, quad: seq<Point>)
    requires |c| == 8 && |quad| == 4 && width > 0.0 && height > 0.0
    requires ReachesAll(c, Rectangle(width, height), quad) && !AllInLine(quad)
    ensures StrictlyConvex(quad) <==> forall p :: InRectangle(p, width, height) ==> Denominator(c, p) != 0.0
  {
    var r := Rectangle(width, height);
    ReachedIsGeneral(c, width, height, quad);
    NoThreeMeansTurns(quad);
    CornerDenominators(c, width, height);
    assert Denominator(c, r[1]) != 0.0 && Denominator(c, r[2]) != 0.0 && Denominator(c, r[3]) != 0.0;
    var clockwise := Cross(quad[1], quad[2], quad[3]) > 0.0;
    ConvexIsPositive(c, width, height, quad, clockwise);
    assert StrictlyConvex(quad) <==> Turning(quad, clockwise);
    if StrictlyConvex(quad) {
      forall p | InRectangle(p, width, height) ensures Denominator(c, p) != 0.0 {
        PositiveOverRectangle(c, width, height, p);
      }
    } else {
      var p := NegativeVanishes(c, width, height);
      assert InRectangle(p, width, height) && Denominator(c, p) == 0.0;
    }
  }

  // ------------------------------------------------------ inside the quad

  /** Twice the area of a mapped point with an edge, times its denominator: linear in the point. */
  function Side(c: seq<real>, a: Point, b: Point, p: Point): real
    requires |c| == 8
  {
    Off(b.x - a.x, b.y - a.y, a, Affine(c[2], c[0], c[1], p), Affine(c[5], c[3], c[4], p), Denominator(c, p))
  }

  /** How far x, y is off the line from a in direction ux, uy, all taken d times. */
  function Off(ux: real, uy: real, a: Point, x: real, y: real, d: real): real {
    ux * (y - a.y * d) - uy * (x - a.x * d)
  }

  lemma OffAdds(ux: real, uy: real, a: Point, x: real, y: real, d: real, x': real, y': real, d': real)
    ensures Off(ux, uy, a, x + x', y + y', d + d') == Off(ux, uy, a, x, y, d) + Off(ux, uy, a, x', y', d')
  {
    PartAdds(ux, a.y, y, d, y', d');
    PartAdds(uy, a.x, x, d, x', d');
  }

  lemma PartAdds(u: real, at: real, y: real, d: real, y': real, d': real)
    ensures u * (y + y' - at * (d + d')) == u * (y - at * d) + u * (y' - at * d')
  {
    assert at * (d + d') == at * d + at * d';
    assert u * ((y - at * d) + (y' - at * d')) == u * (y - at * d) + u * (y' - at * d');
  }

  lemma OffTimes(ux: real, uy: real, a: Point, x: real, y: real, d: real, t: real)
    ensures Off(ux, uy, a, x * t, y * t, d * t) == Off(ux, uy, a, x, y, d) * t
  {
    PartTimes(ux, a.y, y, d, t);
    PartTimes(uy, a.x, x, d, t);
    var (s, r) := (ux * (y - a.y * d), uy * (x - a.x * d));
    assert (s - r) * t == s * t - r * t;
  }

  lemma PartTimes(u: real, at: real, y: real, d: real, t: real)
    ensures u * (y * t - at * (d * t)) == u * (y - at * d) * t
  {
    assert at * (d * t) == at * d * t;
    assert y * t - at * d * t == (y - at * d) * t;
    assert u * ((y - at * d) * t) == u * (y - at * d) * t;
  }

  lemma SideIsArea(c: seq<real>, a: Point, b: Point, p: Point)
    requires |c| == 8 && Denominator(c, p) != 0.0
    ensures Side(c, a, b, p) == Denominator(c, p) * Cross(a, b, MapPoint(c, p))
  {
    var (d, q) := (Denominator(c, p), MapPoint(c, p));
    Undivided(Affine(c[2], c[0], c[1], p), d, q.x);
    Undivided(Affine(c[5], c[3], c[4], p), d, q.y);
    TimesArea(b.x - a.x, b.y - a.y, q.x - a.x, q.y - a.y, d);
    assert q.x * d - a.x * d == (q.x - a.x) * d && q.y * d - a.y * d == (q.y - a.y) * d;
  }

  lemma TimesArea(ux: real, uy: real, vx: real, vy: real, d: real)
    ensures ux * (vy * d) - uy * (vx * d) == d * (ux * vy - uy * vx)
  {
    assert ux * (vy * d) == d * (ux * vy) && uy * (vx * d) == d * (uy * vx);
    assert d * (ux * vy - uy * vx) == d * (ux * vy) - d * (uy * vx);
  }

  function SideAtOrigin(c: seq<real>, a: Point, b: Point): real
    requires |c| == 8
  {
    Off(b.x - a.x, b.y - a.y, a, c[2], c[5], 1.0)
  }

  function SidePerX(c: seq<real>, a: Point, b: Point): real
    requires |c| == 8
  {
    Off(b.x - a.x, b.y - a.y, a, c[0], c[3], c[6])
  }

  function SidePerY(c: seq<real>, a: Point, b: Point): real
    requires |c| == 8
  {
    Off(b.x - a.x, b.y - a.y, a, c[1], c[4], c[7])
  }

  lemma SideIsAffine(c: seq<real>, a: Point, b: Point, p: Point)
    requires |c| == 8
    ensures Side(c, a, b, p) == Affine(SideAtOrigin(c, a, b), SidePerX(c, a, b), SidePerY(c, a, b), p)
  {
    OffIsAffine(b.x - a.x, b.y - a.y, a, c[0], c[1], c[2], c[3], c[4], c[5], c[6], c[7], p);
  }

  lemma OffIsAffine(ux: real, uy: real, a: Point, c0: real, c1: real, c2: real, c3: real, c4: real, c5: real,
                    c6: real, c7: real, p: Point)
    ensures Off(ux, uy, a, Affine(c2, c0, c1, p), Affine(c5, c3, c4, p), c6 * p.x + c7 * p.y + 1.0)
         == Affine(Off(ux, uy, a, c2, c5, 1.0), Off(ux, uy, a, c0, c3, c6), Off(ux, uy, a, c1, c4, c7), p)
  {
    OffTimes(ux, uy, a, c0, c3, c6, p.x);
    OffTimes(ux, uy, a, c1, c4, c7, p.y);
    OffAdds(ux, uy, a, c2, c5, 1.0, c0 * p.x, c3 * p.x, c6 * p.x);
    OffAdds(ux, uy, a, c2 + c0 * p.x, c5 + c3 * p.x, 1.0 + c6 * p.x, c1 * p.y, c4 * p.y, c7 * p.y);
  }

  lemma FromCorners(a: real, b: real, g: real, width: real, height: real, clockwise: bool, p: Point)
    requires width > 0.0 && height > 0.0 && InRectangle(p, width, height)
    requires forall i :: 0 <= i < 4 ==> Toward(clockwise, Affine(a, b, g, Rectangle(width, height)[i])) >= 0.0
    ensures Toward(clockwise, Affine(a, b, g, p)) >= 0.0
  {
    var r := Rectangle(width, height);
    AtCorners(a, b, g, width, height);
    assert Toward(clockwise, Affine(a, b, g, r[0])) >= 0.0 && Toward(clockwise, Affine(a, b, g, r[1])) >= 0.0;
    assert Toward(clockwise, Affine(a, b, g, r[2])) >= 0.0 && Toward(clockwise, Affine(a, b, g, r[3])) >= 0.0;
    if clockwise {
      OverRectangle(a, b, g, width, height, p);
    } else {
      Negated(a, b, g, p);
      Negated(a, b, g, r[0]);
      Negated(a, b, g, r[1]);
      Negated(a, b, g, r[2]);
      Negated(a, b, g, r[3]);
      AtCorners(-a, -b, -g, width, height);
      OverRectangle(-a, -b, -g, width, height, p);
    }
  }

  lemma Negated(a: real, b: real, g: real, p: Point)
    ensures Affine(-a, -b, -g, p) == -Affine(a, b, g, p)
  {
    assert -b * p.x == -(b * p.x) && -g * p.y == -(g * p.y);
  }

  lemma AtCorners(a: real, b: real, g: real, width: real, height: real)
    ensures Affine(a, b, g, Rectangle(width, height)[0]) == a
    ensures Affine(a, b, g, Rectangle(width, height)[1]) == a + b * width
    ensures Affine(a, b, g, Rectangle(width, height)[2]) == a + b * width + g * height
    ensures Affine(a, b, g, Rectangle(width, height)[3]) == a + g * height
  {
    Nothing(b);
    Nothing(g);
  }

  lemma TowardTimes(clockwise: bool, d: real, area: real)
    requires d > 0.0
    ensures Toward(clockwise, d * area) >= 0.0 <==> Toward(clockwise, area) >= 0.0
  {
    Ordered(0.0, Toward(clockwise, area), d);
  }

  /** Where the denominator is positive, a point's side of an edge is its image's. */
  lemma SideIsInner(c: seq<real>, a: Point, b: Point, clockwise: bool, p: Point)
    requires |c| == 8 && Denominator(c, p) > 0.0
    ensures Toward(clockwise, Side(c, a, b, p)) >= 0.0 <==> Inner(clockwise, a, b, MapPoint(c, p))
  {
    SideIsArea(c, a, b, p);
    TowardTimes(clockwise, Denominator(c, p), Cross(a, b, MapPoint(c, p)));
  }

  lemma EdgeKeeps(c: seq<real>, width: real, height: real, quad: seq<Point>, clockwise: bool, a: Point, b: Point, p: Point)
    requires |c| == 8 && |quad| == 4 && width > 0.0 && height > 0.0 && InRectangle(p, width, height)
    requires ReachesAll(c, Rectangle(width, height), quad)
    requires Corner1(c, width) > 0.0 && Corner2(c, width, height) > 0.0 && Corner3(c, height) > 0.0
    requires forall i :: 0 <= i < 4 ==> Inner(clockwise, a, b, quad[i])
    ensures Denominator(c, p) > 0.0 && Inner(clockwise, a, b, MapPoint(c, p))
  {
    var r := Rectangle(width, height);
    CornerDenominators(c, width, height);
    forall i | 0 <= i < 4
      ensures Toward(clockwise, Affine(SideAtOrigin(c, a, b), SidePerX(c, a, b), SidePerY(c, a, b), r[i])) >= 0.0
    {
      assert MapPoint(c, r[i]) == quad[i] && Denominator(c, r[i]) > 0.0;
      SideIsInner(c, a, b, clockwise, r[i]);
      SideIsAffine(c, a, b, r[i]);
    }
    PositiveOverRectangle(c, width, height, p);
    FromCorners(SideAtOrigin(c, a, b), SidePerX(c, a, b), SidePerY(c, a, b), width, height, clockwise, p);
    SideIsAffine(c, a, b, p);
    SideIsInner(c, a, b, clockwise, p);
  }

  lemma OnEdge(a: Point, b: Point)
    ensures Cross(a, b, a) == 0.0 && Cross(a, b, b) == 0.0
  {
    assert (b.x - a.x) * (b.y - a.y) == (b.y - a.y) * (b.x - a.x);
  }

  /** Every corner of a convex quad is on the inner side of every edge. */
  lemma CornersInside(quad: seq<Point>, clockwise: bool)
    requires |quad| == 4 && Turning(quad, clockwise)
    ensures forall i :: 0 <= i < 4 ==> InQuad(quad, clockwise, quad[i])
  {
    CrossTurns(quad[0], quad[1], quad[2]);
    CrossTurns(quad[1], quad[2], quad[3]);
    CrossTurns(quad[2], quad[3], quad[0]);
    CrossTurns(quad[3], quad[0], quad[1]);
    OnEdge(quad[0], quad[1]);
    OnEdge(quad[1], quad[2]);
    OnEdge(quad[2], quad[3]);
    OnEdge(quad[3], quad[0]);
    assert InQuad(quad, clockwise, quad[0]) && InQuad(quad, clockwise, quad[1]);
    assert InQuad(quad, clockwise, quad[2]) && InQuad(quad, clockwise, quad[3]);
  }

  /**
   * From a strictly convex quad, every place of the upright picture is taken from a place inside the quad,
   * and none from outside it.
   */
  lemma SamplesInside(c: seq<real>, width: real, height: real, quad: seq<Point>, clockwise: bool, p: Point)
    requires |c| == 8 && |quad| == 4 && width > 0.0 && height > 0.0 && InRectangle(p, width, height)
    requires ReachesAll(c, Rectangle(width, height), quad) && Turning(quad, clockwise)
    ensures Denominator(c, p) > 0.0 && InQuad(quad, clockwise, MapPoint(c, p))
  {
    ConvexIsPositive(c, width, height, quad, clockwise);
    CornersInside(quad, clockwise);
    EdgeKeeps(c, width, height, quad, clockwise, quad[0], quad[1], p);
    EdgeKeeps(c, width, height, quad, clockwise, quad[1], quad[2], p);
    EdgeKeeps(c, width, height, quad, clockwise, quad[2], quad[3], p);
    EdgeKeeps(c, width, height, quad, clockwise, quad[3], quad[0], p);
  }
}
