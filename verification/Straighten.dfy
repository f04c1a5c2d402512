/**
 * Straightening a quadrilateral: the map from the upright rectangle reaches each corner of the quad
 * exactly, as soon as no three of the corners stand in a line.
 */
module Straighten {
  import opened Elimination

  function Denominator(c: seq<real>, p: Point): real
    requires |c| == 8
  {
    c[6] * p.x + c[7] * p.y + 1.0
  }

  function MapPoint(c: seq<real>, p: Point): Point
    requires |c| == 8 && Denominator(c, p) != 0.0
  {
    Point((c[0] * p.x + c[1] * p.y + c[2]) / Denominator(c, p), (c[3] * p.x + c[4] * p.y + c[5]) / Denominator(c, p))
  }

  /** Twice the area of the triangle p, q, r, signed; zero when they stand in a line. */
  function Cross(p: Point, q: Point, r: Point): real {
    (q.x - p.x) * (r.y - p.y) - (q.y - p.y) * (r.x - p.x)
  }

  lemma DotNine(row: Row, v: Vector)
    ensures Dot(row, v, 9) == row[0] * v[0] + row[1] * v[1] + row[2] * v[2] + row[3] * v[3] + row[4] * v[4]
                            + row[5] * v[5] + row[6] * v[6] + row[7] * v[7] + row[8] * v[8]
  {
    assert Dot(row, v, 1) == row[0] * v[0];
    assert Dot(row, v, 2) == Dot(row, v, 1) + row[1] * v[1];
    assert Dot(row, v, 3) == Dot(row, v, 2) + row[2] * v[2];
    assert Dot(row, v, 4) == Dot(row, v, 3) + row[3] * v[3];
    assert Dot(row, v, 5) == Dot(row, v, 4) + row[4] * v[4];
    assert Dot(row, v, 6) == Dot(row, v, 5) + row[5] * v[5];
    assert Dot(row, v, 7) == Dot(row, v, 6) + row[6] * v[6];
    assert Dot(row, v, 8) == Dot(row, v, 7) + row[7] * v[7];
  }

  /** What the two equations of a corner say of a vector. */
  ghost predicate Meets(v: Vector, p: Point, q: Point) {
    var w := v[6] * p.x + v[7] * p.y - v[8];
    v[0] * p.x + v[1] * p.y + v[2] == q.x * w && v[3] * p.x + v[4] * p.y + v[5] == q.y * w
  }

  lemma FactorOut(a: real, b: real, g: real, h: real, e: real, q: real)
    ensures -a * q * g + -b * q * h + q * e == -(q * (g * a + h * b - e))
  {
  }

  lemma EquationsMeet(v: Vector, p: Point, q: Point)
    ensures Dot(EquationX(p, q), v, 9) == 0.0 && Dot(EquationY(p, q), v, 9) == 0.0 <==> Meets(v, p, q)
  {
    DotNine(EquationX(p, q), v);
    DotNine(EquationY(p, q), v);
    FactorOut(p.x, p.y, v[6], v[7], v[8], q.x);
    FactorOut(p.x, p.y, v[6], v[7], v[8], q.y);
  }

  ghost predicate AllMeet(v: Vector, from: seq<Point>, to: seq<Point>)
    requires |from| == 4 && |to| == 4
  {
    forall i :: 0 <= i < 4 ==> Meets(v, from[i], to[i])
  }

  lemma AnnihilatesMeets(from: seq<Point>, to: seq<Point>, v: Vector)
    requires |from| == 4 && |to| == 4
    ensures Annihilates(Equations(from, to), v) <==> AllMeet(v, from, to)
  {
    var m := Equations(from, to);
    forall i | 0 <= i < 4
      ensures Meets(v, from[i], to[i]) <==> Dot(m[2 * i], v, 9) == 0.0 && Dot(m[2 * i + 1], v, 9) == 0.0
    {
      assert m[2 * i] == EquationX(from[i], to[i]) && m[2 * i + 1] == EquationY(from[i], to[i]);
      EquationsMeet(v, from[i], to[i]);
    }
    if AllMeet(v, from, to) {
      forall j | 0 <= j < 8 ensures Dot(m[j], v, 9) == 0.0 {
        assert j == 2 * (j / 2) || j == 2 * (j / 2) + 1;
        assert Meets(v, from[j / 2], to[j / 2]);
      }
    }
  }

  /**
   * The coefficients the elimination returns take each corner to its partner, wherever the map is
   * defined there.
   */
  lemma SolutionMapsCorners(from: seq<Point>, to: seq<Point>, c: seq<real>, i: nat)
    requires |from| == 4 && |to| == 4 && |c| == 8 && Solves(Equations(from, to), c)
    requires i < 4 && Denominator(c, from[i]) != 0.0
    ensures MapPoint(c, from[i]) == to[i]
  {
    var v: Vector := c + [-1.0];
    AnnihilatesMeets(from, to, v);
    assert Meets(v, from[i], to[i]);
    var d := Denominator(c, from[i]);
    DivideOut(to[i].x, d);
    DivideOut(to[i].y, d);
  }

  lemma DivideOut(q: real, d: real)
    requires d != 0.0
    ensures q * d / d == q
  {
  }

  // -------------------------------------------------- from a rectangle

  /** The upright picture's corners: top-left, top-right, bottom-right, bottom-left. */
  function Rectangle(width: real, height: real): seq<Point> {
    [Point(0.0, 0.0), Point(width, 0.0), Point(width, height), Point(0.0, height)]
  }

  /** A corner's two equations, g * u + h * v being given. */
  predicate Reaches(x: real, y: real, q: Point, w: real) {
    x == q.x * w && y == q.y * w
  }

  /** On a rectangle the eight equations come down to these. */
  ghost predicate RectangleMeets(v: Vector, width: real, height: real, to: seq<Point>)
    requires |to| == 4
  {
    && Reaches(v[2], v[5], to[0], -v[8])
    && Reaches(v[0] * width + v[2], v[3] * width + v[5], to[1], v[6] * width - v[8])
    && Reaches(v[0] * width + v[1] * height + v[2], v[3] * width + v[4] * height + v[5], to[2],
               v[6] * width + v[7] * height - v[8])
    && Reaches(v[1] * height + v[2], v[4] * height + v[5], to[3], v[7] * height - v[8])
  }

  lemma AtOrigin(v: Vector, q: Point)
    ensures Meets(v, Point(0.0, 0.0), q) <==> Reaches(v[2], v[5], q, -v[8])
  {
    Nothing(v[0]);
    Nothing(v[1]);
    Nothing(v[3]);
    Nothing(v[4]);
    Nothing(v[6]);
    Nothing(v[7]);
  }

  lemma AlongTop(v: Vector, x: real, q: Point)
    ensures Meets(v, Point(x, 0.0), q) <==> Reaches(v[0] * x + v[2], v[3] * x + v[5], q, v[6] * x - v[8])
  {
    Nothing(v[1]);
    Nothing(v[4]);
    Nothing(v[7]);
  }

  lemma AlongSide(v: Vector, y: real, q: Point)
    ensures Meets(v, Point(0.0, y), q) <==> Reaches(v[1] * y + v[2], v[4] * y + v[5], q, v[7] * y - v[8])
  {
    Nothing(v[0]);
    Nothing(v[3]);
    Nothing(v[6]);
  }

  lemma AtFarCorner(v: Vector, x: real, y: real, q: Point)
    ensures Meets(v, Point(x, y), q) <==>
      Reaches(v[0] * x + v[1] * y + v[2], v[3] * x + v[4] * y + v[5], q, v[6] * x + v[7] * y - v[8])
  {
  }

  lemma FourMeet(v: Vector, from: seq<Point>, to: seq<Point>)
    requires |from| == 4 && |to| == 4
    ensures AllMeet(v, from, to) <==>
      Meets(v, from[0], to[0]) && Meets(v, from[1], to[1]) && Meets(v, from[2], to[2]) && Meets(v, from[3], to[3])
  {
    if Meets(v, from[0], to[0]) && Meets(v, from[1], to[1]) && Meets(v, from[2], to[2]) && Meets(v, from[3], to[3]) {
      forall i | 0 <= i < 4 ensures Meets(v, from[i], to[i]) {
        assert i == 0 || i == 1 || i == 2 || i == 3;
      }
    }
  }

  lemma RectangleEquations(v: Vector, width: real, height: real, to: seq<Point>)
    requires |to| == 4
    ensures AllMeet(v, Rectangle(width, height), to) <==> RectangleMeets(v, width, height, to)
  {
    var r := Rectangle(width, height);
    FourMeet(v, r, to);
    AtOrigin(v, to[0]);
    AlongTop(v, width, to[1]);
    AtFarCorner(v, width, height, to[2]);
    AlongSide(v, height, to[3]);
  }

  lemma NoProduct(a: real, b: real)
    requires b != 0.0 && a * b == 0.0
    ensures a == 0.0
  {
  }

  /** Two combinations of two directions vanish only when both factors do, or the directions agree. */
  lemma TwoDirections(g: real, h: real, ux: real, uy: real, vx: real, vy: real)
    requires g * ux + h * vx == 0.0 && g * uy + h * vy == 0.0 && ux * vy - uy * vx != 0.0
    ensures g == 0.0 && h == 0.0
  {
    var d := ux * vy - uy * vx;
    assert g * d == (g * ux + h * vx) * vy - (g * uy + h * vy) * vx;
    assert h * d == (g * uy + h * vy) * ux - (g * ux + h * vx) * uy;
    NoProduct(g, d);
    NoProduct(h, d);
  }

  /**
   * The equations determine the map exactly when the three corners other than the top-left do not stand
   * in a line.
   */
  lemma RectangleIsRegular(width: real, height: real, to: seq<Point>)
    requires width > 0.0 && height > 0.0 && |to| == 4
    ensures Regular(Equations(Rectangle(width, height), to)) <==> Cross(to[2], to[1], to[3]) != 0.0
  {
    if Cross(to[2], to[1], to[3]) != 0.0 {
      forall v: Vector | v[8] == 0.0 && Annihilates(Equations(Rectangle(width, height), to), v)
        ensures Zero(v)
      {
        AnnihilatesMeets(Rectangle(width, height), to, v);
        RectangleEquations(v, width, height, to);
        KernelIsZero(v, width, height, to);
      }
    } else {
      var v := LineKernel(width, height, to);
      AnnihilatesMeets(Rectangle(width, height), to, v);
      RectangleEquations(v, width, height, to);
    }
  }

  lemma KernelIsZero(v: Vector, width: real, height: real, to: seq<Point>)
    requires width > 0.0 && height > 0.0 && |to| == 4 && Cross(to[2], to[1], to[3]) != 0.0
    requires v[8] == 0.0 && RectangleMeets(v, width, height, to)
    ensures Zero(v)
  {
    var (gw, hh) := (v[6] * width, v[7] * height);
    assert gw * (to[1].x - to[2].x) + hh * (to[3].x - to[2].x) == 0.0;
    assert gw * (to[1].y - to[2].y) + hh * (to[3].y - to[2].y) == 0.0;
    TwoDirections(gw, hh, to[1].x - to[2].x, to[1].y - to[2].y, to[3].x - to[2].x, to[3].y - to[2].y);
    NoProduct(v[6], width);
    NoProduct(v[7], height);
    NoProduct(v[0], width);
    NoProduct(v[1], height);
    NoProduct(v[3], width);
    NoProduct(v[4], height);
  }

  /** Factors, not both zero, that cancel two directions in a line. */
  lemma Dependent(ux: real, uy: real, vx: real, vy: real) returns (g: real, h: real)
    requires ux * vy - uy * vx == 0.0
    ensures g * ux + h * vx == 0.0 && g * uy + h * vy == 0.0 && (g != 0.0 || h != 0.0)
  {
    if ux == 0.0 && uy == 0.0 {
      g, h := 1.0, 0.0;
    } else if ux != 0.0 {
      g, h := -vx, ux;
    } else {
      g, h := -vy, uy;
    }
  }

  lemma Cancel(a: real, w: real)
    requires w != 0.0
    ensures a / w * w == a
  {
  }

  lemma LineKernel(width: real, height: real, to: seq<Point>) returns (v: Vector)
    requires width > 0.0 && height > 0.0 && |to| == 4 && Cross(to[2], to[1], to[3]) == 0.0
    ensures v[8] == 0.0 && RectangleMeets(v, width, height, to) && !Zero(v)
  {
    var g, h := Dependent(to[1].x - to[2].x, to[1].y - to[2].y, to[3].x - to[2].x, to[3].y - to[2].y);
    var (ax, bx) := (to[1].x * g, to[3].x * h);
    var (ay, by_) := (to[1].y * g, to[3].y * h);
    assert ax + bx == to[2].x * (g + h) && ay + by_ == to[2].y * (g + h);
    v := [ax / width, bx / height, 0.0, ay / width, by_ / height, 0.0, g / width, h / height, 0.0];
    KernelMeets(v, width, height, to, g, h);
    assert g != 0.0 ==> v[6] != 0.0 by { Cancel(g, width); }
    assert h != 0.0 ==> v[7] != 0.0 by { Cancel(h, height); }
  }

  lemma KernelMeets(v: Vector, width: real, height: real, to: seq<Point>, g: real, h: real)
    requires width > 0.0 && height > 0.0 && |to| == 4
    requires v == [to[1].x * g / width, to[3].x * h / height, 0.0, to[1].y * g / width, to[3].y * h / height, 0.0,
                   g / width, h / height, 0.0]
    requires to[1].x * g + to[3].x * h == to[2].x * (g + h) && to[1].y * g + to[3].y * h == to[2].y * (g + h)
    ensures RectangleMeets(v, width, height, to)
  {
    Cancel(g, width);
    Cancel(h, height);
    Cancel(to[1].x * g, width);
    Cancel(to[3].x * h, height);
    Cancel(to[1].y * g, width);
    Cancel(to[3].y * h, height);
    FactorsMeet(v, width, height, to, g, h);
  }

  lemma FactorsMeet(v: Vector, width: real, height: real, to: seq<Point>, g: real, h: real)
    requires |to| == 4 && v[2] == 0.0 && v[5] == 0.0 && v[8] == 0.0
    requires v[6] * width == g && v[7] * height == h
    requires v[0] * width == to[1].x * g && v[1] * height == to[3].x * h
    requires v[3] * width == to[1].y * g && v[4] * height == to[3].y * h
    requires to[1].x * g + to[3].x * h == to[2].x * (g + h) && to[1].y * g + to[3].y * h == to[2].y * (g + h)
    ensures RectangleMeets(v, width, height, to)
  {
  }

  // ------------------------------------------------- defined at corners

  ghost predicate NoThreeInLine(to: seq<Point>)
    requires |to| == 4
  {
    && Cross(to[2], to[1], to[3]) != 0.0 && Cross(to[2], to[0], to[3]) != 0.0
    && Cross(to[2], to[0], to[1]) != 0.0 && Cross(to[0], to[1], to[3]) != 0.0
  }

  /** p = q + t (r - q) puts the three in a line. */
  lemma OnLine(p: Point, q: Point, r: Point, t: real)
    requires p.x - q.x == t * (r.x - q.x) && p.y - q.y == t * (r.y - q.y)
    ensures Cross(q, p, r) == 0.0
  {
    assert (p.x - q.x) * (r.y - q.y) == t * ((r.x - q.x) * (r.y - q.y));
    assert (p.y - q.y) * (r.x - q.x) == t * ((r.x - q.x) * (r.y - q.y));
  }

  /** The corners' denominators d1, d2 = d1 + d3 - 1, d3 cannot vanish. */
  lemma CornersDefined(to: seq<Point>, d1: real, d3: real)
    requires |to| == 4 && NoThreeInLine(to)
    requires d1 * to[1].x + d3 * to[3].x - to[0].x == (d1 + d3 - 1.0) * to[2].x
    requires d1 * to[1].y + d3 * to[3].y - to[0].y == (d1 + d3 - 1.0) * to[2].y
    ensures d1 != 0.0 && d3 != 0.0 && d1 + d3 - 1.0 != 0.0
  {
    var (p0, p1, p2, p3) := (to[0], to[1], to[2], to[3]);
    if d1 == 0.0 {
      assert p0.x - p2.x == d3 * (p3.x - p2.x) && p0.y - p2.y == d3 * (p3.y - p2.y);
      OnLine(p0, p2, p3, d3);
    }
    if d3 == 0.0 {
      assert p0.x - p2.x == d1 * (p1.x - p2.x) && p0.y - p2.y == d1 * (p1.y - p2.y);
      OnLine(p0, p2, p1, d1);
    }
    if d1 + d3 - 1.0 == 0.0 {
      assert p0.x == d1 * p1.x + (1.0 - d1) * p3.x && p0.y == d1 * p1.y + (1.0 - d1) * p3.y;
      assert p3.x - p0.x == d1 * (p3.x - p1.x) && p3.y - p0.y == d1 * (p3.y - p1.y);
      BetweenInLine(p0, p1, p3, d1);
    }
  }

  lemma BetweenInLine(p: Point, q: Point, r: Point, t: real)
    requires r.x - p.x == t * (r.x - q.x) && r.y - p.y == t * (r.y - q.y)
    ensures Cross(p, q, r) == 0.0
  {
    assert (q.x - p.x) == (t - 1.0) * (r.x - q.x);
    assert (q.y - p.y) == (t - 1.0) * (r.y - q.y);
    Proportional(t - 1.0, t, r.x - q.x, r.y - q.y);
  }

  lemma Proportional(s: real, t: real, a: real, b: real)
    ensures (s * a) * (t * b) - (s * b) * (t * a) == 0.0
  {
    assert (s * a) * (t * b) == s * t * (a * b);
    assert (s * b) * (t * a) == s * t * (a * b);
  }

  /** With no three corners in a line, coefficients that solve the equations reach all four. */
  lemma MapsAllCorners(width: real, height: real, quad: seq<Point>, c: seq<real>)
    requires |quad| == 4 && |c| == 8 && Solves(Equations(Rectangle(width, height), quad), c)
    requires NoThreeInLine(quad)
    ensures forall i :: 0 <= i < 4 ==>
      Denominator(c, Rectangle(width, height)[i]) != 0.0 && MapPoint(c, Rectangle(width, height)[i]) == quad[i]
  {
    var v: Vector := c + [-1.0];
    AnnihilatesMeets(Rectangle(width, height), quad, v);
    RectangleEquations(v, width, height, quad);
    var (d1, d3) := (c[6] * width + 1.0, c[7] * height + 1.0);
    assert d1 * quad[1].x + d3 * quad[3].x - quad[0].x == (d1 + d3 - 1.0) * quad[2].x;
    assert d1 * quad[1].y + d3 * quad[3].y - quad[0].y == (d1 + d3 - 1.0) * quad[2].y;
    CornersDefined(quad, d1, d3);
    forall i | 0 <= i < 4
      ensures Denominator(c, Rectangle(width, height)[i]) != 0.0 && MapPoint(c, Rectangle(width, height)[i]) == quad[i]
    {
      assert i == 0 || i == 1 || i == 2 || i == 3;
      SolutionMapsCorners(Rectangle(width, height), quad, c, i);
    }
  }
}
