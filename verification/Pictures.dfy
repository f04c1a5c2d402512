/** What the straightened picture shows: the photo's own pixels, and whatever changes evenly across it. */
module Pictures {
  import opened Collinear
  import opened Elimination
  import opened Otsu
  import opened Quads
  import opened Scan
  import opened Straighten

  // ------------------------------------------------- shown of the photo

  /** In place of a pixel's middle, away from the last column and row: that pixel. */
  lemma PixelIsShown(source: seq<Byte>, sw: nat, sh: nat, x: nat, y: nat, k: nat)
    requires HasPixels(source, sw, sh) && x + 1 < sw && y + 1 < sh && k < 4
    ensures 4 * (y * sw + x) + k < |source|
    ensures ShownAt(source, sw, sh, Point(x as real + 0.5, y as real + 0.5), k) == source[4 * (y * sw + x) + k] as real
  {
    PixelInSource(source, sw, sh, x, y, k);
    Unmoved(x, sw);
    Unmoved(y, sh);
  }

  lemma Unmoved(x: nat, side: nat)
    requires x + 1 < side
    ensures Clamped(x as real + 0.5 - 0.5, side) == x as real && (x as real).Floor == x
  {
  }

  /** What changes evenly, by b across and by g down. */
  function Plane(a: real, b: real, g: real, x: real, y: real): real {
    a + b * x + g * y
  }

  /** The channel of pixel x, y, in a photo where it changes evenly, by b a pixel across and by g a pixel down. */
  predicate EvenAt(source: seq<Byte>, sw: nat, sh: nat, k: nat, a: real, b: real, g: real, x: nat, y: nat)
    requires HasPixels(source, sw, sh) && k < 4 && x < sw && y < sh
  {
    PixelInSource(source, sw, sh, x, y, k);
    source[4 * (y * sw + x) + k] as real == Plane(a, b, g, x as real, y as real)
  }

  predicate Even(source: seq<Byte>, sw: nat, sh: nat, k: nat, a: real, b: real, g: real)
    requires HasPixels(source, sw, sh) && k < 4
  {
    forall x: nat, y: nat {:trigger EvenAt(source, sw, sh, k, a, b, g, x, y)} :: x < sw && y < sh ==>
      EvenAt(source, sw, sh, k, a, b, g, x, y)
  }

  /** Between pixels it is shown as evenly, at every place whose four pixels are in the photo. */
  lemma EvenIsShown(source: seq<Byte>, sw: nat, sh: nat, k: nat, a: real, b: real, g: real, p: Point)
    requires HasPixels(source, sw, sh) && sw >= 2 && sh >= 2 && k < 4 && Even(source, sw, sh, k, a, b, g)
    requires 0.5 <= p.x <= sw as real - 0.501 && 0.5 <= p.y <= sh as real - 0.501
    ensures ShownAt(source, sw, sh, p, k) == Plane(a, b, g, p.x - 0.5, p.y - 0.5)
  {
    ShownIsSampled(source, sw, sh, p, k);
    EvenIsSampled(source, sw, sh, k, a, b, g, p.x - 0.5, p.y - 0.5);
  }

  lemma ShownIsSampled(source: seq<Byte>, sw: nat, sh: nat, p: Point, k: nat)
    requires HasPixels(source, sw, sh) && sw >= 2 && sh >= 2 && k < 4
    requires 0.5 <= p.x <= sw as real - 0.501 && 0.5 <= p.y <= sh as real - 0.501
    ensures 0 <= (p.x - 0.5).Floor && (p.x - 0.5).Floor + 1 < sw && 0 <= (p.y - 0.5).Floor && (p.y - 0.5).Floor + 1 < sh
    ensures ShownAt(source, sw, sh, p, k) == Sampled(source, sw, sh, p.x - 0.5, p.y - 0.5, k)
  {
    NotClamped(p.x, sw);
    NotClamped(p.y, sh);
  }

  lemma NotClamped(m: real, side: nat)
    requires side >= 2 && 0.5 <= m <= side as real - 0.501
    ensures Clamped(m - 0.5, side) == m - 0.5 && 0 <= (m - 0.5).Floor && (m - 0.5).Floor + 1 < side
  {
    ClampMovesLittle(m, side);
    ClampedInPhoto(side);
    assert 0 <= Clamped(m - 0.5, side).Floor && Clamped(m - 0.5, side).Floor + 1 < side;
  }

  /** What the four pixels around a place come to. */
  lemma FourAround(source: seq<Byte>, sw: nat, sh: nat, x: real, y: real, k: nat, p: real, q: real, r: real, s: real)
    requires HasPixels(source, sw, sh) && k < 4
    requires 0 <= x.Floor && x.Floor + 1 < sw && 0 <= y.Floor && y.Floor + 1 < sh
    requires HoldsAt(source, sw, sh, k, x.Floor, y.Floor, p) && HoldsAt(source, sw, sh, k, x.Floor + 1, y.Floor, q)
    requires HoldsAt(source, sw, sh, k, x.Floor, y.Floor + 1, r) && HoldsAt(source, sw, sh, k, x.Floor + 1, y.Floor + 1, s)
    ensures Sampled(source, sw, sh, x, y, k)
         == Blend(Blend(p, q, x - x.Floor as real), Blend(r, s, x - x.Floor as real), y - y.Floor as real)
  {
  }

  predicate HoldsAt(source: seq<Byte>, sw: nat, sh: nat, k: nat, x: nat, y: nat, value: real)
    requires HasPixels(source, sw, sh) && k < 4 && x < sw && y < sh
  {
    PixelInSource(source, sw, sh, x, y, k);
    source[4 * (y * sw + x) + k] as real == value
  }

  lemma EvenHolds(source: seq<Byte>, sw: nat, sh: nat, k: nat, a: real, b: real, g: real, x: nat, y: nat, u: real, v: real)
    returns (value: real)
    requires HasPixels(source, sw, sh) && k < 4 && Even(source, sw, sh, k, a, b, g) && x < sw && y < sh
    requires u == x as real && v == y as real
    ensures value == Plane(a, b, g, u, v) && HoldsAt(source, sw, sh, k, x, y, value)
  {
    value := Plane(a, b, g, u, v);
    assert EvenAt(source, sw, sh, k, a, b, g, x, y);
  }

  lemma EvenIsSampled(source: seq<Byte>, sw: nat, sh: nat, k: nat, a: real, b: real, g: real, x: real, y: real)
    requires HasPixels(source, sw, sh) && k < 4 && Even(source, sw, sh, k, a, b, g)
    requires 0 <= x.Floor && x.Floor + 1 < sw && 0 <= y.Floor && y.Floor + 1 < sh
    ensures Sampled(source, sw, sh, x, y, k) == Plane(a, b, g, x, y)
  {
    var p, q, r, s := FourHold(source, sw, sh, k, a, b, g, x, y);
    FourAround(source, sw, sh, x, y, k, p, q, r, s);
  }

  lemma FourHold(source: seq<Byte>, sw: nat, sh: nat, k: nat, a: real, b: real, g: real, x: real, y: real)
    returns (p: real, q: real, r: real, s: real)
    requires HasPixels(source, sw, sh) && k < 4 && Even(source, sw, sh, k, a, b, g)
    requires 0 <= x.Floor && x.Floor + 1 < sw && 0 <= y.Floor && y.Floor + 1 < sh
    ensures HoldsAt(source, sw, sh, k, x.Floor, y.Floor, p) && HoldsAt(source, sw, sh, k, x.Floor + 1, y.Floor, q)
    ensures HoldsAt(source, sw, sh, k, x.Floor, y.Floor + 1, r) && HoldsAt(source, sw, sh, k, x.Floor + 1, y.Floor + 1, s)
    ensures Blend(Blend(p, q, x - x.Floor as real), Blend(r, s, x - x.Floor as real), y - y.Floor as real) == Plane(a, b, g, x, y)
  {
    var (u, v) := (x.Floor as real, y.Floor as real);
    p := EvenHolds(source, sw, sh, k, a, b, g, x.Floor, y.Floor, u, v);
    q := EvenHolds(source, sw, sh, k, a, b, g, x.Floor + 1, y.Floor, u + 1.0, v);
    r := EvenHolds(source, sw, sh, k, a, b, g, x.Floor, y.Floor + 1, u, v + 1.0);
    s := EvenHolds(source, sw, sh, k, a, b, g, x.Floor + 1, y.Floor + 1, u + 1.0, v + 1.0);
    FourAreEven(a, b, g, u, v, x - u, y - v);
  }

  lemma FourAreEven(a: real, b: real, g: real, x: real, y: real, fx: real, fy: real)
    ensures Blend(Blend(Plane(a, b, g, x, y), Plane(a, b, g, x + 1.0, y), fx),
                  Blend(Plane(a, b, g, x, y + 1.0), Plane(a, b, g, x + 1.0, y + 1.0), fx), fy)
         == Plane(a, b, g, x + fx, y + fy)
  {
    Across(a, b, g, x, y, fx);
    Across(a, b, g, x, y + 1.0, fx);
    Down(a, b, g, x + fx, y, fy);
  }

  lemma Across(a: real, b: real, g: real, x: real, y: real, f: real)
    ensures Blend(Plane(a, b, g, x, y), Plane(a, b, g, x + 1.0, y), f) == Plane(a, b, g, x + f, y)
  {
    assert b * (x + 1.0) == b * x + b && b * (x + f) == b * x + b * f;
  }

  lemma Down(a: real, b: real, g: real, x: real, y: real, f: real)
    ensures Blend(Plane(a, b, g, x, y), Plane(a, b, g, x, y + 1.0), f) == Plane(a, b, g, x, y + f)
  {
    assert g * (y + 1.0) == g * y + g && g * (y + f) == g * y + g * f;
  }

  // ------------------------------------------------------ upright quads

  /** The quad is an upright part of the photo, from left to right and top to bottom. */
  predicate Upright(quad: seq<Point>, left: real, top: real, right: real, bottom: real) {
    && |quad| == 4 && quad[0] == Point(left, top) && quad[1] == Point(right, top)
    && quad[2] == Point(right, bottom) && quad[3] == Point(left, bottom)
  }

  lemma UprightHasNoThree(quad: seq<Point>, left: real, top: real, right: real, bottom: real)
    requires Upright(quad, left, top, right, bottom) && left != right && top != bottom
    ensures NoThreeInLine(quad)
  {
    var (a, b) := (right - left, bottom - top);
    if a * b == 0.0 { NoProduct(a, b); }
    UprightAreas(quad[0], quad[1], quad[2], quad[3], a, b);
  }

  lemma UprightAreas(p: Point, q: Point, r: Point, s: Point, a: real, b: real)
    requires q.x - p.x == a && r.y - q.y == b && r.x == q.x && s.x == p.x && q.y == p.y && s.y == r.y
    ensures Cross(r, q, s) == -(a * b) && Cross(r, p, s) == -(a * b) && Cross(r, p, q) == a * b && Cross(p, q, s) == a * b
  {
    assert (-b) * (-a) == a * b && (-a) * (-b) == a * b;
  }

  lemma UprightSolved(width: real, height: real, quad: seq<Point>, left: real, top: real, right: real, bottom: real)
    requires width > 0.0 && height > 0.0 && Upright(quad, left, top, right, bottom) && left != right && top != bottom
    ensures RectangleMeets(HomographyOf(Rectangle(width, height), quad) + [-1.0], width, height, quad)
  {
    var c := HomographyOf(Rectangle(width, height), quad);
    UprightHasNoThree(quad, left, top, right, bottom);
    ReachesIff(width, height, quad);
    ReachedIsSolved(c, Rectangle(width, height), quad);
    AnnihilatesMeets(Rectangle(width, height), quad, c + [-1.0]);
    RectangleEquations(c + [-1.0], width, height, quad);
  }

  /** A part of the photo that stands upright is cut out and scaled: nothing is turned or slanted. */
  lemma UprightIsCut(width: real, height: real, quad: seq<Point>, left: real, top: real, right: real, bottom: real, p: Point)
    requires width > 0.0 && height > 0.0 && Upright(quad, left, top, right, bottom) && left != right && top != bottom
    ensures var c := HomographyOf(Rectangle(width, height), quad);
            && Denominator(c, p) == 1.0
            && MapPoint(c, p) == Point(left + p.x * (right - left) / width, top + p.y * (bottom - top) / height)
  {
    var c := HomographyOf(Rectangle(width, height), quad);
    UprightSolved(width, height, quad, left, top, right, bottom);
    UprightCoefficients(c + [-1.0], width, height, quad, left, top, right, bottom);
    Scaled(c[0], p.x, width, right - left);
    Scaled(c[4], p.y, height, bottom - top);
    OnlyScaled(c, p, left, top);
  }

  lemma OnlyScaled(c: seq<real>, p: Point, left: real, top: real)
    requires |c| == 8 && c[1] == c[3] == c[6] == c[7] == 0.0 && c[2] == left && c[5] == top
    ensures Denominator(c, p) == 1.0 && MapPoint(c, p) == Point(c[0] * p.x + left, c[4] * p.y + top)
  {
    assert c[1] * p.y == 0.0 && c[3] * p.x == 0.0 && c[6] * p.x == 0.0 && c[7] * p.y == 0.0;
  }

  lemma Scaled(c: real, x: real, width: real, across: real)
    requires width > 0.0 && c * width == across
    ensures c * x == x * across / width
  {
    assert x * across == c * x * width;
    DivideOut(c * x, width);
  }

  /** What the eight equations say of an upright quad. */
  lemma UprightCoefficients(v: Vector, width: real, height: real, quad: seq<Point>, left: real, top: real, right: real, bottom: real)
    requires width > 0.0 && height > 0.0 && Upright(quad, left, top, right, bottom) && left != right && top != bottom
    requires v[8] == -1.0 && RectangleMeets(v, width, height, quad)
    ensures v[6] == 0.0 && v[7] == 0.0 && v[2] == left && v[5] == top && v[1] == 0.0 && v[3] == 0.0
    ensures v[0] * width == right - left && v[4] * height == bottom - top
  {
    var (g, h) := (v[6] * width, v[7] * height);
    OneWay(v[0] * width, v[1] * height, left, right, g, h);
    OneWay(v[4] * height, v[3] * width, top, bottom, h, g);
    NoProduct(v[6], width);
    NoProduct(v[7], height);
    NoProduct(v[1], height);
    NoProduct(v[3], width);
  }

  /** Along one side of the quad the coordinate changes, along the other it does not. */
  lemma OneWay(along: real, beside: real, from: real, to: real, g: real, h: real)
    requires from != to
    requires along + from == to * (g + 1.0) && beside + from == from * (h + 1.0)
    requires along + beside + from == to * (g + h + 1.0)
    ensures h == 0.0 && beside == 0.0 && along == to - from + to * g
  {
    assert from * (h + 1.0) == from * h + from;
    assert to * (g + 1.0) == to * g + to && to * (g + h + 1.0) == to * g + to * h + to;
    assert h * (to - from) == to * h - from * h;
    NoProduct(h, to - from);
  }

  lemma OwnOutlineIsKept(width: real, height: real, p: Point)
    requires width > 0.0 && height > 0.0
    ensures var c := HomographyOf(Rectangle(width, height), Rectangle(width, height));
            Denominator(c, p) == 1.0 && MapPoint(c, p) == p
  {
    UprightIsCut(width, height, Rectangle(width, height), 0.0, 0.0, width, height, p);
    DivideOut(p.x, width);
    DivideOut(p.y, height);
  }

  /** What is pulled for pixel u, v. */
  lemma PulledAt(o: seq<real>, source: seq<Byte>, sw: nat, sh: nat, width: nat, height: nat, c: seq<real>, u: nat, v: nat, k: nat)
    requires HasPixels(source, sw, sh) && sw >= 2 && sh >= 2 && |c| == 8 && Defined(c, width, height)
    requires |o| == 4 * (width * height) && PulledTo(o, source, sw, sh, width, height, c, width * height)
    requires u < width && v < height && k < 3
    ensures 4 * (v * width + u) + 3 < |o|
    ensures Denominator(c, Middle(u, v)) != 0.0
    ensures o[4 * (v * width + u) + k] == ShownAt(source, sw, sh, MapPoint(c, Middle(u, v)), k)
    ensures o[4 * (v * width + u) + 3] == 255.0
  {
    PixelOf(u, v, width, height);
    assert Pulled(o, source, sw, sh, width, height, c, v * width + u);
  }

  /** The photo's own outline, straightened to its own size: the picture is the photo, but for its last column and row. */
  lemma OwnOutlineIsItself(o: seq<real>, source: seq<Byte>, width: nat, height: nat, c: seq<real>, u: nat, v: nat, k: nat)
    requires HasPixels(source, width, height) && u + 1 < width && v + 1 < height && k < 3 && |o| == 4 * (width * height)
    requires c == HomographyOf(Rectangle(width as real, height as real), Rectangle(width as real, height as real))
    requires Defined(c, width, height) && PulledTo(o, source, width, height, width, height, c, width * height)
    ensures 4 * (v * width + u) + 3 < |source| && 4 * (v * width + u) + 3 < |o|
    ensures o[4 * (v * width + u) + k] == source[4 * (v * width + u) + k] as real && o[4 * (v * width + u) + 3] == 255.0
  {
    OwnOutlineIsKept(width as real, height as real, Middle(u, v));
    PulledAt(o, source, width, height, width, height, c, u, v, k);
    PixelIsShown(source, width, height, u, v, k);
    PixelInSource(source, width, height, u, v, 3);
  }
}
