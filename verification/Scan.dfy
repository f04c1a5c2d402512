/** From the detected quad to the straightened picture: where each pixel is taken from, and what it becomes. */
module Scan {
  import opened Collinear
  import opened Elimination
  import opened Otsu
  import opened Patch
  import opened Quads
  import opened Screen
  import opened Straighten

  // ---------------------------------------------- detected, then straightened

  /** A weakly convex quad is strictly convex exactly when no three corners are in a line. */
  lemma ConvexTurns(quad: seq<Point>)
    requires |quad| == 4 && Convex(quad)
    ensures NoThreeInLine(quad) <==> Turning(quad, true)
  {
    NoThreeMeansTurns(quad);
  }

  /** The middle of pixel u, v of the straightened picture. */
  function Middle(u: nat, v: nat): Point {
    Point(u as real + 0.5, v as real + 0.5)
  }

  lemma MiddleInRectangle(u: nat, v: nat, width: nat, height: nat)
    requires u < width && v < height
    ensures InRectangle(Middle(u, v), width as real, height as real)
  {
  }

  /** On the inner side of the photo's four edges: within it. */
  lemma WithinPhoto(width: nat, height: nat, p: Point)
    requires width > 0 && height > 0
    ensures var (w, h) := (width as real, height as real);
            PointInside(p, width, height) <==>
              && Inner(true, Point(0.0, 0.0), Point(w, 0.0), p) && Inner(true, Point(w, 0.0), Point(w, h), p)
              && Inner(true, Point(w, h), Point(0.0, h), p) && Inner(true, Point(0.0, h), Point(0.0, 0.0), p)
  {
    var (w, h) := (width as real, height as real);
    EdgeArea(0.0, 0.0, w, 0.0, p);
    EdgeArea(w, 0.0, w, h, p);
    EdgeArea(w, h, 0.0, h, p);
    EdgeArea(0.0, h, 0.0, 0.0, p);
    Ordered(0.0, p.y, w);
    Ordered(p.x, w, h);
    Ordered(p.y, h, w);
    Ordered(0.0, p.x, h);
  }

  lemma EdgeArea(ax: real, ay: real, bx: real, by_: real, p: Point)
    ensures Cross(Point(ax, ay), Point(bx, by_), p) == (bx - ax) * (p.y - ay) - (by_ - ay) * (p.x - ax)
    ensures ay == by_ ==> Cross(Point(ax, ay), Point(bx, by_), p) == (bx - ax) * (p.y - ay)
    ensures ax == bx ==> Cross(Point(ax, ay), Point(bx, by_), p) == -((by_ - ay) * (p.x - ax))
  {
  }

  /** A quad inside the photo is sampled only inside the photo. */
  lemma SamplesInPhoto(c: seq<real>, ow: real, oh: real, quad: seq<Point>, width: nat, height: nat, p: Point)
    requires |c| == 8 && |quad| == 4 && ow > 0.0 && oh > 0.0 && InRectangle(p, ow, oh) && width > 0 && height > 0
    requires ReachesAll(c, Rectangle(ow, oh), quad) && Turning(quad, true) && Inside(quad, width, height)
    ensures Denominator(c, p) > 0.0 && PointInside(MapPoint(c, p), width, height)
  {
    var (w, h) := (width as real, height as real);
    ConvexIsPositive(c, ow, oh, quad, true);
    forall i | 0 <= i < 4
      ensures Inner(true, Point(0.0, 0.0), Point(w, 0.0), quad[i]) && Inner(true, Point(w, 0.0), Point(w, h), quad[i])
      ensures Inner(true, Point(w, h), Point(0.0, h), quad[i]) && Inner(true, Point(0.0, h), Point(0.0, 0.0), quad[i])
    {
      assert PointInside(quad[i], width, height);
      WithinPhoto(width, height, quad[i]);
    }
    EdgeKeeps(c, ow, oh, quad, true, Point(0.0, 0.0), Point(w, 0.0), p);
    EdgeKeeps(c, ow, oh, quad, true, Point(w, 0.0), Point(w, h), p);
    EdgeKeeps(c, ow, oh, quad, true, Point(w, h), Point(0.0, h), p);
    EdgeKeeps(c, ow, oh, quad, true, Point(0.0, h), Point(0.0, 0.0), p);
    WithinPhoto(width, height, MapPoint(c, p));
  }

  /**
   * A detected quad with no three corners in a line, kept as it is: every pixel of the straightened picture
   * is taken from inside the quad; and, unless the photo is a sliver, from inside the photo.
   */
  lemma DetectedIsSampledInside(width: nat, height: nat, data: seq<Byte>, patch: seq<nat>, quad: seq<Point>,
                                ow: nat, oh: nat, c: seq<real>, u: nat, v: nat)
    requires width > 0 && height > 0 && Detected(width, height, data, patch, quad) && NoThreeInLine(quad)
    requires u < ow && v < oh && c == HomographyOf(Rectangle(ow as real, oh as real), quad)
    ensures Denominator(c, Middle(u, v)) > 0.0 && InQuad(quad, true, MapPoint(c, Middle(u, v)))
    ensures NotTooNarrow(width, height) ==> PointInside(MapPoint(c, Middle(u, v)), width, height)
  {
    DetectedIsGood(width, height, data, patch, quad);
    ConvexTurns(quad);
    ReachesIff(ow as real, oh as real, quad);
    MiddleInRectangle(u, v, ow, oh);
    SamplesInside(c, ow as real, oh as real, quad, true, Middle(u, v));
    if NotTooNarrow(width, height) {
      SamplesInPhoto(c, ow as real, oh as real, quad, width, height, Middle(u, v));
    }
  }

  // ------------------------------------------------------------- sampling

  /** Kept within the photo, so that there is a pixel beyond. */
  function Clamped(x: real, side: nat): real {
    var low := if x < 0.0 then 0.0 else x;
    if low < side as real - 1.001 then low else side as real - 1.001
  }

  /** Both pixels beside a clamped place are pixels of the photo exactly when it is two pixels or more that way. */
  lemma ClampedInPhoto(side: nat)
    ensures side >= 2 <==> forall x: real :: 0 <= Clamped(x, side).Floor && Clamped(x, side).Floor + 1 < side
  {
    if side < 2 {
      assert Clamped(0.0, side) < 0.0;
    } else {
      forall x: real ensures 0 <= Clamped(x, side).Floor && Clamped(x, side).Floor + 1 < side {
        assert 0.0 <= Clamped(x, side) <= side as real - 1.001;
        assert Clamped(x, side).Floor as real <= Clamped(x, side);
      }
    }
  }

  /** Taken from inside the photo, a place is moved by the clamp no more than the half pixel it was shifted. */
  lemma ClampMovesLittle(m: real, side: nat)
    requires side >= 2 && 0.0 <= m <= side as real
    ensures m - 0.5 - 0.501 <= Clamped(m - 0.5, side) <= m - 0.5 + 0.5
    ensures 0.5 <= m <= side as real - 0.501 ==> Clamped(m - 0.5, side) == m - 0.5
  {
  }

  function Blend(a: real, b: real, f: real): real {
    a + (b - a) * f
  }

  lemma BlendBetween(a: real, b: real, f: real, low: real, high: real)
    requires 0.0 <= f <= 1.0 && low <= a <= high && low <= b <= high
    ensures low <= Blend(a, b, f) <= high
  {
    var d := b - a;
    Blending(d, f);
    assert Blend(a, b, f) == a + d * f;
  }

  /** How far towards the second value from the first, d away. */
  lemma Blending(d: real, f: real)
    requires 0.0 <= f <= 1.0
    ensures if d >= 0.0 then 0.0 <= d * f <= d else d <= d * f <= 0.0
  {
    var e := -d;
    if d >= 0.0 {
      Fraction(d, f);
    } else {
      Fraction(e, f);
      assert d * f == -(e * f);
    }
  }

  lemma Fraction(d: real, f: real)
    requires d >= 0.0 && 0.0 <= f <= 1.0
    ensures 0.0 <= d * f <= d
  {
    assert d * (1.0 - f) >= 0.0;
    assert d * (1.0 - f) == d - d * f;
  }

  /** Where pixel x, y of a picture sw pixels wide begins, and what it holds of channel k. */
  function Channel(source: seq<Byte>, sw: nat, x: nat, y: nat, k: nat): real
    requires 4 * (y * sw + x) + k < |source|
  {
    source[4 * (y * sw + x) + k] as real
  }

  predicate HasPixels(source: seq<Byte>, sw: nat, sh: nat) {
    |source| == 4 * (sh * sw)
  }

  lemma PixelInSource(source: seq<Byte>, sw: nat, sh: nat, x: nat, y: nat, k: nat)
    requires HasPixels(source, sw, sh) && x < sw && y < sh && k < 4
    ensures 4 * (y * sw + x) + k < |source|
  {
    assert sh * sw == y * sw + (sh - y) * sw;
    AtLeastOneRow(sh - y, sw);
  }

  lemma AtLeastOneRow(n: nat, sw: nat)
    requires n >= 1
    ensures n * sw >= sw
  {
    assert n * sw == sw + (n - 1) * sw;
  }

  /** The four pixels around a place, weighted by nearness. */
  function Sampled(source: seq<Byte>, sw: nat, sh: nat, x: real, y: real, k: nat): (value: real)
    requires HasPixels(source, sw, sh) && k < 4
    requires 0 <= x.Floor && x.Floor + 1 < sw && 0 <= y.Floor && y.Floor + 1 < sh
    ensures 0.0 <= value <= 255.0
  {
    var (x0, y0) := (x.Floor, y.Floor);
    var (fx, fy) := (x - x0 as real, y - y0 as real);
    PixelInSource(source, sw, sh, x0, y0, k);
    PixelInSource(source, sw, sh, x0 + 1, y0, k);
    PixelInSource(source, sw, sh, x0, y0 + 1, k);
    PixelInSource(source, sw, sh, x0 + 1, y0 + 1, k);
    var (a, b) := (Channel(source, sw, x0, y0, k), Channel(source, sw, x0 + 1, y0, k));
    var (c, d) := (Channel(source, sw, x0, y0 + 1, k), Channel(source, sw, x0 + 1, y0 + 1, k));
    BlendBetween(a, b, fx, 0.0, 255.0);
    BlendBetween(c, d, fx, 0.0, 255.0);
    BlendBetween(Blend(a, b, fx), Blend(c, d, fx), fy, 0.0, 255.0);
    Blend(Blend(a, b, fx), Blend(c, d, fx), fy)
  }

  /** What is shown of the photo at a place of it, in pixels from the middle of the first. */
  function ShownAt(source: seq<Byte>, sw: nat, sh: nat, p: Point, k: nat): (value: real)
    requires HasPixels(source, sw, sh) && sw >= 2 && sh >= 2 && k < 4
    ensures 0.0 <= value <= 255.0
  {
    ClampedInPhoto(sw);
    ClampedInPhoto(sh);
    Sampled(source, sw, sh, Clamped(p.x - 0.5, sw), Clamped(p.y - 0.5, sh), k)
  }

  /** Every pixel of the picture has a place in the photo. */
  predicate Defined(c: seq<real>, width: nat, height: nat)
    requires |c| == 8
  {
    forall u, v :: 0 <= u < width && 0 <= v < height ==> Denominator(c, Middle(u, v)) != 0.0
  }

  /** Pixel t of the picture, counted row by row: three channels of the photo, and opaque. */
  predicate Pulled(o: seq<real>, source: seq<Byte>, sw: nat, sh: nat, width: nat, height: nat, c: seq<real>, t: nat)
    requires HasPixels(source, sw, sh) && sw >= 2 && sh >= 2 && |c| == 8 && Defined(c, width, height)
    requires t < width * height && |o| == 4 * (width * height)
  {
    RowOf(t, width, height);
    var p := MapPoint(c, Middle(t % width, t / width));
    && (forall k :: 0 <= k < 3 ==> o[4 * t + k] == ShownAt(source, sw, sh, p, k))
    && o[4 * t + 3] == 255.0
  }

  lemma RowOf(t: nat, width: nat, height: nat)
    requires t < width * height
    ensures width > 0 && t % width < width && t / width < height
  {
    if t / width >= height {
      assert t / width * width >= height * width by { AtLeastTimes(t / width, height, width); }
    }
  }

  lemma PixelOf(u: nat, v: nat, width: nat, height: nat)
    requires u < width && v < height
    ensures v * width + u < width * height
    ensures (v * width + u) % width == u && (v * width + u) / width == v
  {
    DivModUnique(v * width + u, width, v, u);
    assert width * height == v * width + (height - v) * width;
    AtLeastOneRow(height - v, width);
  }

  /** One pixel of the straightened picture. */
  method PullPixel(o: array<real>, source: array<Byte>, sw: nat, sh: nat, width: nat, height: nat, c: seq<real>, u: nat, v: nat)
    requires HasPixels(source[..], sw, sh) && sw >= 2 && sh >= 2 && |c| == 8 && Defined(c, width, height)
    requires u < width && v < height && o.Length == 4 * (width * height)
    modifies o
    ensures v * width + u < width * height && Pulled(o[..], source[..], sw, sh, width, height, c, v * width + u)
    ensures forall i :: 0 <= i < o.Length && !(4 * (v * width + u) <= i < 4 * (v * width + u) + 4) ==> o[i] == old(o[i])
  {
    PixelOf(u, v, width, height);
    var p := MapPoint(c, Middle(u, v));
    var n := v * width + u;
    for k := 0 to 3
      invariant forall j :: 0 <= j < k ==> o[4 * n + j] == ShownAt(source[..], sw, sh, p, j)
      invariant forall i :: 0 <= i < o.Length && !(4 * n <= i < 4 * n + 4) ==> o[i] == old(o[i])
    {
      o[4 * n + k] := ShownAt(source[..], sw, sh, p, k);
    }
    o[4 * n + 3] := 255.0;
  }

  /** Pixels 0 to n of the picture are done. */
  predicate PulledTo(o: seq<real>, source: seq<Byte>, sw: nat, sh: nat, width: nat, height: nat, c: seq<real>, n: nat)
    requires HasPixels(source, sw, sh) && sw >= 2 && sh >= 2 && |c| == 8 && Defined(c, width, height)
    requires n <= width * height && |o| == 4 * (width * height)
  {
    forall t :: 0 <= t < n ==> Pulled(o, source, sw, sh, width, height, c, t)
  }

  method PullNext(o: array<real>, source: array<Byte>, sw: nat, sh: nat, width: nat, height: nat, c: seq<real>, u: nat, v: nat)
    requires HasPixels(source[..], sw, sh) && sw >= 2 && sh >= 2 && |c| == 8 && Defined(c, width, height)
    requires u < width && v < height && o.Length == 4 * (width * height) && v * width + u < width * height
    requires PulledTo(o[..], source[..], sw, sh, width, height, c, v * width + u)
    modifies o
    ensures PulledTo(o[..], source[..], sw, sh, width, height, c, v * width + u + 1)
  {
    ghost var before := o[..];
    PullPixel(o, source, sw, sh, width, height, c, u, v);
    OneMorePixel(before, o[..], source[..], sw, sh, width, height, c, v * width + u);
  }

  /** The straightened picture, each channel before it is rounded to a byte. */
  method Pull(source: array<Byte>, sw: nat, sh: nat, width: nat, height: nat, c: seq<real>) returns (o: array<real>)
    requires HasPixels(source[..], sw, sh) && sw >= 2 && sh >= 2 && |c| == 8 && Defined(c, width, height)
    ensures fresh(o) && o.Length == 4 * (width * height)
    ensures PulledTo(o[..], source[..], sw, sh, width, height, c, width * height)
  {
    o := new real[4 * (width * height)](_ => 0.0);
    for v := 0 to height
      invariant v * width <= width * height && PulledTo(o[..], source[..], sw, sh, width, height, c, v * width)
    {
      RowsGrow(v, width, height);
      for u := 0 to width
        invariant v * width + u <= width * height
        invariant PulledTo(o[..], source[..], sw, sh, width, height, c, v * width + u)
      {
        PullNext(o, source, sw, sh, width, height, c, u, v);
      }
    }
    AllRows(width, height);
  }

  lemma RowsGrow(v: nat, width: nat, height: nat)
    requires v < height
    ensures (v + 1) * width == v * width + width <= width * height
  {
    assert width * height == (v + 1) * width + (height - v - 1) * width;
  }

  lemma AllRows(width: nat, height: nat)
    ensures height * width == width * height
  {
  }

  lemma OneMorePixel(before: seq<real>, after: seq<real>, source: seq<Byte>, sw: nat, sh: nat, width: nat, height: nat,
                     c: seq<real>, n: nat)
    requires HasPixels(source, sw, sh) && sw >= 2 && sh >= 2 && |c| == 8 && Defined(c, width, height)
    requires n < width * height && |before| == |after| == 4 * (width * height)
    requires forall i :: 0 <= i < |after| && !(4 * n <= i < 4 * n + 4) ==> after[i] == before[i]
    requires PulledTo(before, source, sw, sh, width, height, c, n) && Pulled(after, source, sw, sh, width, height, c, n)
    ensures PulledTo(after, source, sw, sh, width, height, c, n + 1)
  {
    forall t | 0 <= t < n + 1 ensures Pulled(after, source, sw, sh, width, height, c, t) {
      if t < n { assert Pulled(before, source, sw, sh, width, height, c, t); }
    }
  }
}
