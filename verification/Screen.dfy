/** Where the lit phone screen probably is in a photo: its four corners, found on a thumbnail. */
module Screen {
  import opened Elimination
  import opened Otsu
  import opened Patch
  import opened Straighten

  const DETECT_SIDE := 240
  const MIN_SHARE := 0.08

  function Max(a: nat, b: nat): nat {
    if a < b then b else a
  }

  function Min(a: nat, b: nat): nat {
    if a < b then a else b
  }

  /** The thumbnail's scale: no side is longer than 240. */
  function Scale(width: nat, height: nat): (scale: real)
    requires width > 0 && height > 0
    ensures 0.0 < scale <= 1.0
  {
    var s := DETECT_SIDE as real / Max(width, height) as real;
    PositiveQuotient(DETECT_SIDE as real, Max(width, height) as real);
    if s < 1.0 then s else 1.0
  }

  lemma PositiveQuotient(a: real, b: real)
    requires a > 0.0 && b > 0.0
    ensures a / b > 0.0
  {
    assert a / b * b == a;
  }

  function Round(x: real): int {
    (x + 0.5).Floor
  }

  /** One side of the thumbnail: rounded, but never nothing. */
  function ThumbSide(side: nat, scale: real): (s: nat)
    requires scale > 0.0
    ensures s >= 1
  {
    var r := Round(side as real * scale);
    if r < 1 then 1 else r
  }

  predicate Inside(quad: seq<Point>, width: nat, height: nat) {
    forall i :: 0 <= i < |quad| ==> PointInside(quad[i], width, height)
  }

  /** Going round the corners never turns back: weakly convex, with one orientation. */
  predicate Convex(quad: seq<Point>)
    requires |quad| == 4
  {
    && Cross(quad[0], quad[1], quad[2]) >= 0.0 && Cross(quad[1], quad[2], quad[3]) >= 0.0
    && Cross(quad[2], quad[3], quad[0]) >= 0.0 && Cross(quad[3], quad[0], quad[1]) >= 0.0
  }

  /** Just inside the photo's edges. */
  function InsetQuad(width: real, height: real): seq<Point> {
    var (dx, dy) := (width * 0.08, height * 0.08);
    [Point(dx, dy), Point(width - dx, dy), Point(width - dx, height - dy), Point(dx, height - dy)]
  }

  lemma InsetIsGood(width: nat, height: nat)
    requires width > 0 && height > 0
    ensures Convex(InsetQuad(width as real, height as real)) && Inside(InsetQuad(width as real, height as real), width, height)
    ensures NoThreeInLine(InsetQuad(width as real, height as real))
  {
    var (a, b) := (width as real * 0.84, height as real * 0.84);
    var area := a * b;
    assert area > 0.0;
    var q := InsetQuad(width as real, height as real);
    assert q[1].x - q[0].x == a && q[2].y - q[1].y == b && q[2].x == q[1].x && q[3].x == q[0].x && q[1].y == q[0].y && q[3].y == q[2].y;
    RightAngles(q, a, b);
  }

  lemma RightAngles(q: seq<Point>, a: real, b: real)
    requires |q| == 4 && a * b > 0.0
    requires q[1].x - q[0].x == a && q[2].y - q[1].y == b && q[2].x == q[1].x && q[3].x == q[0].x && q[1].y == q[0].y && q[3].y == q[2].y
    ensures Convex(q) && NoThreeInLine(q)
  {
    assert Cross(q[0], q[1], q[2]) == a * b;
    assert Cross(q[1], q[2], q[3]) == a * b by { assert q[3].x - q[1].x == -a; assert b * -a == -(a * b); }
    assert Cross(q[2], q[3], q[0]) == a * b by { assert (-a) * (-b) == a * b; }
    assert Cross(q[3], q[0], q[1]) == a * b by { assert (-b) * a == -(a * b); }
    assert Cross(q[2], q[1], q[3]) == -(a * b) by { assert (-b) * (-a) == a * b; }
    assert Cross(q[2], q[0], q[3]) == -(a * b) by { assert (-b) * (-a) == a * b; }
    assert Cross(q[2], q[0], q[1]) == a * b by { assert (-a) * (-b) == a * b; }
    assert Cross(q[0], q[1], q[3]) == a * b;
  }

  // ------------------------------------------------------------- corners

  function X(i: nat, w: nat): nat
    requires w > 0
  {
    i % w
  }

  function Y(i: nat, w: nat): nat
    requires w > 0
  {
    i / w
  }

  function DiagonalSum(i: nat, w: nat): int
    requires w > 0
  {
    X(i, w) + Y(i, w)
  }

  function DiagonalDifference(i: nat, w: nat): int
    requires w > 0
  {
    X(i, w) - Y(i, w)
  }

  /** The pixel's middle, in the photo's own measure. */
  function Back(i: nat, w: nat, scale: real): Point
    requires w > 0 && scale > 0.0
  {
    Point((X(i, w) as real + 0.5) / scale, (Y(i, w) as real + 0.5) / scale)
  }

  datatype Corners = Corners(tl: nat, tr: nat, br: nat, bl: nat)

  datatype Corner = TopLeft | TopRight | BottomRight | BottomLeft

  /** What is least at each corner of an upright screen. */
  function Measure(corner: Corner, i: nat, w: nat): int
    requires w > 0
  {
    match corner
    case TopLeft => DiagonalSum(i, w)
    case TopRight => -DiagonalDifference(i, w)
    case BottomRight => -DiagonalSum(i, w)
    case BottomLeft => DiagonalDifference(i, w)
  }

  /** i is the first member of the patch on which the corner's measure is least. */
  ghost predicate FirstLeast(patch: seq<nat>, i: nat, corner: Corner, w: nat)
    requires w > 0
  {
    exists k :: 0 <= k < |patch| && patch[k] == i
      && (forall j :: 0 <= j < |patch| ==> Measure(corner, i, w) <= Measure(corner, patch[j], w))
      && (forall j :: 0 <= j < k ==> Measure(corner, i, w) < Measure(corner, patch[j], w))
  }

  ghost predicate Extreme(patch: seq<nat>, w: nat, c: Corners)
    requires w > 0
  {
    && FirstLeast(patch, c.tl, TopLeft, w) && FirstLeast(patch, c.tr, TopRight, w)
    && FirstLeast(patch, c.br, BottomRight, w) && FirstLeast(patch, c.bl, BottomLeft, w)
  }

  /** Best so far among the first n members, and where it stands. */
  ghost predicate LeastSoFar(patch: seq<nat>, n: nat, k: nat, i: nat, corner: Corner, w: nat)
    requires w > 0
  {
    && k < |patch| && patch[k] == i && n <= |patch|
    && (forall j :: 0 <= j < n ==> Measure(corner, i, w) <= Measure(corner, patch[j], w))
    && (forall j :: 0 <= j < k ==> Measure(corner, i, w) < Measure(corner, patch[j], w))
  }

  lemma LeastNext(patch: seq<nat>, n: nat, k: nat, i: nat, corner: Corner, w: nat)
    requires w > 0 && n < |patch| && k <= n && LeastSoFar(patch, n, k, i, corner, w)
    ensures if Measure(corner, patch[n], w) < Measure(corner, i, w) then LeastSoFar(patch, n + 1, n, patch[n], corner, w)
            else LeastSoFar(patch, n + 1, k, i, corner, w)
  {
  }

  lemma LeastOfAll(patch: seq<nat>, k: nat, i: nat, corner: Corner, w: nat)
    requires w > 0 && LeastSoFar(patch, |patch|, k, i, corner, w)
    ensures FirstLeast(patch, i, corner, w)
  {
  }

  method FindCorners(patch: seq<nat>, w: nat) returns (c: Corners)
    requires w > 0 && patch != []
    ensures Extreme(patch, w, c)
  {
    c := Corners(patch[0], patch[0], patch[0], patch[0]);
    ghost var ktl, ktr, kbr, kbl: nat := 0, 0, 0, 0;
    for n := 0 to |patch|
      invariant ktl <= n && ktr <= n && kbr <= n && kbl <= n
      invariant LeastSoFar(patch, n, ktl, c.tl, TopLeft, w) && LeastSoFar(patch, n, ktr, c.tr, TopRight, w)
      invariant LeastSoFar(patch, n, kbr, c.br, BottomRight, w) && LeastSoFar(patch, n, kbl, c.bl, BottomLeft, w)
    {
      var i := patch[n];
      LeastNext(patch, n, ktl, c.tl, TopLeft, w);
      LeastNext(patch, n, ktr, c.tr, TopRight, w);
      LeastNext(patch, n, kbr, c.br, BottomRight, w);
      LeastNext(patch, n, kbl, c.bl, BottomLeft, w);
      var sum, diff := DiagonalSum(i, w), DiagonalDifference(i, w);
      var tl, tr, br, bl := c.tl, c.tr, c.br, c.bl;
      if sum < DiagonalSum(c.tl, w) {
        tl, ktl := i, n;
      }
      if sum > DiagonalSum(c.br, w) {
        br, kbr := i, n;
      }
      if diff > DiagonalDifference(c.tr, w) {
        tr, ktr := i, n;
      }
      if diff < DiagonalDifference(c.bl, w) {
        bl, kbl := i, n;
      }
      c := Corners(tl, tr, br, bl);
    }
    LeastOfAll(patch, ktl, c.tl, TopLeft, w);
    LeastOfAll(patch, ktr, c.tr, TopRight, w);
    LeastOfAll(patch, kbr, c.br, BottomRight, w);
    LeastOfAll(patch, kbl, c.bl, BottomLeft, w);
  }

  // ---------------------------------------------------------- convexity

  /** The turn at q on the way from p to r, in pixels. */
  function Turn(p: nat, q: nat, r: nat, w: nat): int
    requires w > 0
  {
    (X(q, w) - X(p, w)) * (Y(r, w) - Y(p, w)) - (Y(q, w) - Y(p, w)) * (X(r, w) - X(p, w))
  }

  lemma TurnOnDiagonals(ax: int, ay: int, bx: int, by_: int)
    ensures 2 * (ax * by_ - ay * bx) == (ax - ay) * (bx + by_) - (ax + ay) * (bx - by_)
  {
    assert (ax - ay) * (bx + by_) == ax * bx + ax * by_ - ay * bx - ay * by_;
    assert (ax + ay) * (bx - by_) == ax * bx - ax * by_ + ay * bx - ay * by_;
  }

  /** Seen along the diagonals, corner q is furthest out one way and its neighbours the two ways beside. */
  lemma TurnIsNotBack(p: nat, q: nat, r: nat, w: nat)
    requires w > 0
    requires SameSide(DiagonalDifference(q, w) - DiagonalDifference(p, w), DiagonalSum(r, w) - DiagonalSum(q, w))
    requires SameSide(DiagonalSum(p, w) - DiagonalSum(q, w), DiagonalDifference(r, w) - DiagonalDifference(q, w))
    ensures Turn(p, q, r, w) >= 0
  {
    var (ax, ay) := (X(q, w) - X(p, w), Y(q, w) - Y(p, w));
    var (bx, by_) := (X(r, w) - X(q, w), Y(r, w) - Y(q, w));
    assert ax * (ay + by_) - ay * (ax + bx) == ax * by_ - ay * bx;
    assert Turn(p, q, r, w) == ax * by_ - ay * bx;
    TurnOnDiagonals(ax, ay, bx, by_);
    SameSigns(ax - ay, bx + by_);
    SameSigns(-(ax + ay), bx - by_);
    assert -(ax + ay) * (bx - by_) == -((ax + ay) * (bx - by_));
  }

  predicate SameSide(a: int, b: int) {
    (a >= 0 && b >= 0) || (a <= 0 && b <= 0)
  }

  lemma SameSigns(a: int, b: int)
    requires SameSide(a, b)
    ensures a * b >= 0
  {
  }

  lemma ExtremeIsConvex(patch: seq<nat>, w: nat, c: Corners)
    requires w > 0 && Extreme(patch, w, c)
    ensures Turn(c.tl, c.tr, c.br, w) >= 0 && Turn(c.tr, c.br, c.bl, w) >= 0
    ensures Turn(c.br, c.bl, c.tl, w) >= 0 && Turn(c.bl, c.tl, c.tr, w) >= 0
  {
    LeastOf(patch, w, c, c.tl);
    LeastOf(patch, w, c, c.tr);
    LeastOf(patch, w, c, c.br);
    LeastOf(patch, w, c, c.bl);
    TurnIsNotBack(c.tl, c.tr, c.br, w);
    TurnIsNotBack(c.tr, c.br, c.bl, w);
    TurnIsNotBack(c.br, c.bl, c.tl, w);
    TurnIsNotBack(c.bl, c.tl, c.tr, w);
  }

  /** A corner is a member, so no measure is less on it than at that measure's own corner. */
  lemma LeastOf(patch: seq<nat>, w: nat, c: Corners, i: nat)
    requires w > 0 && Extreme(patch, w, c) && (i == c.tl || i == c.tr || i == c.br || i == c.bl)
    ensures DiagonalSum(c.tl, w) <= DiagonalSum(i, w) <= DiagonalSum(c.br, w)
    ensures DiagonalDifference(c.bl, w) <= DiagonalDifference(i, w) <= DiagonalDifference(c.tr, w)
  {
    var k :| 0 <= k < |patch| && patch[k] == i;
    assert Measure(TopLeft, c.tl, w) <= Measure(TopLeft, patch[k], w);
    assert Measure(BottomRight, c.br, w) <= Measure(BottomRight, patch[k], w);
    assert Measure(BottomLeft, c.bl, w) <= Measure(BottomLeft, patch[k], w);
    assert Measure(TopRight, c.tr, w) <= Measure(TopRight, patch[k], w);
  }

  lemma DivideTwice(a: real, b: real, c: real, d: real, scale: real)
    requires scale > 0.0 && a * d - b * c >= 0.0
    ensures (a / scale) * (d / scale) - (b / scale) * (c / scale) >= 0.0
  {
    var k := 1.0 / scale;
    assert a / scale == a * k && b / scale == b * k && c / scale == c * k && d / scale == d * k;
    assert (a * k) * (d * k) == (a * d) * (k * k) && (b * k) * (c * k) == (b * c) * (k * k);
    assert (a * k) * (d * k) - (b * k) * (c * k) == (a * d - b * c) * (k * k);
  }

  lemma TurnAsReal(a: int, b: int, c: int, d: int)
    requires a * d - b * c >= 0
    ensures a as real * d as real - b as real * c as real >= 0.0
  {
    assert (a * d - b * c) as real >= 0.0;
    ProductAsReal(a, d);
    ProductAsReal(b, c);
  }

  lemma BackKeepsTurn(p: nat, q: nat, r: nat, w: nat, scale: real)
    requires w > 0 && scale > 0.0 && Turn(p, q, r, w) >= 0
    ensures Cross(Back(p, w, scale), Back(q, w, scale), Back(r, w, scale)) >= 0.0
  {
    var (a, b) := (X(q, w) - X(p, w), Y(q, w) - Y(p, w));
    var (c, d) := (X(r, w) - X(p, w), Y(r, w) - Y(p, w));
    TurnAsReal(a, b, c, d);
    BackDifference(X(q, w), X(p, w), scale);
    BackDifference(Y(q, w), Y(p, w), scale);
    BackDifference(X(r, w), X(p, w), scale);
    BackDifference(Y(r, w), Y(p, w), scale);
    DivideTwice(a as real, b as real, c as real, d as real, scale);
  }

  lemma BackDifference(a: nat, b: nat, scale: real)
    requires scale > 0.0
    ensures (a as real + 0.5) / scale - (b as real + 0.5) / scale == (a - b) as real / scale
  {
  }

  // --------------------------------------------------------------- bounds

  /** Each side of the photo is at least half a pixel of the thumbnail: no side is 480 times the other. */
  predicate NotTooNarrow(width: nat, height: nat) {
    Max(width, height) <= 2 * DETECT_SIDE * Min(width, height)
  }

  /** A thumbnail pixel's middle lies within the photo, except that a sliver's one pixel lies outside it. */
  lemma BackWithin(side: nat, scale: real, x: nat)
    requires side > 0 && scale > 0.0 && x < ThumbSide(side, scale)
    ensures 0.0 <= (x as real + 0.5) / scale
    ensures (x as real + 0.5) / scale <= side as real <==> side as real * scale >= 0.5
  {
    var t := side as real * scale;
    var v := (x as real + 0.5) / scale;
    assert v * scale == x as real + 0.5;
    Scaled(v, side as real, scale);
    assert v >= 0.0 by { Scaled(0.0, v, scale); }
    if t >= 0.5 {
      assert ThumbSide(side, scale) as real <= t + 0.5;
    } else {
      assert ThumbSide(side, scale) == 1;
    }
  }

  lemma Scaled(a: real, b: real, scale: real)
    requires scale > 0.0
    ensures a <= b <==> a * scale <= b * scale
  {
    if a <= b { assert (b - a) * scale >= 0.0; } else { assert (a - b) * scale > 0.0; }
  }

  lemma NarrowSides(width: nat, height: nat)
    requires width > 0 && height > 0
    ensures NotTooNarrow(width, height) <==>
      width as real * Scale(width, height) >= 0.5 && height as real * Scale(width, height) >= 0.5
  {
    var (s, m) := (Scale(width, height), Max(width, height));
    if m <= DETECT_SIDE {
      assert s == 1.0 by { AtLeastOne(DETECT_SIDE as real, m as real); }
    } else {
      assert s * m as real == 240.0 by { BelowOne(DETECT_SIDE as real, m as real); }
      SideScaled(width, m, s);
      SideScaled(height, m, s);
    }
  }

  lemma AtLeastOne(a: real, b: real)
    requires a >= b > 0.0
    ensures a / b >= 1.0
  {
    QuotientAtLeast(a, b, 1.0);
  }

  lemma BelowOne(a: real, b: real)
    requires b > a > 0.0
    ensures a / b < 1.0 && a / b * b == a
  {
    if a / b >= 1.0 { Scaled(1.0, a / b, b); }
  }

  lemma SideScaled(side: nat, m: nat, s: real)
    requires m > 0 && s > 0.0 && s * m as real == 240.0
    ensures side as real * s >= 0.5 <==> m <= 480 * side
  {
    Scaled(m as real, 480.0 * side as real, s);
    assert m as real * s == 240.0;
    assert 480.0 * side as real * s == 480.0 * (side as real * s);
  }

  // ------------------------------------------------------------ detection

  /** The perceived brightness of pixel i, truncated as storing it in a byte does. */
  function Luma(data: seq<Byte>, i: nat): (l: int)
    requires 4 * i + 2 < |data|
    ensures 0 <= l < 256
  {
    (data[4 * i] as int * 299 + data[4 * i + 1] as int * 587 + data[4 * i + 2] as int * 114) / 1000
  }

  predicate IsLuma(luma: seq<Byte>, data: seq<Byte>) {
    4 * |luma| == |data| && forall i :: 0 <= i < |luma| ==> luma[i] == Luma(data, i)
  }

  predicate IsMask(mask: seq<Byte>, luma: seq<Byte>, threshold: int) {
    |mask| == |luma| && forall i :: 0 <= i < |luma| ==> mask[i] == if luma[i] > threshold then 1 else 0
  }

  method LumaOf(data: array<Byte>, n: nat) returns (luma: array<Byte>)
    requires data.Length == 4 * n
    ensures fresh(luma) && IsLuma(luma[..], data[..])
  {
    luma := new Byte[n](_ => 0);
    for i := 0 to n
      invariant forall j :: 0 <= j < i ==> luma[j] == Luma(data[..], j)
    {
      luma[i] := Luma(data[..], i);
    }
  }

  method MaskOf(luma: array<Byte>, threshold: int) returns (mask: array<Byte>)
    ensures fresh(mask) && IsMask(mask[..], luma[..], threshold)
  {
    mask := new Byte[luma.Length](_ => 0);
    for i := 0 to luma.Length
      invariant forall j :: 0 <= j < i ==> mask[j] == if luma[j] > threshold then 1 else 0
    {
      mask[i] := if luma[i] > threshold then 1 else 0;
    }
  }

  /** The largest patch brighter than the best threshold. */
  ghost predicate FoundIn(luma: seq<Byte>, threshold: int, mask: seq<Byte>, data: seq<Byte>, w: nat, patch: seq<nat>)
    requires w > 0
  {
    && IsLuma(luma, data) && IsBest(luma, threshold) && IsMask(mask, luma, threshold)
    && Distinct(patch) && (patch == [] || (IsComponent(mask, w, patch) && FirstOfItsSize(mask, w, patch)))
    && forall s: nat :: Bright(mask, s) ==> |Component(mask, w, s)| <= |patch|
  }

  /** What the corners were found from. */
  ghost predicate FoundFrom(data: seq<Byte>, w: nat, patch: seq<nat>)
    requires w > 0
  {
    exists luma: seq<Byte>, threshold: int, mask: seq<Byte> :: FoundIn(luma, threshold, mask, data, w, patch)
  }

  /** How many pixels wide and high the thumbnail is. */
  function ThumbWidth(width: nat, height: nat): (w: nat)
    requires width > 0 && height > 0
    ensures w >= 1
  {
    ThumbSide(width, Scale(width, height))
  }

  function ThumbHeight(width: nat, height: nat): (h: nat)
    requires width > 0 && height > 0
    ensures h >= 1
  {
    ThumbSide(height, Scale(width, height))
  }

  /** The patch is large enough to be a screen. */
  predicate IsScreen(patch: seq<nat>, w: nat, h: nat) {
    |patch| as real >= (w * h) as real * MIN_SHARE
  }

  /** What detection comes to for a photo of this size with this thumbnail. */
  ghost predicate Detected(width: nat, height: nat, data: seq<Byte>, patch: seq<nat>, quad: seq<Point>)
    requires width > 0 && height > 0
  {
    var (w, h) := (ThumbWidth(width, height), ThumbHeight(width, height));
    && |data| == 4 * (w * h) && FoundFrom(data, w, patch)
    && if IsScreen(patch, w, h) then exists c :: Extreme(patch, w, c) && quad == Shown(c, w, Scale(width, height))
       else quad == InsetQuad(width as real, height as real)
  }

  /**
   * The quad is always weakly convex; it lies inside the photo unless it was found in a photo narrower than
   * half a pixel of its thumbnail, and then never.
   */
  lemma DetectedIsGood(width: nat, height: nat, data: seq<Byte>, patch: seq<nat>, quad: seq<Point>)
    requires width > 0 && height > 0 && Detected(width, height, data, patch, quad)
    ensures |quad| == 4 && Convex(quad)
    ensures Inside(quad, width, height) <==>
      !IsScreen(patch, ThumbWidth(width, height), ThumbHeight(width, height)) || NotTooNarrow(width, height)
  {
    var (w, h) := (ThumbWidth(width, height), ThumbHeight(width, height));
    if IsScreen(patch, w, h) {
      var c :| Extreme(patch, w, c) && quad == Shown(c, w, Scale(width, height));
      var luma: seq<Byte>, threshold: int, mask: seq<Byte> :| FoundIn(luma, threshold, mask, data, w, patch);
      MembersInPicture(mask, w, h, patch, c);
      ShownIsGood(patch, w, h, c, width, height);
    } else {
      InsetIsGood(width, height);
    }
  }

  /** data is the thumbnail as drawn, four bytes a pixel. */
  method DetectScreen(width: nat, height: nat, data: array<Byte>) returns (quad: seq<Point>, ghost patch: seq<nat>)
    requires width > 0 && height > 0 && data.Length == 4 * (ThumbWidth(width, height) * ThumbHeight(width, height))
    ensures Detected(width, height, data[..], patch, quad)
    ensures |quad| == 4 && Convex(quad)
    ensures NotTooNarrow(width, height) ==> Inside(quad, width, height)
  {
    var scale := Scale(width, height);
    var w, h := ThumbSide(width, scale), ThumbSide(height, scale);
    var luma := LumaOf(data, w * h);
    var threshold := Threshold(luma);
    var mask := MaskOf(luma, threshold);
    var bright := LargestPatch(mask, w, h);
    patch := bright;
    PatchIsFound(data[..], luma[..], threshold, mask[..], w, patch);
    if |bright| as real < (w * h) as real * MIN_SHARE {
      quad := InsetQuad(width as real, height as real);
    } else {
      var c := FindCorners(bright, w);
      quad := Shown(c, w, scale);
    }
    DetectedIsGood(width, height, data[..], patch, quad);
  }

  function Shown(c: Corners, w: nat, scale: real): seq<Point>
    requires w > 0 && scale > 0.0
  {
    [Back(c.tl, w, scale), Back(c.tr, w, scale), Back(c.br, w, scale), Back(c.bl, w, scale)]
  }

  lemma PatchIsFound(data: seq<Byte>, luma: seq<Byte>, threshold: int, mask: seq<Byte>, w: nat, patch: seq<nat>)
    requires w > 0 && IsLuma(luma, data) && IsBest(luma, threshold) && IsMask(mask, luma, threshold) && Distinct(patch)
    requires (exists s :: Bright(mask, s)) ==> IsComponent(mask, w, patch)
    requires patch != [] ==> FirstOfItsSize(mask, w, patch)
    requires patch == [] <==> forall s :: !Bright(mask, s)
    requires forall s: nat :: Bright(mask, s) ==> |Component(mask, w, s)| <= |patch|
    ensures FoundFrom(data, w, patch)
  {
    assert FoundIn(luma, threshold, mask, data, w, patch);
  }

  /** Every corner is a pixel of the thumbnail. */
  predicate InPicture(i: nat, w: nat, h: nat)
    requires w > 0
  {
    X(i, w) < w && Y(i, w) < h
  }

  lemma RowInPicture(i: nat, w: nat, h: nat)
    requires w > 0 && i < w * h
    ensures InPicture(i, w, h)
  {
    var (q, r) := (i / w, i % w);
    assert i == q * w + r;
    if q >= h {
      AtLeastTimes(q, h, w);
      assert false;
    }
  }

  lemma AtLeastTimes(a: nat, b: nat, w: nat)
    requires a >= b
    ensures a * w >= w * b
  {
    assert a * w == w * b + (a - b) * w;
  }

  lemma MembersInPicture(mask: seq<Byte>, w: nat, h: nat, patch: seq<nat>, c: Corners)
    requires w > 0 && |mask| == w * h && Extreme(patch, w, c)
    requires patch == [] || IsComponent(mask, w, patch)
    ensures InPicture(c.tl, w, h) && InPicture(c.tr, w, h) && InPicture(c.br, w, h) && InPicture(c.bl, w, h)
  {
    var s :| Bright(mask, s) && (forall j :: j in patch <==> j in Component(mask, w, s));
    assert c.tl in patch && c.tr in patch && c.br in patch && c.bl in patch;
    RowInPicture(c.tl, w, h);
    RowInPicture(c.tr, w, h);
    RowInPicture(c.br, w, h);
    RowInPicture(c.bl, w, h);
  }

  lemma ShownIsGood(patch: seq<nat>, w: nat, h: nat, c: Corners, width: nat, height: nat)
    requires width > 0 && height > 0
    requires w == ThumbSide(width, Scale(width, height)) && h == ThumbSide(height, Scale(width, height))
    requires Extreme(patch, w, c)
    requires InPicture(c.tl, w, h) && InPicture(c.tr, w, h) && InPicture(c.br, w, h) && InPicture(c.bl, w, h)
    ensures Convex(Shown(c, w, Scale(width, height)))
    ensures Inside(Shown(c, w, Scale(width, height)), width, height) <==> NotTooNarrow(width, height)
  {
    var scale := Scale(width, height);
    var quad := Shown(c, w, scale);
    ExtremeIsConvex(patch, w, c);
    BackKeepsTurn(c.tl, c.tr, c.br, w, scale);
    BackKeepsTurn(c.tr, c.br, c.bl, w, scale);
    BackKeepsTurn(c.br, c.bl, c.tl, w, scale);
    BackKeepsTurn(c.bl, c.tl, c.tr, w, scale);
    NarrowSides(width, height);
    PointWithin(c.tl, w, h, width, height);
    PointWithin(c.tr, w, h, width, height);
    PointWithin(c.br, w, h, width, height);
    PointWithin(c.bl, w, h, width, height);
    assert quad[0] == Back(c.tl, w, scale);
  }

  predicate PointInside(p: Point, width: nat, height: nat) {
    0.0 <= p.x <= width as real && 0.0 <= p.y <= height as real
  }

  lemma PointWithin(i: nat, w: nat, h: nat, width: nat, height: nat)
    requires width > 0 && height > 0
    requires w == ThumbSide(width, Scale(width, height)) && h == ThumbSide(height, Scale(width, height))
    requires InPicture(i, w, h)
    ensures PointInside(Back(i, w, Scale(width, height)), width, height) <==>
      width as real * Scale(width, height) >= 0.5 && height as real * Scale(width, height) >= 0.5
  {
    BackWithin(width, Scale(width, height), X(i, w));
    BackWithin(height, Scale(width, height), Y(i, w));
  }
}
