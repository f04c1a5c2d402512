/** What detection reads and shows, in numbers: brightness, the thumbnail's size, the share, and the corners' places. */
module Thumbnail {
  import opened Elimination
  import opened Otsu
  import opened Screen
  import opened Straighten

  // ----------------------------------------------------------- brightness

  /** A grey pixel is as bright as its level; a pure red, green or blue one 76, 149 or 29. */
  lemma BrightnessOf(data: seq<Byte>, i: nat)
    requires 4 * i + 3 < |data|
    ensures data[4 * i] == data[4 * i + 1] == data[4 * i + 2] ==> Luma(data, i) == data[4 * i]
    ensures data[4 * i] == 255 && data[4 * i + 1] == 0 && data[4 * i + 2] == 0 ==> Luma(data, i) == 76
    ensures data[4 * i] == 0 && data[4 * i + 1] == 255 && data[4 * i + 2] == 0 ==> Luma(data, i) == 149
    ensures data[4 * i] == 0 && data[4 * i + 1] == 0 && data[4 * i + 2] == 255 ==> Luma(data, i) == 29
  {
  }

  function Ones(mask: seq<Byte>): nat {
    if mask == [] then 0 else Ones(mask[..|mask| - 1]) + if mask[|mask| - 1] == 1 then 1 else 0
  }

  /** What is bright is the class above the threshold: the pixels that the split counts below it, and no others, are dark. */
  lemma {:induction false} BrightIsAbove(mask: seq<Byte>, luma: seq<Byte>, threshold: int)
    requires IsMask(mask, luma, threshold)
    ensures Ones(mask) == |luma| - CountUpTo(luma, threshold)
    ensures forall i :: 0 <= i < |mask| ==> mask[i] == 0 || mask[i] == 1
  {
    if mask != [] {
      BrightIsAbove(mask[..|mask| - 1], luma[..|luma| - 1], threshold);
    }
  }

  // ----------------------------------------------------------------- size

  /** The thumbnail is the photo's own size up to 240 pixels a side; beyond, its longer side is 240. */
  lemma LongerSide(width: nat, height: nat)
    requires width > 0 && height > 0
    ensures width <= 240 && height <= 240 ==> ThumbWidth(width, height) == width && ThumbHeight(width, height) == height
    ensures width > 240 && width >= height ==> ThumbWidth(width, height) == 240
    ensures height > 240 && height >= width ==> ThumbHeight(width, height) == 240
  {
    var m := Max(width, height);
    if m <= 240 {
      AtLeastOne(240.0, m as real);
    } else {
      BelowOne(240.0, m as real);
    }
  }

  /** Both sides are scaled alike, to 240 for the longer one, and rounded to the nearest pixel, but to one at least. */
  lemma SidesAreRounded(width: nat, height: nat, scale: real)
    requires width > 0 && height > 0 && (width > 240 || height > 240)
    requires scale * (if width < height then height else width) as real == 240.0
    ensures var w := ThumbWidth(width, height);
            w == 1 || w as real - 0.5 <= width as real * scale < w as real + 0.5
    ensures var h := ThumbHeight(width, height);
            h == 1 || h as real - 0.5 <= height as real * scale < h as real + 0.5
    ensures ThumbWidth(width, height) == 1 ==> width as real * scale < 1.5
    ensures ThumbHeight(width, height) == 1 ==> height as real * scale < 1.5
  {
    BelowOne(240.0, Max(width, height) as real);
    SameScale(scale, Scale(width, height), Max(width, height) as real);
  }

  lemma SameScale(a: real, b: real, m: real)
    requires m > 0.0 && a * m == b * m
    ensures a == b
  {
    Scaled(a, b, m);
    Scaled(b, a, m);
  }

  // ------------------------------------------------------------- the quad

  /** Eight in a hundred of the thumbnail's pixels make a screen. */
  lemma ShareOf(patch: seq<nat>, w: nat, h: nat)
    ensures IsScreen(patch, w, h) <==> 100 * |patch| >= 8 * (w * h)
  {
    var n := w * h;
    assert IsScreen(patch, w, h) <==> |patch| as real >= n as real * 0.08;
  }

  /** Without a screen the quad stands in from the photo's edges by eight in a hundred of its sides. */
  lemma InsetBy(width: real, height: real)
    ensures var q := InsetQuad(width, height);
            && |q| == 4
            && 100.0 * q[0].x == 8.0 * width && 100.0 * q[0].y == 8.0 * height
            && 100.0 * q[1].x == 92.0 * width && 100.0 * q[1].y == 8.0 * height
            && 100.0 * q[2].x == 92.0 * width && 100.0 * q[2].y == 92.0 * height
            && 100.0 * q[3].x == 8.0 * width && 100.0 * q[3].y == 92.0 * height
  {
  }

  /** Pixel i's middle in the thumbnail, at that scale, is here in the photo. */
  predicate MiddleAt(i: nat, w: nat, scale: real, p: Point)
    requires w > 0
  {
    p.x * scale == (i % w) as real + 0.5 && p.y * scale == (i / w) as real + 0.5
  }

  /** Columns and rows are counted from the top-left. */
  function Sums(patch: seq<nat>, w: nat): (r: seq<int>)
    requires w > 0
    ensures |r| == |patch|
  {
    seq(|patch|, k requires 0 <= k < |patch| => patch[k] % w + patch[k] / w)
  }

  function Differences(patch: seq<nat>, w: nat): (r: seq<int>)
    requires w > 0
    ensures |r| == |patch|
  {
    seq(|patch|, k requires 0 <= k < |patch| => patch[k] % w - patch[k] / w)
  }

  /** The first place of the least, and of the greatest. */
  predicate FirstLow(values: seq<int>, k: nat) {
    && k < |values| && (forall j :: 0 <= j < |values| ==> values[k] <= values[j])
    && (forall j :: 0 <= j < k ==> values[k] < values[j])
  }

  predicate FirstHigh(values: seq<int>, k: nat) {
    && k < |values| && (forall j :: 0 <= j < |values| ==> values[k] >= values[j])
    && (forall j :: 0 <= j < k ==> values[k] > values[j])
  }

  /** The first pixels of the patch furthest to the top-left, top-right, bottom-right and bottom-left. */
  ghost predicate Furthest(patch: seq<nat>, w: nat, tl: nat, tr: nat, br: nat, bl: nat)
    requires w > 0
  {
    && (exists k: nat :: FirstLow(Sums(patch, w), k) && patch[k] == tl)
    && (exists k: nat :: FirstHigh(Differences(patch, w), k) && patch[k] == tr)
    && (exists k: nat :: FirstHigh(Sums(patch, w), k) && patch[k] == br)
    && (exists k: nat :: FirstLow(Differences(patch, w), k) && patch[k] == bl)
  }

  lemma LeastIsLow(patch: seq<nat>, w: nat, i: nat)
    requires w > 0
    ensures FirstLeast(patch, i, TopLeft, w) ==> exists k: nat :: FirstLow(Sums(patch, w), k) && patch[k] == i
    ensures FirstLeast(patch, i, BottomLeft, w) ==> exists k: nat :: FirstLow(Differences(patch, w), k) && patch[k] == i
  {
    if FirstLeast(patch, i, TopLeft, w) {
      var k: nat :| k < |patch| && patch[k] == i
        && (forall j :: 0 <= j < |patch| ==> Measure(TopLeft, i, w) <= Measure(TopLeft, patch[j], w))
        && (forall j :: 0 <= j < k ==> Measure(TopLeft, i, w) < Measure(TopLeft, patch[j], w));
      assert FirstLow(Sums(patch, w), k);
    }
    if FirstLeast(patch, i, BottomLeft, w) {
      var k: nat :| k < |patch| && patch[k] == i
        && (forall j :: 0 <= j < |patch| ==> Measure(BottomLeft, i, w) <= Measure(BottomLeft, patch[j], w))
        && (forall j :: 0 <= j < k ==> Measure(BottomLeft, i, w) < Measure(BottomLeft, patch[j], w));
      assert FirstLow(Differences(patch, w), k);
    }
  }

  lemma LeastIsHigh(patch: seq<nat>, w: nat, i: nat)
    requires w > 0
    ensures FirstLeast(patch, i, BottomRight, w) ==> exists k: nat :: FirstHigh(Sums(patch, w), k) && patch[k] == i
    ensures FirstLeast(patch, i, TopRight, w) ==> exists k: nat :: FirstHigh(Differences(patch, w), k) && patch[k] == i
  {
    if FirstLeast(patch, i, BottomRight, w) {
      var k: nat :| k < |patch| && patch[k] == i
        && (forall j :: 0 <= j < |patch| ==> Measure(BottomRight, i, w) <= Measure(BottomRight, patch[j], w))
        && (forall j :: 0 <= j < k ==> Measure(BottomRight, i, w) < Measure(BottomRight, patch[j], w));
      assert FirstHigh(Sums(patch, w), k);
    }
    if FirstLeast(patch, i, TopRight, w) {
      var k: nat :| k < |patch| && patch[k] == i
        && (forall j :: 0 <= j < |patch| ==> Measure(TopRight, i, w) <= Measure(TopRight, patch[j], w))
        && (forall j :: 0 <= j < k ==> Measure(TopRight, i, w) < Measure(TopRight, patch[j], w));
      assert FirstHigh(Differences(patch, w), k);
    }
  }

  lemma ExtremeIsFurthest(patch: seq<nat>, w: nat, c: Corners)
    requires w > 0 && Extreme(patch, w, c)
    ensures Furthest(patch, w, c.tl, c.tr, c.br, c.bl)
  {
    LeastIsLow(patch, w, c.tl);
    LeastIsLow(patch, w, c.bl);
    LeastIsHigh(patch, w, c.br);
    LeastIsHigh(patch, w, c.tr);
  }

  lemma BackIsMiddle(i: nat, w: nat, scale: real)
    requires w > 0 && scale > 0.0
    ensures MiddleAt(i, w, scale, Back(i, w, scale))
  {
    Undone((i % w) as real + 0.5, scale);
    Undone((i / w) as real + 0.5, scale);
  }

  lemma ShownIsMiddle(c: Corners, w: nat, scale: real)
    requires w > 0 && scale > 0.0
    ensures var quad := Shown(c, w, scale);
            && |quad| == 4 && MiddleAt(c.tl, w, scale, quad[0]) && MiddleAt(c.tr, w, scale, quad[1])
            && MiddleAt(c.br, w, scale, quad[2]) && MiddleAt(c.bl, w, scale, quad[3])
  {
    BackIsMiddle(c.tl, w, scale);
    BackIsMiddle(c.tr, w, scale);
    BackIsMiddle(c.br, w, scale);
    BackIsMiddle(c.bl, w, scale);
  }

  lemma Undone(x: real, scale: real)
    requires scale > 0.0
    ensures x / scale * scale == x
  {
  }

  /**
   * What is detected, in the photo's measure: with a patch of eight in a hundred or more, the middles of its
   * pixels furthest to the top-left, top-right, bottom-right and bottom-left, in this order.
   */
  lemma DetectedIsFurthest(width: nat, height: nat, data: seq<Byte>, patch: seq<nat>, quad: seq<Point>)
    returns (tl: nat, tr: nat, br: nat, bl: nat)
    requires width > 0 && height > 0 && Detected(width, height, data, patch, quad)
    requires 100 * |patch| >= 8 * (ThumbWidth(width, height) * ThumbHeight(width, height))
    ensures var (w, scale) := (ThumbWidth(width, height), Scale(width, height));
            && Furthest(patch, w, tl, tr, br, bl) && |quad| == 4
            && MiddleAt(tl, w, scale, quad[0]) && MiddleAt(tr, w, scale, quad[1])
            && MiddleAt(br, w, scale, quad[2]) && MiddleAt(bl, w, scale, quad[3])
  {
    var (w, h, scale) := (ThumbWidth(width, height), ThumbHeight(width, height), Scale(width, height));
    ShareOf(patch, w, h);
    var c :| Extreme(patch, w, c) && quad == Shown(c, w, scale);
    ExtremeIsFurthest(patch, w, c);
    ShownIsMiddle(c, w, scale);
    tl, tr, br, bl := c.tl, c.tr, c.br, c.bl;
  }
}
