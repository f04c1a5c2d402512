/**
 * Photos so long and narrow that half a pixel of the thumbnail is wider than they are: every such photo
 * can have a screen found in it, and then its quad lies outside the photo.
 */
module Slivers {
  import opened Elimination
  import opened Otsu
  import opened Patch
  import opened Screen

  /** The thumbnail of a sliver is a single line of 240 pixels. */
  lemma SliverThumb(width: nat, height: nat)
    requires width > 0 && height > 0 && !NotTooNarrow(width, height)
    ensures (ThumbWidth(width, height) == 240 && ThumbHeight(width, height) == 1)
         || (ThumbWidth(width, height) == 1 && ThumbHeight(width, height) == 240)
  {
    var (s, m) := (Scale(width, height), Max(width, height));
    BelowOne(240.0, m as real);
    assert s * m as real == 240.0;
    if width >= height {
      LongSide(width, s);
      ShortSide(height, m, s);
    } else {
      LongSide(height, s);
      ShortSide(width, m, s);
    }
  }

  lemma LongSide(side: nat, s: real)
    requires s > 0.0 && s * side as real == 240.0
    ensures ThumbSide(side, s) == 240
  {
    assert side as real * s == 240.0;
    assert Round(240.0) == 240;
  }

  lemma ShortSide(side: nat, m: nat, s: real)
    requires s > 0.0 && s * m as real == 240.0 && m > 480 * side
    ensures ThumbSide(side, s) == 1
  {
    SideScaled(side, m, s);
    assert side as real * s < 0.5;
    assert side as real * s >= 0.0;
    assert Round(side as real * s) == 0;
  }

  // ------------------------------------------- one dark pixel, 239 white

  function DarkBefore(i: int, n: int, light: Byte): Byte {
    if i < n then 0 else light
  }

  function Lumas(): (l: seq<Byte>)
    ensures |l| == 240 && l[0] == 0 && forall i :: 1 <= i < 240 ==> l[i] == 255
  {
    seq(240, i => DarkBefore(i, 1, 255))
  }

  /** Four bytes a pixel, the first pixel black. */
  function Pixels(): (d: seq<Byte>)
    ensures |d| == 960 && forall i :: 0 <= i < 960 ==> d[i] == if i < 4 then 0 else 255
  {
    seq(960, i => DarkBefore(i, 4, 255))
  }

  function Mask(): (m: seq<Byte>)
    ensures |m| == 240 && m[0] == 0 && forall i :: 1 <= i < 240 ==> m[i] == 1
  {
    seq(240, i => DarkBefore(i, 1, 1))
  }

  lemma PixelsAreLumas()
    ensures IsLuma(Lumas(), Pixels())
    ensures forall luma: seq<Byte> :: IsLuma(luma, Pixels()) ==> luma == Lumas()
  {
    forall i | 0 <= i < 240 ensures Luma(Pixels(), i) == Lumas()[i] {
      OnePixel(i);
    }
    forall luma: seq<Byte> | IsLuma(luma, Pixels()) ensures luma == Lumas() {
      assert |luma| == 240;
      assert forall i :: 0 <= i < 240 ==> luma[i] == Luma(Pixels(), i);
    }
  }

  lemma OnePixel(i: nat)
    requires i < 240
    ensures Luma(Pixels(), i) == if i == 0 then 0 else 255
  {
    var v := if i == 0 then 0 else 255;
    assert Pixels()[4 * i] == v && Pixels()[4 * i + 1] == v && Pixels()[4 * i + 2] == v;
  }

  /** Every threshold that splits the picture splits it alike. */
  lemma {:induction false} LumaCounts(n: nat, t: int)
    requires 1 <= n <= 240 && 0 <= t < 255
    ensures CountUpTo(Lumas()[..n], t) == 1 && SumUpTo(Lumas()[..n], t) == 0
    decreases n
  {
    var l := Lumas()[..n];
    assert l[..n - 1] == Lumas()[..n - 1] && l[n - 1] == Lumas()[n - 1];
    if n > 1 { LumaCounts(n - 1, t); }
  }

  lemma SplitsAlike(t: int)
    requires 0 <= t < 255
    ensures Splits(Lumas(), t) && Splits(Lumas(), 0) && Between(Lumas(), t) == Between(Lumas(), 0)
  {
    assert Lumas()[..240] == Lumas();
    LumaCounts(240, t);
    LumaCounts(240, 0);
  }

  lemma BestIsZero(best: int)
    ensures IsBest(Lumas(), best) <==> best == 0
  {
    SplitsAlike(0);
    Extremes(Lumas());
    forall t | 0 <= t < 256 && Splits(Lumas(), t) ensures Between(Lumas(), t) == Between(Lumas(), 0) {
      if t < 255 { SplitsAlike(t); }
    }
  }

  lemma OnlyMask(luma: seq<Byte>, threshold: int, mask: seq<Byte>)
    requires IsLuma(luma, Pixels()) && IsBest(luma, threshold) && IsMask(mask, luma, threshold)
    ensures mask == Mask()
  {
    PixelsAreLumas();
    BestIsZero(threshold);
  }

  // ------------------------------------------------------ its component

  /** The thumbnail is one row or one column. */
  predicate OneLine(w: nat) {
    w == 1 || w == 240
  }

  lemma NextTo(w: nat, i: nat)
    requires OneLine(w) && i < 239
    ensures Adjacent(w, i, i + 1)
  {
  }

  lemma {:induction false} LinkedOn(w: nat, k: nat)
    requires OneLine(w) && 1 <= k < 240
    ensures Linked(Mask(), w, 1, k)
  {
    if k == 1 {
      LinkedSelf(Mask(), w, 1);
    } else {
      LinkedOn(w, k - 1);
      NextTo(w, k - 1);
      LinkedStep(Mask(), w, 1, k - 1, k);
    }
  }

  function Whites(): (p: seq<nat>)
    ensures |p| == 239 && forall i :: 0 <= i < 239 ==> p[i] == i + 1
  {
    seq(239, i requires 0 <= i < 239 => i + 1)
  }

  lemma WhiteMembers()
    ensures forall j: nat :: j in Whites() <==> 1 <= j < 240
  {
    forall j: nat | 1 <= j < 240 ensures j in Whites() { assert Whites()[j - 1] == j; }
  }

  lemma WhitesAreComponent(w: nat)
    requires OneLine(w)
    ensures forall j: nat :: j in Component(Mask(), w, 1) <==> 1 <= j < 240
    ensures IsComponent(Mask(), w, Whites())
  {
    WhiteMembers();
    forall j: nat ensures j in Component(Mask(), w, 1) <==> 1 <= j < 240 {
      if 1 <= j < 240 { LinkedOn(w, j); }
    }
    assert Bright(Mask(), 1);
  }

  lemma NoneLargerThanWhites(w: nat, s: nat)
    requires OneLine(w)
    ensures |Component(Mask(), w, s)| <= 239 && |Component(Mask(), w, 1)| == 239
  {
    WhitesAreComponent(w);
    WhiteMembers();
    DistinctSize(Whites(), Component(Mask(), w, 1));
    SmallerSet(Component(Mask(), w, s), Component(Mask(), w, 1));
  }

  lemma WhitesAreFirst(w: nat)
    requires OneLine(w)
    ensures Distinct(Whites()) && FirstOfItsSize(Mask(), w, Whites())
  {
    WhiteMembers();
    assert 1 in Whites();
    assert SmallerBefore(Mask(), w, 1, |Whites()|);
  }

  lemma WhitesAreFound(w: nat)
    requires OneLine(w)
    ensures FoundFrom(Pixels(), w, Whites())
  {
    PixelsAreLumas();
    BestIsZero(0);
    WhitesAreComponent(w);
    WhitesAreFirst(w);
    forall s: nat ensures |Component(Mask(), w, s)| <= |Whites()| {
      NoneLargerThanWhites(w, s);
    }
    assert IsMask(Mask(), Lumas(), 0);
    assert FoundIn(Lumas(), 0, Mask(), Pixels(), w, Whites());
  }

  /** Whatever patch is found in it is as large. */
  lemma FoundIsLarge(w: nat, patch: seq<nat>)
    requires OneLine(w) && FoundFrom(Pixels(), w, patch)
    ensures |patch| >= 239
  {
    var luma: seq<Byte>, threshold: int, mask: seq<Byte> :| FoundIn(luma, threshold, mask, Pixels(), w, patch);
    OnlyMask(luma, threshold, mask);
    NoneLargerThanWhites(w, 1);
    assert Bright(mask, 1);
  }

  lemma LargeIsScreen(patch: seq<nat>, w: nat, h: nat)
    requires |patch| >= 239 && ((w == 1 && h == 240) || (w == 240 && h == 1))
    ensures IsScreen(patch, w, h)
  {
    assert (w * h) as real * MIN_SHARE == 19.2;
  }

  lemma InRow(i: nat)
    requires i < 240
    ensures X(i, 240) == i && Y(i, 240) == 0
  {
  }

  lemma InColumn(i: nat)
    ensures X(i, 1) == 0 && Y(i, 1) == i
  {
  }

  /** Each corner's measure of a pixel, by where the pixel stands in the line. */
  function LineMeasure(w: nat, corner: Corner, i: nat): int {
    match corner
    case TopLeft => i
    case TopRight => if w == 240 then -(i as int) else i
    case BottomRight => -(i as int)
    case BottomLeft => if w == 240 then i else -(i as int)
  }

  lemma MeasureInLine(w: nat, corner: Corner, i: nat)
    requires OneLine(w) && i < 240
    ensures Measure(corner, i, w) == LineMeasure(w, corner, i)
  {
    if w == 240 { InRow(i); } else { InColumn(i); }
  }

  /** The white pixel that stands first in a corner's measure. */
  function FirstWhite(w: nat, corner: Corner): nat {
    match corner
    case TopLeft => 1
    case TopRight => if w == 240 then 239 else 1
    case BottomRight => 239
    case BottomLeft => if w == 240 then 1 else 239
  }

  lemma FirstIsLess(w: nat, corner: Corner, i: nat, m: nat)
    requires OneLine(w) && 1 <= m < 240 && i == FirstWhite(w, corner)
    ensures Measure(corner, i, w) <= Measure(corner, m, w)
    ensures m < i ==> Measure(corner, i, w) < Measure(corner, m, w)
  {
    MeasureInLine(w, corner, m);
    MeasureInLine(w, corner, i);
  }

  lemma FirstIsLeast(w: nat, corner: Corner, i: nat)
    requires OneLine(w) && i == FirstWhite(w, corner)
    ensures forall m: nat :: 1 <= m < 240 ==> Measure(corner, i, w) <= Measure(corner, m, w)
    ensures forall m: nat :: 1 <= m < i ==> Measure(corner, i, w) < Measure(corner, m, w)
  {
    forall m: nat | 1 <= m < 240
      ensures Measure(corner, i, w) <= Measure(corner, m, w) && (m < i ==> Measure(corner, i, w) < Measure(corner, m, w))
    {
      FirstIsLess(w, corner, i, m);
    }
  }

  lemma Least(w: nat, corner: Corner, i: nat)
    requires OneLine(w) && i == FirstWhite(w, corner)
    ensures FirstLeast(Whites(), i, corner, w)
  {
    FirstIsLeast(w, corner, i);
    ListsLeast(Whites(), i, corner, w);
  }

  lemma ListsLeast(p: seq<nat>, i: nat, corner: Corner, w: nat)
    requires w > 0 && |p| == 239 && (forall k :: 0 <= k < 239 ==> p[k] == k + 1) && 1 <= i < 240
    requires forall m: nat :: 1 <= m < 240 ==> Measure(corner, i, w) <= Measure(corner, m, w)
    requires forall m: nat :: 1 <= m < i ==> Measure(corner, i, w) < Measure(corner, m, w)
    ensures FirstLeast(p, i, corner, w)
  {
    assert p[i - 1] == i;
  }

  lemma WhitesHaveCorners(w: nat) returns (c: Corners)
    requires OneLine(w)
    ensures Extreme(Whites(), w, c)
  {
    c := Corners(FirstWhite(w, TopLeft), FirstWhite(w, TopRight), FirstWhite(w, BottomRight), FirstWhite(w, BottomLeft));
    Least(w, TopLeft, FirstWhite(w, TopLeft));
    Least(w, TopRight, FirstWhite(w, TopRight));
    Least(w, BottomRight, FirstWhite(w, BottomRight));
    Least(w, BottomLeft, FirstWhite(w, BottomLeft));
  }

  // ------------------------------------------------------------- results

  /** In every sliver photo this thumbnail has a screen found in it, whose quad then lies outside. */
  lemma SliverIsOutside(width: nat, height: nat) returns (patch: seq<nat>, quad: seq<Point>)
    requires width > 0 && height > 0 && !NotTooNarrow(width, height)
    ensures Detected(width, height, Pixels(), patch, quad)
    ensures forall other: seq<nat>, q :: Detected(width, height, Pixels(), other, q) ==> !Inside(q, width, height)
  {
    SliverThumb(width, height);
    var (w, h) := (ThumbWidth(width, height), ThumbHeight(width, height));
    patch := Whites();
    WhitesAreFound(w);
    LargeIsScreen(patch, w, h);
    var c := WhitesHaveCorners(w);
    quad := Shown(c, w, Scale(width, height));
    forall other: seq<nat>, q | Detected(width, height, Pixels(), other, q) ensures !Inside(q, width, height) {
      AllAreOutside(width, height, other, q);
    }
  }

  lemma AllAreOutside(width: nat, height: nat, patch: seq<nat>, quad: seq<Point>)
    requires width > 0 && height > 0 && !NotTooNarrow(width, height) && Detected(width, height, Pixels(), patch, quad)
    ensures !Inside(quad, width, height)
  {
    SliverThumb(width, height);
    var (w, h) := (ThumbWidth(width, height), ThumbHeight(width, height));
    FoundIsLarge(w, patch);
    LargeIsScreen(patch, w, h);
    DetectedIsGood(width, height, Pixels(), patch, quad);
  }

  /**
   * So the quad is inside the photo whatever the picture shows exactly when neither side is more than 480
   * times the other.
   */
  lemma InsideIffNotTooNarrow(width: nat, height: nat)
    requires width > 0 && height > 0
    ensures NotTooNarrow(width, height) <==>
      forall data: seq<Byte>, patch: seq<nat>, quad :: Detected(width, height, data, patch, quad) ==> Inside(quad, width, height)
  {
    if NotTooNarrow(width, height) {
      forall data: seq<Byte>, patch: seq<nat>, quad | Detected(width, height, data, patch, quad)
        ensures Inside(quad, width, height)
      {
        DetectedIsGood(width, height, data, patch, quad);
      }
    } else {
      var patch, quad := SliverIsOutside(width, height);
      assert Detected(width, height, Pixels(), patch, quad) && !Inside(quad, width, height);
    }
  }
}
