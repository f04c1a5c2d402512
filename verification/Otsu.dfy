/** The brightness threshold that best splits a picture in two, by Otsu's method, over the reals. */
module Otsu {
  type Byte = x: int | 0 <= x < 256

  function CountEqual(luma: seq<Byte>, t: int): nat {
    if luma == [] then 0
    else CountEqual(luma[..|luma| - 1], t) + if luma[|luma| - 1] == t then 1 else 0
  }

  /** How many pixels are at most this bright. */
  function CountUpTo(luma: seq<Byte>, t: int): nat {
    if luma == [] then 0
    else CountUpTo(luma[..|luma| - 1], t) + if luma[|luma| - 1] <= t then 1 else 0
  }

  /** Their brightness added up. */
  function SumUpTo(luma: seq<Byte>, t: int): nat {
    if luma == [] then 0
    else SumUpTo(luma[..|luma| - 1], t) + if luma[|luma| - 1] <= t then luma[|luma| - 1] else 0
  }

  /** Both sides of the threshold have pixels. */
  predicate Splits(luma: seq<Byte>, t: int) {
    0 < CountUpTo(luma, t) < |luma|
  }

  /** The classes' sizes times the squared distance of their means. */
  function Variance(sumBelow: int, below: nat, sumAbove: int, above: nat): real
    requires below > 0 && above > 0
  {
    var gap := sumBelow as real / below as real - sumAbove as real / above as real;
    below as real * above as real * (gap * gap)
  }

  /** The variance between the pixels at most as bright as t and the others. */
  function Between(luma: seq<Byte>, t: int): real
    requires Splits(luma, t)
  {
    Variance(SumUpTo(luma, t), CountUpTo(luma, t), SumUpTo(luma, 255) - SumUpTo(luma, t), |luma| - CountUpTo(luma, t))
  }

  /** The earliest threshold with the greatest variance among all that split, or 127 when none does. */
  ghost predicate IsBest(luma: seq<Byte>, best: int) {
    if exists t :: 0 <= t < 256 && Splits(luma, t) then
      && 0 <= best < 256 && Splits(luma, best)
      && (forall t :: 0 <= t < 256 && Splits(luma, t) ==> Between(luma, t) <= Between(luma, best))
      && (forall t :: 0 <= t < best && Splits(luma, t) ==> Between(luma, t) < Between(luma, best))
    else best == 127
  }

  // -------------------------------------------------------------- counts

  lemma {:induction false} NextLevel(luma: seq<Byte>, t: int)
    ensures CountUpTo(luma, t) == CountUpTo(luma, t - 1) + CountEqual(luma, t)
    ensures t >= 0 ==> SumUpTo(luma, t) == SumUpTo(luma, t - 1) + t * CountEqual(luma, t)
  {
    if luma != [] {
      NextLevel(luma[..|luma| - 1], t);
      if luma[|luma| - 1] == t {
        assert t * (CountEqual(luma[..|luma| - 1], t) + 1) == t * CountEqual(luma[..|luma| - 1], t) + t;
      }
    }
  }

  lemma {:induction false} Extremes(luma: seq<Byte>)
    ensures CountUpTo(luma, -1) == 0 && SumUpTo(luma, -1) == 0 && CountUpTo(luma, 255) == |luma|
  {
    if luma != [] { Extremes(luma[..|luma| - 1]); }
  }

  lemma {:induction false} CountsGrow(luma: seq<Byte>, t: int, u: int)
    requires t <= u
    ensures CountUpTo(luma, t) <= CountUpTo(luma, u) <= |luma|
  {
    if luma != [] { CountsGrow(luma[..|luma| - 1], t, u); }
  }

  /** Below the threshold the mean is at most t, above it at least t + 1. */
  lemma {:induction false} SumBounds(luma: seq<Byte>, t: int)
    requires 0 <= t < 256
    ensures SumUpTo(luma, t) <= t * CountUpTo(luma, t)
    ensures SumUpTo(luma, 255) - SumUpTo(luma, t) >= (t + 1) * (|luma| - CountUpTo(luma, t))
  {
    if luma != [] {
      var rest := luma[..|luma| - 1];
      SumBounds(rest, t);
      if luma[|luma| - 1] <= t {
        assert t * (CountUpTo(rest, t) + 1) == t * CountUpTo(rest, t) + t;
      } else {
        assert (t + 1) * (|rest| + 1 - CountUpTo(rest, t)) == (t + 1) * (|rest| - CountUpTo(rest, t)) + (t + 1);
      }
    }
  }

  lemma QuotientAtMost(a: real, b: real, t: real)
    requires b > 0.0 && a <= t * b
    ensures a / b <= t
  {
    var q := a / b;
    assert q * b == a;
    if q > t { assert (q - t) * b > 0.0; }
  }

  lemma QuotientAtLeast(a: real, b: real, t: real)
    requires b > 0.0 && a >= t * b
    ensures a / b >= t
  {
    var q := a / b;
    assert q * b == a;
    if q < t { assert (t - q) * b > 0.0; }
  }

  lemma ProductAsReal(a: int, b: int)
    ensures (a * b) as real == a as real * b as real
  {
  }

  /** Every split separates the means, so its variance is positive. */
  lemma BetweenIsPositive(luma: seq<Byte>, t: int)
    requires 0 <= t < 256 && Splits(luma, t)
    ensures Between(luma, t) > 0.0
  {
    SumBounds(luma, t);
    MeansApart(SumUpTo(luma, t), CountUpTo(luma, t), SumUpTo(luma, 255) - SumUpTo(luma, t), |luma| - CountUpTo(luma, t), t);
  }

  lemma MeansApart(sumBelow: int, below: nat, sumAbove: int, above: nat, t: nat)
    requires below > 0 && above > 0 && sumBelow <= t * below && sumAbove >= (t + 1) * above
    ensures Variance(sumBelow, below, sumAbove, above) > 0.0
  {
    ProductAsReal(t, below);
    ProductAsReal(t + 1, above);
    QuotientAtMost(sumBelow as real, below as real, t as real);
    QuotientAtLeast(sumAbove as real, above as real, (t + 1) as real);
    var (meanBelow, meanAbove) := (sumBelow as real / below as real, sumAbove as real / above as real);
    assert meanBelow <= t as real && meanAbove >= t as real + 1.0;
    var gap := meanBelow - meanAbove;
    assert gap < 0.0;
    PositiveProduct(below as real, above as real, gap);
    assert Variance(sumBelow, below, sumAbove, above) == below as real * above as real * (gap * gap);
  }

  lemma Positive(a: real, b: real)
    requires a > 0.0 && b > 0.0
    ensures a * b > 0.0
  {
  }

  lemma PositiveProduct(a: real, b: real, gap: real)
    requires a > 0.0 && b > 0.0 && gap < 0.0
    ensures a * b * (gap * gap) > 0.0
  {
    var (m, apart) := (a * b, -gap);
    Positive(a, b);
    Positive(m, apart);
    Positive(m * apart, apart);
    assert m * apart * apart == m * (gap * gap);
  }

  // ------------------------------------------------------------- methods

  method Histogram(luma: array<Byte>) returns (histogram: array<nat>)
    ensures fresh(histogram) && histogram.Length == 256
    ensures forall t :: 0 <= t < 256 ==> histogram[t] == CountEqual(luma[..], t)
  {
    histogram := new nat[256](_ => 0);
    for i := 0 to luma.Length
      invariant forall t :: 0 <= t < 256 ==> histogram[t] == CountEqual(luma[..i], t)
    {
      assert luma[..i + 1][..i] == luma[..i];
      histogram[luma[i]] := histogram[luma[i]] + 1;
    }
    assert luma[..luma.Length] == luma[..];
  }

  method TotalBrightness(histogram: array<nat>, ghost luma: seq<Byte>) returns (sum: nat)
    requires histogram.Length == 256 && forall t :: 0 <= t < 256 ==> histogram[t] == CountEqual(luma, t)
    ensures sum == SumUpTo(luma, 255)
  {
    Extremes(luma);
    sum := 0;
    for t := 0 to 256
      invariant sum == SumUpTo(luma, t - 1)
    {
      NextLevel(luma, t);
      sum := sum + t * histogram[t];
    }
  }

  method Threshold(luma: array<Byte>) returns (threshold: int)
    ensures IsBest(luma[..], threshold)
  {
    var histogram := Histogram(luma);
    var sum := TotalBrightness(histogram, luma[..]);
    threshold := BestSplit(histogram, luma.Length, sum, luma[..]);
  }

  lemma NothingYet(luma: seq<Byte>)
    ensures Scanned(luma, 0, 0, 0, 127, 0.0)
  {
    Extremes(luma);
  }

  /** Up to the level below t: the class below counted and summed, and the best split so far. */
  ghost predicate Scanned(luma: seq<Byte>, t: int, below: nat, sumBelow: nat, threshold: int, best: real) {
    below == CountUpTo(luma, t - 1) && sumBelow == SumUpTo(luma, t - 1) && BestSoFar(luma, t, threshold, best)
  }

  /** Moves the threshold up a level at a time, keeping the class below counted and summed. */
  method BestSplit(histogram: array<nat>, total: nat, sum: nat, ghost luma: seq<Byte>) returns (threshold: int)
    requires histogram.Length == 256 && forall t :: 0 <= t < 256 ==> histogram[t] == CountEqual(luma, t)
    requires total == |luma| && sum == SumUpTo(luma, 255)
    ensures IsBest(luma, threshold)
  {
    NothingYet(luma);
    var sumBelow: nat, below: nat, best := 0, 0, 0.0;
    threshold := 127;
    for t := 0 to 256
      invariant Scanned(luma, t, below, sumBelow, threshold, best)
    {
      LevelAdds(luma, t, below, sumBelow, histogram[t], threshold, best);
      below := below + histogram[t];
      if below == 0 {
        continue;
      }
      if total - below == 0 {
        return;
      }
      var weight: int := t * histogram[t];
      sumBelow := sumBelow + weight;
      threshold, best := Weigh(luma, t, total, sum, below, sumBelow, threshold, best);
    }
    AllTried(luma, threshold, best);
  }

  /** One level more: when that makes the class below empty or everything, no threshold need be weighed. */
  lemma LevelAdds(luma: seq<Byte>, t: int, below: nat, sumBelow: nat, level: nat, threshold: int, best: real)
    requires 0 <= t < 256 && level == CountEqual(luma, t) && Scanned(luma, t, below, sumBelow, threshold, best)
    ensures below + level == CountUpTo(luma, t) <= |luma| && sumBelow + t * level == SumUpTo(luma, t) && t * level >= 0
    ensures BestSoFar(luma, t, threshold, best)
    ensures below + level == 0 ==> Scanned(luma, t + 1, below + level, sumBelow, threshold, best)
    ensures below + level == |luma| && |luma| > 0 ==> IsBest(luma, threshold)
  {
    NextLevel(luma, t);
    CountsGrow(luma, t, 255);
    if below + level == 0 {
      assert t * level == 0;
      BestSame(luma, t, threshold, best);
    }
    if below + level == |luma| {
      AllBelow(luma, t, threshold, best);
    }
  }

  /** One split's variance against the best so far. */
  method Weigh(ghost luma: seq<Byte>, t: int, total: nat, sum: nat, below: nat, sumBelow: nat, threshold: int, best: real)
    returns (threshold': int, best': real)
    requires 0 <= t < 256 && 0 < below < total == |luma| && below == CountUpTo(luma, t)
    requires sumBelow == SumUpTo(luma, t) && sum == SumUpTo(luma, 255) && BestSoFar(luma, t, threshold, best)
    ensures BestSoFar(luma, t + 1, threshold', best')
  {
    var above := total - below;
    var meanBelow := sumBelow as real / below as real;
    var meanAbove := (sum - sumBelow) as real / above as real;
    var between := below as real * above as real * ((meanBelow - meanAbove) * (meanBelow - meanAbove));
    assert between == Variance(sumBelow, below, sum - sumBelow, above);
    SplitFound(luma, t, below, sumBelow, sum, threshold, best);
    if between > best {
      threshold', best' := t, between;
    } else {
      threshold', best' := threshold, best;
    }
  }

  /** Among the thresholds below t: the earliest best one and its variance, or 127 and nothing. */
  ghost predicate BestSoFar(luma: seq<Byte>, t: int, threshold: int, best: real) {
    if exists s :: 0 <= s < t && Splits(luma, s) then
      && 0 <= threshold < t && Splits(luma, threshold) && best == Between(luma, threshold)
      && (forall s :: 0 <= s < t && Splits(luma, s) ==> Between(luma, s) <= best)
      && (forall s :: 0 <= s < threshold && Splits(luma, s) ==> Between(luma, s) < best)
    else threshold == 127 && best == 0.0
  }

  lemma BestNext(luma: seq<Byte>, t: int, threshold: int, best: real)
    requires 0 <= t && Splits(luma, t) && Between(luma, t) > 0.0 && BestSoFar(luma, t, threshold, best)
    ensures if Between(luma, t) > best then BestSoFar(luma, t + 1, t, Between(luma, t))
            else BestSoFar(luma, t + 1, threshold, best)
  {
  }

  lemma SplitFound(luma: seq<Byte>, t: int, below: nat, sumBelow: nat, sum: nat, threshold: int, best: real)
    requires 0 <= t < 256 && 0 < below < |luma| && below == CountUpTo(luma, t)
    requires sumBelow == SumUpTo(luma, t) && sum == SumUpTo(luma, 255) && BestSoFar(luma, t, threshold, best)
    ensures var between := Variance(sumBelow, below, sum - sumBelow, |luma| - below);
            if between > best then BestSoFar(luma, t + 1, t, between) else BestSoFar(luma, t + 1, threshold, best)
  {
    BetweenIsPositive(luma, t);
    BestNext(luma, t, threshold, best);
  }

  lemma BestSame(luma: seq<Byte>, t: int, threshold: int, best: real)
    requires 0 <= t && CountUpTo(luma, t) == 0 && BestSoFar(luma, t, threshold, best)
    ensures BestSoFar(luma, t + 1, threshold, best)
  {
  }

  lemma NoMoreSplits(luma: seq<Byte>, t: int)
    requires CountUpTo(luma, t) == |luma|
    ensures forall s :: t <= s ==> !Splits(luma, s)
  {
    forall s | t <= s ensures !Splits(luma, s) { CountsGrow(luma, t, s); }
  }

  lemma AllTried(luma: seq<Byte>, threshold: int, best: real)
    requires BestSoFar(luma, 256, threshold, best)
    ensures IsBest(luma, threshold)
  {
    BestOfAll(luma, 256, threshold, best);
  }

  lemma AllBelow(luma: seq<Byte>, t: int, threshold: int, best: real)
    requires 0 <= t < 256 && CountUpTo(luma, t) == |luma| && BestSoFar(luma, t, threshold, best)
    ensures IsBest(luma, threshold)
  {
    NoMoreSplits(luma, t);
    BestOfAll(luma, t, threshold, best);
  }

  lemma BestOfAll(luma: seq<Byte>, t: int, threshold: int, best: real)
    requires 0 <= t <= 256 && BestSoFar(luma, t, threshold, best)
    requires forall s :: t <= s < 256 ==> !Splits(luma, s)
    ensures IsBest(luma, threshold)
  {
  }
}
