/** What the best threshold is best at: each side's pixels lie as close to their own mean as any split allows. */
module Spread {
  import opened Otsu

  /** How far the pixels at most as bright as t are from a level, squared and added up. */
  function SpreadBelow(luma: seq<Byte>, t: int, level: real): real {
    if luma == [] then 0.0
    else
      var p := luma[|luma| - 1];
      SpreadBelow(luma[..|luma| - 1], t, level)
      + if p <= t then (p as real - level) * (p as real - level) else 0.0
  }

  /** The same of the brighter ones. */
  function SpreadAbove(luma: seq<Byte>, t: int, level: real): real {
    if luma == [] then 0.0
    else
      var p := luma[|luma| - 1];
      SpreadAbove(luma[..|luma| - 1], t, level)
      + if p > t then (p as real - level) * (p as real - level) else 0.0
  }

  function SquaresUpTo(luma: seq<Byte>, t: int): int {
    if luma == [] then 0
    else
      var p: int := luma[|luma| - 1];
      SquaresUpTo(luma[..|luma| - 1], t) + if p <= t then p * p else 0
  }

  /** The spread about a level of so many pixels with this sum and these squares. */
  function Moment(squares: int, sum: int, count: int, level: real): real {
    squares as real - 2.0 * level * sum as real + level * level * count as real
  }

  lemma OnePixelMore(squares: int, sum: int, count: int, p: int, level: real)
    ensures Moment(squares + p * p, sum + p, count + 1, level)
         == Moment(squares, sum, count, level) + (p as real - level) * (p as real - level)
  {
    var q := p as real;
    ProductAsReal(p, p);
    assert (q - level) * (q - level) == q * q - 2.0 * level * q + level * level;
    assert 2.0 * level * (sum as real + q) == 2.0 * level * sum as real + 2.0 * level * q;
    assert level * level * (count as real + 1.0) == level * level * count as real + level * level;
  }

  lemma {:induction false} BelowIs(luma: seq<Byte>, t: int, level: real)
    ensures SpreadBelow(luma, t, level) == Moment(SquaresUpTo(luma, t), SumUpTo(luma, t), CountUpTo(luma, t), level)
  {
    if luma == [] {
      Empty(level);
    } else {
      var init := luma[..|luma| - 1];
      BelowIs(init, t, level);
      OnePixelMore(SquaresUpTo(init, t), SumUpTo(init, t), CountUpTo(init, t), luma[|luma| - 1], level);
    }
  }

  lemma Empty(level: real)
    ensures Moment(0, 0, 0, level) == 0.0
  {
  }

  lemma {:induction false} AboveIs(luma: seq<Byte>, t: int, level: real)
    requires t < 256
    ensures SpreadAbove(luma, t, level)
         == Moment(SquaresUpTo(luma, 255) - SquaresUpTo(luma, t), SumUpTo(luma, 255) - SumUpTo(luma, t),
                   |luma| - CountUpTo(luma, t), level)
  {
    if luma == [] {
      Empty(level);
    } else {
      var init := luma[..|luma| - 1];
      AboveIs(init, t, level);
      OnePixelMore(SquaresUpTo(init, 255) - SquaresUpTo(init, t), SumUpTo(init, 255) - SumUpTo(init, t),
                   |init| - CountUpTo(init, t), luma[|luma| - 1], level);
    }
  }

  /** About its mean, a class spreads by its squares less its size times the mean's. */
  lemma AboutTheMean(squares: int, sum: int, count: nat)
    requires count > 0
    ensures var mean := sum as real / count as real;
            Moment(squares, sum, count, mean) == squares as real - count as real * (mean * mean)
  {
    var mean := sum as real / count as real;
    MeanTimes(sum as real, count as real);
    assert mean * (mean * count as real) == mean * mean * count as real;
  }

  /** How far the pixels on either side of a threshold are from their side's mean. */
  function Within(luma: seq<Byte>, t: int): real
    requires Splits(luma, t)
  {
    SpreadBelow(luma, t, MeanBelow(luma, t)) + SpreadAbove(luma, t, MeanAbove(luma, t))
  }

  function MeanBelow(luma: seq<Byte>, t: int): real
    requires Splits(luma, t)
  {
    SumUpTo(luma, t) as real / CountUpTo(luma, t) as real
  }

  function MeanAbove(luma: seq<Byte>, t: int): real
    requires Splits(luma, t)
  {
    (SumUpTo(luma, 255) - SumUpTo(luma, t)) as real / (|luma| - CountUpTo(luma, t)) as real
  }

  lemma MeanTimes(sum: real, count: real)
    requires count != 0.0
    ensures sum == sum / count * count
  {
  }

  lemma BelowMean(luma: seq<Byte>, t: int)
    requires Splits(luma, t)
    ensures SpreadBelow(luma, t, MeanBelow(luma, t))
         == SquaresUpTo(luma, t) as real - Weighed(CountUpTo(luma, t), MeanBelow(luma, t))
  {
    BelowIs(luma, t, MeanBelow(luma, t));
    AboutTheMean(SquaresUpTo(luma, t), SumUpTo(luma, t), CountUpTo(luma, t));
  }

  lemma AboveMean(luma: seq<Byte>, t: int)
    requires t < 256 && Splits(luma, t)
    ensures SpreadAbove(luma, t, MeanAbove(luma, t))
         == (SquaresUpTo(luma, 255) - SquaresUpTo(luma, t)) as real - Weighed(|luma| - CountUpTo(luma, t), MeanAbove(luma, t))
  {
    AboveIs(luma, t, MeanAbove(luma, t));
    AboutTheMean(SquaresUpTo(luma, 255) - SquaresUpTo(luma, t), SumUpTo(luma, 255) - SumUpTo(luma, t),
                 |luma| - CountUpTo(luma, t));
  }

  lemma WithinIs(luma: seq<Byte>, t: int)
    requires t < 256 && Splits(luma, t)
    ensures Within(luma, t)
         == SquaresUpTo(luma, 255) as real - Weighed(CountUpTo(luma, t), MeanBelow(luma, t))
            - Weighed(|luma| - CountUpTo(luma, t), MeanAbove(luma, t))
  {
    BelowMean(luma, t);
    AboveMean(luma, t);
  }

  function Weighed(count: int, mean: real): real {
    count as real * (mean * mean)
  }

  /** Both means, weighed by their classes, against the mean of all and their distance. */
  lemma Apart(a: real, b: real, m: real, n: real)
    ensures (a + b) * (a * (m * m) + b * (n * n)) == (a * m + b * n) * (a * m + b * n) + a * b * ((m - n) * (m - n))
  {
    var (p, q) := (a * m, b * n);
    assert a * (a * (m * m)) == p * p && b * (b * (n * n)) == q * q;
    assert a * b * ((m - n) * (m - n)) == a * b * (m * m) - 2.0 * (a * b * (m * n)) + a * b * (n * n);
    assert p * q == a * b * (m * n);
    assert a * (b * (n * n)) == a * b * (n * n) && b * (a * (m * m)) == a * b * (m * m);
    assert (p + q) * (p + q) == p * p + 2.0 * (p * q) + q * q;
    assert (a + b) * (a * (m * m) + b * (n * n))
        == a * (a * (m * m)) + a * (b * (n * n)) + b * (a * (m * m)) + b * (b * (n * n));
  }

  lemma ApartWeighed(a: nat, b: nat, s: int, r: int, m: real, n: real, all: real, sum: real, between: real)
    requires m * a as real == s as real && n * b as real == r as real
    requires all == (a + b) as real && sum == (s + r) as real
    requires between == a as real * b as real * ((m - n) * (m - n))
    ensures all * (Weighed(a, m) + Weighed(b, n)) == sum * sum + between
  {
    Apart(a as real, b as real, m, n);
  }

  lemma MeanBelowTimes(luma: seq<Byte>, t: int)
    requires Splits(luma, t)
    ensures MeanBelow(luma, t) * CountUpTo(luma, t) as real == SumUpTo(luma, t) as real
  {
    MeanTimes(SumUpTo(luma, t) as real, CountUpTo(luma, t) as real);
  }

  lemma MeanAboveTimes(luma: seq<Byte>, t: int)
    requires Splits(luma, t)
    ensures MeanAbove(luma, t) * (|luma| - CountUpTo(luma, t)) as real == (SumUpTo(luma, 255) - SumUpTo(luma, t)) as real
  {
    var (sum, count) := ((SumUpTo(luma, 255) - SumUpTo(luma, t)) as real, (|luma| - CountUpTo(luma, t)) as real);
    assert MeanAbove(luma, t) == sum / count;
    MeanTimes(sum, count);
  }

  /** The classes' parts: what they take from the squares, and what that comes to with the variance between them. */
  lemma Parts(luma: seq<Byte>, t: int, all: real, squares: real, sum: real)
    returns (x: real, y: real, within: real, between: real)
    requires all == |luma| as real && squares == SquaresUpTo(luma, 255) as real && sum == SumUpTo(luma, 255) as real
    requires t < 256 && Splits(luma, t)
    ensures within == Within(luma, t) && between == Between(luma, t)
    ensures within == squares - x - y && all * (x + y) == sum * sum + between
  {
    x, y := Weighed(CountUpTo(luma, t), MeanBelow(luma, t)), Weighed(|luma| - CountUpTo(luma, t), MeanAbove(luma, t));
    within := Within(luma, t);
    WithinIs(luma, t);
    MeanBelowTimes(luma, t);
    MeanAboveTimes(luma, t);
    between := BetweenIs(luma, t);
    ApartWeighed(CountUpTo(luma, t), |luma| - CountUpTo(luma, t), SumUpTo(luma, t), SumUpTo(luma, 255) - SumUpTo(luma, t),
                 MeanBelow(luma, t), MeanAbove(luma, t), all, sum, between);
  }

  /** However the picture is split: what is within the classes and what is between them come to the same together. */
  lemma WithinAndBetween(luma: seq<Byte>, t: int, all: real, squares: real, sum: real) returns (within: real, between: real)
    requires all == |luma| as real && squares == SquaresUpTo(luma, 255) as real && sum == SumUpTo(luma, 255) as real
    requires t < 256 && Splits(luma, t)
    ensures within == Within(luma, t) && between == Between(luma, t)
    ensures all * within + between == all * squares - sum * sum
  {
    var x, y;
    x, y, within, between := Parts(luma, t, all, squares, sum);
    Balanced(all, within, squares, x, y, between, sum);
  }

  lemma BetweenIs(luma: seq<Byte>, t: int) returns (between: real)
    requires Splits(luma, t)
    ensures between == Between(luma, t)
    ensures var gap := MeanBelow(luma, t) - MeanAbove(luma, t);
            between == CountUpTo(luma, t) as real * (|luma| - CountUpTo(luma, t)) as real * (gap * gap)
  {
    between := Between(luma, t);
    VarianceIs(SumUpTo(luma, t), CountUpTo(luma, t), SumUpTo(luma, 255) - SumUpTo(luma, t), |luma| - CountUpTo(luma, t),
               MeanBelow(luma, t), MeanAbove(luma, t));
  }

  lemma VarianceIs(sumBelow: int, below: nat, sumAbove: int, above: nat, m: real, n: real)
    requires below > 0 && above > 0 && m == sumBelow as real / below as real && n == sumAbove as real / above as real
    ensures Variance(sumBelow, below, sumAbove, above) == below as real * above as real * ((m - n) * (m - n))
  {
  }

  lemma Balanced(all: real, within: real, squares: real, x: real, y: real, between: real, sum: real)
    requires within == squares - x - y && all * (x + y) == sum * sum + between
    ensures all * within + between == all * squares - sum * sum
  {
    assert all * (squares - x - y) == all * squares - all * (x + y);
  }

  /** So the best threshold's classes are as close around their means as those of any. */
  lemma BestIsClosest(luma: seq<Byte>, best: int, t: int)
    requires IsBest(luma, best) && 0 <= t < 256 && Splits(luma, t)
    ensures Splits(luma, best) && Within(luma, best) <= Within(luma, t)
    ensures t < best ==> Within(luma, best) < Within(luma, t)
  {
    var (all, squares, sum) := (|luma| as real, SquaresUpTo(luma, 255) as real, SumUpTo(luma, 255) as real);
    var a, b := WithinAndBetween(luma, best, all, squares, sum);
    var c, d := WithinAndBetween(luma, t, all, squares, sum);
    Larger(all, a, b, c, d);
  }

  lemma Larger(n: real, a: real, b: real, c: real, d: real)
    requires n > 0.0 && n * a + b == n * c + d
    ensures b >= d ==> a <= c
    ensures b > d ==> a < c
  {
    assert n * (c - a) == b - d;
    if a > c { assert n * (a - c) > 0.0; }
    if a == c { assert n * (c - a) == 0.0; }
  }

  lemma {:induction false} AllAlike(luma: seq<Byte>, p: int, t: int)
    requires forall i :: 0 <= i < |luma| ==> luma[i] == p
    ensures CountUpTo(luma, t) == if p <= t then |luma| else 0
  {
    if luma != [] { AllAlike(luma[..|luma| - 1], p, t); }
  }

  /** A picture of one brightness cannot be split, and its threshold is 127: dark up to there, bright above. */
  lemma OneBrightness(luma: seq<Byte>, p: int, best: int)
    requires IsBest(luma, best) && forall i :: 0 <= i < |luma| ==> luma[i] == p
    ensures best == 127
  {
    forall t | 0 <= t < 256 ensures !Splits(luma, t) { AllAlike(luma, p, t); }
  }
}
