/** The decimal numbers money is computed with: coef * 10^exp, and rounding half away from zero. */
module Decimals {
  import opened Text
  import opened Wrappers

  datatype Decimal = Decimal(coef: int, exp: int)

  function Pow10(n: nat): (p: nat)
    ensures p >= 1
  {
    if n == 0 then 1 else 10 * Pow10(n - 1)
  }

  function Abs(n: int): nat {
    if n < 0 then -n else n
  }

  /** n / d as an integer, a half going away from zero. */
  function RoundHalfAway(n: int, d: nat): int
    requires d > 0
  {
    if n >= 0 then (2 * n + d) / (2 * d) else -((-2 * n + d) / (2 * d))
  }

  /**
   * What rounding means: r is an integer nearest to n / d, and when two are equally near it is the
   * one further from zero. Exactly one integer is.
   */
  ghost predicate IsRounded(r: int, n: int, d: nat) {
    && 2 * Abs(d * r - n) <= d
    && (2 * Abs(d * r - n) == d ==> Abs(d * r) > Abs(n))
  }

  lemma RoundHalfAwayIsRounded(n: int, d: nat)
    requires d > 0
    ensures IsRounded(RoundHalfAway(n, d), n, d)
  {
    var a := Abs(n);
    var q := (2 * a + d) / (2 * d);
    assert 2 * a + d == 2 * d * q + (2 * a + d) % (2 * d);
    assert 2 * (d * q) == 2 * d * q;
    assert d * -q == -(d * q);
  }

  lemma MultipleSize(d: nat, k: int)
    requires d > 0
    ensures k >= 1 ==> d * k >= d
    ensures k >= 2 ==> d * k >= 2 * d
    ensures k <= 0 ==> d * k <= 0
    ensures k >= 0 ==> d * k >= 0
  {
    if k >= 1 { assert d * k == d + d * (k - 1); }
    if k >= 2 { assert d * k == 2 * d + d * (k - 2); }
  }

  lemma RoundedAtLeast(r: int, s: int, n: int, d: nat)
    requires d > 0 && IsRounded(r, n, d) && IsRounded(s, n, d)
    ensures r >= s
  {
    if r < s {
      // They would be one apart, with n / d exactly between them and zero too.
      assert d * s - d * r == d * (s - r);
      MultipleSize(d, s - r);
      MultipleSize(d, r);
      MultipleSize(d, s);
      assert false;
    }
  }

  lemma RoundedIsUnique(r: int, s: int, n: int, d: nat)
    requires d > 0 && IsRounded(r, n, d) && IsRounded(s, n, d)
    ensures r == s
  {
    RoundedAtLeast(r, s, n, d);
    RoundedAtLeast(s, r, n, d);
  }

  function TimesPow10(n: int, k: nat): int {
    if k == 0 then n else 10 * TimesPow10(n, k - 1)
  }

  /** The decimal in units of 10^-places, rounded half away from zero. */
  function ToPlaces(x: Decimal, places: nat): int {
    if x.exp + places >= 0
    then TimesPow10(x.coef, x.exp + places)
    else RoundHalfAway(x.coef, Pow10(-(x.exp + places)))
  }

  // ------------------------------------------------------------ reading

  /** An optional sign and at least one digit. */
  function ParseInt(s: string): Option<int> {
    if s != "" && (s[0] == '+' || s[0] == '-') then
      if |s| > 1 && AllDigits(s[1..])
      then Some(if s[0] == '-' then -(DigitsValue(s[1..]) as int) else DigitsValue(s[1..]))
      else None
    else if s != "" && AllDigits(s) then Some(DigitsValue(s))
    else None
  }

  /** The first place the character stands, in either case it is given in, or the length when it does not. */
  function IndexOf(s: string, c: char, d: char): (i: nat)
    ensures i <= |s|
    ensures i < |s| ==> s[i] == c || s[i] == d
    ensures forall j :: 0 <= j < i ==> s[j] != c && s[j] != d
  {
    if s == "" || s[0] == c || s[0] == d then 0
    else
      var rest := IndexOf(s[1..], c, d);
      assert forall j :: 0 < j < 1 + rest ==> s[j] == s[1..][j - 1];
      1 + rest
  }

  const MAX_EXPONENT := 0x7fff_ffff
  const MIN_EXPONENT := -0x8000_0000

  /** Digits with at most one point; the point moves the exponent. */
  function ParseMantissa(s: string, exp: int): Option<Decimal> {
    var point := IndexOf(s, '.', '.');
    if point == |s| then
      match ParseInt(s)
      case None => None
      case Some(n) => if MIN_EXPONENT <= exp <= MAX_EXPONENT then Some(Decimal(n, exp)) else None
    else
      var fraction := s[point + 1..];
      if '.' in fraction then None
      else
        match ParseInt(s[..point] + fraction)
        case None => None
        case Some(n) =>
          var e := exp - |fraction|;
          if MIN_EXPONENT <= e <= MAX_EXPONENT then Some(Decimal(n, e)) else None
  }

  /** decimal.NewFromString: a mantissa, and optionally an exponent after e or E. */
  function Parse(s: string): Option<Decimal> {
    var e := IndexOf(s, 'e', 'E');
    if e == |s| then ParseMantissa(s, 0)
    else
      match ParseInt(s[e + 1..])
      case None => None
      case Some(n) => if MIN_EXPONENT <= n <= MAX_EXPONENT then ParseMantissa(s[..e], n) else None
  }
}
