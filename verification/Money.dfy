/** Amounts of money: reading them from what was typed, rounding line totals, and writing them out (BR-1). */
module Money {
  import opened Decimals
  import opened Text
  import opened Widths
  import opened Wrappers

  function WithoutCommas(s: string): string {
    if s == "" then ""
    else if s[0] == ',' then WithoutCommas(s[1..])
    else [s[0]] + WithoutCommas(s[1..])
  }

  /** The number typed, in chetrum, before it is put in 64 bits. */
  function ExactCents(input: string): Option<int> {
    var cleaned := Trim(WithoutCommas(input));
    if cleaned == "" then None
    else
      match Parse(cleaned)
      case None => None
      case Some(x) => Some(ToPlaces(x, 2))
  }

  /** An amount as typed: 64 bits of it are kept. */
  function ParseCents(input: string): Option<int> {
    match ExactCents(input)
    case None => None
    case Some(n) => Some(ToInt64(n))
  }

  /** A quantity as typed, in hundredths: it is kept to two places. */
  function ParseQuantity(input: string): Option<int> {
    var cleaned := Trim(input);
    if cleaned == "" then None
    else
      match Parse(cleaned)
      case None => None
      case Some(x) => Some(ToPlaces(x, 2))
  }

  /** A line of an itemized credit, in whole chetrum, as the database has it; the quantity is in hundredths (BR-13). */
  function ExactLineTotal(quantity: int, unitPrice: int): int {
    RoundHalfAway(quantity * unitPrice, 100)
  }

  /** The same in the server's 64 bits. */
  function LineTotal(quantity: int, unitPrice: int): int {
    ToInt64(ExactLineTotal(quantity, unitPrice))
  }

  // --------------------------------------------------------- major units

  function TrimZeros(s: string): string {
    if s != "" && s[|s| - 1] == '0' then TrimZeros(s[..|s| - 1]) else s
  }

  function Zeros(n: nat): string {
    seq(n, _ => '0')
  }

  /** Chetrum as a form field holds them: "120.5", with no trailing zeros. */
  function MajorUnits(cents: int): string {
    var str := Digits(Abs(cents));
    var whole := Whole(str);
    var fraction := TrimZeros(Hundredths(str));
    var number := if fraction == "" then whole else whole + "." + fraction;
    if cents < 0 then "-" + number else number
  }

  // -------------------------------------------------------------- reading

  predicate Plain(s: string) {
    forall i :: 0 <= i < |s| ==> IsDigit(s[i]) || s[i] == '.' || s[i] == '-'
  }

  lemma {:induction false} PlainHasNoCommas(s: string)
    requires Plain(s)
    ensures WithoutCommas(s) == s
  {
    if s != "" {
      PlainHasNoCommas(s[1..]);
    }
  }

  /** A plain number is read as it stands: nothing to trim, no exponent. */
  lemma PlainIsReadWhole(s: string)
    requires Plain(s) && s != ""
    ensures WithoutCommas(s) == s && Trim(s) == s && Parse(s) == ParseMantissa(s, 0)
  {
    PlainHasNoCommas(s);
    assert !IsSpace(s[0]) && !IsSpace(s[|s| - 1]);
    assert IndexOf(s, 'e', 'E') == |s|;
  }

  lemma PlainCents(s: string, n: int, places: nat)
    requires Plain(s) && s != "" && places <= 2 && ParseMantissa(s, 0) == Some(Decimal(n, -(places as int)))
    ensures ExactCents(s) == Some(TimesPow10(n, 2 - places))
  {
    PlainIsReadWhole(s);
  }

  lemma ReadsSigned(sign: string, digits: string)
    requires (sign == "" || sign == "-") && digits != "" && AllDigits(digits)
    ensures ParseInt(sign + digits) == Some(Signed(sign, DigitsValue(digits)))
  {
    if sign == "" {
      assert sign + digits == digits;
    } else {
      assert (sign + digits)[1..] == digits;
    }
  }

  function Pointed(sign: string, whole: string, fraction: string): string {
    if fraction == "" then sign + whole else sign + whole + "." + fraction
  }

  /** Where the point stands decides how the mantissa is cut. */
  lemma CutAtPoint(left: string, right: string)
    requires '.' !in left && '.' !in right
    ensures IndexOf(left, '.', '.') == |left|
    ensures IndexOf(left + "." + right, '.', '.') == |left|
    ensures (left + "." + right)[..|left|] == left && (left + "." + right)[|left| + 1..] == right
  {
    var s := left + "." + right;
    assert forall j :: 0 <= j < |left| ==> s[j] == left[j];
    assert s[|left|] == '.';
  }

  lemma MantissaWithoutPoint(s: string, n: int)
    requires '.' !in s && ParseInt(s) == Some(n)
    ensures ParseMantissa(s, 0) == Some(Decimal(n, 0))
  {
    assert IndexOf(s, '.', '.') == |s|;
  }

  lemma MantissaWithPoint(left: string, right: string, n: int)
    requires '.' !in left && '.' !in right && |right| <= 0x8000_0000
    requires ParseInt(left + right) == Some(n)
    ensures ParseMantissa(left + "." + right, 0) == Some(Decimal(n, -|right|))
  {
    CutAtPoint(left, right);
  }

  lemma SignedHasNoPoint(sign: string, whole: string)
    requires (sign == "" || sign == "-") && AllDigits(whole)
    ensures '.' !in sign + whole && '.' !in whole
  {
  }

  lemma SignedIsPlain(sign: string, whole: string, fraction: string)
    requires (sign == "" || sign == "-") && whole != "" && AllDigits(whole) && AllDigits(fraction)
    ensures Plain(Pointed(sign, whole, fraction)) && Pointed(sign, whole, fraction) != ""
    ensures AllDigits(whole + fraction)
  {
    assert Plain(sign) && Plain(whole) && Plain(fraction) && Plain(".");
  }

  function Signed(sign: string, n: nat): int {
    if sign == "" then n else -(n as int)
  }

  lemma PointedMantissa(sign: string, whole: string, fraction: string)
    requires (sign == "" || sign == "-") && whole != "" && AllDigits(whole) && AllDigits(fraction) && |fraction| <= 0x8000_0000
    requires AllDigits(whole + fraction)
    ensures ParseMantissa(Pointed(sign, whole, fraction), 0)
         == Some(Decimal(Signed(sign, DigitsValue(whole + fraction)), -|fraction|))
  {
    var n := Signed(sign, DigitsValue(whole + fraction));
    assert ParseInt((sign + whole) + fraction) == Some(n) by {
      ReadsSigned(sign, whole + fraction);
      assert sign + (whole + fraction) == (sign + whole) + fraction;
    }
    SignedHasNoPoint(sign, whole);
    SignedHasNoPoint("", fraction);
    if fraction == "" {
      assert (sign + whole) + fraction == sign + whole;
      MantissaWithoutPoint(sign + whole, n);
    } else {
      MantissaWithPoint(sign + whole, fraction, n);
    }
  }

  /** Reading digits, a point and up to two more digits gives exactly the digits' value in chetrum. */
  lemma ReadsPointed(sign: string, whole: string, fraction: string)
    requires (sign == "" || sign == "-") && whole != "" && AllDigits(whole) && AllDigits(fraction) && |fraction| <= 2
    requires AllDigits(whole + fraction)
    ensures ExactCents(Pointed(sign, whole, fraction))
         == Some(TimesPow10(Signed(sign, DigitsValue(whole + fraction)), 2 - |fraction|))
  {
    PointedMantissa(sign, whole, fraction);
    SignedIsPlain(sign, whole, fraction);
    PlainCents(Pointed(sign, whole, fraction), Signed(sign, DigitsValue(whole + fraction)), |fraction|);
  }

  /** However many digits follow the point: beyond two the value is rounded to the nearest, halves away from zero. */
  lemma ReadsRounded(sign: string, whole: string, fraction: string)
    requires (sign == "" || sign == "-") && whole != "" && AllDigits(whole) && AllDigits(fraction)
    requires AllDigits(whole + fraction) && 2 < |fraction| <= 0x8000_0000
    ensures ExactCents(Pointed(sign, whole, fraction)).Some?
    ensures IsRounded(ExactCents(Pointed(sign, whole, fraction)).value, Signed(sign, DigitsValue(whole + fraction)), Pow10(|fraction| - 2))
  {
    PointedMantissa(sign, whole, fraction);
    SignedIsPlain(sign, whole, fraction);
    PlainIsReadWhole(Pointed(sign, whole, fraction));
    RoundHalfAwayIsRounded(Signed(sign, DigitsValue(whole + fraction)), Pow10(|fraction| - 2));
  }

  /** An exponent moves the point up by as many tens. */
  lemma ReadsExponent(n: nat, k: nat, e: string)
    requires (e == "e" || e == "E") && k <= MAX_EXPONENT
    ensures ExactCents(Digits(n) + e + Digits(k)) == Some(TimesPow10(n, k + 2))
  {
    DigitsAreRead(n);
    DigitsAreRead(k);
    CentsWithExponent(Digits(n), n, e, Digits(k), k);
  }

  /** Below none it moves it down, and beyond two places the value is rounded. */
  lemma ReadsNegativeExponent(n: nat, k: nat, e: string)
    requires (e == "e" || e == "E") && 2 < k <= MAX_EXPONENT
    ensures var cents := ExactCents(Digits(n) + e + ("-" + Digits(k)));
            cents.Some? && IsRounded(cents.value, n, Pow10(k - 2))
  {
    DigitsAreRead(n);
    DigitsAreRead(k);
    NegativeIsRead(k);
    CentsWithExponent(Digits(n), n, e, "-" + Digits(k), -(k as int));
    RoundHalfAwayIsRounded(n, Pow10(k - 2));
  }

  lemma NegativeIsRead(k: nat)
    ensures var s := "-" + Digits(k);
            s != "" && s[0] == '-' && s[1..] == Digits(k) && ParseInt(s) == Some(-(k as int))
  {
    DigitsAreRead(k);
  }

  /** Digits, a letter for the exponent and a number: so many times that power of ten. */
  lemma CentsWithExponent(left: string, n: int, e: string, right: string, k: int)
    requires left != "" && AllDigits(left) && (e == "e" || e == "E")
    requires right != "" && (AllDigits(right) || (right[0] == '-' && right[1..] != "" && AllDigits(right[1..])))
    requires ParseInt(left) == Some(n) && ParseInt(right) == Some(k) && MIN_EXPONENT <= k <= MAX_EXPONENT
    ensures ExactCents(left + e + right) == Some(ToPlaces(Decimal(n, k), 2))
  {
    ExponentIsClean(left, e, right);
    ExponentIsParsed(left, e, right, k);
    MantissaAt(left, n, k);
  }

  lemma DigitsAreRead(n: nat)
    ensures ParseInt(Digits(n)) == Some(n) && DigitsValue(Digits(n)) == n
  {
    DigitsParse(Digits(n));
    DigitsRoundTrip(n);
  }

  lemma MantissaAt(digits: string, n: int, exp: int)
    requires digits != "" && AllDigits(digits) && ParseInt(digits) == Some(n) && MIN_EXPONENT <= exp <= MAX_EXPONENT
    ensures ParseMantissa(digits, exp) == Some(Decimal(n, exp))
  {
    assert IndexOf(digits, '.', '.') == |digits|;
  }

  lemma ExponentIsClean(left: string, e: string, right: string)
    requires left != "" && AllDigits(left) && (e == "e" || e == "E")
    requires right != "" && (AllDigits(right) || (right[0] == '-' && right[1..] != "" && AllDigits(right[1..])))
    ensures Trim(WithoutCommas(left + e + right)) == left + e + right
  {
    var s := left + e + right;
    ExponentStands(left, e, right);
    NoCommas(s);
    assert s[0] == left[0] && s[|s| - 1] == right[|right| - 1];
    TrimmedAlready(s);
  }

  lemma ExponentIsParsed(left: string, e: string, right: string, k: int)
    requires AllDigits(left) && (e == "e" || e == "E")
    requires AllDigits(right) || (right != "" && right[0] == '-' && AllDigits(right[1..]))
    requires ParseInt(right) == Some(k) && MIN_EXPONENT <= k <= MAX_EXPONENT
    ensures Parse(left + e + right) == ParseMantissa(left, k)
  {
    ExponentStands(left, e, right);
  }

  lemma ExponentStands(left: string, e: string, right: string)
    requires AllDigits(left) && (e == "e" || e == "E")
    requires AllDigits(right) || (right != "" && right[0] == '-' && AllDigits(right[1..]))
    ensures var s := left + e + right;
            && IndexOf(s, 'e', 'E') == |left| < |s| && s[..|left|] == left && s[|left| + 1..] == right && ',' !in s
  {
    var s := left + e + right;
    assert forall j :: 0 <= j < |left| ==> s[j] == left[j];
    assert s[|left|] == e[0];
    if right != "" && right[0] == '-' { assert right == ['-'] + right[1..]; }
  }

  lemma TrimmedAlready(s: string)
    requires s != "" && !IsSpace(s[0]) && !IsSpace(s[|s| - 1])
    ensures Trim(s) == s
  {
  }

  lemma {:induction false} NoCommas(s: string)
    requires ',' !in s
    ensures WithoutCommas(s) == s
  {
    if s != "" {
      assert forall i :: 0 <= i < |s[1..]| ==> s[1..][i] == s[i + 1];
      NoCommas(s[1..]);
    }
  }

  lemma {:induction false} CommasAreGone(s: string)
    ensures ',' !in WithoutCommas(s) && WithoutCommas(WithoutCommas(s)) == WithoutCommas(s)
  {
    if s != "" {
      CommasAreGone(s[1..]);
      NoCommas(WithoutCommas(s));
    }
  }

  /** Commas typed in an amount do not matter, wherever they are; in a quantity they are not taken. */
  lemma CommasCount(s: string)
    ensures ExactCents(s) == ExactCents(WithoutCommas(s)) && ParseCents(s) == ParseCents(WithoutCommas(s))
    ensures ',' !in s ==> ParseQuantity(s) == ExactCents(s)
    ensures ',' in s ==> ParseQuantity(s) == None
  {
    CommasAreGone(s);
    if ',' !in s {
      NoCommas(s);
    } else {
      var before, after := TrimIsTheMiddle(s);
      CommaStays(before, Trim(s), after);
      CommaIsNoNumber(Trim(s));
    }
  }

  lemma CommaStays(before: string, s: string, after: string)
    requires ',' in before + s + after
    requires forall i :: 0 <= i < |before| ==> IsSpace(before[i])
    requires forall i :: 0 <= i < |after| ==> IsSpace(after[i])
    ensures ',' in s
  {
    assert !IsSpace(',');
  }

  lemma CommaIsNoInt(s: string)
    requires ',' in s
    ensures ParseInt(s) == None
  {
    if s[0] == '+' || s[0] == '-' {
      assert s == [s[0]] + s[1..];
    }
  }

  lemma CommaIsNoMantissa(s: string, exp: int)
    requires ',' in s
    ensures ParseMantissa(s, exp) == None
  {
    var point := IndexOf(s, '.', '.');
    if point == |s| {
      CommaIsNoInt(s);
    } else {
      assert s == s[..point] + ['.'] + s[point + 1..];
      CommaIsNoInt(s[..point] + s[point + 1..]);
    }
  }

  lemma CommaIsNoNumber(s: string)
    requires ',' in s
    ensures Parse(s) == None
  {
    var e := IndexOf(s, 'e', 'E');
    if e == |s| {
      CommaIsNoMantissa(s, 0);
    } else {
      assert s == s[..e] + [s[e]] + s[e + 1..];
      if ',' in s[e + 1..] {
        CommaIsNoInt(s[e + 1..]);
      } else if ParseInt(s[e + 1..]).Some? {
        CommaIsNoMantissa(s[..e], ParseInt(s[e + 1..]).value);
      }
    }
  }

  /** Dropping trailing zeros after the point divides by as many tens. */
  lemma {:induction false} TrimmedZeros(whole: string, fraction: string)
    requires AllDigits(whole) && AllDigits(fraction)
    ensures var t := TrimZeros(fraction);
            AllDigits(t) && |t| <= |fraction| && AllDigits(whole + t)
            && DigitsValue(whole + fraction) == TimesPow10(DigitsValue(whole + t), |fraction| - |t|)
  {
    if fraction != "" && fraction[|fraction| - 1] == '0' {
      var shorter := fraction[..|fraction| - 1];
      TrimmedZeros(whole, shorter);
      TrailingZero(whole + shorter);
      assert fraction == shorter + "0";
      assert whole + fraction == (whole + shorter) + "0";
    } else {
      assert TrimZeros(fraction) == fraction;
    }
  }

  function Whole(str: string): string {
    if |str| > 2 then str[..|str| - 2] else "0"
  }

  function Hundredths(str: string): string {
    if |str| > 2 then str[|str| - 2..] else Zeros(2 - |str|) + str
  }

  /** The two ways MajorUnits splits the digits keep their value. */
  lemma SplitKeepsValue(str: string)
    requires str != "" && AllDigits(str)
    ensures AllDigits(Whole(str)) && AllDigits(Hundredths(str)) && |Hundredths(str)| == 2
    ensures DigitsValue(Whole(str) + Hundredths(str)) == DigitsValue(str)
  {
    if |str| > 2 {
      assert Whole(str) + Hundredths(str) == str;
    } else {
      LeadingZero(str);
      if |str| == 2 {
        assert Whole(str) + Hundredths(str) == "0" + str;
      } else {
        LeadingZero("0" + str);
        assert Whole(str) + Hundredths(str) == "0" + ("0" + str);
      }
    }
  }

  lemma MajorUnitsPointed(cents: int)
    ensures MajorUnits(cents)
         == Pointed(if cents < 0 then "-" else "", Whole(Digits(Abs(cents))), TrimZeros(Hundredths(Digits(Abs(cents)))))
  {
    var whole := Whole(Digits(Abs(cents)));
    var fraction := TrimZeros(Hundredths(Digits(Abs(cents))));
    if cents < 0 {
      assert "-" + (whole + "." + fraction) == ("-" + whole) + "." + fraction;
    } else {
      assert "" + whole == whole;
    }
  }

  /** What a form is filled in with reads back as the same amount, for every amount of 64 bits and no other. */
  lemma MajorUnitsRoundTrip(cents: int)
    ensures ParseCents(MajorUnits(cents)) == Some(ToInt64(cents))
    ensures ParseCents(MajorUnits(cents)) == Some(cents) <==> Fits64(cents)
  {
    MajorUnitsAreExact(cents);
    WrapsBy64(cents, 0);
  }

  lemma {:induction false} ZerosAreTrimmed(s: string)
    ensures TrimZeros(s) != "" ==> TrimZeros(s)[|TrimZeros(s)| - 1] != '0'
    ensures |TrimZeros(s)| <= |s| && TrimZeros(s) == s[..|TrimZeros(s)|]
    ensures TrimZeros(s) == "" <==> forall i :: 0 <= i < |s| ==> s[i] == '0'
  {
    if s != "" && s[|s| - 1] == '0' { ZerosAreTrimmed(s[..|s| - 1]); }
  }

  /** In as few characters as it takes: a point only before a fraction, no zero at its end, a sign only below nothing. */
  lemma MajorUnitsAreShort(cents: int)
    ensures var s := MajorUnits(cents);
            && s != "" && (s[0] == '-' <==> cents < 0)
            && ('.' in s ==> s[|s| - 1] != '0' && s[|s| - 1] != '.')
            && ('.' in s <==> cents % 100 != 0)
  {
    var str := Digits(Abs(cents));
    SplitKeepsValue(str);
    ZerosAreTrimmed(Hundredths(str));
    HundredthsAre(Abs(cents));
    AbsMod(cents);
  }

  lemma AbsMod(cents: int)
    ensures Abs(cents) % 100 == 0 <==> cents % 100 == 0
  {
  }

  lemma LastDigit(n: nat)
    ensures var s := Digits(n); s[|s| - 1] == DigitChar(n % 10) && (n >= 10 ==> s[..|s| - 1] == Digits(n / 10))
  {
  }

  lemma LastTwo(n: nat)
    requires n >= 10
    ensures var s := Digits(n);
            |s| >= 2 && s[|s| - 1] == DigitChar(n % 10) && s[|s| - 2] == DigitChar(n / 10 % 10)
  {
    LastDigit(n);
    LastDigit(n / 10);
  }

  lemma BothZero(n: nat)
    ensures n % 100 == 0 <==> n % 10 == 0 && n / 10 % 10 == 0
  {
  }

  /** The last two digits are both zero exactly when the number is a multiple of a hundred. */
  lemma HundredthsAre(n: nat)
    ensures AllDigits(Hundredths(Digits(n))) && |Hundredths(Digits(n))| == 2
    ensures n % 100 == 0 <==> Hundredths(Digits(n)) == "00"
  {
    var str := Digits(n);
    SplitKeepsValue(str);
    BothZero(n);
    if n >= 10 {
      LastTwo(n);
      assert Hundredths(str) == [DigitChar(n / 10 % 10), DigitChar(n % 10)];
    } else {
      assert str == [DigitChar(n)] && Hundredths(str) == ['0', DigitChar(n)];
    }
  }

  lemma MajorUnitsAreExact(cents: int)
    ensures ExactCents(MajorUnits(cents)) == Some(cents)
  {
    var str := Digits(Abs(cents));
    var sign := if cents < 0 then "-" else "";
    SplitKeepsValue(str);
    TrimmedZeros(Whole(str), Hundredths(str));
    DigitsRoundTrip(Abs(cents));
    MajorUnitsPointed(cents);
    SignedIsPlain(sign, Whole(str), TrimZeros(Hundredths(str)));
    var fraction := TrimZeros(Hundredths(str));
    ReadsPointed(sign, Whole(str), fraction);
    SignedTimesPow10(sign, DigitsValue(Whole(str) + fraction), 2 - |fraction|);
  }

  lemma SignedTimesPow10(sign: string, n: nat, k: nat)
    requires k <= 2
    ensures TimesPow10(n, k) >= 0 && TimesPow10(Signed(sign, n), k) == Signed(sign, TimesPow10(n, k))
  {
    if k > 0 { SignedTimesPow10(sign, n, k - 1); }
  }

  // -------------------------------------------------------------- display

  /** Counting places from the right end of a number of the given length, every fourth is a comma. */
  predicate Grouped(s: string, length: nat) {
    forall i :: 0 <= i < |s| ==> (s[i] == ',' <==> (length - i) % 4 == 0)
  }

  lemma GroupedAppend(s: string, c: char, length: nat)
    requires Grouped(s, length) && (c == ',' <==> (length - |s|) % 4 == 0)
    ensures Grouped(s + [c], length)
  {
  }

  lemma AppendsChar(out: string, c: char, length: nat)
    requires Grouped(out, length) && (c == ',' <==> (length - |out|) % 4 == 0)
    ensures Grouped(out + [c], length)
    ensures WithoutCommas(out + [c]) == WithoutCommas(out) + if c == ',' then "" else [c]
  {
    GroupedAppend(out, c, length);
    WithoutCommasAppend(out, [c]);
  }

  lemma ThreeToAGroup(n: nat)
    requires n > 0
    ensures n % 3 == 0 <==> (n + n / 3) % 4 == 0
    ensures n % 3 == 0 ==> (n + n / 3 - 1) % 4 != 0 && n / 3 == (n - 1) / 3 + 1
    ensures n % 3 != 0 ==> n / 3 == (n - 1) / 3
    ensures (n + (n - 1) / 3) % 4 != 0
  {
    var k := n / 3;
    assert n == 3 * k || n == 3 * k + 1 || n == 3 * k + 2;
  }

  lemma {:induction false} WithoutCommasAppend(s: string, t: string)
    ensures WithoutCommas(s + t) == WithoutCommas(s) + WithoutCommas(t)
  {
    if s == "" {
      assert s + t == t;
      assert WithoutCommas(s) == "";
    } else {
      var rest := s[1..];
      assert (s + t)[1..] == rest + t;
      WithoutCommasAppend(rest, t);
      if s[0] != ',' {
        assert [s[0]] + (WithoutCommas(rest) + WithoutCommas(t)) == ([s[0]] + WithoutCommas(rest)) + WithoutCommas(t);
      }
    }
  }

  /** The first i digits are written, with their commas. */
  predicate DelimitedTo(out: string, digits: string, i: nat, length: nat)
    requires i <= |digits|
  {
    && WithoutCommas(out) == digits[..i]
    && (i == 0 ==> out == "")
    && (i > 0 ==> |out| + (|digits| - i) + (|digits| - i) / 3 == length)
    && (i > 0 ==> out != "" && IsDigit(out[0]))
    && (forall j :: 0 <= j < |out| ==> IsDigit(out[j]) || out[j] == ',')
    && Grouped(out, length)
  }

  lemma DelimitNext(out: string, digits: string, i: nat, length: nat)
    requires i < |digits| && AllDigits(digits) && DelimitedTo(out, digits, i, length)
    requires length == |digits| + (|digits| - 1) / 3
    ensures var next := if i > 0 && (|digits| - i) % 3 == 0 then out + "," else out;
            DelimitedTo(next + [digits[i]], digits, i + 1, length)
  {
    ThreeToAGroup(|digits| - i);
    assert digits[..i + 1] == digits[..i] + [digits[i]];
    var next := if i > 0 && (|digits| - i) % 3 == 0 then out + "," else out;
    if i > 0 && (|digits| - i) % 3 == 0 {
      AppendsChar(out, ',', length);
    }
    AppendsChar(next, digits[i], length);
  }

  method Delimit(value: nat) returns (out: string)
    ensures WithoutCommas(out) == Digits(value)
    ensures out != "" && IsDigit(out[0]) && Grouped(out, |out|)
    ensures forall i :: 0 <= i < |out| ==> IsDigit(out[i]) || out[i] == ','
  {
    var digits := Digits(value);
    ghost var length := |digits| + (|digits| - 1) / 3;
    out := "";
    for i := 0 to |digits|
      invariant DelimitedTo(out, digits, i, length)
    {
      DelimitNext(out, digits, i, length);
      if i > 0 && (|digits| - i) % 3 == 0 {
        out := out + ",";
      }
      out := out + [digits[i]];
    }
    assert digits[..|digits|] == digits;
  }

  /**
   * An amount as people read it: "Nu. 1,250" or "Nu. 1,250.50"; what follows the "Nu. " of an amount
   * that is not negative reads back as the same amount.
   */
  method Ngultrum(cents: int, signed: bool) returns (r: string)
    ensures AmountPrefix(cents, signed) <= r
    ensures cents < 0 ==> "\U{2212} Nu. " <= r
    ensures cents >= 0 && !(signed && cents > 0) ==> "Nu. " <= r
    ensures cents > 0 && signed ==> "+ Nu. " <= r
    ensures ExactCents(r[|AmountPrefix(cents, signed)|..]) == Some(Abs(cents))
    ensures Fits64(Abs(cents)) ==> ParseCents(r[|AmountPrefix(cents, signed)|..]) == Some(Abs(cents))
    ensures Abs(cents) % 100 == 0 <==> '.' !in r[|AmountPrefix(cents, signed)|..]
    ensures Abs(cents) % 100 != 0 ==> |r| >= 3 && r[|r| - 3] == '.' && IsDigit(r[|r| - 2]) && IsDigit(r[|r| - 1])
  {
    var abs := cents;
    if abs < 0 {
      abs := -abs;
    }
    var whole := Delimit(abs / 100);
    var formatted := "Nu. " + whole;
    if abs % 100 != 0 {
      formatted := formatted + ("." + TwoDigits(abs % 100));
    }
    r := if cents < 0 then "\U{2212} " + formatted
         else if signed && cents > 0 then "+ " + formatted
         else formatted;
    FormattedIsShown(abs, whole, formatted);
    ReadsBack(cents, signed, whole, r);
  }

  lemma ReadsBack(cents: int, signed: bool, whole: string, r: string)
    requires Delimited(whole, Abs(cents) / 100)
    requires r == if cents < 0 then "\U{2212} " + ("Nu. " + Shown(Abs(cents), whole))
                  else if signed && cents > 0 then "+ " + ("Nu. " + Shown(Abs(cents), whole))
                  else "Nu. " + Shown(Abs(cents), whole)
    ensures AmountPrefix(cents, signed) <= r
    ensures ExactCents(r[|AmountPrefix(cents, signed)|..]) == Some(Abs(cents))
    ensures Fits64(Abs(cents)) ==> ParseCents(r[|AmountPrefix(cents, signed)|..]) == Some(Abs(cents))
    ensures Abs(cents) % 100 == 0 <==> '.' !in r[|AmountPrefix(cents, signed)|..]
    ensures Abs(cents) % 100 != 0 ==> |r| >= 3 && r[|r| - 3] == '.' && IsDigit(r[|r| - 2]) && IsDigit(r[|r| - 1])
  {
    AmountPrefixed(cents, signed, Shown(Abs(cents), whole), r);
    AmountReadsBack(Abs(cents), whole);
    WrapsBy64(Abs(cents), 0);
  }

  lemma FormattedIsShown(abs: nat, whole: string, formatted: string)
    requires formatted == if abs % 100 != 0 then ("Nu. " + whole) + ("." + TwoDigits(abs % 100)) else "Nu. " + whole
    ensures formatted == "Nu. " + Shown(abs, whole)
  {
    var fraction := "." + TwoDigits(abs % 100);
    assert ("Nu. " + whole) + fraction == "Nu. " + (whole + fraction);
  }

  /** The fraction as %02d writes it. */
  function TwoDigits(n: nat): (s: string)
    requires n < 100
    ensures |s| == 2 && AllDigits(s)
  {
    [DigitChar(n / 10), DigitChar(n % 10)]
  }

  function Shown(abs: nat, whole: string): string {
    if abs % 100 == 0 then whole else whole + ("." + TwoDigits(abs % 100))
  }

  lemma AmountReadsBack(abs: nat, whole: string)
    requires Delimited(whole, abs / 100)
    ensures ExactCents(Shown(abs, whole)) == Some(abs)
    ensures abs % 100 == 0 <==> '.' !in Shown(abs, whole)
  {
    if abs % 100 == 0 {
      WholeReadsBack(abs / 100, whole);
    } else {
      FractionReadsBack(abs, whole, TwoDigits(abs % 100));
      assert whole + ("." + TwoDigits(abs % 100)) == whole + "." + TwoDigits(abs % 100);
    }
  }

  lemma AmountPrefixed(cents: int, signed: bool, shown: string, r: string)
    requires r == if cents < 0 then "\U{2212} " + ("Nu. " + shown)
                  else if signed && cents > 0 then "+ " + ("Nu. " + shown)
                  else "Nu. " + shown
    ensures AmountPrefix(cents, signed) <= r && r[|AmountPrefix(cents, signed)|..] == shown
  {
    assert "\U{2212} " + ("Nu. " + shown) == "\U{2212} Nu. " + shown;
    assert "+ " + ("Nu. " + shown) == "+ Nu. " + shown;
  }

  function AmountPrefix(cents: int, signed: bool): string {
    if cents < 0 then "\U{2212} Nu. " else if signed && cents > 0 then "+ Nu. " else "Nu. "
  }

  predicate Delimited(whole: string, value: nat) {
    && WithoutCommas(whole) == Digits(value)
    && forall i :: 0 <= i < |whole| ==> IsDigit(whole[i]) || whole[i] == ','
  }

  lemma WholeReadsBack(value: nat, whole: string)
    requires Delimited(whole, value)
    ensures ExactCents(whole) == Some(100 * value) && '.' !in whole
  {
    PlainDigitsRead(Digits(value));
    DigitsRoundTrip(value);
    SameWithoutCommas(whole, Digits(value));
  }

  lemma PlainDigitsRead(digits: string)
    requires digits != "" && AllDigits(digits)
    ensures Plain(digits) && ExactCents(digits) == Some(100 * DigitsValue(digits))
  {
    var n := DigitsValue(digits);
    DigitsParse(digits);
    MantissaWithoutPoint(digits, n);
    PlainCents(digits, n, 0);
    Hundredfold(n);
  }

  lemma DigitsParse(digits: string)
    requires digits != "" && AllDigits(digits)
    ensures ParseInt(digits) == Some(DigitsValue(digits)) && '.' !in digits
  {
  }

  lemma Hundredfold(n: int)
    ensures TimesPow10(n, 2) == 100 * n
  {
    assert TimesPow10(n, 1) == 10 * n;
  }

  lemma PointedDigitsRead(digits: string, fraction: string)
    requires digits != "" && AllDigits(digits) && AllDigits(fraction) && |fraction| == 2
    ensures Plain(Pointed("", digits, fraction)) && AllDigits(digits + fraction)
    ensures ExactCents(Pointed("", digits, fraction)) == Some(DigitsValue(digits + fraction))
  {
    SignedIsPlain("", digits, fraction);
    ReadsPointed("", digits, fraction);
  }

  lemma FractionReadsBack(abs: nat, whole: string, fraction: string)
    requires Delimited(whole, abs / 100)
    requires fraction == TwoDigits(abs % 100)
    ensures ExactCents(whole + "." + fraction) == Some(abs) && '.' in whole + "." + fraction
  {
    var digits := Digits(abs / 100);
    PointedDigitsRead(digits, fraction);
    assert DigitsValue(digits + fraction) == abs by {
      DigitsRoundTrip(abs / 100);
      AppendTwoDigits(digits, abs % 100);
      assert abs == 100 * (abs / 100) + abs % 100;
    }
    DelimitedWithoutCommas(whole, digits, fraction);
    SameWithoutCommas(whole + "." + fraction, Pointed("", digits, fraction));
    assert (whole + "." + fraction)[|whole|] == '.';
  }

  lemma DelimitedWithoutCommas(whole: string, digits: string, fraction: string)
    requires WithoutCommas(whole) == digits && AllDigits(fraction) && fraction != ""
    ensures WithoutCommas(whole + "." + fraction) == Pointed("", digits, fraction)
  {
    WithoutCommasAppend(whole, "." + fraction);
    PlainHasNoCommas("." + fraction);
    assert whole + "." + fraction == whole + ("." + fraction);
    assert "" + digits == digits;
    assert digits + "." + fraction == digits + ("." + fraction);
  }

  lemma AppendTwoDigits(s: string, n: nat)
    requires AllDigits(s) && n < 100
    ensures AllDigits(s + TwoDigits(n)) && DigitsValue(s + TwoDigits(n)) == 100 * DigitsValue(s) + n
  {
    var t := s + [DigitChar(n / 10)];
    assert t[..|s|] == s;
    assert (s + TwoDigits(n))[..|t|] == t;
  }

  lemma SameWithoutCommas(s: string, t: string)
    requires Plain(t) && WithoutCommas(s) == t
    ensures ExactCents(s) == ExactCents(t)
  {
    PlainHasNoCommas(t);
  }
}
