/**
 * The few rules of PHP's value model that the repositories depend on:
 * 64-bit integers, the decimal string form of an integer (`(string)$i`),
 * TYPO3's `MathUtility::canBeInterpretedAsInteger` and PHP's
 * `filter_var($v, FILTER_VALIDATE_INT, ...)`.
 */
module PhpValues {
  import opened Wrappers

  const PHP_INT_MAX: int := 0x7FFF_FFFF_FFFF_FFFF
  const PHP_INT_MIN: int := -0x8000_0000_0000_0000

  type PhpInteger = i: int | PHP_INT_MIN <= i <= PHP_INT_MAX

  /** The kinds of value a PHP caller can pass where an integer is expected (floats are left out). */
  datatype PhpValue = PhpInt(i: PhpInteger) | PhpString(s: string) | PhpBool(b: bool) | PhpNull | PhpArray

  predicate IsDigit(c: char) { '0' <= c <= '9' }

  predicate AllDigits(s: string) { forall i :: 0 <= i < |s| ==> IsDigit(s[i]) }

  function DigitValue(c: char): (d: nat)
    requires IsDigit(c)
    ensures d < 10
  {
    (c as int) - ('0' as int)
  }

  function DigitChar(d: nat): (c: char)
    requires d < 10
    ensures IsDigit(c) && DigitValue(c) == d
  {
    (('0' as int) + d) as char
  }

  /** The decimal form of a natural number, most significant digit first, without leading zeros. */
  function NatToString(n: nat): (s: string)
    ensures |s| >= 1 && AllDigits(s)
  {
    if n < 10 then [DigitChar(n)] else NatToString(n / 10) + [DigitChar(n % 10)]
  }

  /** PHP's `(string)$i` for an integer. */
  function IntToString(i: int): (s: string) {
    if i < 0 then "-" + NatToString(-i) else NatToString(i)
  }

  /** The number a string of decimal digits stands for. */
  function DigitsValue(s: string): (n: nat)
    requires AllDigits(s)
  {
    if |s| == 0 then 0 else 10 * DigitsValue(s[..|s| - 1]) + DigitValue(s[|s| - 1])
  }

  /** A non-empty run of digits with no leading zero (except "0" itself). */
  predicate IsCanonicalDigits(s: string) {
    |s| >= 1 && AllDigits(s) && (s[0] != '0' || |s| == 1)
  }

  lemma {:induction false} NatToStringLeading(n: nat)
    ensures n >= 1 ==> NatToString(n)[0] != '0'
    ensures n == 0 ==> NatToString(n) == "0"
  {
    if n >= 10 {
      NatToStringLeading(n / 10);
    }
  }

  /** The decimal form of `n` is canonical and reads back as `n`. */
  lemma {:induction false} NatToStringRoundTrip(n: nat)
    ensures IsCanonicalDigits(NatToString(n))
    ensures DigitsValue(NatToString(n)) == n
  {
    NatToStringLeading(n);
    if n >= 10 {
      NatToStringRoundTrip(n / 10);
      var p := NatToString(n / 10);
      var s := NatToString(n);
      assert s == p + [DigitChar(n % 10)];
      assert s[..|s| - 1] == p;
    }
  }

  lemma {:induction false} LeadingDigitPositive(s: string)
    requires AllDigits(s) && |s| >= 1 && s[0] != '0'
    ensures DigitsValue(s) >= 1
  {
    if |s| > 1 {
      LeadingDigitPositive(s[..|s| - 1]);
    }
  }

  /** A canonical run of digits is the decimal form of the number it stands for. */
  lemma {:induction false} CanonicalDigitsRoundTrip(s: string)
    requires IsCanonicalDigits(s)
    ensures NatToString(DigitsValue(s)) == s
  {
    if |s| > 1 {
      var p, c := s[..|s| - 1], s[|s| - 1];
      assert p[0] == s[0];
      LeadingDigitPositive(p);
      CanonicalDigitsRoundTrip(p);
      var v := DigitsValue(s);
      assert v == 10 * DigitsValue(p) + DigitValue(c);
      assert v / 10 == DigitsValue(p) && v % 10 == DigitValue(c);
      assert DigitChar(DigitValue(c)) == c;
      assert s == p + [c];
    }
  }

  /** Two natural numbers with the same decimal form are equal. */
  lemma NatToStringInjective(a: nat, b: nat)
    requires NatToString(a) == NatToString(b)
    ensures a == b
  {
    NatToStringRoundTrip(a);
    NatToStringRoundTrip(b);
  }

  /**
   * A string `s` with `(string)(int)$s === $s`: the decimal form of a
   * 64-bit integer, with a minus sign for negative values and no "-0".
   */
  predicate IsIntegerString(s: string) {
    if |s| >= 2 && s[0] == '-' then
      IsCanonicalDigits(s[1..]) && s[1..] != "0" && DigitsValue(s[1..]) <= -PHP_INT_MIN
    else
      IsCanonicalDigits(s) && DigitsValue(s) <= PHP_INT_MAX
  }

  function IntegerStringValue(s: string): (i: int)
    requires IsIntegerString(s)
  {
    if |s| >= 2 && s[0] == '-' then -(DigitsValue(s[1..]) as int) else DigitsValue(s)
  }

  /** Every 64-bit integer's decimal form passes, and reads back as that integer. */
  lemma IntToStringIsIntegerString(i: PhpInteger)
    ensures IsIntegerString(IntToString(i))
    ensures IntegerStringValue(IntToString(i)) == i
  {
    var m: int := i;
    if m < 0 {
      var t := NatToString(-m);
      NatToStringRoundTrip(-m);
      NatToStringLeading(-m);
      assert ("-" + t)[1..] == t;
    } else {
      NatToStringRoundTrip(i);
    }
  }

  /** Every string that passes is the decimal form of a 64-bit integer. */
  lemma IntegerStringIsIntToString(s: string)
    requires IsIntegerString(s)
    ensures PHP_INT_MIN <= IntegerStringValue(s) <= PHP_INT_MAX
    ensures IntToString(IntegerStringValue(s)) == s
  {
    if |s| >= 2 && s[0] == '-' {
      var t := s[1..];
      CanonicalDigitsRoundTrip(t);
      assert t[0] != '0';
      LeadingDigitPositive(t);
      assert s == "-" + t;
    } else {
      CanonicalDigitsRoundTrip(s);
    }
  }

  /**
   * TYPO3's `MathUtility::canBeInterpretedAsInteger($v)`: an integer, a
   * string that is exactly an integer's decimal form, or `true` (whose
   * string form is "1"); never null, `false`, "" or an array. TYPO3 states
   * it as `(string)(int)$v === (string)$v`; the ensures checks the string
   * case against that definition.
   */
  predicate CanBeInterpretedAsInteger(v: PhpValue): (b: bool)
    ensures v.PhpString? ==> (b <==> exists i: PhpInteger :: IntToString(i) == v.s)
    ensures v.PhpArray? || v.PhpNull? ==> !b
  {
    match v
    case PhpInt(_) => true
    case PhpString(s) => IntegerStringCast(s); IsIntegerString(s)
    case PhpBool(b) => b
    case PhpNull => false
    case PhpArray => false
  }

  /** A string passes exactly when it is the decimal form of some 64-bit integer. */
  lemma IntegerStringCast(s: string)
    ensures IsIntegerString(s) <==> exists i: PhpInteger :: IntToString(i) == s
  {
    if IsIntegerString(s) {
      IntegerStringIsIntToString(s);
      var i: PhpInteger := IntegerStringValue(s);
      assert IntToString(i) == s;
    }
    if exists i: PhpInteger :: IntToString(i) == s {
      var i: PhpInteger :| IntToString(i) == s;
      IntToStringIsIntegerString(i);
    }
  }

  /** The integer such a value is interpreted as. */
  function IntegerValue(v: PhpValue): (i: int)
    requires CanBeInterpretedAsInteger(v)
  {
    match v
    case PhpInt(i) => i
    case PhpString(s) => IntegerStringValue(s)
    case PhpBool(_) => 1
  }

  /** The characters `filter_var` trims from both ends before validating. */
  predicate IsFilterSpace(c: char) {
    c == ' ' || c == '\t' || c == '\r' || c == '\n' || c == '\U{B}'
  }

  function TrimStart(s: string): (r: string)
    ensures |r| <= |s|
    ensures |r| > 0 ==> !IsFilterSpace(r[0])
  {
    if |s| > 0 && IsFilterSpace(s[0]) then TrimStart(s[1..]) else s
  }

  function TrimEnd(s: string): (r: string)
    ensures |r| <= |s|
    ensures |r| > 0 ==> !IsFilterSpace(r[|r| - 1])
  {
    if |s| > 0 && IsFilterSpace(s[|s| - 1]) then TrimEnd(s[..|s| - 1]) else s
  }

  /**
   * FILTER_VALIDATE_INT on a string: after trimming, an optional sign and
   * a canonical run of digits ("+0" and "-0" are 0), within 64 bits.
   */
  function ParseFilterInt(s: string): (r: Option<int>)
    ensures r.Some? ==> PHP_INT_MIN <= r.value <= PHP_INT_MAX
  {
    var t := TrimEnd(TrimStart(s));
    var negative := |t| > 0 && t[0] == '-';
    var body := if |t| > 0 && (t[0] == '-' || t[0] == '+') then t[1..] else t;
    if !IsCanonicalDigits(body) then None
    else
      var value := if negative then -(DigitsValue(body) as int) else DigitsValue(body);
      if PHP_INT_MIN <= value <= PHP_INT_MAX then Some(value) else None
  }

  /**
   * `filter_var($v, FILTER_VALIDATE_INT)` without options: the integer, or
   * failure. Scalars are validated through their string form, so `true`
   * is "1" while `false` and null are "" and fail; an array fails.
   */
  function ValidateInt(v: PhpValue): (r: Option<int>)
    ensures r.Some? ==> PHP_INT_MIN <= r.value <= PHP_INT_MAX
  {
    match v
    case PhpInt(i) => Some(i)
    case PhpString(s) => ParseFilterInt(s)
    case PhpBool(b) => if b then Some(1) else None
    case PhpNull => None
    case PhpArray => None
  }

  /**
   * `filter_var($v, FILTER_VALIDATE_INT, ['options' => ['min_range' => m,
   * 'default' => d]])`. The filter's implicit FILTER_REQUIRE_SCALAR turns
   * away an array before any option applies, so an array gives PHP's
   * `false` (None here). A scalar gives the validated integer when it is at
   * least `m`, and `d` otherwise.
   */
  function FilterValidateInt(v: PhpValue, minRange: int, default: int): (r: Option<int>)
    ensures r.None? <==> v.PhpArray?
    ensures r.Some? ==> r.value == default || (ValidateInt(v) == r && r.value >= minRange)
    ensures !v.PhpArray? && ValidateInt(v).Some? && ValidateInt(v).value >= minRange ==> r == ValidateInt(v)
    ensures !v.PhpArray? && (ValidateInt(v).None? || ValidateInt(v).value < minRange) ==> r == Some(default)
  {
    if v.PhpArray? then None
    else
      match ValidateInt(v)
      case Some(i) => if i >= minRange then Some(i) else Some(default)
      case None => Some(default)
  }

  /** PHP's string form of what such a filter returns: the integer's decimal form, or "" for `false`. */
  function FilterResultToString(r: Option<int>): (s: string)
    ensures r.None? <==> s == ""
    ensures r.Some? && r.value >= 0 ==> s == NatToString(r.value)
  {
    match r
    case None => ""
    case Some(i) => IntToString(i)
  }

  /** A string that starts and ends with a non-space is left alone by trimming. */
  lemma TrimUntouched(s: string)
    requires |s| > 0 && !IsFilterSpace(s[0]) && !IsFilterSpace(s[|s| - 1])
    ensures TrimEnd(TrimStart(s)) == s
  {
  }

  /** An integer string parses under FILTER_VALIDATE_INT to the integer it stands for. */
  lemma IntegerStringParses(s: string)
    requires IsIntegerString(s)
    ensures ParseFilterInt(s) == Some(IntegerStringValue(s))
  {
    IntegerStringIsIntToString(s);
    var negative := |s| >= 2 && s[0] == '-';
    if negative {
      assert IsDigit(s[1..][|s| - 2]);
      assert s[|s| - 1] == s[1..][|s| - 2];
    } else {
      assert IsDigit(s[0]) && IsDigit(s[|s| - 1]);
    }
    TrimUntouched(s);
    var body := if negative then s[1..] else s;
    assert IsCanonicalDigits(body);
  }

  /** Every value `canBeInterpretedAsInteger` accepts, FILTER_VALIDATE_INT accepts with the same value. */
  lemma InterpretableIsValidInt(v: PhpValue)
    requires CanBeInterpretedAsInteger(v)
    ensures ValidateInt(v) == Some(IntegerValue(v))
  {
    if v.PhpString? {
      IntegerStringParses(v.s);
    }
  }
}
