/** The few ECMAScript number operations the cipher code relies on, on
    integral values: the 32-bit shift operators `<<`, `>>` and `>>>`,
    `parseInt(s, 10)`, and the decimal rendering used when a number is
    interpolated into an error message. Dafny integers are unbounded, so the
    32-bit wrap-around of the shift operators is written out explicitly. */
module JsNumbers {

  datatype Option<+T> = None | Some(value: T)

  const TWO_31: int := 0x8000_0000
  const TWO_32: int := 0x1_0000_0000

  function Pow2(n: nat): (r: nat)
    ensures r >= 1
  {
    if n == 0 then 1 else 2 * Pow2(n - 1)
  }

  /** ECMAScript ToUint32 on an integral number. */
  function ToUint32(x: int): (r: int)
    ensures 0 <= r < TWO_32
    ensures 0 <= x < TWO_32 ==> r == x
  {
    x % TWO_32
  }

  /** ECMAScript ToInt32 on an integral number. */
  function ToInt32(x: int): (r: int)
    ensures -TWO_31 <= r < TWO_31
    ensures -TWO_31 <= x < TWO_31 ==> r == x
  {
    var m := x % TWO_32;
    if m >= TWO_31 then m - TWO_32 else m
  }

  /** `x << n` for a shift count below 32. */
  function ShiftLeft(x: int, n: nat): (r: int)
    requires n < 32
    ensures -TWO_31 <= r < TWO_31
  {
    ToInt32(ToInt32(x) * Pow2(n))
  }

  /** `x >> n` (sign-propagating) for a shift count below 32. */
  function ShiftRight(x: int, n: nat): (r: int)
    requires n < 32
  {
    ToInt32(x) / Pow2(n)
  }

  /** `x >>> n` (zero-filling) for a shift count below 32. */
  function UnsignedShiftRight(x: int, n: nat): (r: int)
    requires n < 32
    ensures r >= 0
  {
    var u := ToUint32(x);
    var p := Pow2(n);
    QuotientNonNegative(u, p);
    u / p
  }

  lemma QuotientNonNegative(a: int, b: int)
    requires a >= 0 && b >= 1
    ensures a / b >= 0
  {
  }

  /** `x << n` is the product `x * 2^n` wrapped to 32 bits: converting the
      operand to Int32 first changes nothing modulo 2^32. */
  lemma {:induction false} ShiftLeftIsWrappedProduct(x: int, n: nat)
    requires n < 32
    ensures ShiftLeft(x, n) == ToInt32(x * Pow2(n))
  {
    var p := Pow2(n);
    var t := ToInt32(x);
    var k := Int32Offset(x);
    ProductOfDifference(x, t, p);
    ProductOfMultiple(x - t, k, p);
    WrapIgnoresMultiples(x * p, k * p);
  }

  /** ToInt32 moves its argument by a multiple of 2^32. */
  lemma Int32Offset(x: int) returns (k: int)
    ensures x - ToInt32(x) == k * TWO_32
  {
    if x % TWO_32 >= TWO_31 {
      k := x / TWO_32 + 1;
    } else {
      k := x / TWO_32;
    }
  }

  lemma ProductOfDifference(x: int, t: int, p: int)
    ensures t * p == x * p - (x - t) * p
  {
  }

  lemma ProductOfMultiple(d: int, k: int, p: int)
    requires d == k * TWO_32
    ensures d * p == (k * p) * TWO_32
  {
  }

  /** Subtracting a multiple of 2^32 does not change the 32-bit wrap. */
  lemma WrapIgnoresMultiples(a: int, j: int)
    ensures ToInt32(a - j * TWO_32) == ToInt32(a)
  {
    assert (a - j * TWO_32) % TWO_32 == a % TWO_32;
  }

  /** On the non-negative values below 2^31 the three shifts are the
      arithmetic operations they abbreviate. */
  lemma ShiftsAreArithmetic(x: int)
    requires 0 <= x < 0x1000_0000
    ensures ShiftLeft(x, 1) == 2 * x
    ensures ShiftLeft(x, 3) == 8 * x
    ensures ShiftRight(x, 3) == x / 8
    ensures UnsignedShiftRight(x, 3) == x / 8
  {
    assert Pow2(1) == 2 && Pow2(3) == 8;
  }

  // ---------------------------------------------------------------------
  // Decimal digits
  // ---------------------------------------------------------------------

  predicate IsDigit(c: char) {
    '0' <= c <= '9'
  }

  predicate AllDigits(s: string) {
    forall i :: 0 <= i < |s| ==> IsDigit(s[i])
  }

  function DigitValue(c: char): (d: nat)
    requires IsDigit(c)
    ensures d < 10
  {
    c as int - '0' as int
  }

  function DigitChar(d: nat): (c: char)
    requires d < 10
    ensures IsDigit(c) && DigitValue(c) == d
  {
    (d + '0' as int) as char
  }

  /** The value of a string of decimal digits, most significant first. */
  function DecimalValue(s: string): nat
    requires AllDigits(s)
  {
    if |s| == 0 then 0 else DecimalValue(s[..|s| - 1]) * 10 + DigitValue(s[|s| - 1])
  }

  /** The shortest decimal rendering of n, as `String(n)` gives it for the
      integers that occur as lengths and key sizes. */
  function NatToString(n: nat): (s: string)
    ensures |s| >= 1 && AllDigits(s)
    ensures |s| > 1 ==> s[0] != '0'
    decreases n
  {
    if n < 10 then [DigitChar(n)] else NatToString(n / 10) + [DigitChar(n % 10)]
  }

  function IntToString(x: int): (s: string)
    ensures |s| >= 1
    ensures s[0] == '-' <==> x < 0
  {
    if x < 0 then "-" + NatToString(-x) else NatToString(x)
  }

  /** Rendering a natural number in decimal and reading it back gives the number. */
  lemma {:induction false} DecimalRoundTrip(n: nat)
    ensures DecimalValue(NatToString(n)) == n
    decreases n
  {
    if n >= 10 {
      var s := NatToString(n);
      DecimalRoundTrip(n / 10);
      assert s[..|s| - 1] == NatToString(n / 10);
    }
  }

  /** The characters of the ten digits. */
  lemma DigitChars()
    ensures DigitChar(0) == '0' && DigitChar(1) == '1' && DigitChar(2) == '2' && DigitChar(3) == '3'
    ensures DigitChar(4) == '4' && DigitChar(5) == '5' && DigitChar(6) == '6' && DigitChar(7) == '7'
    ensures DigitChar(8) == '8' && DigitChar(9) == '9'
  {
  }

  /** The renderings of numbers with up to three digits, digit by digit. */
  lemma SmallNatStrings(n: nat)
    ensures n < 10 ==> NatToString(n) == [DigitChar(n)]
    ensures 10 <= n < 100 ==> NatToString(n) == [DigitChar(n / 10), DigitChar(n % 10)]
    ensures 100 <= n < 1000 ==> NatToString(n) == [DigitChar(n / 100), DigitChar(n / 10 % 10), DigitChar(n % 10)]
  {
    if 100 <= n < 1000 {
      assert NatToString(n / 10) == [DigitChar(n / 100), DigitChar(n / 10 % 10)];
    }
  }

  /** A digit string of length at most k has a value below 10^k; three digits stay below 1000. */
  lemma {:induction false} DecimalValueBound(s: string)
    requires AllDigits(s)
    ensures |s| <= 3 ==> DecimalValue(s) < 1000
    ensures DecimalValue(s) < Pow10(|s|)
  {
    if |s| > 0 {
      DecimalValueBound(s[..|s| - 1]);
    }
  }

  function Pow10(n: nat): (r: nat)
    ensures r >= 1
  {
    if n == 0 then 1 else 10 * Pow10(n - 1)
  }

  // ---------------------------------------------------------------------
  // parseInt(s, 10)
  // ---------------------------------------------------------------------

  /** ECMAScript WhiteSpace and LineTerminator code points, which parseInt skips. */
  predicate IsJsWhiteSpace(c: char) {
    || '\t' <= c <= '\r'  // TAB, LF, VT, FF, CR
    || c == ' ' || c == '\U{A0}' || c == '\U{1680}'
    || '\U{2000}' <= c <= '\U{200A}'
    || c == '\U{2028}' || c == '\U{2029}' || c == '\U{202F}' || c == '\U{205F}'
    || c == '\U{3000}' || c == '\U{FEFF}'
  }

  function TrimStart(s: string): (t: string)
    ensures |t| <= |s| && t == s[|s| - |t|..]
    ensures |t| > 0 ==> !IsJsWhiteSpace(t[0])
  {
    if |s| > 0 && IsJsWhiteSpace(s[0]) then TrimStart(s[1..]) else s
  }

  /** The longest prefix of s made of decimal digits. */
  function LeadingDigits(s: string): (d: string)
    ensures AllDigits(d) && d <= s
    ensures |d| < |s| ==> !IsDigit(s[|d|])
  {
    if |s| > 0 && IsDigit(s[0]) then [s[0]] + LeadingDigits(s[1..]) else []
  }

  /** `parseInt(s, 10)`: None stands for NaN. Leading white space is skipped,
      one sign is accepted, and the longest run of digits after it is read. */
  function ParseInt(s: string): (r: Option<int>)
    ensures |s| <= 3 && r.Some? ==> -1000 < r.value < 1000
  {
    var t := TrimStart(s);
    var digits := LeadingDigits(UnsignedPart(t));
    DecimalValueBound(digits);
    var magnitude: int := DecimalValue(digits);
    if |digits| == 0 then None else Some(if |t| > 0 && t[0] == '-' then -magnitude else magnitude)
  }

  /** What follows one optional sign character. */
  function UnsignedPart(t: string): (u: string)
    ensures |u| <= |t|
  {
    if |t| > 0 && (t[0] == '-' || t[0] == '+') then t[1..] else t
  }

  lemma {:induction false} LeadingDigitsOfDigits(s: string)
    requires AllDigits(s)
    ensures LeadingDigits(s) == s
  {
    if |s| > 0 {
      LeadingDigitsOfDigits(s[1..]);
    }
  }

  lemma DigitIsNotWhiteSpace(c: char)
    requires IsDigit(c)
    ensures !IsJsWhiteSpace(c) && c != '-' && c != '+'
  {
  }

  lemma TrimStartIdle(s: string)
    requires |s| > 0 && !IsJsWhiteSpace(s[0])
    ensures TrimStart(s) == s
  {
  }

  /** parseInt of a digit string with an optional minus sign in front. */
  lemma {:induction false} ParseIntOfSignedDigits(negative: bool, digits: string)
    requires AllDigits(digits) && |digits| > 0
    ensures var s := (if negative then "-" else "") + digits;
      ParseInt(s).Some? && ParseInt(s).value == if negative then -(DecimalValue(digits) as int) else DecimalValue(digits) as int
  {
    LeadingDigitsOfDigits(digits);
    DigitIsNotWhiteSpace(digits[0]);
    if negative {
      var s := "-" + digits;
      assert s[1..] == digits;
      TrimStartIdle(s);
      assert UnsignedPart(s) == digits;
    } else {
      assert "" + digits == digits;
      TrimStartIdle(digits);
      assert UnsignedPart(digits) == digits;
    }
  }

  /** parseInt reads back what the decimal rendering of an integer writes. */
  lemma {:induction false} ParseIntOfDecimal(x: int)
    ensures ParseInt(IntToString(x)) == Some(x)
  {
    var n: nat := if x < 0 then -x else x;
    DecimalRoundTrip(n);
    ParseIntOfSignedDigits(x < 0, NatToString(n));
    assert IntToString(x) == (if x < 0 then "-" else "") + NatToString(n);
  }

  /** `s.slice(start, end)` for non-negative indices: clamped to the string. */
  function Slice<T>(s: seq<T>, start: nat, end: nat): (t: seq<T>)
    ensures |t| <= |s|
    ensures start <= end <= |s| ==> t == s[start..end]
  {
    var b := if start <= |s| then start else |s|;
    var e := if end <= |s| then end else |s|;
    if b <= e then s[b..e] else []
  }
}
