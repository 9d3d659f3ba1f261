/**
 * Decimal digit strings: JavaScript's `parseInt(s, 10)` on the sequence
 * column of a shape file, and the decimal value that decides whether an
 * object property key is an array index.
 */
module Numbers {
  import opened Wrappers

  predicate IsDigit(c: char) {
    '0' <= c <= '9'
  }

  predicate AllDigits(s: string) {
    forall i :: 0 <= i < |s| ==> IsDigit(s[i])
  }

  function DigitValue(c: char): nat {
    if IsDigit(c) then (c as int) - ('0' as int) else 0
  }

  /** The value of a digit string, most significant digit first. */
  function DecimalValue(s: string): nat
    decreases |s|
  {
    if |s| == 0 then 0 else DecimalValue(s[..|s| - 1]) * 10 + DigitValue(s[|s| - 1])
  }

  function DigitChar(d: nat): char
    requires d < 10
  {
    ('0' as int + d) as char
  }

  /** The canonical decimal spelling of `n` (JavaScript's `String(n)`). */
  function DecimalString(n: nat): (s: string)
    ensures |s| > 0 && AllDigits(s)
    ensures s[0] != '0' || n == 0
    decreases n
  {
    if n < 10 then [DigitChar(n)] else DecimalString(n / 10) + [DigitChar(n % 10)]
  }

  /** Reading back the canonical spelling of `n` gives `n`. */
  lemma {:induction false} DecimalValueOfString(n: nat)
    ensures DecimalValue(DecimalString(n)) == n
    decreases n
  {
    if n >= 10 {
      DecimalValueOfString(n / 10);
      var s := DecimalString(n);
      assert s[..|s| - 1] == DecimalString(n / 10);
    }
  }

  /** The longest prefix of `s` made of digits. */
  function LeadingDigits(s: string): (d: string)
    ensures |d| <= |s| && d == s[..|d|] && AllDigits(d)
    ensures |d| < |s| ==> !IsDigit(s[|d|])
    decreases |s|
  {
    if |s| == 0 || !IsDigit(s[0]) then "" else [s[0]] + LeadingDigits(s[1..])
  }

  /**
   * The characters `parseInt` skips before the sign: white space (TAB, VT,
   * FF, SP, NBSP, ZWNBSP and every other space separator) and the line
   * terminators LF, CR, LS and PS.
   */
  predicate IsJsWhiteSpace(c: char) {
    var n := c as int;
    || n == 0x09 || n == 0x0B || n == 0x0C || n == 0x20 || n == 0xA0 || n == 0xFEFF
    || n == 0x1680 || (0x2000 <= n <= 0x200A) || n == 0x202F || n == 0x205F || n == 0x3000
    || n == 0x0A || n == 0x0D || n == 0x2028 || n == 0x2029
  }

  predicate AllWhiteSpace(s: string) {
    forall i :: 0 <= i < |s| ==> IsJsWhiteSpace(s[i])
  }

  /** `s` without its leading white space. */
  function TrimStart(s: string): (t: string)
    ensures |t| <= |s| && t == s[|s| - |t|..]
    ensures AllWhiteSpace(s[..|s| - |t|])
    ensures |t| == 0 || !IsJsWhiteSpace(t[0])
    decreases |s|
  {
    if |s| > 0 && IsJsWhiteSpace(s[0]) then TrimStart(s[1..]) else s
  }

  /**
   * `parseInt(s, 10)`: leading white space is skipped, then an optional
   * sign, then the leading digits; `None` stands for NaN (no digits, or an
   * undefined field).
   */
  function ParseInt(field: Option<string>): Option<int> {
    match field
    case None => None
    case Some(raw) => ParseSigned(TrimStart(raw))
  }

  /** An optional sign and the leading digits after it; `None` when there are no digits. */
  function ParseSigned(s: string): Option<int> {
    var negative := |s| > 0 && s[0] == '-';
    var unsigned := if |s| > 0 && (s[0] == '-' || s[0] == '+') then s[1..] else s;
    var digits := LeadingDigits(unsigned);
    if |digits| == 0 then None else Some(Signed(negative, DecimalValue(digits)))
  }

  /** A magnitude with its sign applied. */
  function Signed(negative: bool, magnitude: nat): int {
    if negative then -(magnitude as int) else magnitude
  }

  /**
   * `parseInt` reads a decimal numeral, leading zeros included, after any
   * leading white space and an optional sign, and ignores whatever follows
   * the digits.
   */
  lemma ParseIntReads(space: string, sign: string, digits: string, rest: string)
    requires AllWhiteSpace(space)
    requires sign == "" || sign == "+" || sign == "-"
    requires |digits| > 0 && AllDigits(digits)
    requires |rest| == 0 || !IsDigit(rest[0])
    ensures ParseInt(Some(space + sign + digits + rest))
      == Some(Signed(sign == "-", DecimalValue(digits)))
  {
    Regroup(space, sign, digits, rest);
    SignedNumeralStart(sign, digits, rest);
    TrimStartOfPadded(space, sign + digits + rest);
    ParseSignedReads(sign, digits, rest);
  }

  lemma Regroup(a: string, b: string, c: string, d: string)
    ensures a + b + c + d == a + (b + c + d)
  {
  }

  /** A signed numeral does not start with white space. */
  lemma SignedNumeralStart(sign: string, digits: string, rest: string)
    requires sign == "" || sign == "+" || sign == "-"
    requires |digits| > 0 && IsDigit(digits[0])
    ensures |sign + digits + rest| > 0
    ensures !IsJsWhiteSpace((sign + digits + rest)[0])
  {
    var c := (sign + digits + rest)[0];
    assert c == if sign == "" then digits[0] else sign[0];
    assert IsDigit(c) || c == '-' || c == '+';
  }

  /** The signed-numeral step of `parseInt`. */
  lemma ParseSignedReads(sign: string, digits: string, rest: string)
    requires sign == "" || sign == "+" || sign == "-"
    requires |digits| > 0 && AllDigits(digits)
    requires |rest| == 0 || !IsDigit(rest[0])
    ensures ParseSigned(sign + digits + rest)
      == Some(Signed(sign == "-", DecimalValue(digits)))
  {
    var signed := sign + digits + rest;
    SignThenDigits(sign, digits, rest);
    LeadingDigitsOfNumeral(digits, rest);
    var unsigned := if |signed| > 0 && (signed[0] == '-' || signed[0] == '+') then signed[1..] else signed;
    assert LeadingDigits(unsigned) == digits;
    assert ParseSigned(signed) == Some(Signed(sign == "-", DecimalValue(digits)));
  }

  /** After an optional sign come the digits: the sign is dropped, and only '-' negates. */
  lemma SignThenDigits(sign: string, digits: string, rest: string)
    requires sign == "" || sign == "+" || sign == "-"
    requires |digits| > 0 && IsDigit(digits[0])
    ensures var signed := sign + digits + rest;
      && (|signed| > 0 && signed[0] == '-' <==> sign == "-")
      && (if |signed| > 0 && (signed[0] == '-' || signed[0] == '+') then signed[1..] else signed) == digits + rest
  {
    var signed := sign + digits + rest;
    if sign == "" {
      assert signed == digits + rest;
      assert signed[0] == digits[0];
    } else {
      assert signed[0] == sign[0];
      assert signed[1..] == digits + rest;
    }
  }

  /** Text without a digit is not a number: `parseInt` gives NaN. */
  lemma ParseIntWithoutDigits(s: string)
    requires forall i :: 0 <= i < |s| ==> !IsDigit(s[i])
    ensures ParseInt(Some(s)) == None
  {
    var t := TrimStart(s);
    var unsigned := if |t| > 0 && (t[0] == '-' || t[0] == '+') then t[1..] else t;
    assert unsigned == s[|s| - |unsigned|..];
  }

  /** Empty padding, sign and tail add nothing to a spelling. */
  lemma NoSpaceNoSign(prefix: string, d: string)
    ensures "" + prefix + d + "" == prefix + d
    ensures prefix + "" + d + "" == prefix + d
  {
  }

  /** Trimming removes exactly the white space before a non-space character. */
  lemma {:induction false} TrimStartOfPadded(space: string, s: string)
    requires AllWhiteSpace(space) && |s| > 0 && !IsJsWhiteSpace(s[0])
    ensures TrimStart(space + s) == s
    decreases |space|
  {
    if |space| > 0 {
      assert (space + s)[1..] == space[1..] + s;
      TrimStartOfPadded(space[1..], s);
    }
  }

  /** The leading digits of a numeral followed by a non-digit are the numeral. */
  lemma {:induction false} LeadingDigitsOfNumeral(digits: string, rest: string)
    requires AllDigits(digits)
    requires |rest| == 0 || !IsDigit(rest[0])
    ensures LeadingDigits(digits + rest) == digits
    decreases |digits|
  {
    if |digits| > 0 {
      assert (digits + rest)[1..] == digits[1..] + rest;
      LeadingDigitsOfNumeral(digits[1..], rest);
      assert [digits[0]] + digits[1..] == digits;
    }
  }

  /** A bare digit string is read as its value. */
  lemma ParseIntOfDigits(digits: string)
    requires |digits| > 0 && AllDigits(digits)
    ensures ParseInt(Some(digits)) == Some(DecimalValue(digits))
  {
    TrimStartOfDigits(digits);
    ParseSignedOfDigits(digits);
  }

  lemma TrimStartOfDigits(digits: string)
    requires |digits| > 0 && IsDigit(digits[0])
    ensures TrimStart(digits) == digits
  {
    assert !IsJsWhiteSpace(digits[0]);
  }

  lemma ParseSignedOfDigits(digits: string)
    requires |digits| > 0 && AllDigits(digits)
    ensures ParseSigned(digits) == Some(DecimalValue(digits))
  {
    AllDigitsAreLeading(digits);
    assert IsDigit(digits[0]);
  }

  /** `parseInt` reads back the canonical spelling of any natural number. */
  lemma ParseIntOfDecimalString(n: nat)
    ensures ParseInt(Some(DecimalString(n))) == Some(n)
  {
    ParseIntOfDigits(DecimalString(n));
    DecimalValueOfString(n);
  }

  /** `parseInt` reads back the negation of any natural number. */
  lemma ParseIntOfNegatedDecimalString(n: nat)
    ensures ParseInt(Some("-" + DecimalString(n))) == Some(-(n as int))
  {
    NoSpaceNoSign("-", DecimalString(n));
    ParseIntReads("", "-", DecimalString(n), "");
    DecimalValueOfString(n);
  }

  /** `parseInt` reads back any natural number after a leading space. */
  lemma ParseIntOfPaddedDecimalString(n: nat)
    ensures ParseInt(Some(" " + DecimalString(n))) == Some(n)
  {
    NoSpaceNoSign(" ", DecimalString(n));
    ParseIntReads(" ", "", DecimalString(n), "");
    DecimalValueOfString(n);
  }

  /** Leading zeros are read over: `parseInt` of "007" is 7. */
  lemma ParseIntOfZeroPadded(zeros: string, n: nat)
    requires forall i :: 0 <= i < |zeros| ==> zeros[i] == '0'
    ensures ParseInt(Some(zeros + DecimalString(n))) == Some(n)
  {
    var d := zeros + DecimalString(n);
    assert AllDigits(d) by {
      forall i | 0 <= i < |d| ensures IsDigit(d[i]) {
        if i >= |zeros| { assert d[i] == DecimalString(n)[i - |zeros|]; }
      }
    }
    ParseIntOfDigits(d);
    ZerosAddNothing(zeros, DecimalString(n));
    DecimalValueOfString(n);
  }

  /** Leading zeros do not change a digit string's value. */
  lemma {:induction false} ZerosAddNothing(zeros: string, digits: string)
    requires forall i :: 0 <= i < |zeros| ==> zeros[i] == '0'
    ensures DecimalValue(zeros + digits) == DecimalValue(digits)
    decreases |digits|
  {
    if |digits| == 0 {
      assert zeros + digits == zeros;
      ZerosAreZero(zeros);
    } else {
      var s := zeros + digits;
      assert s[..|s| - 1] == zeros + digits[..|digits| - 1];
      ZerosAddNothing(zeros, digits[..|digits| - 1]);
    }
  }

  lemma {:induction false} ZerosAreZero(zeros: string)
    requires forall i :: 0 <= i < |zeros| ==> zeros[i] == '0'
    ensures DecimalValue(zeros) == 0
    decreases |zeros|
  {
    if |zeros| > 0 {
      ZerosAreZero(zeros[..|zeros| - 1]);
    }
  }

  /** A digit string is its own leading-digit prefix. */
  lemma AllDigitsAreLeading(s: string)
    requires AllDigits(s)
    ensures LeadingDigits(s) == s
  {
  }
}
