/**
 * Decimal text of integers: the invariant-culture Int64.ToString() used to print
 * file sizes, and the Convert.ToInt32(string) used to read integer
 * command-line values (Int32.Parse with NumberStyles.Integer).
 */
module Numbers {
  import opened Wrappers

  const MinInt32: int := -0x8000_0000
  const MaxInt32: int := 0x7FFF_FFFF

  predicate IsDigit(c: char) {
    '0' <= c <= '9'
  }

  predicate AllDigits(s: string) {
    forall i :: 0 <= i < |s| ==> IsDigit(s[i])
  }

  function DigitChar(d: nat): (c: char)
    requires d < 10
    ensures IsDigit(c) && c as int - '0' as int == d
  {
    ('0' as int + d) as char
  }

  /** The value of a string of decimal digits, most significant digit first. */
  function DigitsValue(s: string): nat
    requires AllDigits(s)
  {
    if s == [] then 0 else DigitsValue(s[..|s| - 1]) * 10 + (s[|s| - 1] as int - '0' as int)
  }

  /** The decimal text of a natural number, without leading zeros; reading it back gives the number. */
  function NatToString(n: nat): (s: string)
    ensures |s| >= 1 && AllDigits(s)
    ensures DigitsValue(s) == n
    ensures s[0] == '0' ==> n == 0
  {
    if n < 10 then [DigitChar(n)]
    else
      var s := NatToString(n / 10) + [DigitChar(n % 10)];
      assert s[..|s| - 1] == NatToString(n / 10);
      s
  }

  /** Int64.ToString(): a minus sign before negative numbers, then the decimal digits. */
  function IntToString(i: int): (s: string)
    ensures |s| >= 1
    ensures i < 0 <==> s[0] == '-'
  {
    if i < 0 then "-" + NatToString(-i) else NatToString(i)
  }

  /** The white space Int32.Parse skips: U+0009 to U+000D and the space. */
  predicate IsWhite(c: char) {
    c == ' ' || '\t' <= c <= '\r'
  }

  function TrimLeadingWhite(s: string): (r: string)
    ensures |r| <= |s|
    ensures r == [] || !IsWhite(r[0])
  {
    if |s| > 0 && IsWhite(s[0]) then TrimLeadingWhite(s[1..]) else s
  }

  function TrimTrailingWhite(s: string): (r: string)
    ensures |r| <= |s|
    ensures r == [] || !IsWhite(r[|r| - 1])
  {
    if |s| > 0 && IsWhite(s[|s| - 1]) then TrimTrailingWhite(s[..|s| - 1]) else s
  }

  /**
   * Convert.ToInt32(string): white space around, an optional leading '+' or
   * '-', then one or more decimal digits whose value fits in 32 bits; None
   * stands for the FormatException or OverflowException it throws otherwise.
   */
  function ToInt32(s: string): (r: Option<int>)
    ensures r.Some? ==> MinInt32 <= r.value <= MaxInt32
  {
    var t := TrimTrailingWhite(TrimLeadingWhite(s));
    var signed := |t| > 0 && (t[0] == '-' || t[0] == '+');
    var digits := if signed then t[1..] else t;
    if digits == [] || !AllDigits(digits) then None
    else
      var v: int := if signed && t[0] == '-' then -(DigitsValue(digits) as int) else DigitsValue(digits);
      if MinInt32 <= v <= MaxInt32 then Some(v) else None
  }

  /** Printing a 32-bit integer and reading it back gives the same integer. */
  lemma ToInt32RoundTrip(i: int)
    requires MinInt32 <= i <= MaxInt32
    ensures ToInt32(IntToString(i)) == Some(i)
  {
    var s := IntToString(i);
    assert TrimLeadingWhite(s) == s;
    assert TrimTrailingWhite(s) == s;
    if i < 0 {
      assert s[1..] == NatToString(-i);
    }
  }

  /** A plain string of digits reads as its value exactly when that value fits in 32 bits. */
  lemma ToInt32Digits(s: string)
    requires s != [] && AllDigits(s)
    ensures ToInt32(s) == if DigitsValue(s) <= MaxInt32 then Some(DigitsValue(s)) else None
  {
    assert !IsWhite(s[0]);
    assert TrimLeadingWhite(s) == s;
    assert !IsWhite(s[|s| - 1]);
    assert TrimTrailingWhite(s) == s;
  }
}
