/**
 * The two JavaScript number conversions the client relies on: `String(n)` for an
 * integer `n` (how `timestamp` and `recvWindow` are rendered into the query string)
 * and `parseInt(s, 10)` (how the `X-MBX-USED-WEIGHT-1M` and `Retry-After` headers
 * are read).
 */
module JsNumbers {

  /** A JavaScript number as `parseInt` can produce it: an integer or `NaN`. */
  datatype JsNumber = Int(value: int) | NaN

  predicate IsDigit(c: char) {
    '0' <= c <= '9'
  }

  predicate AllDigits(s: string) {
    forall i :: 0 <= i < |s| ==> IsDigit(s[i])
  }

  /** The white-space characters `parseInt` skips before the number (ASCII ones only). */
  predicate IsWhiteSpace(c: char) {
    c == ' ' || c == '\t' || c == '\n' || c == '\r' || c == '\U{B}' || c == '\U{C}'
  }

  function DigitChar(d: nat): (c: char)
    requires d < 10
    ensures IsDigit(c) && c as int - '0' as int == d
  {
    ('0' as int + d) as char
  }

  /** The decimal digits of `n`, most significant first, without leading zeros. */
  function NatToDigits(n: nat): (s: string)
    ensures |s| > 0 && AllDigits(s)
    ensures |s| > 1 ==> s[0] != '0'
  {
    if n < 10 then [DigitChar(n)] else NatToDigits(n / 10) + [DigitChar(n % 10)]
  }

  /** `String(n)` for an integer-valued number `n`. */
  function IntToString(n: int): (s: string)
    ensures |s| > 0 && (IsDigit(s[0]) || s[0] == '-')
  {
    if n < 0 then "-" + NatToDigits(-n) else NatToDigits(n)
  }

  /** The value of a string of decimal digits. */
  function DigitsValue(s: string): nat
    requires AllDigits(s)
  {
    if s == [] then 0 else DigitsValue(s[..|s| - 1]) * 10 + (s[|s| - 1] as int - '0' as int)
  }

  /** The longest prefix of `s` made of decimal digits. */
  function DigitPrefix(s: string): (d: string)
    ensures AllDigits(d) && |d| <= |s| && d == s[..|d|]
    ensures |d| < |s| ==> !IsDigit(s[|d|])
  {
    if s != [] && IsDigit(s[0]) then [s[0]] + DigitPrefix(s[1..]) else []
  }

  function TrimStart(s: string): (t: string)
    ensures |t| <= |s| && t == s[|s| - |t|..]
    ensures t != [] ==> !IsWhiteSpace(t[0])
  {
    if s != [] && IsWhiteSpace(s[0]) then TrimStart(s[1..]) else s
  }

  /**
   * `parseInt(s, 10)`: skip leading white space, read an optional sign, then the
   * longest run of digits; `NaN` when there is no digit. Whatever follows the
   * digits is ignored.
   */
  function ParseInt(s: string): JsNumber {
    var t := TrimStart(s);
    var negative := t != [] && t[0] == '-';
    var rest := if t != [] && (t[0] == '-' || t[0] == '+') then t[1..] else t;
    var d := DigitPrefix(rest);
    if d == [] then NaN
    else if negative then Int(-(DigitsValue(d) as int))
    else Int(DigitsValue(d))
  }

  lemma {:induction false} DigitPrefixOfDigits(s: string)
    requires AllDigits(s)
    ensures DigitPrefix(s) == s
  {
    if s != [] {
      DigitPrefixOfDigits(s[1..]);
    }
  }

  lemma {:induction false} DigitsValueOfNat(n: nat)
    ensures DigitsValue(NatToDigits(n)) == n
  {
    if n >= 10 {
      var s := NatToDigits(n);
      assert s[..|s| - 1] == NatToDigits(n / 10);
      DigitsValueOfNat(n / 10);
    }
  }

  /** What `parseInt` reads back from a value printed by `String` is that value. */
  lemma ParseIntOfIntToString(n: int)
    ensures ParseInt(IntToString(n)) == Int(n)
  {
    var s := IntToString(n);
    assert TrimStart(s) == s;
    var m: nat := if n < 0 then -n else n;
    var digits := NatToDigits(m);
    assert (if n < 0 then s[1..] else s) == digits;
    DigitPrefixOfDigits(digits);
    DigitsValueOfNat(m);
  }

  /** Text without a single decimal digit is not a number to `parseInt`, whatever else it holds. */
  lemma ParseIntOfNoDigits(s: string)
    requires forall i :: 0 <= i < |s| ==> !IsDigit(s[i])
    ensures ParseInt(s) == NaN
  {
    var t := TrimStart(s);
    var rest := if t != [] && (t[0] == '-' || t[0] == '+') then t[1..] else t;
    assert rest != [] ==> rest[0] == s[|s| - |rest|];
  }

  /** The two default `Retry-After` texts the client falls back on read as 60 and 120. */
  lemma ParseIntOfDefaults()
    ensures ParseInt("60") == Int(60) && ParseInt("120") == Int(120)
  {
    assert NatToDigits(6) == "6" && NatToDigits(60) == "60";
    assert NatToDigits(1) == "1" && NatToDigits(12) == "12" && NatToDigits(120) == "120";
    ParseIntOfIntToString(60);
    ParseIntOfIntToString(120);
  }

  /** Different integers print differently, so the rendering loses nothing. */
  lemma IntToStringInjective(m: int, n: int)
    requires IntToString(m) == IntToString(n)
    ensures m == n
  {
    ParseIntOfIntToString(m);
    ParseIntOfIntToString(n);
  }
}
