/**
 * The JavaScript number conversions the scripts rely on: `parseInt` with
 * and without an explicit radix, and the decimal and hexadecimal strings
 * of non-negative integers (`String(n)`, `n.toString(16)`).  Only integer
 * values are modelled; `NaN` is `None`.
 */
module Js {
  import opened Wrappers
  import opened Text

  predicate IsDigit(c: char) {
    '0' <= c <= '9'
  }

  predicate IsRadixDigit(c: char, radix: nat) {
    if radix == 16 then IsDigit(c) || 'a' <= c <= 'f' || 'A' <= c <= 'F' else IsDigit(c)
  }

  function DigitValue(c: char): (v: nat)
    requires IsRadixDigit(c, 16)
    ensures v < 16 && (IsDigit(c) ==> v < 10)
  {
    if IsDigit(c) then c as int - '0' as int
    else if 'a' <= c <= 'f' then c as int - 'a' as int + 10
    else c as int - 'A' as int + 10
  }

  predicate AllRadixDigits(s: string, radix: nat) {
    forall k :: 0 <= k < |s| ==> IsRadixDigit(s[k], radix)
  }

  /** Length of the longest prefix of `s` made of digits of `radix`. */
  function DigitRun(s: string, radix: nat): (n: nat)
    ensures n <= |s| && AllRadixDigits(s[..n], radix) && (n == |s| || !IsRadixDigit(s[n], radix))
  {
    if |s| > 0 && IsRadixDigit(s[0], radix) then
      var n := 1 + DigitRun(s[1..], radix);
      assert forall k :: 1 <= k < n ==> s[..n][k] == s[1..][..n - 1][k - 1];
      n
    else 0
  }

  /** The value of a digit string, most significant digit first. */
  function DigitsValue(s: string, radix: nat): nat
    requires radix == 10 || radix == 16
    requires AllRadixDigits(s, radix)
  {
    if s == [] then 0
    else
      assert AllRadixDigits(s[..|s| - 1], radix) by {
        assert forall k :: 0 <= k < |s| - 1 ==> s[..|s| - 1][k] == s[k];
      }
      DigitsValue(s[..|s| - 1], radix) * radix + DigitValue(s[|s| - 1])
  }

  /** The digits of a number, after an optional `0x`/`0X` prefix when no radix is given. */
  function NumberBody(u: string, radix: Option<nat>): (string, nat)
  {
    if radix.None? && |u| >= 2 && u[0] == '0' && (u[1] == 'x' || u[1] == 'X') then (u[2..], 16)
    else (u, 10)
  }

  /** The number after the sign: the longest run of digits, or `NaN` when there is none. */
  function ParseUnsigned(u: string, radix: Option<nat>): (r: Option<nat>)
  {
    var (body, base) := NumberBody(u, radix);
    var n := DigitRun(body, base);
    if n == 0 then None else Some(DigitsValue(body[..n], base))
  }

  /**
   * `parseInt(s)` (`radix` is `None`) or `parseInt(s, 10)`: leading white
   * space and one sign are skipped, a `0x` prefix selects hexadecimal when
   * no radix is given, and the longest run of digits that follows is read;
   * without digits the result is `NaN`.
   */
  function ParseInt(s: string, radix: Option<nat>): (r: Option<int>)
    requires radix.None? || radix == Some(10)
  {
    var t := TrimStart(s);
    var neg := |t| > 0 && t[0] == '-';
    var u := if |t| > 0 && (t[0] == '-' || t[0] == '+') then t[1..] else t;
    match ParseUnsigned(u, radix)
    case None => None
    case Some(v) => Some(if neg then -(v as int) else v as int)
  }

  function DigitChar(d: nat): (c: char)
    requires d < 16
    ensures IsRadixDigit(c, 16) && DigitValue(c) == d
    ensures d < 10 <==> IsDigit(c)
  {
    if d < 10 then ('0' as int + d) as char else ('a' as int + d - 10) as char
  }

  /** `String(n)` for a non-negative integer, and `n.toString(16)` for `radix == 16`. */
  function NatString(n: nat, radix: nat): (s: string)
    requires radix == 10 || radix == 16
    ensures s != [] && AllRadixDigits(s, radix)
    ensures |s| > 1 ==> s[0] != '0'
  {
    if n < radix then [DigitChar(n)]
    else
      var p := NatString(n / radix, radix);
      p + [DigitChar(n % radix)]
  }

  /** `String(i)` for an integer. */
  function IntString(i: int): string {
    if i < 0 then "-" + NatString(-i, 10) else NatString(i, 10)
  }

  lemma {:induction false} DigitRunAll(s: string, radix: nat)
    requires AllRadixDigits(s, radix)
    ensures DigitRun(s, radix) == |s|
    decreases |s|
  {
    if s != [] {
      DigitRunAll(s[1..], radix);
    }
  }

  /** The digits of a number read back give the number. */
  lemma {:induction false} NatStringValue(n: nat, radix: nat)
    requires radix == 10 || radix == 16
    ensures DigitsValue(NatString(n, radix), radix) == n
    decreases n
  {
    var s := NatString(n, radix);
    if n >= radix {
      NatStringValue(n / radix, radix);
      assert s[..|s| - 1] == NatString(n / radix, radix);
    }
  }

  lemma ParseUnsignedOfNatString(n: nat, radix: Option<nat>)
    ensures ParseUnsigned(NatString(n, 10), radix) == Some(n)
  {
    var s := NatString(n, 10);
    assert NumberBody(s, radix) == (s, 10) by {
      assert IsDigit(s[0]);
      if |s| >= 2 {
        assert IsDigit(s[1]);
      }
    }
    DigitRunAll(s, 10);
    assert s[..|s|] == s;
    NatStringValue(n, 10);
  }

  /** `parseInt` of a decimal string gives the number back, with or without radix 10. */
  lemma ParseIntOfNatString(n: nat, radix: Option<nat>)
    requires radix.None? || radix == Some(10)
    ensures ParseInt(NatString(n, 10), radix) == Some(n)
  {
    var s := NatString(n, 10);
    assert IsDigit(s[0]);
    TrimStartNoSpace(s);
    ParseUnsignedOfNatString(n, radix);
  }

  /** `parseInt(String(i))` is `i` for every integer. */
  lemma ParseIntOfIntString(i: int)
    ensures ParseInt(IntString(i), None) == Some(i)
  {
    if i >= 0 {
      ParseIntOfNatString(i, None);
    } else {
      var s := NatString(-i, 10);
      var t := "-" + s;
      TrimStartNoSpace(t);
      assert t[1..] == s;
      ParseUnsignedOfNatString(-i, None);
    }
  }

  /** A string whose first non-blank character is no sign and no digit is `NaN`. */
  lemma ParseIntNoDigits(s: string, radix: Option<nat>)
    requires radix.None? || radix == Some(10)
    requires var t := TrimStart(s); t == [] || (!IsDigit(t[0]) && t[0] != '-' && t[0] != '+')
    ensures ParseInt(s, radix).None?
  {
  }
}
