/**
 * Stand-ins for the `java.lang.Integer` and `String.hashCode` arithmetic the
 * core relies on: 32-bit two's-complement wrap-around written out explicitly,
 * decimal printing and parsing, and lower-case hexadecimal printing.
 */
module Integers {
  import opened Wrappers

  const IntMin: int := -0x8000_0000
  const IntMax: int := 0x7fff_ffff
  const TwoTo32: int := 0x1_0000_0000

  predicate IsInt32(n: int) {
    IntMin <= n <= IntMax
  }

  /** The Java `int` that the mathematical integer `x` wraps around to. */
  function Wrap32(x: int): (r: int)
    ensures IsInt32(r)
    ensures (r - x) % TwoTo32 == 0
    ensures IsInt32(x) ==> r == x
  {
    var u := x % TwoTo32;
    if u <= IntMax then u else u - TwoTo32
  }

  predicate IsDigit(c: char) {
    '0' <= c <= '9'
  }

  predicate AllDigits(s: string) {
    forall i :: 0 <= i < |s| ==> IsDigit(s[i])
  }

  function DigitChar(d: nat): (c: char)
    requires d < 10
    ensures IsDigit(c)
  {
    ('0' as int + d) as char
  }

  function DigitValue(c: char): (d: nat)
    requires IsDigit(c)
    ensures d < 10 && DigitChar(d) == c
  {
    c as int - '0' as int
  }

  /** The decimal digits of `n`, most significant first, without leading zeros. */
  function NatToDigits(n: nat): (r: string)
    ensures r != [] && AllDigits(r)
  {
    if n < 10 then [DigitChar(n)] else NatToDigits(n / 10) + [DigitChar(n % 10)]
  }

  /** The number a string of decimal digits denotes. */
  function DigitsValue(s: string): nat
    requires AllDigits(s)
  {
    if s == [] then 0 else DigitsValue(s[..|s| - 1]) * 10 + DigitValue(s[|s| - 1])
  }

  lemma {:induction false} DigitsRoundTrip(n: nat)
    ensures DigitsValue(NatToDigits(n)) == n
  {
    if n >= 10 {
      var s := NatToDigits(n);
      assert s[..|s| - 1] == NatToDigits(n / 10);
      DigitsRoundTrip(n / 10);
    }
  }

  /** `Integer.toString`: an optional minus sign followed by the digits. */
  function IntToString(n: int): (r: string)
    ensures r != []
    ensures n >= 0 ==> AllDigits(r)
    ensures n < 0 ==> r[0] == '-' && AllDigits(r[1..])
  {
    if n < 0 then "-" + NatToDigits(-n) else NatToDigits(n)
  }

  /**
   * `Integer.parseInt`: an optional '+' or '-', then at least one decimal
   * digit, and a value inside the `int` range; anything else is a
   * `NumberFormatException`, modelled as `None`.
   */
  function ParseInt(s: string): (r: Option<int>)
    ensures r.Some? ==> IsInt32(r.value)
    ensures r.Some? ==> s != []
  {
    if s == [] then None
    else
      var negative := s[0] == '-';
      var digits := if s[0] == '-' || s[0] == '+' then s[1..] else s;
      if digits == [] || !AllDigits(digits) then None
      else
        var magnitude: int := DigitsValue(digits);
        var v := if negative then -magnitude else magnitude;
        if IsInt32(v) then Some(v) else None
  }

  /** Parsing what `Integer.toString` printed gives back the same `int`. */
  lemma ParseIntToString(n: int)
    requires IsInt32(n)
    ensures ParseInt(IntToString(n)) == Some(n)
  {
    var s := IntToString(n);
    if n < 0 {
      assert s[1..] == NatToDigits(-n);
      DigitsRoundTrip(-n);
    } else {
      DigitsRoundTrip(n);
    }
  }

  /** `String.hashCode`: h = 31 * h + c over the characters, wrapping at 32 bits. */
  function StringHash(s: string): (h: int)
    ensures IsInt32(h)
  {
    if s == [] then 0 else Wrap32(31 * StringHash(s[..|s| - 1]) + s[|s| - 1] as int)
  }

  predicate IsHexChar(c: char) {
    '0' <= c <= '9' || 'a' <= c <= 'f'
  }

  predicate AllHex(s: string) {
    forall i :: 0 <= i < |s| ==> IsHexChar(s[i])
  }

  function HexChar(d: nat): (c: char)
    requires d < 16
    ensures IsHexChar(c)
  {
    if d < 10 then ('0' as int + d) as char else ('a' as int + d - 10) as char
  }

  /** The lower-case hexadecimal digits of `u`, without leading zeros. */
  function HexDigits(u: nat): (r: string)
    ensures r != [] && AllHex(r)
  {
    if u < 16 then [HexChar(u)] else HexDigits(u / 16) + [HexChar(u % 16)]
  }

  lemma {:induction false} HexDigitsLength(u: nat, k: nat)
    requires 0 < k
    requires u < Power16(k)
    ensures |HexDigits(u)| <= k
  {
    if u >= 16 {
      assert k > 1;
      assert u / 16 < Power16(k - 1);
      HexDigitsLength(u / 16, k - 1);
    }
  }

  function Power16(k: nat): nat {
    if k == 0 then 1 else 16 * Power16(k - 1)
  }

  /** `Integer.toHexString`: the unsigned 32-bit value of `n` in lower-case hex. */
  function ToHexString(n: int): (r: string)
    requires IsInt32(n)
    ensures r != [] && AllHex(r)
  {
    HexDigits(n % TwoTo32)
  }

  /** A hexadecimal `int` rendering has between one and eight digits. */
  lemma ToHexStringLength(n: int)
    requires IsInt32(n)
    ensures 1 <= |ToHexString(n)| <= 8
  {
    assert Power16(8) == TwoTo32;
    HexDigitsLength(n % TwoTo32, 8);
  }
}
