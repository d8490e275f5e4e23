/** The integer side of the value model: the 32-bit range of `Int32` and the
    conversion the reader applies to an atom, `Int32.Parse` under its default
    number style, restricted to what can occur in an atom: an optional `+` or
    `-` followed by one or more ASCII digits. */
module Numbers {

  predicate InInt32Range(v: int) {
    -0x8000_0000 <= v < 0x8000_0000
  }

  /** A 32-bit signed integer, the payload of a `Num` object. */
  newtype Int32 = x: int | InInt32Range(x)

  predicate IsDigit(c: char) {
    '0' <= c <= '9'
  }

  predicate AllDigits(d: string) {
    forall i :: 0 <= i < |d| ==> IsDigit(d[i])
  }

  function DigitValue(c: char): (k: nat)
    requires IsDigit(c)
    ensures k < 10
  {
    (c as int) - ('0' as int)
  }

  /** The value of a run of decimal digits, most significant digit first. */
  function DigitsValue(d: string): nat
    requires AllDigits(d)
    decreases |d|
  {
    if d == [] then 0 else 10 * DigitsValue(d[..|d| - 1]) + DigitValue(d[|d| - 1])
  }

  /** How `Int32.Parse` ends: a value, a `FormatException`, or an `OverflowException`. */
  datatype ParseResult = Parsed(n: Int32) | FormatFailure | OverflowFailure

  /** `Int32.Parse(s)`: an optional sign and at least one digit make a number;
      anything else is a format failure; a well-formed number outside the
      32-bit range is an overflow failure. */
  function ParseInt32(s: string): (r: ParseResult)
    ensures !r.FormatFailure? <==>
              s != [] && AllDigits(s[1..]) && (IsDigit(s[0]) || (|s| > 1 && (s[0] == '+' || s[0] == '-')))
    ensures r.Parsed? && r.n < 0 ==> s[0] == '-'
  {
    var signed := s != [] && (s[0] == '+' || s[0] == '-');
    var digits := if signed then s[1..] else s;
    if digits == [] || !AllDigits(digits) then FormatFailure
    else
      var v: int := if s[0] == '-' then -(DigitsValue(digits) as int) else DigitsValue(digits);
      if InInt32Range(v) then Parsed(v as Int32) else OverflowFailure
  }

  function DigitChar(k: nat): (c: char)
    requires k < 10
    ensures IsDigit(c) && DigitValue(c) == k
  {
    ('0' as int + k) as char
  }

  /** The shortest decimal spelling of a natural number. */
  function NatText(n: nat): (t: string)
    ensures t != [] && AllDigits(t)
    decreases n
  {
    if n < 10 then [DigitChar(n)] else NatText(n / 10) + [DigitChar(n % 10)]
  }

  /** The canonical decimal spelling of any integer: a `-` for negatives, no `+`. */
  function DecimalText(v: int): string {
    if v < 0 then "-" + NatText(-v) else NatText(v)
  }

  /** `z` zero digits. */
  function Zeros(z: nat): (t: string)
    ensures |t| == z && AllDigits(t)
  {
    seq(z, _ => '0')
  }

  /** Any spelling `Int32.Parse` accepts: no sign, `+` or `-`, then any number
      of leading zeros, then the shortest decimal digits of `n`. */
  function Spelling(sign: string, z: nat, n: nat): string {
    sign + Padded(z, n)
  }

  /** The digits of `n` after `z` leading zeros. */
  function Padded(z: nat, n: nat): string {
    Zeros(z) + NatText(n)
  }

  /** The integer that a spelling with this sign and magnitude denotes. */
  function SignedValue(sign: string, n: nat): int {
    if sign == "-" then -(n as int) else n
  }

  /** Leading zeros do not change the value of a run of digits. */
  lemma {:induction false} ZerosValue(z: nat, d: string)
    requires AllDigits(d)
    ensures DigitsValue(Zeros(z) + d) == DigitsValue(d)
    decreases |d|, z
  {
    var s := Zeros(z) + d;
    if d == [] {
      assert s == Zeros(z);
      if z > 0 {
        assert s[..|s| - 1] == Zeros(z - 1) + [];
        ZerosValue(z - 1, []);
      }
    } else {
      assert s[..|s| - 1] == Zeros(z) + d[..|d| - 1];
      assert s[|s| - 1] == d[|d| - 1];
      ZerosValue(z, d[..|d| - 1]);
    }
  }

  /** The digits of a spelling, zeros included, evaluate to its magnitude. */
  lemma PaddedDigits(z: nat, n: nat)
    ensures var d := Padded(z, n);
            d != [] && AllDigits(d) && IsDigit(d[0]) && DigitsValue(d) == n
  {
    var d := Padded(z, n);
    assert forall i :: 0 <= i < |d| ==> d[i] == if i < z then Zeros(z)[i] else NatText(n)[i - z];
    ZerosValue(z, NatText(n));
    NatTextValue(n);
  }

  /** Characters that may occur in the text of a number. */
  predicate NumberChars(s: string) {
    forall i :: 0 <= i < |s| ==> IsDigit(s[i]) || s[i] == '+' || s[i] == '-'
  }

  /** A spelling is non-empty and made of digits and signs only. */
  lemma SpellingChars(sign: string, z: nat, n: nat)
    requires sign == "" || sign == "+" || sign == "-"
    ensures Spelling(sign, z, n) != [] && NumberChars(Spelling(sign, z, n))
  {
    var s := Spelling(sign, z, n);
    var d := Padded(z, n);
    PaddedDigits(z, n);
    forall i | |sign| <= i < |s|
      ensures IsDigit(s[i])
    {
      assert s[i] == d[i - |sign|];
    }
  }

  /** Every spelling `Int32.Parse` accepts gives its value back when that fits
      in 32 bits and an overflow failure otherwise, never a format failure:
      `+5`, `007` and `-0` parse as 5, 7 and 0. */
  lemma SpellingRoundTrip(sign: string, z: nat, n: nat)
    requires sign == "" || sign == "+" || sign == "-"
    ensures var v := SignedValue(sign, n);
            ParseInt32(Spelling(sign, z, n)) == if InInt32Range(v) then Parsed(v as Int32) else OverflowFailure
  {
    PaddedDigits(z, n);
    ParseSignedDigits(sign, Padded(z, n));
  }

  /** An optional sign followed by digits parses as their signed value, or
      overflows. */
  lemma ParseSignedDigits(sign: string, d: string)
    requires sign == "" || sign == "+" || sign == "-"
    requires d != [] && AllDigits(d)
    ensures var v := SignedValue(sign, DigitsValue(d));
            ParseInt32(sign + d) == if InInt32Range(v) then Parsed(v as Int32) else OverflowFailure
  {
    var s := sign + d;
    if sign == "" {
      assert s == d;
    } else {
      assert s[0] == sign[0] && s[1..] == d;
    }
  }

  lemma {:induction false} NatTextValue(n: nat)
    ensures DigitsValue(NatText(n)) == n
    decreases n
  {
    if n >= 10 {
      var t := NatText(n);
      assert t[..|t| - 1] == NatText(n / 10);
      NatTextValue(n / 10);
    }
  }

  /** Reading the decimal spelling of an integer gives that integer back when it
      fits in 32 bits, and an overflow failure (never a format failure) when it
      does not. */
  lemma DecimalRoundTrip(v: int)
    ensures ParseInt32(DecimalText(v)) == if InInt32Range(v) then Parsed(v as Int32) else OverflowFailure
  {
    var s := DecimalText(v);
    if v < 0 {
      assert s[1..] == NatText(-v);
      NatTextValue(-v);
    } else {
      assert IsDigit(s[0]);
      NatTextValue(v);
    }
  }
}
