/** src/helpers.cc: hexadecimal rendering, and the `std::stol` that reads it back. */
module Helpers {
  import opened Memory
  import opened Text

  /** Zero is printed "*0x0", everything else in hexadecimal without leading zeros. */
  function LongToHexString(value: Word): string {
    if value == 0 then "*0x0" else "0x" + Digits(value, 16)
  }

  lemma PowersOf16()
    ensures Power(16, 7) == 0x1000_0000 && Power(16, 8) == 0x1_0000_0000
    ensures Power(16, 15) == 0x1000_0000_0000_0000 && Power(16, 16) == WORD_LIMIT
  {
    assert Power(16, 4) == 0x1_0000;
    assert Power(16, 7) == 16 * (16 * (16 * Power(16, 4)));
    assert Power(16, 11) == 16 * (16 * (16 * (16 * Power(16, 7))));
    assert Power(16, 15) == 16 * (16 * (16 * (16 * Power(16, 11))));
  }

  /** The string lengths the number scan tests for are numeric ranges. */
  lemma HexLength(value: Word)
    ensures |LongToHexString(value)| <= 18
    ensures |LongToHexString(value)| == 18 <==> value >= 0x1000_0000_0000_0000
    ensures |LongToHexString(value)| == 10 <==> 0x1000_0000 <= value < 0x1_0000_0000
  {
    PowersOf16();
    DigitsLength(value, 16, 7);
    DigitsLength(value, 16, 8);
    DigitsLength(value, 16, 15);
    DigitsLength(value, 16, 16);
  }

  // ----- std::stol(s, nullptr, 0)

  predicate IsSpace(c: char) {
    c == ' ' || '\t' <= c <= '\r'
  }

  function SkipSpaces(s: string): string {
    if s != "" && IsSpace(s[0]) then SkipSpaces(s[1..]) else s
  }

  /** The longest prefix of `s` made of digits. */
  function DigitPrefix(s: string, base: nat): (p: string)
    ensures IsNumeral(p, base)
  {
    if s != "" && IsDigit(s[0], base) then [s[0]] + DigitPrefix(s[1..], base) else ""
  }

  /** The magnitude after the sign, in the base its prefix chooses. */
  function StolMagnitude(s: string): Option<nat> {
    if |s| > 2 && s[0] == '0' && (s[1] == 'x' || s[1] == 'X') && IsDigit(s[2], 16) then
      Some(Numeral(DigitPrefix(s[2..], 16), 16))
    else
      var base := if s != "" && s[0] == '0' then 8 else 10;
      var digits := DigitPrefix(s, base);
      if digits == "" then None else Some(Numeral(digits, base))
  }

  /** None where the library throws `invalid_argument` or `out_of_range`. */
  function StolBase0(s: string): Option<int> {
    var t := SkipSpaces(s);
    var negative := t != "" && t[0] == '-';
    var body := if t != "" && (t[0] == '-' || t[0] == '+') then t[1..] else t;
    match StolMagnitude(body)
    case None => None
    case Some(m) =>
      var magnitude: int := m;
      var i := if negative then -magnitude else magnitude;
      if -0x8000_0000_0000_0000 <= i < 0x8000_0000_0000_0000 then Some(i) else None
  }

  lemma {:induction false} DigitPrefixOfNumeral(s: string, base: nat)
    requires IsNumeral(s, base)
    ensures DigitPrefix(s, base) == s
  {
    if s != "" {
      assert IsDigit(s[0], base);
      assert IsNumeral(s[1..], base) by {
        forall i | 0 <= i < |s[1..]|
          ensures IsDigit(s[1..][i], base)
        {
          assert s[1..][i] == s[i + 1];
        }
      }
      DigitPrefixOfNumeral(s[1..], base);
    }
  }

  /** A printed value is read back exactly when it is a positive `long`: zero prints
      something that is no number, and a negative value prints as one out of range. */
  lemma HexRoundTrip(value: Word)
    ensures StolBase0(LongToHexString(value)) ==
            if 0 < value < 0x8000_0000_0000_0000 then Some(value) else None
  {
    var s := LongToHexString(value);
    assert SkipSpaces(s) == s;
    if value != 0 {
      var digits := Digits(value, 16);
      NumeralOfDigits(value, 16);
      assert IsDigit(digits[0], 16) && s[2] == digits[0] && s[2..] == digits;
      DigitPrefixOfNumeral(digits, 16);
      assert StolMagnitude(s) == Some(value);
    } else {
      assert DigitPrefix(s, 10) == "";
    }
  }

  lemma HexInjective(v: Word, w: Word)
    requires LongToHexString(v) == LongToHexString(w)
    ensures v == w
  {
    if v != 0 && w != 0 {
      NumeralOfDigits(v, 16);
      NumeralOfDigits(w, 16);
      assert LongToHexString(v)[2..] == Digits(v, 16) && LongToHexString(w)[2..] == Digits(w, 16);
    } else {
      assert LongToHexString(0)[0] == '*';
    }
  }
}
