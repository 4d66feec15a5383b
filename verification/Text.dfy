/** Strings: numerals, splitting and joining. */
module Text {

  datatype Option<+T> = None | Some(value: T)

  // ----- Numerals

  const DIGITS: string := "0123456789abcdef"

  function Quotient(n: nat, base: nat): nat
    requires base > 0
  {
    n / base
  }

  function Remainder(n: nat, base: nat): nat
    requires base > 0
  {
    n % base
  }

  /** `v` with the digit `d` appended. */
  function Shift(v: nat, d: nat, base: nat): nat {
    base * v + d
  }

  lemma MulMonotonic(a: nat, x: nat, y: nat)
    requires x <= y
    ensures a * x <= a * y
  {
  }

  lemma QuotientSmall(n: nat, base: nat, q: nat, r: nat)
    requires n == base * q + r && r < base
    ensures base >= 2 && n > 0 ==> q < n
    ensures n < base ==> q == 0
  {
    if q > 0 {
      MulMonotonic(base, 1, q);
    }
    if base >= 2 && q > 0 {
      MulMonotonic(q, 2, base);
      assert q * 2 <= q * base == base * q <= n;
    }
  }

  lemma ShiftDivides(n: nat, base: nat)
    requires base > 0
    ensures Remainder(n, base) < base && Shift(Quotient(n, base), Remainder(n, base), base) == n
    ensures base >= 2 && n > 0 ==> Quotient(n, base) < n
    ensures n < base ==> Quotient(n, base) == 0
  {
    QuotientSmall(n, base, n / base, n % base);
  }

  function Power(base: nat, n: nat): nat {
    if n == 0 then 1 else base * Power(base, n - 1)
  }

  function Digits(n: nat, base: nat): (s: string)
    requires 2 <= base <= 16
    ensures |s| > 0
  {
    ShiftDivides(n, base);
    if n < base then [DIGITS[n]] else Digits(Quotient(n, base), base) + [DIGITS[Remainder(n, base)]]
  }

  /** The value of `c` as a digit, or 16 if it is none. */
  function CharValue(c: char): nat {
    if '0' <= c <= '9' then (c - '0') as nat
    else if 'a' <= c <= 'f' then 10 + (c - 'a') as nat
    else if 'A' <= c <= 'F' then 10 + (c - 'A') as nat
    else 16
  }

  predicate IsDigit(c: char, base: nat) {
    CharValue(c) < base
  }

  predicate IsNumeral(s: string, base: nat) {
    forall i :: 0 <= i < |s| ==> IsDigit(s[i], base)
  }

  function Numeral(s: string, base: nat): nat
    requires IsNumeral(s, base)
  {
    if s == "" then 0
    else Shift(Numeral(s[..|s| - 1], base), CharValue(s[|s| - 1]), base)
  }

  lemma DigitOf(d: nat)
    requires d < 16
    ensures CharValue(DIGITS[d]) == d
  {
  }

  lemma NumeralSnoc(s: string, c: char, base: nat)
    requires IsNumeral(s, base) && IsDigit(c, base)
    ensures IsNumeral(s + [c], base) && Numeral(s + [c], base) == Shift(Numeral(s, base), CharValue(c), base)
  {
    assert (s + [c])[..|s|] == s;
  }

  /** Reading a printed number gives it back. */
  lemma {:induction false} NumeralOfDigits(n: nat, base: nat)
    requires 2 <= base <= 16
    ensures IsNumeral(Digits(n, base), base) && Numeral(Digits(n, base), base) == n
  {
    hide Quotient, Remainder, Shift;
    ShiftDivides(n, base);
    if n < base {
      DigitOf(n);
      assert Digits(n, base)[..0] == "";
      ShiftZero(n, base);
    } else {
      var q, r := Quotient(n, base), Remainder(n, base);
      NumeralOfDigits(q, base);
      DigitOf(r);
      NumeralSnoc(Digits(q, base), DIGITS[r], base);
    }
  }

  lemma ShiftZero(d: nat, base: nat)
    ensures Shift(0, d, base) == d
  {
  }

  lemma QuotientBelow(n: nat, base: nat, p: nat)
    requires base > 0
    ensures Quotient(n, base) < p <==> n < base * p
  {
    var q := n / base;
    ShiftDivides(n, base);
    if q < p {
      MulMonotonic(base, q + 1, p);
    } else {
      MulMonotonic(base, p, q);
    }
  }

  /** A number has at most k digits exactly when it is below base^k. */
  lemma {:induction false} DigitsLength(n: nat, base: nat, k: nat)
    requires 2 <= base <= 16 && k > 0
    ensures |Digits(n, base)| <= k <==> n < Power(base, k)
    decreases k
  {
    hide Quotient, Remainder;
    ShiftDivides(n, base);
    if k == 1 {
      assert Power(base, 1) == base * Power(base, 0) == base;
    } else {
      var q := Quotient(n, base);
      DigitsLength(q, base, k - 1);
      QuotientBelow(n, base, Power(base, k - 1));
      if n < base {
        assert |Digits(q, base)| == 1;
      }
    }
  }

  // ----- Signed decimals

  /** `std::to_string` */
  function ToDecimal(i: int): string {
    if i < 0 then "-" + Digits(-i, 10) else Digits(i, 10)
  }

  function ParseDecimal(s: string): Option<int> {
    if |s| > 0 && s[0] == '-' && IsNumeral(s[1..], 10) then
      var v: int := Numeral(s[1..], 10);
      Some(-v)
    else if IsNumeral(s, 10) then
      var v: int := Numeral(s, 10);
      Some(v)
    else None
  }

  lemma DecimalRoundTrip(i: int)
    ensures ParseDecimal(ToDecimal(i)) == Some(i)
  {
    NumeralOfDigits(if i < 0 then -i else i, 10);
    if i >= 0 {
      assert IsDigit(ToDecimal(i)[0], 10);
    }
  }

  // ----- Splitting and joining

  function Join(parts: seq<string>, sep: char): string {
    if |parts| == 0 then ""
    else if |parts| == 1 then parts[0]
    else parts[0] + [sep] + Join(parts[1..], sep)
  }

  function Split(s: string, sep: char): (parts: seq<string>)
    ensures |parts| > 0
  {
    if s == "" then [""]
    else
      var rest := Split(s[1..], sep);
      if s[0] == sep then [""] + rest else [[s[0]] + rest[0]] + rest[1..]
  }

  lemma {:induction false} SplitNoSep(s: string, sep: char)
    requires sep !in s
    ensures Split(s, sep) == [s]
  {
    if s != "" {
      SplitNoSep(s[1..], sep);
      assert [s[0]] + s[1..] == s;
    }
  }

  lemma {:induction false} SplitFirst(s: string, sep: char, t: string)
    requires sep !in s
    ensures Split(s + [sep] + t, sep) == [s] + Split(t, sep)
  {
    var whole := s + [sep] + t;
    if s == "" {
      assert whole[1..] == t;
    } else {
      SplitFirst(s[1..], sep, t);
      assert whole[1..] == s[1..] + [sep] + t;
      assert [s[0]] + s[1..] == s;
      assert ([s[1..]] + Split(t, sep))[1..] == Split(t, sep);
    }
  }

  /** Splitting undoes joining when no part contains the separator. */
  lemma {:induction false} SplitOfJoin(parts: seq<string>, sep: char)
    requires |parts| > 0 && forall i :: 0 <= i < |parts| ==> sep !in parts[i]
    ensures Split(Join(parts, sep), sep) == parts
  {
    if |parts| == 1 {
      SplitNoSep(parts[0], sep);
    } else {
      SplitOfJoin(parts[1..], sep);
      SplitFirst(parts[0], sep, Join(parts[1..], sep));
    }
  }

  lemma {:induction false} JoinSnoc(parts: seq<string>, sep: char, last: string)
    requires |parts| > 0
    ensures Join(parts + [last], sep) == Join(parts, sep) + [sep] + last
  {
    if |parts| > 1 {
      JoinSnoc(parts[1..], sep, last);
      assert (parts + [last])[1..] == parts[1..] + [last];
    }
  }

  predicate IsAt(data: string, i: int, search: string)
    requires 0 <= i <= |data| - |search|
  {
    data[i..i + |search|] == search
  }

  /** `contains_string`: `data.find(search) != npos`. */
  predicate Contains(data: string, search: string) {
    exists i :: 0 <= i <= |data| - |search| && IsAt(data, i, search)
  }

  lemma ContainsIff(data: string, search: string)
    ensures Contains(data, search) <==> exists before: string, after: string :: data == before + search + after
  {
    if i :| 0 <= i <= |data| - |search| && IsAt(data, i, search) {
      assert data == data[..i] + search + data[i + |search|..];
    }
    if before: string, after: string :| data == before + search + after {
      assert IsAt(data, |before|, search);
    }
  }
}
