/** The alias strings of src/parameter_extractor.cc and the parsers that undo them. */
module Rendering {
  import opened Memory
  import opened Text
  import opened Helpers
  import opened ParameterExtractor

  // ----- Character codes

  lemma {:induction false} CodesCons(b: Byte, bs: seq<Byte>)
    ensures Codes([b] + bs) == ToDecimal(b) + Codes(bs)
  {
    hide ToDecimal;
    if bs == [] {
      CodesSnoc([], b);
      assert [] + [b] == [b] + bs;
    } else {
      var init, last := bs[..|bs| - 1], bs[|bs| - 1];
      CodesCons(b, init);
      CodesSnoc([b] + init, last);
      CodesSnoc(init, last);
      assert init + [last] == bs && [b] + init + [last] == [b] + bs;
    }
  }

  /** Two-digit codes begin with 3 to 9 and three-digit ones with 1, so the first
      character tells where a code ends. */
  function DecodeCodes(s: string): Option<seq<Byte>>
    decreases |s|
  {
    if s == "" then Some([])
    else
      var n := if s[0] == '1' then 3 else 2;
      if |s| < n || !IsNumeral(s[..n], 10) || !(0 <= Numeral(s[..n], 10) < 0x100) then None
      else
        match DecodeCodes(s[n..])
        case None => None
        case Some(bs) => Some([Numeral(s[..n], 10)] + bs)
  }

  lemma CodeShape(b: Byte)
    requires IsPrintable(b)
    ensures var s := ToDecimal(b);
            && |s| == (if s[0] == '1' then 3 else 2)
            && IsNumeral(s, 10) && Numeral(s, 10) == b
  {
    hide Digits, Numeral, IsNumeral;
    NumeralOfDigits(b, 10);
    DigitsOfSmall(b);
  }

  lemma DigitsOfSmall(b: nat)
    requires 10 <= b < 1000
    ensures b < 100 ==> Digits(b, 10) == [DIGITS[b / 10], DIGITS[b % 10]]
    ensures b >= 100 ==> Digits(b, 10) == [DIGITS[b / 100], DIGITS[b / 10 % 10], DIGITS[b % 10]]
  {
    if b >= 100 {
      assert b / 10 / 10 == b / 100;
      assert Digits(b / 100, 10) == [DIGITS[b / 100]];
      assert Digits(b / 10, 10) == Digits(b / 100, 10) + [DIGITS[b / 10 % 10]];
    } else {
      assert Digits(b / 10, 10) == [DIGITS[b / 10]];
    }
  }

  /** The codes of printable characters, run together, decode to exactly those characters. */
  lemma {:induction false} CodesRoundTrip(bs: seq<Byte>)
    requires forall i :: 0 <= i < |bs| ==> IsPrintable(bs[i])
    ensures DecodeCodes(Codes(bs)) == Some(bs)
  {
    if bs != [] {
      CodesRoundTrip(bs[1..]);
      CodesCons(bs[0], bs[1..]);
      CodeShape(bs[0]);
      var code, s := ToDecimal(bs[0]), Codes(bs);
      assert [bs[0]] + bs[1..] == bs;
      assert s[0] == code[0] && s[..|code|] == code && s[|code|..] == Codes(bs[1..]);
    }
  }

  /** Distinct strings have distinct code strings. */
  lemma CodesInjective(bs: seq<Byte>, cs: seq<Byte>)
    requires forall i :: 0 <= i < |bs| ==> IsPrintable(bs[i])
    requires forall i :: 0 <= i < |cs| ==> IsPrintable(cs[i])
    ensures Codes(bs) == Codes(cs) ==> bs == cs
  {
    CodesRoundTrip(bs);
    CodesRoundTrip(cs);
  }

  // ----- Characters that occur

  lemma NumeralLacks(s: string, base: nat, c: char)
    requires IsNumeral(s, base) && CharValue(c) >= base
    ensures c !in s
  {
  }

  lemma {:induction false} JoinLacks(parts: seq<string>, sep: char, c: char)
    requires c != sep && forall i :: 0 <= i < |parts| ==> c !in parts[i]
    ensures c !in Join(parts, sep)
  {
    if |parts| > 1 {
      JoinLacks(parts[1..], sep, c);
    }
  }

  lemma DecimalLacks(i: int, c: char)
    requires CharValue(c) >= 10 && c != '-'
    ensures c !in ToDecimal(i)
  {
    NumeralOfDigits(if i < 0 then -i else i, 10);
    NumeralLacks(Digits(if i < 0 then -i else i, 10), 10, c);
  }

  lemma HexLacks(v: Word, c: char)
    requires CharValue(c) >= 16 && c != '*' && c != 'x'
    ensures c !in LongToHexString(v)
  {
    NumeralOfDigits(v, 16);
    NumeralLacks(Digits(v, 16), 16, c);
  }

  lemma NumbersLack(values: seq<int>, c: char)
    requires CharValue(c) >= 10 && c !in "-,[]"
    ensures c !in RenderNumbers(values)
  {
    forall i | 0 <= i < |values|
      ensures c !in DecimalsOf(values)[i]
    {
      DecimalLacks(values[i], c);
    }
    JoinLacks(DecimalsOf(values), ',', c);
  }

  lemma {:induction false} CodesLack(bs: seq<Byte>, c: char)
    requires CharValue(c) >= 10 && c != '-'
    ensures c !in Codes(bs)
  {
    if bs != [] {
      CodesLack(bs[..|bs| - 1], c);
      DecimalLacks(bs[|bs| - 1], c);
    }
  }

  // ----- Lists of numbers

  function ParseAllDecimals(parts: seq<string>): Option<seq<int>> {
    if parts == [] then Some([])
    else
      match (ParseDecimal(parts[0]), ParseAllDecimals(parts[1..]))
      case (Some(i), Some(rest)) => Some([i] + rest)
      case _ => None
  }

  function ParseNumbers(s: string): Option<seq<int>> {
    if s == "" then Some([])
    else if |s| >= 2 && s[0] == '[' && s[|s| - 1] == ']' then ParseAllDecimals(Split(s[1..|s| - 1], ','))
    else None
  }

  lemma {:induction false} ParseAllDecimalsOf(values: seq<int>)
    ensures ParseAllDecimals(DecimalsOf(values)) == Some(values)
  {
    hide ParseDecimal, ToDecimal;
    if values != [] {
      DecimalRoundTrip(values[0]);
      ParseAllDecimalsOf(values[1..]);
      assert DecimalsOf(values)[1..] == DecimalsOf(values[1..]);
      assert [values[0]] + values[1..] == values;
    }
  }

  lemma NumbersRoundTrip(values: seq<int>)
    ensures ParseNumbers(RenderNumbers(values)) == Some(values)
  {
    if values != [] {
      var parts := DecimalsOf(values);
      forall i | 0 <= i < |parts|
        ensures ',' !in parts[i]
      {
        DecimalLacks(values[i], ',');
      }
      SplitOfJoin(parts, ',');
      ParseAllDecimalsOf(values);
      var s := RenderNumbers(values);
      assert s[1..|s| - 1] == Join(parts, ',');
    }
  }

  // ----- Lists of entries

  /** An entry with the separator that the list puts after it. */
  function Tokens(entries: seq<string>): (tokens: seq<string>)
    ensures |tokens| == |entries|
  {
    seq(|entries|, i requires 0 <= i < |entries| => if i == |entries| - 1 then entries[i] else entries[i] + ",")
  }

  /** "[ e, e, e ]" */
  function RenderEntries(entries: seq<string>): string {
    Join(["["] + Tokens(entries) + ["]"], ' ')
  }

  /** The text of the list while its first `idx` entries are printed. */
  function PartialEntries(entries: seq<string>, idx: nat): string
    requires idx <= |entries|
  {
    Join(["["] + Tokens(entries)[..idx], ' ') + " "
  }

  lemma PartialEntriesEnds(entries: seq<string>)
    ensures PartialEntries(entries, 0) == "[ "
    ensures PartialEntries(entries, |entries|) + "]" == RenderEntries(entries)
  {
    assert ["["] + Tokens(entries)[..0] == ["["];
    assert Tokens(entries)[..|entries|] == Tokens(entries);
    JoinSnoc(["["] + Tokens(entries), ' ', "]");
  }

  lemma PartialEntriesStep(entries: seq<string>, idx: nat)
    requires idx < |entries|
    ensures PartialEntries(entries, idx + 1)
         == PartialEntries(entries, idx) + entries[idx] + if idx == |entries| - 1 then " " else ", "
  {
    var before := ["["] + Tokens(entries)[..idx];
    JoinSnoc(before, ' ', Tokens(entries)[idx]);
    assert ["["] + Tokens(entries)[..idx + 1] == before + [Tokens(entries)[idx]];
  }

  function StripCommas(tokens: seq<string>): Option<seq<string>> {
    if tokens == [] then Some([])
    else if |tokens| == 1 then Some(tokens)
    else
      var t := tokens[0];
      if t == "" || t[|t| - 1] != ',' then None
      else
        match StripCommas(tokens[1..])
        case None => None
        case Some(rest) => Some([t[..|t| - 1]] + rest)
  }

  function ParseEntries(s: string): Option<seq<string>> {
    var parts := Split(s, ' ');
    if |parts| >= 2 && parts[0] == "[" && parts[|parts| - 1] == "]" then StripCommas(parts[1..|parts| - 1]) else None
  }

  lemma {:induction false} StripCommasOfTokens(entries: seq<string>)
    ensures StripCommas(Tokens(entries)) == Some(entries)
  {
    if |entries| == 1 {
      assert Tokens(entries) == entries;
    } else if |entries| > 1 {
      StripCommasOfTokens(entries[1..]);
      assert Tokens(entries)[1..] == Tokens(entries[1..]);
      var t := Tokens(entries)[0];
      assert t == entries[0] + "," && t[..|t| - 1] == entries[0];
      assert [entries[0]] + entries[1..] == entries;
    }
  }

  /** The commas inside an entry never look like the ones between entries, because no
      space follows them. */
  lemma EntriesRoundTrip(entries: seq<string>)
    requires forall i :: 0 <= i < |entries| ==> ' ' !in entries[i]
    ensures ParseEntries(RenderEntries(entries)) == Some(entries)
  {
    var parts := ["["] + Tokens(entries) + ["]"];
    forall i | 0 <= i < |parts|
      ensures ' ' !in parts[i]
    {
      assert 0 < i < |parts| - 1 ==> parts[i] == Tokens(entries)[i - 1];
    }
    SplitOfJoin(parts, ' ');
    StripCommasOfTokens(entries);
    assert parts[1..|parts| - 1] == Tokens(entries);
  }

  /** "0xA=payload" */
  function RenderEntry(pointer: Word, payload: string): string {
    LongToHexString(pointer) + "=" + payload
  }

  function ParsePointer(s: string): Option<Word> {
    if |s| > 2 && s[..2] == "0x" && IsNumeral(s[2..], 16) && Numeral(s[2..], 16) < WORD_LIMIT
    then Some(Numeral(s[2..], 16)) else None
  }

  function ParseEntry(s: string): Option<(Word, string)> {
    var parts := Split(s, '=');
    if |parts| != 2 then None
    else
      match ParsePointer(parts[0])
      case None => None
      case Some(p) => Some((p, parts[1]))
  }

  lemma EntryRoundTrip(pointer: Word, payload: string)
    requires pointer != 0 && '=' !in payload
    ensures ParseEntry(RenderEntry(pointer, payload)) == Some((pointer, payload))
  {
    var hex := LongToHexString(pointer);
    HexLacks(pointer, '=');
    SplitFirst(hex, '=', payload);
    SplitNoSep(payload, '=');
    NumeralOfDigits(pointer, 16);
    assert hex[..2] == "0x" && hex[2..] == Digits(pointer, 16);
  }

  // ----- Alias strings

  function NumberEntries(pairs: seq<(Word, seq<int>)>): (es: seq<string>)
    ensures |es| == |pairs|
  {
    seq(|pairs|, i requires 0 <= i < |pairs| => RenderEntry(pairs[i].0, RenderNumbers(pairs[i].1)))
  }

  function ParseNumberEntries(entries: seq<string>): Option<seq<(Word, seq<int>)>> {
    if entries == [] then Some([])
    else
      match ParseEntry(entries[0])
      case None => None
      case Some((p, payload)) =>
        match (ParseNumbers(payload), ParseNumberEntries(entries[1..]))
        case (Some(values), Some(rest)) => Some([(p, values)] + rest)
        case _ => None
  }

  function ParseNumberAlias(s: string): Option<seq<(Word, seq<int>)>> {
    match ParseEntries(s)
    case None => None
    case Some(entries) => ParseNumberEntries(entries)
  }

  lemma {:induction false} ParseNumberEntriesOf(pairs: seq<(Word, seq<int>)>)
    requires forall i :: 0 <= i < |pairs| ==> pairs[i].0 != 0
    ensures ParseNumberEntries(NumberEntries(pairs)) == Some(pairs)
  {
    hide ParseEntry, ParseNumbers, RenderNumbers, RenderEntry;
    if pairs != [] {
      var (p, values) := pairs[0];
      NumbersLack(values, '=');
      EntryRoundTrip(p, RenderNumbers(values));
      NumbersRoundTrip(values);
      ParseNumberEntriesOf(pairs[1..]);
      assert NumberEntries(pairs)[1..] == NumberEntries(pairs[1..]);
      assert [pairs[0]] + pairs[1..] == pairs;
    }
  }

  /** The alias of a pointer to pointers to numbers parses back to the pointers and, for
      each of them, the numbers it leads to. */
  lemma NumberAliasRoundTrip(pairs: seq<(Word, seq<int>)>)
    requires forall i :: 0 <= i < |pairs| ==> pairs[i].0 != 0
    ensures ParseNumberAlias(RenderEntries(NumberEntries(pairs))) == Some(pairs)
  {
    forall i | 0 <= i < |pairs|
      ensures ' ' !in NumberEntries(pairs)[i]
    {
      HexLacks(pairs[i].0, ' ');
      NumbersLack(pairs[i].1, ' ');
    }
    EntriesRoundTrip(NumberEntries(pairs));
    ParseNumberEntriesOf(pairs);
  }

  function StringEntries(pairs: seq<(Word, seq<Byte>)>): (es: seq<string>)
    ensures |es| == |pairs|
  {
    seq(|pairs|, i requires 0 <= i < |pairs| => RenderEntry(pairs[i].0, Codes(pairs[i].1)))
  }

  function ParseStringEntries(entries: seq<string>): Option<seq<(Word, seq<Byte>)>> {
    if entries == [] then Some([])
    else
      match ParseEntry(entries[0])
      case None => None
      case Some((p, payload)) =>
        match (DecodeCodes(payload), ParseStringEntries(entries[1..]))
        case (Some(bs), Some(rest)) => Some([(p, bs)] + rest)
        case _ => None
  }

  function ParseStringAlias(s: string): Option<seq<(Word, seq<Byte>)>> {
    match ParseEntries(s)
    case None => None
    case Some(entries) => ParseStringEntries(entries)
  }

  ghost predicate PrintablePairs(pairs: seq<(Word, seq<Byte>)>) {
    forall i :: 0 <= i < |pairs| ==>
      pairs[i].0 != 0 && forall j :: 0 <= j < |pairs[i].1| ==> IsPrintable(pairs[i].1[j])
  }

  lemma {:induction false} ParseStringEntriesOf(pairs: seq<(Word, seq<Byte>)>)
    requires PrintablePairs(pairs)
    ensures ParseStringEntries(StringEntries(pairs)) == Some(pairs)
  {
    hide ParseEntry, DecodeCodes, Codes, RenderEntry;
    if pairs != [] {
      var (p, bs) := pairs[0];
      CodesLack(bs, '=');
      EntryRoundTrip(p, Codes(bs));
      CodesRoundTrip(bs);
      ParseStringEntriesOf(pairs[1..]);
      assert StringEntries(pairs)[1..] == StringEntries(pairs[1..]);
      assert [pairs[0]] + pairs[1..] == pairs;
    }
  }

  /** The alias of a pointer to strings parses back to the pointers and the strings. */
  lemma StringAliasRoundTrip(pairs: seq<(Word, seq<Byte>)>)
    requires PrintablePairs(pairs)
    ensures ParseStringAlias(RenderEntries(StringEntries(pairs))) == Some(pairs)
  {
    forall i | 0 <= i < |pairs|
      ensures ' ' !in StringEntries(pairs)[i]
    {
      HexLacks(pairs[i].0, ' ');
      CodesLack(pairs[i].1, ' ');
    }
    EntriesRoundTrip(StringEntries(pairs));
    ParseStringEntriesOf(pairs);
  }
}
