/** src/compile_unit.cc: what the report says about one argument, shape by shape. */
module Arguments {
  import opened Memory
  import opened Text
  import opened Helpers
  import opened Common
  import opened ParameterExtractor
  import opened Rendering
  import opened ParameterValues
  import opened TypeChain
  import opened TypeNames
  import opened Payload
  import Cpu

  // ----- The shape of a type

  /** The shape counts the levels of pointers and arrays and looks for a structure. */
  lemma {:induction false} ShapeCounts(tags: seq<Tag>, dtName: string)
    ensures ShapeOf(tags, dtName).variadic <==> UnspecifiedParameters in tags
    ensures UnspecifiedParameters !in tags ==>
              && ShapeOf(tags, dtName).pointers == multiset(tags)[PointerType] + multiset(tags)[ArrayType]
              && (ShapeOf(tags, dtName).complex <==> StructureType in tags)
  {
    hide IsStringValue, IsNumberValue;
    if tags != [] {
      var init := tags[..|tags| - 1];
      ShapeCounts(init, dtName);
      assert tags == init + [tags[|tags| - 1]];
    }
  }

  /** What the name of a type with a base type says. */
  function NamedKind(dtName: string): Kind {
    if IsStringValue(dtName) then Text else if IsNumberValue(dtName) then Number else NoKind
  }

  predicate SetsKind(tag: Tag, dtName: string) {
    tag == StructureType || (tag == BaseType && NamedKind(dtName) != NoKind)
  }

  /** The last tag that says anything about the kind is at position `j`. */
  ghost predicate LastSets(tags: seq<Tag>, dtName: string, j: nat) {
    && j < |tags| && SetsKind(tags[j], dtName)
    && forall k :: j < k < |tags| ==> !SetsKind(tags[k], dtName)
  }

  /** What one tag does to the kind. */
  lemma KindStep(s: Shape, tag: Tag, dtName: string)
    requires tag != UnspecifiedParameters
    ensures ShapeStep(s, tag, dtName).kind ==
            if !SetsKind(tag, dtName) then s.kind else if tag == StructureType then Structure else NamedKind(dtName)
  {
    hide IsStringValue, IsNumberValue;
  }

  /** No tag says anything about the kind: there is none. */
  lemma {:induction false} NoShapeKind(tags: seq<Tag>, dtName: string)
    requires UnspecifiedParameters !in tags && forall j :: 0 <= j < |tags| ==> !SetsKind(tags[j], dtName)
    ensures ShapeOf(tags, dtName).kind == NoKind
  {
    hide ShapeStep, SetsKind;
    if tags != [] {
      var init, n := tags[..|tags| - 1], |tags| - 1;
      assert forall j :: 0 <= j < n ==> init[j] == tags[j];
      NoShapeKind(init, dtName);
      KindStep(ShapeOf(init, dtName), tags[n], dtName);
    }
  }

  /** Otherwise the last tag that does decides: a structure, or what the name of the type says. */
  lemma {:induction false} ShapeKind(tags: seq<Tag>, dtName: string, j: nat)
    requires UnspecifiedParameters !in tags && LastSets(tags, dtName, j)
    ensures ShapeOf(tags, dtName).kind == if tags[j] == StructureType then Structure else NamedKind(dtName)
  {
    hide ShapeStep, SetsKind;
    var init, n := tags[..|tags| - 1], |tags| - 1;
    assert forall k :: 0 <= k < n ==> init[k] == tags[k];
    ShapeCounts(init, dtName);
    KindStep(ShapeOf(init, dtName), tags[n], dtName);
    if j < n {
      ShapeKind(init, dtName, j);
    }
  }

  /** Without an unspecified parameter a structure is complex. */
  lemma {:induction false} StructureIsComplex(tags: seq<Tag>, dtName: string)
    ensures !ShapeOf(tags, dtName).variadic && ShapeOf(tags, dtName).kind == Structure ==> ShapeOf(tags, dtName).complex
  {
    hide IsStringValue, IsNumberValue;
    if tags != [] {
      StructureIsComplex(tags[..|tags| - 1], dtName);
    }
  }

  /** `part` occurs in `whole` at position `j`. */
  predicate OccursAt(whole: string, part: string, j: nat) {
    j + |part| <= |whole| && forall k :: 0 <= k < |part| ==> part[k] == whole[j + k]
  }

  lemma ContainsPart(data: string, whole: string, part: string, j: nat)
    requires OccursAt(whole, part, j) && Contains(data, whole)
    ensures Contains(data, part)
  {
    var i :| 0 <= i <= |data| - |whole| && IsAt(data, i, whole);
    var found := data[i + j..i + j + |part|];
    forall k | 0 <= k < |part|
      ensures found[k] == part[k]
    {
      assert whole[j + k] == data[i..i + |whole|][j + k];
    }
    assert found == part;
    assert IsAt(data, i + j, part);
  }

  lemma ContainsOneOf(name: string, types: seq<string>, i: nat)
    requires i < |types| && Contains(name, types[i])
    ensures ContainsAny(name, types)
  {
  }

  /** Of the three names of character types the shortest decides. */
  lemma StringNames(name: string)
    ensures IsStringValue(name) <==> Contains(name, "char")
  {
    hide Contains;
    if IsStringValue(name) {
      var i :| 0 <= i < |STRING_TYPES| && Contains(name, STRING_TYPES[i]);
      ContainsPart(name, STRING_TYPES[i], "char", [7, 0, 9][i]);
    }
    if Contains(name, "char") {
      ContainsOneOf(name, STRING_TYPES, 1);
    }
  }

  const BASIC_NUMBERS: seq<string> := ["short", "bool", "int", "long", "float", "double", "signed"]

  /** Of the nineteen names of number types seven decide. */
  lemma NumberNames(name: string)
    ensures IsNumberValue(name) <==> ContainsAny(name, BASIC_NUMBERS)
  {
    hide Contains;
    if IsNumberValue(name) {
      var i :| 0 <= i < |NUMBER_TYPES| && Contains(name, NUMBER_TYPES[i]);
      NumberNameAt(name, i);
    }
    if ContainsAny(name, BASIC_NUMBERS) {
      var i :| 0 <= i < |BASIC_NUMBERS| && Contains(name, BASIC_NUMBERS[i]);
      var k := [0, 1, 2, 3, 4, 5, 16][i];
      assert NUMBER_TYPES[k] == BASIC_NUMBERS[i];
      ContainsOneOf(name, NUMBER_TYPES, k);
    }
  }

  /** The basic name in each of them, and where it begins. */
  const BASIC_PARTS: seq<(nat, nat)> := [
    (0, 0), (1, 0), (2, 0),
    (3, 0), (4, 0), (5, 0),
    (3, 0), (3, 0), (6, 2),
    (6, 0), (6, 0), (6, 0),
    (6, 0), (3, 0), (3, 0),
    (6, 2), (6, 0), (3, 0),
    (6, 2)]

  lemma PartOccurs(i: nat)
    requires i < |NUMBER_TYPES|
    ensures var (basic, at) := BASIC_PARTS[i];
            basic < |BASIC_NUMBERS| && OccursAt(NUMBER_TYPES[i], BASIC_NUMBERS[basic], at)
  {
  }

  lemma NumberNameAt(name: string, i: nat)
    requires i < |NUMBER_TYPES| && Contains(name, NUMBER_TYPES[i])
    ensures ContainsAny(name, BASIC_NUMBERS)
  {
    hide Contains, OccursAt;
    var (basic, at) := BASIC_PARTS[i];
    PartOccurs(i);
    ContainsPart(name, NUMBER_TYPES[i], BASIC_NUMBERS[basic], at);
    ContainsOneOf(name, BASIC_NUMBERS, basic);
  }

  /** Characters come before numbers, as in "signed char". */
  lemma KindOfName(name: string)
    ensures NamedKind(name) == Text <==> Contains(name, "char")
    ensures NamedKind(name) == Number
       <==> !Contains(name, "char")
            && (Contains(name, "short") || Contains(name, "bool") || Contains(name, "int") || Contains(name, "long")
                || Contains(name, "float") || Contains(name, "double") || Contains(name, "signed"))
  {
    hide Contains, IsStringValue, IsNumberValue, ContainsAny;
    StringNames(name);
    NumberNames(name);
    AnyOfSeven(name);
  }

  lemma AnyOfSeven(name: string)
    ensures ContainsAny(name, BASIC_NUMBERS)
       <==> Contains(name, "short") || Contains(name, "bool") || Contains(name, "int") || Contains(name, "long")
            || Contains(name, "float") || Contains(name, "double") || Contains(name, "signed")
  {
    hide Contains;
    assert BASIC_NUMBERS[0] == "short" && BASIC_NUMBERS[1] == "bool" && BASIC_NUMBERS[2] == "int";
    assert BASIC_NUMBERS[3] == "long" && BASIC_NUMBERS[4] == "float" && BASIC_NUMBERS[5] == "double";
    assert BASIC_NUMBERS[6] == "signed";
    if ContainsAny(name, BASIC_NUMBERS) {
      var i :| 0 <= i < |BASIC_NUMBERS| && Contains(name, BASIC_NUMBERS[i]);
      assert BASIC_NUMBERS[i] in {"short", "bool", "int", "long", "float", "double", "signed"};
    }
    forall i: nat | i < 7 && Contains(name, BASIC_NUMBERS[i])
      ensures ContainsAny(name, BASIC_NUMBERS)
    {
      ContainsOneOf(name, BASIC_NUMBERS, i);
    }
  }

  // ----- Where the values come from

  /** The register of argument number `i`, from 0: rdi, rsi, rdx, rcx, r8 and r9, by the
      numbers that x86-64 gives them. */
  function ValueOf(regs: Cpu.Regs, i: nat): Word
    requires i < 6
  {
    match i
    case 0 => regs[7]
    case 1 => regs[6]
    case 2 => regs[2]
    case 3 => regs[1]
    case 4 => regs[8]
    case 5 => regs[9]
  }

  /** What the type of a parameter says, before its value is printed. */
  function TypedParam(dts: seq<DataType>, param: DataType): Param {
    WithMetadata(dts, param, FreshParam(param))
  }

  function ShapeOfParam(dts: seq<DataType>, param: DataType): Shape {
    ShapeOf(TypedParam(dts, param).datatypes, TypedParam(dts, param).dtName)
  }

  /** Each of the first six arguments depends on its own register alone, and the later ones on
      no register and no memory. */
  lemma ArgumentsUseTheirRegisters(dts: seq<DataType>, param: DataType, regs: Cpu.Regs, regs': Cpu.Regs,
                                   mem: Mem, mem': Mem, i: nat)
    requires i < 6 ==> ValueOf(regs, i) == ValueOf(regs', i) && mem == mem'
    ensures Reported(dts, param, regs, mem, i) == Reported(dts, param, regs', mem', i)
    ensures ArgumentEnding(dts, param, regs, mem, i) == ArgumentEnding(dts, param, regs', mem', i)
  {
    hide Valued, WithMetadata, ComplexEnding, ByValueEnding, IsByValueStructure;
  }

  // ----- Values that are not followed

  /** A number or a character is reported as the signed decimal value of its register: rdi,
      rsi, rdx, rcx, r8 and r9 in this order. */
  lemma PlainArgument(dts: seq<DataType>, param: DataType, regs: Cpu.Regs, mem: Mem, i: nat)
    requires i < 6
    requires ShapeOfParam(dts, param) == Shape(0, Number, false, false)
          || ShapeOfParam(dts, param) == Shape(0, Text, false, false)
    ensures var p := Reported(dts, param, regs, mem, i);
            && p.valueAlias == ""
            && (i == 0 ==> ParseDecimal(p.value) == Some(Int64(regs[7])))
            && (i == 1 ==> ParseDecimal(p.value) == Some(Int64(regs[6])))
            && (i == 2 ==> ParseDecimal(p.value) == Some(Int64(regs[2])))
            && (i == 3 ==> ParseDecimal(p.value) == Some(Int64(regs[1])))
            && (i == 4 ==> ParseDecimal(p.value) == Some(Int64(regs[8])))
            && (i == 5 ==> ParseDecimal(p.value) == Some(Int64(regs[9])))
  {
    hide WithMetadata, ShapeOf, Int64, ToDecimal, ParseDecimal;
    FreshAlias(dts, param);
    DecimalRoundTrip(Int64(ValueOf(regs, i)));
  }

  /** The decimal value stands for the 64 bits of the register and no others. */
  lemma SignedValue(v: Word)
    ensures -0x8000_0000_0000_0000 <= Int64(v) < 0x8000_0000_0000_0000 && Wrap(Int64(v)) == v
    ensures -0x8000_0000 <= Int32(v) < 0x8000_0000 && Wrap(Int32(v)) % 0x1_0000_0000 == v % 0x1_0000_0000
  {
  }

  /** A value of no known kind is not printed, a variable argument list and a structure passed
      by value only as dots, and an argument without a register not at all. */
  lemma OtherArgument(dts: seq<DataType>, param: DataType, regs: Cpu.Regs, mem: Mem, i: nat)
    ensures var p, s := Reported(dts, param, regs, mem, i), ShapeOfParam(dts, param);
            && (i >= 6 ==> p == TypedParam(dts, param) && p.value == "" && p.valueAlias == "")
            && (i < 6 && s.variadic ==> p.value == "..." && p.valueAlias == "")
            && (i < 6 && !s.variadic && s.pointers == 0 && s.kind == NoKind
                ==> p.value == "unknown" && p.valueAlias == "")
            && (i < 6 && !s.variadic && s.pointers == 0 && s.kind == Structure
                ==> p.value == "..." && p.valueAlias == "")
  {
    hide ShapeOf, PointerValued, NameAlong, WholeChain;
    FreshAlias(dts, param);
  }

  lemma PointerReadsBack(v: Word)
    requires v != 0
    ensures ParsePointer(LongToHexString(v)) == Some(v)
  {
    NumeralOfDigits(v, 16);
    assert LongToHexString(v)[..2] == "0x" && LongToHexString(v)[2..] == Digits(v, 16);
  }

  /** A pointer of -1 and a pointer to a zero word are marked as such and followed no further. */
  ghost predicate PointerMarked(p: Param, mem: Mem, v: Word) {
    && (v == ALL_ONES ==> ParsePointer(p.value) == Some(v) && p.valueAlias == "-1")
    && (v != ALL_ONES && PeekData(mem, v) == 0 ==>
          && p.valueAlias == "NULL"
          && if v == 0 then p.value == "*0x0" else ParsePointer(p.value) == Some(v))
  }

  predicate IsFollowed(mem: Mem, v: Word) {
    v != ALL_ONES && PeekData(mem, v) != 0
  }

  lemma MarkedPointer(p: Param, mem: Mem, v: Word, s: Shape)
    requires p.value == LongToHexString(v)
    ensures PointerMarked(PointerValued(p, mem, v, s), mem, v)
  {
    hide PeekData, LongToHexString, WithNumber, WithString, WithNumbers, WithStrings, ParsePointer;
    SpecialPointers(v);
    NullText();
    if v != 0 {
      PointerReadsBack(v);
    }
  }

  /** The distance of the numbers that a pointer leads to: the size of the type that the chain
      of the parameter ends in, or four bytes if that has none. */
  function SlotSize(dts: seq<DataType>, param: DataType): (n: nat) {
    var c := WholeChain(dts, param.typ);
    if c == [] || dts[c[|c| - 1]].byteSize == 0 then 4 else dts[c[|c| - 1]].byteSize
  }

  /** A parameter gets the size of the last type on its chain. */
  lemma SizeIsLast(dts: seq<DataType>, param: DataType)
    ensures var c := WholeChain(dts, param.typ);
            TypedParam(dts, param).byteSize == if c == [] then 0 else dts[c[|c| - 1]].byteSize
  {
    hide NameAlong, WholeChain;
  }

  lemma SlotSizeIsStride(dts: seq<DataType>, param: DataType)
    ensures SlotSize(dts, param) == Stride(TypedParam(dts, param).byteSize)
  {
    hide NameAlong, WholeChain;
    SizeIsLast(dts, param);
  }

  /** A pointer to numbers is reported as its register in hexadecimal and the numbers it leads
      to; a null pointer as "0x0", with nothing. */
  lemma NumberPointerArgument(dts: seq<DataType>, param: DataType, regs: Cpu.Regs, mem: Mem, i: nat)
    requires i < 6 && ShapeOfParam(dts, param) == Shape(1, Number, false, false)
    ensures var p, v := Reported(dts, param, regs, mem, i), ValueOf(regs, i);
            && PointerMarked(p, mem, v)
            && (IsFollowed(mem, v) && v == 0 ==> p.value == "0x0" && p.valueAlias == "")
            && (IsFollowed(mem, v) && v != 0 ==>
                  && ParsePointer(p.value) == Some(v)
                  && ParseNumbers(p.valueAlias).Some?
                  && ListsNumbers(mem, v, SlotSize(dts, param), ParseNumbers(p.valueAlias).value))
  {
    hide WithMetadata, ShapeOf, PeekData, Numbers, LongToHexString;
    hide ParsePointer, ParseNumbers, RenderNumbers, PointerMarked, ListsNumbers, SlotSize;
    var q, v := TypedParam(dts, param), ValueOf(regs, i);
    var p := q.(isComplex := false, value := LongToHexString(v));
    MarkedPointer(p, mem, v, Shape(1, Number, false, false));
    SpecialPointers(v);
    NumbersRoundTrip(Numbers(mem, v, Stride(q.byteSize)));
    SlotSizeIsStride(dts, param);
    NumbersAreListed(mem, v, Stride(q.byteSize));
    if v != 0 {
      PointerReadsBack(v);
    }
    FreshAlias(dts, param);
  }

  lemma FreshAlias(dts: seq<DataType>, param: DataType)
    ensures TypedParam(dts, param).valueAlias == "" && !TypedParam(dts, param).isComplex
  {
  }

  /** A pointer to characters is reported as its register in hexadecimal, "*0x0" for null, and
      codes that decode to the printable bytes the word scan finds there. */
  lemma TextPointerArgument(dts: seq<DataType>, param: DataType, regs: Cpu.Regs, mem: Mem, i: nat)
    requires i < 6 && ShapeOfParam(dts, param) == Shape(1, Text, false, false)
    ensures var p, v := Reported(dts, param, regs, mem, i), ValueOf(regs, i);
            && PointerMarked(p, mem, v)
            && (IsFollowed(mem, v) ==>
                  && (if v == 0 then p.value == "*0x0" else ParsePointer(p.value) == Some(v))
                  && DecodeCodes(p.valueAlias).Some? && ListsText(mem, v, DecodeCodes(p.valueAlias).value))
  {
    hide WithMetadata, ShapeOf, PeekData, StringAt, Codes, DecodeCodes, LongToHexString, ParsePointer, PointerMarked;
    hide ListsText;
    var q, v := TypedParam(dts, param), ValueOf(regs, i);
    var p := q.(isComplex := false, value := LongToHexString(v));
    MarkedPointer(p, mem, v, Shape(1, Text, false, false));
    SpecialPointers(v);
    NullText();
    CodesRoundTrip(StringAt(mem, v));
    TextIsListed(mem, v);
    if v != 0 {
      PointerReadsBack(v);
    }
  }

  lemma NullText()
    ensures LongToHexString(0) == "*0x0"
  {
  }

  /** Other pointers, to structures, to no known kind or over more than two levels, are reported
      as their register and not followed. */
  lemma OtherPointerArgument(dts: seq<DataType>, param: DataType, regs: Cpu.Regs, mem: Mem, i: nat)
    requires i < 6 && !ShapeOfParam(dts, param).variadic
    requires ShapeOfParam(dts, param).pointers > 2
          || (ShapeOfParam(dts, param).pointers > 0 && ShapeOfParam(dts, param).kind in {NoKind, Structure})
    ensures var p, v := Reported(dts, param, regs, mem, i), ValueOf(regs, i);
            && PointerMarked(p, mem, v)
            && (if v == 0 then p.value == "*0x0" else ParsePointer(p.value) == Some(v))
            && (IsFollowed(mem, v) ==> p.valueAlias == "")
  {
    hide WithMetadata, ShapeOf, PeekData, LongToHexString, ParsePointer, PointerMarked;
    var q, v := TypedParam(dts, param), ValueOf(regs, i);
    MarkedPointer(q.(isComplex := ShapeOfParam(dts, param).complex, value := LongToHexString(v)), mem, v,
                  ShapeOfParam(dts, param));
    SpecialPointers(v);
    NullText();
    FreshAlias(dts, param);
    if v != 0 {
      PointerReadsBack(v);
    }
  }

  /** A pointer to pointers is reported with an alias that parses back to the pointers and
      what each of them leads to. */
  lemma DoublePointerArgument(dts: seq<DataType>, param: DataType, regs: Cpu.Regs, mem: Mem, i: nat)
    requires i < 6 && ShapeOfParam(dts, param) == Shape(2, ShapeOfParam(dts, param).kind, false, false)
    ensures var p, v := Reported(dts, param, regs, mem, i), ValueOf(regs, i);
            && PointerMarked(p, mem, v)
            && (IsFollowed(mem, v) ==>
                  && (if v == 0 then p.value == "*0x0" else ParsePointer(p.value) == Some(v))
                  && (ShapeOfParam(dts, param).kind == Number ==>
                        && ParseNumberAlias(p.valueAlias).Some?
                        && ListsNumberPairs(mem, v, SlotSize(dts, param), ParseNumberAlias(p.valueAlias).value))
                  && (ShapeOfParam(dts, param).kind == Text ==>
                        && ParseStringAlias(p.valueAlias).Some?
                        && ListsTextPairs(mem, v, ParseStringAlias(p.valueAlias).value)))
  {
    hide WithMetadata, ShapeOf, PeekData, LongToHexString, RenderEntries, NumberPairs, StringPairs, PointerMarked;
    hide ParseNumberAlias, ParseStringAlias, ParsePointer, ListsNumberPairs, ListsTextPairs, SlotSize;
    var q, v := TypedParam(dts, param), ValueOf(regs, i);
    var p := q.(isComplex := false, value := LongToHexString(v));
    MarkedPointer(p, mem, v, ShapeOfParam(dts, param));
    SpecialPointers(v);
    NumberAliasRoundTrip(NumberPairs(mem, v, q.byteSize));
    StringAliasRoundTrip(StringPairs(mem, v));
    SlotSizeIsStride(dts, param);
    NumberPairsAreListed(mem, v, q.byteSize);
    TextPairsAreListed(mem, v);
    NullText();
    if v != 0 {
      PointerReadsBack(v);
    }
  }

  // ----- Ordinary arguments

  /** The type has an end, and no structure on the way to it. */
  predicate IsOrdinary(dts: seq<DataType>, param: DataType) {
    ChainEnds(dts, param.typ) && StructureType !in TypedParam(dts, param).datatypes
  }

  /** Without a structure there is nothing to search. */
  lemma {:induction false} NotComplex(tags: seq<Tag>, dtName: string)
    requires StructureType !in tags
    ensures !ShapeOf(tags, dtName).complex && ShapeOf(tags, dtName).kind != Structure
  {
    hide IsStringValue, IsNumberValue;
    if tags != [] {
      NotComplex(tags[..|tags| - 1], dtName);
    }
  }

  /** Reporting it completes, and so does reporting any argument without a register whose type
      has an end; an argument whose type has none never completes. */
  lemma OrdinaryArgumentCompletes(dts: seq<DataType>, param: DataType, regs: Cpu.Regs, mem: Mem, i: nat)
    ensures IsOrdinary(dts, param) ==> ArgumentEnding(dts, param, regs, mem, i) == Completed
    ensures i >= 6 && ChainEnds(dts, param.typ) ==> ArgumentEnding(dts, param, regs, mem, i) == Completed
    ensures !ChainEnds(dts, param.typ) ==> ArgumentEnding(dts, param, regs, mem, i) == Diverged
    ensures i >= 6 || StructureType !in TypedParam(dts, param).datatypes
            ==> AddressesShown(dts, param, Reported(dts, param, regs, mem, i)) == []
  {
    hide ShapeOf, WithMetadata, ComplexEnding, ByValueEnding, LongToHexString, ChainEnds, Valued;
    FreshAlias(dts, param);
    if StructureType !in TypedParam(dts, param).datatypes && i < 6 {
      var q := TypedParam(dts, param);
      NotComplex(q.datatypes, q.dtName);
      ByValueSeen(q, mem, ValueOf(regs, i));
      PrintingKeepsComplex(q, mem, ValueOf(regs, i));
    }
  }

  /** Nothing after an unspecified parameter counts. */
  lemma VariadicShape(tags: seq<Tag>, dtName: string)
    requires tags != [] && tags[0] == UnspecifiedParameters
    ensures ShapeOf(tags, dtName) == Shape(0, NoKind, false, true)
  {
    assert tags[..1] == [UnspecifiedParameters] && tags[..1][..0] == [];
    VariadicStays(tags, 1, dtName);
  }

  /** The dots of a variable argument list are reported as such, whatever type they have, and
      their report completes. */
  lemma VariadicArgument(dts: seq<DataType>, param: DataType, regs: Cpu.Regs, mem: Mem, i: nat)
    requires param.tag == UnspecifiedParameters
    ensures i < 6 ==> (var p := Reported(dts, param, regs, mem, i); p.value == "..." && p.valueAlias == "")
    ensures ChainEnds(dts, param.typ) ==> ArgumentEnding(dts, param, regs, mem, i) == Completed
  {
    hide ShapeOf, NameAlong, WholeChain, ComplexEnding, ByValueEnding, ChainEnds, PointerValued;
    var q := TypedParam(dts, param);
    assert q.datatypes[0] == UnspecifiedParameters by {
      assert q.datatypes == [] + [UnspecifiedParameters] + TagsOf(dts, WholeChain(dts, param.typ));
    }
    VariadicShape(q.datatypes, q.dtName);
    FreshAlias(dts, param);
    if i < 6 {
      ByValueSeen(q, mem, ValueOf(regs, i));
    }
  }

  lemma PrintingKeepsComplex(p: Param, mem: Mem, v: Word)
    ensures Valued(p, mem, v).isComplex == ShapeOf(p.datatypes, p.dtName).complex
  {
    hide ShapeOf, LongToHexString, PeekData;
  }

  /** The report of a call completes exactly if the handling of every argument does. */
  lemma {:induction false} CompletesIff(dts: seq<DataType>, params: seq<DataType>, regs: Cpu.Regs, mem: Mem, n: nat)
    requires n <= |params|
    ensures PayloadEnding(dts, params, regs, mem, n) == Completed
       <==> forall i :: 0 <= i < n ==> ArgumentEnding(dts, params[i], regs, mem, i) == Completed
    decreases n
  {
    hide ArgumentEnding;
    if n > 0 {
      CompletesIff(dts, params, regs, mem, n - 1);
    }
  }

  /** A call with ordinary parameters is always reported. */
  lemma OrdinaryCallCompletes(dts: seq<DataType>, params: seq<DataType>, regs: Cpu.Regs, mem: Mem)
    requires forall p <- params :: IsOrdinary(dts, p)
    ensures PayloadEnding(dts, params, regs, mem, |params|) == Completed
  {
    hide ArgumentEnding, IsOrdinary;
    CompletesIff(dts, params, regs, mem, |params|);
    forall i | 0 <= i < |params|
      ensures ArgumentEnding(dts, params[i], regs, mem, i) == Completed
    {
      assert params[i] in params;
      OrdinaryArgumentCompletes(dts, params[i], regs, mem, i);
    }
  }

  // ----- Structures

  /** The members of the structure that a type leads to. */
  function MembersOf(dts: seq<DataType>, typ: int): seq<DataType> {
    match StructureOf(dts, typ)
    case None => []
    case Some(i) => dts[i].members
  }

  ghost predicate AllEnd(dts: seq<DataType>, members: seq<DataType>) {
    forall m <- members :: ChainEnds(dts, m.typ)
  }

  /** The member loop ends where the first member, or else any other, fails. */
  lemma {:induction false} MembersEndingIs(dts: seq<DataType>, members: seq<DataType>, value: string)
    ensures MembersEnding(dts, members, value) ==
            if members == [] then Completed
            else if !ChainEnds(dts, members[0].typ) then Diverged
            else if StolBase0(value) == None then Threw
            else if AllEnd(dts, members) then Completed
            else Diverged
  {
    hide StolBase0, Ends;
    if members != [] {
      MembersEndingIs(dts, members[1..], value);
      assert members == [members[0]] + members[1..];
    }
  }

  predicate IsPositiveLong(v: Word) {
    0 < v < 0x8000_0000_0000_0000
  }

  const FIFTEEN_FS: Word := 0x0FFF_FFFF_FFFF_FFFF

  /** Only that one pointer is taken for -1. */
  lemma SkippedPointer(v: Word)
    ensures SkipsSearch(LongToHexString(v)) <==> v == FIFTEEN_FS
  {
    hide LongToHexString;
    HexOfSpecial();
    SpecialPointers(v);
    if LongToHexString(v) == "0xfffffffffffffff" {
      HexInjective(v, FIFTEEN_FS);
    }
  }

  /** The value of a pointer to a structure is its register in hexadecimal, and complex. */
  lemma StructurePointerValue(dts: seq<DataType>, param: DataType, regs: Cpu.Regs, mem: Mem, i: nat)
    requires i < 6 && ShapeOfParam(dts, param).kind == Structure && ShapeOfParam(dts, param).complex
    requires ShapeOfParam(dts, param).pointers > 0 && !ShapeOfParam(dts, param).variadic
    ensures var p := Reported(dts, param, regs, mem, i);
            p.value == LongToHexString(ValueOf(regs, i)) && p.isComplex && !IsByValueStructure(p)
  {
    hide WithMetadata, ShapeOf, LongToHexString, PeekData;
    ByValueSeen(TypedParam(dts, param), mem, ValueOf(regs, i));
  }

  /** If the members of the structure have terminating types, reporting a pointer to it
      completes exactly if the structure is not found, has no members, or the pointer is a
      positive `long`.  Otherwise it diverges, unless it throws or is skipped before. */
  lemma StructurePointerEnding(dts: seq<DataType>, param: DataType, regs: Cpu.Regs, mem: Mem, i: nat)
    requires i < 6 && ChainEnds(dts, param.typ)
    requires ShapeOfParam(dts, param).kind == Structure
    requires ShapeOfParam(dts, param).pointers > 0 && !ShapeOfParam(dts, param).variadic
    ensures var members, v := MembersOf(dts, param.typ), ValueOf(regs, i);
            ArgumentEnding(dts, param, regs, mem, i) ==
            if v == FIFTEEN_FS || members == [] then Completed
            else if !ChainEnds(dts, members[0].typ) then Diverged
            else if !IsPositiveLong(v) then Threw
            else if AllEnd(dts, members) then Completed
            else Diverged
  {
    hide RestartScan, StolBase0, Ends, SkipsSearch, Reported, ShapeOf, WithMetadata, LongToHexString, MembersEnding;
    var v := ValueOf(regs, i);
    StructureIsComplex(TypedParam(dts, param).datatypes, TypedParam(dts, param).dtName);
    StructurePointerValue(dts, param, regs, mem, i);
    SkippedPointer(v);
    HexRoundTrip(v);
    MembersEndingIs(dts, MembersOf(dts, param.typ), LongToHexString(v));
  }

  lemma DotsAreNoNumber()
    ensures StolBase0("...") == None && !SkipsSearch("...")
  {
    assert SkipSpaces("...") == "...";
    assert DigitPrefix("...", 10) == "";
    assert "..."[0] == '.';
  }

  /** A structure passed by value is printed as "...", which is no number, so its report throws
      as soon as the structure has members. */
  lemma StructureByValueEnding(dts: seq<DataType>, param: DataType, regs: Cpu.Regs, mem: Mem, i: nat)
    requires i < 6 && ChainEnds(dts, param.typ) && ShapeOfParam(dts, param) == Shape(0, Structure, true, false)
    ensures var members := MembersOf(dts, param.typ);
            ArgumentEnding(dts, param, regs, mem, i) ==
            if !AllEnd(dts, members) then Diverged else if members == [] then Completed else Threw
  {
    hide RestartScan, StolBase0, Ends, SkipsSearch, ShapeOf, WithMetadata, MembersEnding;
    ByValueSeen(TypedParam(dts, param), mem, ValueOf(regs, i));
    DotsAreNoNumber();
    MembersEndingIs(dts, MembersOf(dts, param.typ), "...");
  }

  /** A parameter whose value `v` is a pointer to a structure: a positive `long` that is not
      taken for -1. */
  predicate PointsToStructure(dts: seq<DataType>, param: DataType, v: Word) {
    var s := ShapeOfParam(dts, param);
    s.kind == Structure && s.pointers > 0 && !s.variadic && IsPositiveLong(v) && v != FIFTEEN_FS
  }

  /** The addresses printed for it are the pointer plus the location of each member. */
  lemma MemberAddresses(dts: seq<DataType>, param: DataType, regs: Cpu.Regs, mem: Mem, i: nat)
    requires i < 6 && PointsToStructure(dts, param, ValueOf(regs, i))
    ensures var members := MembersOf(dts, param.typ);
            var shown := AddressesShown(dts, param, Reported(dts, param, regs, mem, i));
            && |shown| == |members|
            && forall k :: 0 <= k < |members| ==> shown[k] == ValueOf(regs, i) + members[k].dataMemberLocation
  {
    hide StructureOf, StolBase0, SkipsSearch, Reported, ShapeOf, WithMetadata, LongToHexString;
    var v := ValueOf(regs, i);
    StructureIsComplex(TypedParam(dts, param).datatypes, TypedParam(dts, param).dtName);
    StructurePointerValue(dts, param, regs, mem, i);
    SkippedPointer(v);
    HexRoundTrip(v);
  }
}
