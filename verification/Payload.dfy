/** src/compile_unit.cc: the payload reported for a function call, one parameter per argument
    register. */
module Payload {
  import opened Memory
  import opened Text
  import opened Helpers
  import opened Common
  import opened Ptrace
  import opened ParameterExtractor
  import opened Rendering
  import opened ParameterValues
  import opened TypeChain
  import opened TypeNames
  import Cpu

  // ----- Kinds of types

  const STRING_TYPES: seq<string> := ["signed char", "char", "unsigned char"]

  const NUMBER_TYPES: seq<string> := [
    "short", "bool", "int",
    "long", "float", "double",
    "long long", "long int", "unsigned short",
    "signed int", "signed long", "signed long long",
    "signed short", "long double", "long unsigned int",
    "unsigned int", "signed", "long double",
    "unsigned"]

  predicate ContainsAny(name: string, types: seq<string>) {
    exists i :: 0 <= i < |types| && Contains(name, types[i])
  }

  predicate IsStringValue(name: string) {
    ContainsAny(name, STRING_TYPES)
  }

  predicate IsNumberValue(name: string) {
    ContainsAny(name, NUMBER_TYPES)
  }

  datatype Kind = NoKind | Number | Text | Structure

  /** What the tags of a type say about how to print a value. */
  datatype Shape = Shape(pointers: nat, kind: Kind, complex: bool, variadic: bool)

  function ShapeStep(s: Shape, tag: Tag, dtName: string): Shape {
    match tag
    case UnspecifiedParameters => s.(variadic := true)
    case PointerType => s.(pointers := s.pointers + 1)
    case ArrayType => s.(pointers := s.pointers + 1)
    case BaseType =>
      s.(kind := if IsStringValue(dtName) then Text else if IsNumberValue(dtName) then Number else s.kind)
    case StructureType => s.(kind := Structure, complex := true)
    case _ => s
  }

  /** Nothing after an unspecified parameter is looked at. */
  function ShapeOf(tags: seq<Tag>, dtName: string): Shape {
    if tags == [] then Shape(0, NoKind, false, false)
    else
      var s := ShapeOf(tags[..|tags| - 1], dtName);
      if s.variadic then s else ShapeStep(s, tags[|tags| - 1], dtName)
  }

  // ----- From a register to a text

  function Valued(p: Param, mem: Mem, value: Word): Param {
    var s := ShapeOf(p.datatypes, p.dtName);
    var q := p.(isComplex := s.complex, value := if s.variadic then "..." else "unknown");
    if s.variadic then q
    else if s.pointers == 0 then
      match s.kind
      case Number => WithNumber(q, mem, value, false)
      case Text => WithString(q, mem, value, false)
      case Structure => q.(value := "...")
      case NoKind => q
    else
      PointerValued(q.(value := LongToHexString(value)), mem, value, s)
  }

  /** A pointer is printed in hexadecimal; up to two levels of it are followed. */
  function PointerValued(p: Param, mem: Mem, value: Word, s: Shape): Param {
    if p.value == "0xffffffffffffffff" then p.(valueAlias := "-1")
    else if p.value == "0x0" then p.(valueAlias := "0")
    else if PeekData(mem, value) == 0 then p.(valueAlias := "NULL")
    else
      match (s.pointers, s.kind)
      case (1, Number) => WithNumber(p, mem, value, true)
      case (1, Text) => WithString(p, mem, value, true)
      case (2, Number) => WithNumbers(p, mem, value)
      case (2, Text) => WithStrings(p, mem, value)
      case _ => p
  }

  /** The comparison with "0xffffffffffffffff" holds for -1, and the one with "0x0" never:
      zero is printed "*0x0". */
  lemma SpecialPointers(value: Word)
    ensures LongToHexString(value) == "0xffffffffffffffff" <==> value == ALL_ONES
    ensures LongToHexString(value) != "0x0"
  {
    hide LongToHexString;
    HexOfSpecial();
    if LongToHexString(value) == "0xffffffffffffffff" {
      HexInjective(value, ALL_ONES);
    }
    NeverPlainZero(value);
  }

  lemma NeverPlainZero(value: Word)
    ensures LongToHexString(value) != "0x0"
  {
    hide Digits, Numeral, IsNumeral;
    if value == 0 {
      assert LongToHexString(value)[0] == '*';
    } else {
      NumeralOfDigits(value, 16);
      NumeralOfZero();
      assert "0x0"[2..] == "0" && LongToHexString(value)[2..] == Digits(value, 16);
    }
  }

  lemma NumeralOfZero()
    ensures IsNumeral("0", 16) && Numeral("0", 16) == 0
  {
    assert "0"[..0] == "";
  }

  /** The number with `n` digits "f". */
  function Fs(n: nat): (s: string)
    ensures |s| == n
  {
    if n == 0 then "" else Fs(n - 1) + "f"
  }

  lemma {:induction false} DigitsOfFs(n: nat, v: nat)
    requires n > 0 && v + 1 == Power(16, n)
    ensures Digits(v, 16) == Fs(n)
    decreases n
  {
    assert DIGITS[15] == 'f';
    if n == 1 {
      assert Power(16, 1) == 16 * Power(16, 0);
      assert Fs(1) == "" + "f";
    } else {
      var w := Power(16, n - 1) - 1;
      assert v == 16 * w + 15;
      assert Power(16, n - 1) == 16 * Power(16, n - 2);
      PowerPositive(n - 2);
      DigitsOfFs(n - 1, w);
      assert Quotient(v, 16) == w && Remainder(v, 16) == 15;
    }
  }

  lemma {:induction false} PowerPositive(n: nat)
    ensures Power(16, n) > 0
  {
    if n > 0 {
      PowerPositive(n - 1);
    }
  }

  lemma {:induction false} FsAdd(m: nat, n: nat)
    ensures Fs(m + n) == Fs(m) + Fs(n)
    decreases n
  {
    if n > 0 {
      FsAdd(m, n - 1);
    }
  }

  lemma FsLiterals()
    ensures Fs(15) == "fffffffffffffff" && Fs(16) == "ffffffffffffffff"
  {
    assert Fs(1) == "f" && Fs(3) == "fff" && Fs(4) == "ffff" by {
      assert Fs(2) == "ff";
    }
    hide Fs;
    FsAdd(4, 4);
    FsAdd(8, 4);
    FsAdd(12, 3);
    FsAdd(15, 1);
  }

  lemma HexOfSpecial()
    ensures LongToHexString(ALL_ONES) == "0xffffffffffffffff"
    ensures LongToHexString(0x0FFF_FFFF_FFFF_FFFF) == "0xfffffffffffffff"
  {
    hide Digits, Fs, Power;
    PowersOf16();
    DigitsOfFs(15, 0x0FFF_FFFF_FFFF_FFFF);
    DigitsOfFs(16, ALL_ONES);
    FsLiterals();
  }

  // ----- How a report ends

  /** The report is complete, or its loops never end, or it throws. */
  datatype Ending = Completed | Diverged | Threw

  /** The structure at the end of a parameter's type. */
  function StructureOf(dts: seq<DataType>, typ: int): (r: Option<nat>)
    ensures r.Some? ==> r.value < |dts|
  {
    RestartScan(dts, typ, 0, |dts|)
  }

  predicate ChainEnds(dts: seq<DataType>, typ: int) {
    Ends(dts, typ, |dts|)
  }

  /** A structure passed by value has the metadata of its members printed. */
  function ByValueEnding(dts: seq<DataType>, typ: int): Ending {
    match StructureOf(dts, typ)
    case None => Completed
    case Some(i) => if forall m <- dts[i].members :: ChainEnds(dts, m.typ) then Completed else Diverged
  }

  /** The member loop of `generate_complex_payload`. */
  function MembersEnding(dts: seq<DataType>, members: seq<DataType>, value: string): Ending {
    if members == [] then Completed
    else if !ChainEnds(dts, members[0].typ) then Diverged
    else if StolBase0(value) == None then Threw
    else MembersEnding(dts, members[1..], value)
  }

  /** Fifteen digits "f", which the source takes for -1, end the search at once. */
  predicate SkipsSearch(value: string) {
    value == "0xfffffffffffffff" || value == "0x0"
  }

  function ComplexEnding(dts: seq<DataType>, typ: int, value: string): Ending {
    if SkipsSearch(value) then Completed
    else
      match StructureOf(dts, typ)
      case None => Completed
      case Some(i) => MembersEnding(dts, dts[i].members, value)
  }

  // ----- One argument

  /** The INTEGER registers in the order in which section 3.2.3 of the System V AMD64 ABI
      hands them out: rdi, rsi, rdx, rcx, r8, r9. */
  const ABI_INTEGER_REGISTERS: seq<Cpu.RegName> := [7, 6, 2, 1, 8, 9]

  function FreshParam(param: DataType): Param {
    Param(param.name, [], "", "", "", 0, false, [])
  }

  /** What argument number `i`, from 0, is reported as. */
  function Reported(dts: seq<DataType>, param: DataType, regs: Cpu.Regs, mem: Mem, i: nat): Param {
    var p := WithMetadata(dts, param, FreshParam(param));
    if i < 6 then Valued(p, mem, regs[ABI_INTEGER_REGISTERS[i]]) else p
  }

  predicate IsByValueStructure(p: Param) {
    var s := ShapeOf(p.datatypes, p.dtName);
    !s.variadic && s.pointers == 0 && s.kind == Structure
  }

  function ArgumentEnding(dts: seq<DataType>, param: DataType, regs: Cpu.Regs, mem: Mem, i: nat): Ending {
    var p := Reported(dts, param, regs, mem, i);
    if !ChainEnds(dts, param.typ) then Diverged
    else if i < 6 && IsByValueStructure(p) && ByValueEnding(dts, param.typ) != Completed then Diverged
    else if p.isComplex then ComplexEnding(dts, param.typ, p.value)
    else Completed
  }

  // ----- The whole report

  /** The structure whose members are printed for a parameter that is reported as `p`. */
  function ShownStructure(dts: seq<DataType>, param: DataType, p: Param): (r: Option<nat>)
    ensures r.Some? ==> r.value < |dts|
  {
    if !p.isComplex || SkipsSearch(p.value) then None else StructureOf(dts, param.typ)
  }

  /** The addresses printed for its members: the value read back from its text, plus each
      member's location. */
  function AddressesShown(dts: seq<DataType>, param: DataType, p: Param): seq<int> {
    match (ShownStructure(dts, param, p), StolBase0(p.value))
    case (Some(i), Some(base)) =>
      var members := dts[i].members;
      seq(|members|, k requires 0 <= k < |members| => base + members[k].dataMemberLocation)
    case _ => []
  }

  /** An `sdb_function_t` as far as it is filled in, and the addresses printed for the members
      of each of its parameters. */
  datatype FunctionPayload = FunctionPayload(
    name: string,
    filename: string,
    lineNo: int,
    address: Word,
    totalParams: nat,
    paramVars: seq<Param>,
    memberAddresses: seq<seq<int>>)

  function ReportedAll(dts: seq<DataType>, params: seq<DataType>, regs: Cpu.Regs, mem: Mem): (ps: seq<Param>)
    ensures |ps| == |params|
    ensures forall i :: 0 <= i < |ps| ==> ps[i] == Reported(dts, params[i], regs, mem, i)
  {
    seq(|params|, i requires 0 <= i < |params| => Reported(dts, params[i], regs, mem, i))
  }

  function AddressesShownAll(dts: seq<DataType>, params: seq<DataType>, ps: seq<Param>): (shown: seq<seq<int>>)
    requires |ps| == |params|
    ensures |shown| == |params| && forall i :: 0 <= i < |shown| ==> shown[i] == AddressesShown(dts, params[i], ps[i])
  {
    seq(|params|, i requires 0 <= i < |params| => AddressesShown(dts, params[i], ps[i]))
  }

  function PayloadOf(cu: CompileUnit, func: DataType, regs: Cpu.Regs, mem: Mem): FunctionPayload {
    var paramVars := ReportedAll(cu.datatypes, func.parameters, regs, mem);
    FunctionPayload(func.name, cu.filename, func.declLine, func.lowPc, |func.parameters|, paramVars,
                    AddressesShownAll(cu.datatypes, func.parameters, paramVars))
  }

  /** The first argument whose handling does not complete decides. */
  function PayloadEnding(dts: seq<DataType>, params: seq<DataType>, regs: Cpu.Regs, mem: Mem, n: nat): Ending
    requires n <= |params|
  {
    if n == 0 then Completed
    else
      var e := PayloadEnding(dts, params, regs, mem, n - 1);
      if e != Completed then e else ArgumentEnding(dts, params[n - 1], regs, mem, n - 1)
  }

  // ----- The loops

  /** The loop over the tags of a parameter's type, which stops at an unspecified one. */
  method ClassifyTags(param: SdbParameter) returns (pointerCount: nat, datatypeName: Kind, variadic: bool)
    modifies param`isComplex
    ensures ShapeOf(param.datatypes, param.dtName) == Shape(pointerCount, datatypeName, param.isComplex, variadic)
  {
    hide IsNumberValue, IsStringValue;
    pointerCount, datatypeName, variadic := 0, NoKind, false;
    param.isComplex := false;
    var tags := param.datatypes;
    for i := 0 to |tags|
      invariant ShapeOf(tags[..i], param.dtName) == Shape(pointerCount, datatypeName, param.isComplex, false)
    {
      var tag := tags[i];
      ShapePrefix(tags, i, param.dtName);
      if tag == UnspecifiedParameters {
        VariadicStays(tags, i + 1, param.dtName);
        return pointerCount, datatypeName, true;
      }
      if tag == PointerType {
        pointerCount := pointerCount + 1;
      }
      if tag == BaseType {
        if IsNumberValue(param.dtName) {
          datatypeName := Number;
        }
        if IsStringValue(param.dtName) {
          datatypeName := Text;
        }
      }
      if tag == ArrayType {
        pointerCount := pointerCount + 1;
      }
      if tag == StructureType {
        datatypeName := Structure;
        param.isComplex := true;
      }
    }
    assert tags[..|tags|] == tags;
  }

  /** Prints a pointer and what it leads to. */
  method PointerToString(child: Tracee, param: SdbParameter, value: Word, pointerCount: nat, datatypeName: Kind)
    requires pointerCount > 0
    modifies param
    ensures forall s: Shape :: s.pointers == pointerCount && s.kind == datatypeName ==>
              param.Copy() ==
              PointerValued(old(param.Copy()).(value := LongToHexString(value)), child.cpu.mem, value, s)
  {
    hide WithNumber, WithString, WithNumbers, WithStrings, PeekData, LongToHexString;
    param.value := LongToHexString(value);
    if param.value == "0xffffffffffffffff" {
      param.valueAlias := "-1";
      return;
    }
    if param.value == "0x0" {
      param.valueAlias := "0";
      return;
    }
    var dataAtPointer := child.Peek(value);
    if dataAtPointer == 0 {
      param.valueAlias := "NULL";
      return;
    }
    if pointerCount == 1 {
      if datatypeName == Number {
        GetNumberValue(child, param, value, true);
      }
      if datatypeName == Text {
        GetStringValue(child, param, value, true);
      }
    }
    if pointerCount == 2 {
      if datatypeName == Number {
        GetMultiNumberValue(child, param, value);
      }
      if datatypeName == Text {
        GetMultiStringValue(child, param, value);
      }
    }
  }

  method DatatypeValueToString(child: Tracee, dts: seq<DataType>, subject: DataType, param: SdbParameter, value: Word)
    returns (ending: Ending)
    requires ProperOffsets(dts) && ChainEnds(dts, subject.typ)
    modifies param
    ensures param.Copy() == Valued(old(param.Copy()), child.cpu.mem, value)
    ensures ending == if IsByValueStructure(old(param.Copy())) then ByValueEnding(dts, subject.typ) else Completed
  {
    hide ShapeOf, ProperOffsets, WithNumber, WithString, PeekData, LongToHexString, PointerValued;
    ending := Completed;
    param.value := "unknown";
    var pointerCount, datatypeName, variadic := ClassifyTags(param);
    if variadic {
      param.value := "...";
      return;
    }
    if pointerCount == 0 {
      if datatypeName == Number {
        GetNumberValue(child, param, value, false);
      }
      if datatypeName == Text {
        GetStringValue(child, param, value, false);
      }
      if datatypeName == Structure {
        param.value := "...";
        ending := ComplexValueToString(dts, subject);
      }
    }
    if pointerCount > 0 {
      PointerToString(child, param, value, pointerCount, datatypeName);
    }
  }

  lemma ShapePrefix(tags: seq<Tag>, i: nat, dtName: string)
    requires i < |tags| && !ShapeOf(tags[..i], dtName).variadic
    ensures ShapeOf(tags[..i + 1], dtName) == ShapeStep(ShapeOf(tags[..i], dtName), tags[i], dtName)
  {
    assert tags[..i + 1][..i] == tags[..i];
  }

  lemma {:induction false} VariadicStays(tags: seq<Tag>, i: nat, dtName: string)
    requires i <= |tags| && ShapeOf(tags[..i], dtName).variadic
    ensures ShapeOf(tags, dtName) == ShapeOf(tags[..i], dtName)
    decreases |tags| - i
  {
    if i == |tags| {
      assert tags[..i] == tags;
    } else {
      assert tags[..i + 1][..i] == tags[..i];
      VariadicStays(tags, i + 1, dtName);
    }
  }

  /** Prints the metadata of the members of a structure passed by value. */
  method ComplexValueToString(dts: seq<DataType>, subject: DataType) returns (ending: Ending)
    requires ProperOffsets(dts) && ChainEnds(dts, subject.typ)
    ensures ending == ByValueEnding(dts, subject.typ)
  {
    hide RestartScan, Terminates, Ends, ProperOffsets, WithMetadata;
    var found := FindStructure(dts, subject.typ);
    if found == None {
      return Completed;
    }
    var members := dts[found.value].members;
    for index := 0 to |members|
      invariant forall m <- members[..index] :: ChainEnds(dts, m.typ)
    {
      var temp := new SdbParameter(members[index].name);
      EndsIffNeverRevisits(dts, members[index].typ);
      var done := GetDatatypeMetadata(dts, members[index], temp, |dts|);
      if !done {
        assert members[index] in members;
        return Diverged;
      }
    }
    assert members[..|members|] == members;
    return Completed;
  }

  /** The members of a structure as parameters, described but not printed. */
  function MemberParams(dts: seq<DataType>, members: seq<DataType>): (ps: seq<Param>)
    ensures |ps| == |members|
    ensures forall k :: 0 <= k < |ps| ==> ps[k] == WithMetadata(dts, members[k], FreshParam(members[k]))
  {
    seq(|members|, k requires 0 <= k < |members| => WithMetadata(dts, members[k], FreshParam(members[k])))
  }

  /** `offsets` are the addresses of the members, in order: the value read back from its text,
      plus each member's location. */
  ghost predicate AreAddresses(members: seq<DataType>, value: string, offsets: seq<int>) {
    && |offsets| == |members|
    && forall k :: 0 <= k < |members| ==>
         StolBase0(value).Some? && offsets[k] == StolBase0(value).value + members[k].dataMemberLocation
  }

  /** Prints the address of every member of the structure a parameter points to, and records
      the members in the parameter. */
  method GenerateComplexPayload(dts: seq<DataType>, subject: DataType, param: SdbParameter)
    returns (ending: Ending, offsets: seq<int>)
    requires ProperOffsets(dts) && ChainEnds(dts, subject.typ)
    modifies param`members
    ensures ending == ComplexEnding(dts, subject.typ, param.value)
    ensures ending == Completed ==>
              if SkipsSearch(param.value) || StructureOf(dts, subject.typ) == None then
                offsets == [] && param.members == old(param.members)
              else
                var members := dts[StructureOf(dts, subject.typ).value].members;
                && AreAddresses(members, param.value, offsets)
                && param.members == old(param.members) + MemberParams(dts, members)
  {
    hide RestartScan, Terminates, Ends, StolBase0, SkipsSearch, WithMetadata, ProperOffsets;
    offsets := [];
    if SkipsSearch(param.value) {
      return Completed, [];
    }
    var found := FindStructure(dts, subject.typ);
    if found == None {
      return Completed, [];
    }
    var members := dts[found.value].members;
    for index := 0 to |members|
      invariant MembersEnding(dts, members, param.value) == MembersEnding(dts, members[index..], param.value)
      invariant AreAddresses(members[..index], param.value, offsets)
      invariant param.members == old(param.members) + MemberParams(dts, members[..index])
    {
      assert members[index..][1..] == members[index + 1..];
      var temp := new SdbParameter(members[index].name);
      EndsIffNeverRevisits(dts, members[index].typ);
      var done := GetDatatypeMetadata(dts, members[index], temp, |dts|);
      if !done {
        return Diverged, [];
      }
      var parsed := StolBase0(param.value);
      if parsed == None {
        return Threw, [];
      }
      MemberParamsSnoc(dts, members, index);
      offsets := offsets + [parsed.value + members[index].dataMemberLocation];
      param.members := param.members + [temp.Copy()];
    }
    assert members[..|members|] == members;
    return Completed, offsets;
  }

  lemma MemberParamsSnoc(dts: seq<DataType>, members: seq<DataType>, i: nat)
    requires i < |members|
    ensures MemberParams(dts, members[..i + 1]) ==
            MemberParams(dts, members[..i]) + [WithMetadata(dts, members[i], FreshParam(members[i]))]
  {
    hide WithMetadata;
  }

  /** The switch over the six argument registers; `index` counts from 1.  Nothing moves
      `complexIdx`. */
  method GetDatatypeValue(child: Tracee, dts: seq<DataType>, subject: DataType, param: SdbParameter,
                          regs: Cpu.Regs, index: nat, complexIdx: nat)
    returns (ending: Ending, complexIdx': nat)
    requires ProperOffsets(dts) && ChainEnds(dts, subject.typ)
    modifies param
    ensures complexIdx' == complexIdx
    ensures var n := index + complexIdx;
            var before := old(param.Copy());
            && (n == 1 ==> param.Copy() == Valued(before, child.cpu.mem, regs[7]))
            && (n == 2 ==> param.Copy() == Valued(before, child.cpu.mem, regs[6]))
            && (n == 3 ==> param.Copy() == Valued(before, child.cpu.mem, regs[2]))
            && (n == 4 ==> param.Copy() == Valued(before, child.cpu.mem, regs[1]))
            && (n == 5 ==> param.Copy() == Valued(before, child.cpu.mem, regs[8]))
            && (n == 6 ==> param.Copy() == Valued(before, child.cpu.mem, regs[9]))
            && if 1 <= n <= 6 then
                 ending == if IsByValueStructure(before) then ByValueEnding(dts, subject.typ) else Completed
               else param.Copy() == before && ending == Completed
  {
    complexIdx' := complexIdx;
    ending := Completed;
    match index + complexIdx
    case 1 => ending := DatatypeValueToString(child, dts, subject, param, regs[Cpu.RDI]);
    case 2 => ending := DatatypeValueToString(child, dts, subject, param, regs[Cpu.RSI]);
    case 3 => ending := DatatypeValueToString(child, dts, subject, param, regs[Cpu.RDX]);
    case 4 => ending := DatatypeValueToString(child, dts, subject, param, regs[Cpu.RCX]);
    case 5 => ending := DatatypeValueToString(child, dts, subject, param, regs[Cpu.R8]);
    case 6 => ending := DatatypeValueToString(child, dts, subject, param, regs[Cpu.R9]);
    case _ =>
  }

  /** The body of the loop over the parameters; `index` counts from 0. */
  method GenerateParameter(child: Tracee, dts: seq<DataType>, funcParam: DataType, index: nat, complexIdx: nat)
    returns (ending: Ending, paramVar: Param, offsets: seq<int>, complexIdx': nat)
    requires ProperOffsets(dts) && complexIdx == 0
    ensures complexIdx' == 0
    ensures ending == ArgumentEnding(dts, funcParam, child.cpu.regs, child.cpu.mem, index)
    ensures ending == Completed ==>
              && paramVar == Reported(dts, funcParam, child.cpu.regs, child.cpu.mem, index)
              && offsets == AddressesShown(dts, funcParam, paramVar)
  {
    hide Terminates, Ends, ProperOffsets, Valued, WithMetadata, ByValueEnding, ComplexEnding, StructureOf;
    hide IsByValueStructure, AddressesShown, StolBase0, SkipsSearch;
    var regs := child.cpu.regs;
    var param := new SdbParameter(funcParam.name);
    offsets, complexIdx' := [], complexIdx;
    EndsIffNeverRevisits(dts, funcParam.typ);
    var done := GetDatatypeMetadata(dts, funcParam, param, |dts|);
    if !done {
      return Diverged, param.Copy(), offsets, complexIdx';
    }
    ghost var described := param.Copy();
    ending, complexIdx' := GetDatatypeValue(child, dts, funcParam, param, regs, index + 1, complexIdx);
    paramVar := param.Copy();
    ByValueSeen(described, child.cpu.mem, regs[ABI_INTEGER_REGISTERS[if index < 6 then index else 0]]);
    if ending != Completed {
      ByValueDiverges(dts, funcParam.typ);
      return;
    }
    if param.isComplex {
      ending, offsets := GenerateComplexPayload(dts, funcParam, param);
      if ending != Completed {
        return;
      }
    }
    ShownAreAddresses(dts, funcParam, paramVar, offsets);
  }

  method GenerateFunctionPayload(child: Tracee, cu: CompileUnit, func: DataType)
    returns (ending: Ending, payload: FunctionPayload)
    requires ProperOffsets(cu.datatypes)
    ensures ending == PayloadEnding(cu.datatypes, func.parameters, child.cpu.regs, child.cpu.mem, |func.parameters|)
    ensures ending == Completed ==> payload == PayloadOf(cu, func, child.cpu.regs, child.cpu.mem)
  {
    hide ProperOffsets, Reported, ArgumentEnding, AddressesShown;
    var dts := cu.datatypes;
    ghost var regs, mem := child.cpu.regs, child.cpu.mem;
    var paramVars: seq<Param> := [];
    var addresses: seq<seq<int>> := [];
    payload := FunctionPayload(func.name, cu.filename, func.declLine, func.lowPc, |func.parameters|, [], []);
    var complexIdx := 0;
    for index := 0 to |func.parameters|
      invariant complexIdx == 0 && |paramVars| == |addresses| == index
      invariant PayloadEnding(dts, func.parameters, regs, mem, index) == Completed
      invariant forall i :: 0 <= i < index ==> paramVars[i] == Reported(dts, func.parameters[i], regs, mem, i)
      invariant forall i :: 0 <= i < index ==> addresses[i] == AddressesShown(dts, func.parameters[i], paramVars[i])
    {
      var paramVar, offsets;
      ending, paramVar, offsets, complexIdx := GenerateParameter(child, dts, func.parameters[index], index, complexIdx);
      if ending != Completed {
        FirstEnding(dts, func.parameters, regs, mem, index, |func.parameters|);
        return ending, payload;
      }
      paramVars, addresses := paramVars + [paramVar], addresses + [offsets];
    }
    assert paramVars == ReportedAll(dts, func.parameters, regs, mem);
    assert addresses == AddressesShownAll(dts, func.parameters, paramVars);
    return Completed, payload.(paramVars := paramVars, memberAddresses := addresses);
  }

  /** The addresses of the members are those that a completed report shows. */
  lemma ShownAreAddresses(dts: seq<DataType>, param: DataType, p: Param, offsets: seq<int>)
    requires match ShownStructure(dts, param, p)
             case None => offsets == []
             case Some(i) => AreAddresses(dts[i].members, p.value, offsets)
    ensures offsets == AddressesShown(dts, param, p)
  {
    hide StolBase0, ShownStructure;
    match ShownStructure(dts, param, p)
    case None =>
    case Some(i) =>
      var base := StolBase0(p.value);
      var members := dts[i].members;
      assert forall k :: 0 <= k < |members| ==> base.Some? && offsets[k] == base.value + members[k].dataMemberLocation;
      assert members != [] ==> offsets[0] == base.value + members[0].dataMemberLocation;
      assert offsets == AddressesShown(dts, param, p);
  }

  lemma ByValueDiverges(dts: seq<DataType>, typ: int)
    ensures ByValueEnding(dts, typ) == Completed || ByValueEnding(dts, typ) == Diverged
  {
  }

  lemma PointerValuedKeepsType(p: Param, mem: Mem, value: Word, s: Shape)
    ensures PointerValued(p, mem, value, s).datatypes == p.datatypes
    ensures PointerValued(p, mem, value, s).dtName == p.dtName
  {
    hide PeekData, LongToHexString, RenderNumbers, RenderEntries, Codes;
  }

  /** Printing the value does not change what kind of parameter it is. */
  lemma ByValueSeen(p: Param, mem: Mem, value: Word)
    ensures IsByValueStructure(Valued(p, mem, value)) == IsByValueStructure(p)
  {
    hide PointerValued, ShapeOf, LongToHexString, ToDecimal;
    var s := ShapeOf(p.datatypes, p.dtName);
    PointerValuedKeepsType(p.(isComplex := s.complex, value := LongToHexString(value)), mem, value, s);
    assert Valued(p, mem, value).datatypes == p.datatypes && Valued(p, mem, value).dtName == p.dtName;
  }

  lemma {:induction false} FirstEnding(dts: seq<DataType>, params: seq<DataType>, regs: Cpu.Regs, mem: Mem,
                                       i: nat, n: nat)
    requires i < n <= |params| && PayloadEnding(dts, params, regs, mem, i) == Completed
    requires ArgumentEnding(dts, params[i], regs, mem, i) != Completed
    ensures PayloadEnding(dts, params, regs, mem, n) == ArgumentEnding(dts, params[i], regs, mem, i)
    decreases n
  {
    hide ArgumentEnding;
    if n > i + 1 {
      FirstEnding(dts, params, regs, mem, i, n - 1);
    }
  }
}
