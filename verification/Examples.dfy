/** Output that the repository's README.md shows, and the formats of the lists in it. */
module Examples {
  import opened Memory
  import opened Text
  import opened Helpers
  import opened Common
  import opened ParameterExtractor
  import opened Rendering
  import opened TypeChain
  import opened TypeNames
  import opened Payload
  import opened Arguments
  import Cpu

  // ----- Formats

  /** "[1,2]", and nothing for no numbers. */
  lemma ListFormat(x: int, y: int)
    ensures RenderNumbers([]) == "" && RenderNumbers([x]) == "[" + ToDecimal(x) + "]"
    ensures RenderNumbers([x, y]) == "[" + (ToDecimal(x) + "," + ToDecimal(y)) + "]"
  {
    hide ToDecimal;
    assert DecimalsOf([x]) == [ToDecimal(x)] && DecimalsOf([x, y]) == [ToDecimal(x)] + [ToDecimal(y)];
    JoinSnoc([ToDecimal(x)], ',', ToDecimal(y));
  }

  /** "[ a ]" and "[ a, b ]", as in "[ 0x7ffce4cd5ebb= ]". */
  lemma EntriesFormat(a: string, b: string)
    ensures RenderEntries([]) == "[ ]" && RenderEntries([a]) == "[ " + a + " ]"
    ensures RenderEntries([a, b]) == "[ " + a + "," + " " + b + " ]"
  {
    JoinTwo("[", "]");
    assert ["["] + Tokens([]) + ["]"] == ["[", "]"];
    assert ["["] + Tokens([a]) + ["]"] == ["[", a, "]"];
    assert ["["] + Tokens([a, b]) + ["]"] == ["[", a + ",", b, "]"];
    JoinThree("[", a, "]");
    JoinFour("[", a + ",", b, "]");
  }

  /** A pointer and the numbers it leads to. */
  lemma AliasFormat()
    ensures RenderEntries(NumberEntries([(0x9CAE70, [555, -7])])) == "[ 0x9cae70=[555,-7] ]"
  {
    hide ToDecimal, LongToHexString, RenderNumbers, RenderEntries;
    var pairs := [(0x9CAE70, [555, -7])];
    AddressFormat();
    SomeDecimals();
    ListFormat(555, -7);
    EntriesFormat(RenderEntry(0x9CAE70, RenderNumbers([555, -7])), "");
    assert NumberEntries(pairs) == [RenderEntry(0x9CAE70, RenderNumbers([555, -7]))];
  }

  lemma JoinTwo(a: string, b: string)
    ensures Join([a, b], ' ') == a + " " + b
  {
    assert [a, b][1..] == [b];
  }

  lemma JoinThree(a: string, b: string, c: string)
    ensures Join([a, b, c], ' ') == a + " " + b + " " + c
  {
    assert [a, b, c][1..] == [b, c];
    JoinTwo(b, c);
  }

  lemma JoinFour(a: string, b: string, c: string, d: string)
    ensures Join([a, b, c, d], ' ') == a + " " + b + " " + c + " " + d
  {
    assert [a, b, c, d][1..] == [b, c, d];
    JoinThree(b, c, d);
  }

  /** The codes of "Az~", one after the other. */
  lemma CodesFormat()
    ensures Codes([65, 122, 126]) == "65122126"
  {
    hide ToDecimal;
    SomeDecimals();
    CodesCons(126, []);
    CodesCons(122, [126]);
    CodesCons(65, [122, 126]);
    assert [122] + [126] == [122, 126] && [65] + [122, 126] == [65, 122, 126] && [126] + [] == [126];
  }

  lemma SomeDecimals()
    ensures ToDecimal(65) == "65" && ToDecimal(122) == "122" && ToDecimal(126) == "126"
    ensures ToDecimal(555) == "555" && ToDecimal(-7) == "-7"
  {
    DigitsOfSmall(65);
    DigitsOfSmall(122);
    DigitsOfSmall(126);
    DigitsOfSmall(555);
    assert Digits(7, 10) == "7";
  }

  // ----- testcase2(int data1<555>, char data2<65>)

  function BaseAt(offset: int, name: string, byteSize: nat): DataType {
    DataType(BaseType, offset, 0, name, byteSize, 0, 0, 0, 0, 0, 0, false, [], [])
  }

  function ParameterOf(name: string, typ: int): DataType {
    DataType(FormalParameter, 90, 0, name, 0, typ, 0, 0, 0, 0, 0, false, [], [])
  }

  lemma Kinds()
    ensures NamedKind("int ") == Number && NamedKind("char ") == Text
  {
    hide NamedKind;
    KindOfName("int ");
    KindOfName("char ");
    assert IsAt("int ", 0, "int") && IsAt("char ", 0, "char");
    assert !Contains("int ", "char") by {
      assert !IsAt("int ", 0, "char") by {
        assert "int "[0] != "char"[0];
      }
    }
  }

  lemma BaseShape(dtName: string)
    ensures ShapeOf([BaseType], dtName) == Shape(0, NamedKind(dtName), false, false)
  {
    hide IsStringValue, IsNumberValue;
    assert [BaseType][..0] == [];
  }

  lemma BaseChain(dts: seq<DataType>, t: int, i: nat)
    requires t != 0 && Find(dts, t) == Some(i) && dts[i].typ == 0
    ensures ChainEnds(dts, t) && WholeChain(dts, t) == [i]
  {
    assert WholeChain(dts, t) == [i] + Chain(dts, 0, |dts| - 1);
  }

  /** A parameter whose type is a base type alone. */
  lemma BaseParameter(dts: seq<DataType>, param: DataType, i: nat)
    requires param.tag == FormalParameter && param.typ != 0 && Find(dts, param.typ) == Some(i)
    requires dts[i].tag == BaseType && dts[i].typ == 0 && dts[i].name != ""
    ensures ChainEnds(dts, param.typ) && WholeChain(dts, param.typ) == [i]
    ensures TypedParam(dts, param).datatypes == [BaseType] && TypedParam(dts, param).dtName == dts[i].name + " "
    ensures ShapeOfParam(dts, param) == Shape(0, NamedKind(dts[i].name + " "), false, false)
  {
    hide ShapeOf, WholeChain, ChainEnds, NamedKind;
    BaseChain(dts, param.typ, i);
    assert TagsOf(dts, [i]) == [BaseType];
    NameOfParameter(dts, param, param.name);
    NameOfHop(dts, [i], 0);
    assert [i][..1] == [i] && [i][..0] == [];
    assert dts[i].name + " " + "" == dts[i].name + " ";
    BaseShape(dts[i].name + " ");
  }

  /** It is printed as its register, if the name says that it is a number or text. */
  lemma BaseReported(dts: seq<DataType>, param: DataType, i: nat, regs: Cpu.Regs, mem: Mem, n: nat)
    requires param.tag == FormalParameter && param.typ != 0 && Find(dts, param.typ) == Some(i) && n < 6
    requires dts[i].tag == BaseType && dts[i].typ == 0 && dts[i].name != ""
    requires NamedKind(dts[i].name + " ") in {Number, Text}
    ensures var p := Reported(dts, param, regs, mem, n);
            && p.name == param.name && p.dtName == dts[i].name + " "
            && p.value == ToDecimal(Int64(ValueOf(regs, n))) && p.valueAlias == ""
    ensures IsOrdinary(dts, param)
  {
    hide WithMetadata, ShapeOf, ToDecimal, NamedKind, PointerValued, ChainEnds;
    BaseParameter(dts, param, i);
    FreshAlias(dts, param);
    TypedName(dts, param);
  }

  /** Whatever else the registers and the memory hold. */
  lemma CallOfTestcase2(regs: Cpu.Regs, mem: Mem)
    requires regs[7] == 555 && regs[6] == 65
    ensures var dts := [BaseAt(45, "int", 4), BaseAt(52, "char", 1)];
            var data1 := Reported(dts, ParameterOf("data1", 45), regs, mem, 0);
            var data2 := Reported(dts, ParameterOf("data2", 52), regs, mem, 1);
            && data1.name == "data1" && data1.dtName == "int " && data1.value == "555" && data1.valueAlias == ""
            && data2.name == "data2" && data2.dtName == "char " && data2.value == "65" && data2.valueAlias == ""
            && PayloadEnding(dts, [ParameterOf("data1", 45), ParameterOf("data2", 52)], regs, mem, 2) == Completed
  {
    hide Reported, ToDecimal, NamedKind, ArgumentEnding, IsOrdinary;
    var dts := [BaseAt(45, "int", 4), BaseAt(52, "char", 1)];
    var params := [ParameterOf("data1", 45), ParameterOf("data2", 52)];
    FoundAt(dts, 45, 0, 0);
    FoundAt(dts, 52, 0, 1);
    Kinds();
    SomeDecimals();
    assert "int" + " " == "int " && "char" + " " == "char ";
    BaseReported(dts, params[0], 0, regs, mem, 0);
    BaseReported(dts, params[1], 1, regs, mem, 1);
    OrdinaryCallCompletes(dts, params, regs, mem);
  }

  lemma TypedName(dts: seq<DataType>, param: DataType)
    ensures TypedParam(dts, param).name == param.name
  {
  }

  /** The addresses in the reports are printed as "0x" and hexadecimal digits. */
  lemma AddressFormat()
    ensures LongToHexString(0x9CAE70) == "0x9cae70"
  {
    assert Digits(0x9, 16) == "9";
    assert Digits(0x9C, 16) == "9c";
    assert Digits(0x9CA, 16) == "9ca";
    assert Digits(0x9CAE, 16) == "9cae";
    assert Digits(0x9CAE7, 16) == "9cae7";
    assert Digits(0x9CAE70, 16) == "9cae70";
  }
}
