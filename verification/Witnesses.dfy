/** Programs on which the debugger fails in the ways that its theorems leave room for. */
module Witnesses {
  import opened Memory
  import opened Text
  import opened Common
  import opened TypeChain
  import opened TypeNames
  import opened DieTree
  import opened Flattener
  import opened FlattenerTheorems
  import opened Breakpoints
  import opened FunctionBreakpoints
  import opened Payload
  import opened Arguments
  import Cpu

  // ----- The last function of a compile unit loses its parameter

  function EntryOf(tag: Tag, offset: int, name: string, children: seq<Die>): Die {
    Die(tag, offset, name, 0, 0, 1, 0, if tag == Subprogram then 0x1000 else 0, 0, 0, children)
  }

  /** `void f(x)` and nothing else. */
  function OneFunction(): Die {
    EntryOf(CompileUnitTag, 11, "f.c", [EntryOf(Subprogram, 45, "f", [EntryOf(FormalParameter, 67, "x", [])])])
  }

  lemma BelowTheFunction()
    ensures var f := OneFunction().children[0];
            && Below(f) == f.children && Collect(Below(f)) == f.children
            && Cut(Below(f)) == |Below(f)| == 1
  {
    var x := OneFunction().children[0].children[0];
    assert Preorder(x) == [x];
    assert PreorderAll([x]) == [] + Preorder(x);
    assert [x][..0] == [];
  }

  lemma SpecifiedFunctions(funcAddr: string -> Word)
    ensures var f := OneFunction().children[0];
            && UnitSpec("f.c", [], funcAddr) == CompileUnit("f.c", [], [], [])
            && UnitSpec("f.c", [f], funcAddr).functions == [FunctionSpec(f, [], funcAddr)]
            && |FunctionSpec(f, [], funcAddr).parameters| == 1
  {
    hide Below, Collect, Cut;
    var f := OneFunction().children[0];
    BelowTheFunction();
    assert [f][..0] == [];
    assert Below(f)[..1] == Below(f);
    assert RecordsOf(Below(f), [])[..0] == [];
  }

  lemma LastParameterIsLost(funcAddr: string -> Word)
    ensures var root := OneFunction();
            var flattened := Process(root, 1, StartState(), funcAddr).unit;
            var specified := UnitSpec(root.name, root.children, funcAddr);
            && !LastIsComplete(root.children)
            && |flattened.functions| == |specified.functions| == 1
            && flattened.functions[0].parameters == []
            && |specified.functions[0].parameters| == 1
  {
    hide Process, Below, Collect, Cut, UnitSpec, FunctionSpec;
    var root := OneFunction();
    var f := root.children[0];
    BelowTheFunction();
    SpecifiedFunctions(funcAddr);
    FlattenedUnit(root, funcAddr);
    assert [f][..0] == [];
  }

  // ----- Types

  function TypeAt(tag: Tag, offset: int, name: string, typ: int, members: seq<DataType>): DataType {
    DataType(tag, offset, 0, name, 8, typ, 0, 0, 0, 0, 0, false, [], members)
  }

  /** A structure, the first of all types, and a pointer to it: the structure is on the chain
      of the pointer, but not found. */
  lemma FirstTypeIsNotFound()
    ensures var dts := [TypeAt(StructureType, 1, "list", 0, []), TypeAt(PointerType, 2, "", 1, [])];
            && ProperOffsets(dts) && Ends(dts, 2, |dts|)
            && FirstStructure(dts, WholeChain(dts, 2), 1)
            && RestartScan(dts, 2, 0, |dts|) == None
  {
    var dts := [TypeAt(StructureType, 1, "list", 0, []), TypeAt(PointerType, 2, "", 1, [])];
    FoundAt(dts, 2, 0, 1);
    FoundAt(dts, 1, 0, 0);
    NotFound(dts, 1, 1);
    assert Chain(dts, 1, 1) == [0] + Chain(dts, 0, 0);
    assert WholeChain(dts, 2) == [1, 0];
  }

  /** Two pointer types, each to the other: the walk never ends. */
  lemma TwoTypesNeverEnd()
    ensures var dts := [TypeAt(PointerType, 1, "", 2, []), TypeAt(PointerType, 2, "", 1, [])];
            ProperOffsets(dts) && !Terminates(dts, 1) && Revisits(dts, 1)
  {
    var dts := [TypeAt(PointerType, 1, "", 2, []), TypeAt(PointerType, 2, "", 1, [])];
    FoundAt(dts, 1, 0, 0);
    FoundAt(dts, 2, 0, 1);
    assert !Ends(dts, 2, 1) && !Ends(dts, 1, 2);
    EndsIffNeverRevisits(dts, 1);
  }

  /** A number, a structure with one such member, and a pointer to the structure. */
  function PointTypes(): seq<DataType> {
    [TypeAt(BaseType, 1, "int", 0, []),
     TypeAt(StructureType, 2, "point", 0, [TypeAt(Member, 9, "x", 1, [])]),
     TypeAt(PointerType, 3, "", 2, [])]
  }

  lemma PointChains()
    ensures var dts := PointTypes();
            && ChainEnds(dts, 1) && ChainEnds(dts, 2) && ChainEnds(dts, 3)
            && WholeChain(dts, 2) == [1] && WholeChain(dts, 3) == [2, 1]
            && StructureOf(dts, 2) == StructureOf(dts, 3) == Some(1)
  {
    var dts := PointTypes();
    FoundAt(dts, 1, 0, 0);
    FoundAt(dts, 2, 0, 1);
    FoundAt(dts, 2, 1, 1);
    FoundAt(dts, 3, 0, 2);
    assert Chain(dts, 2, 2) == [1] + Chain(dts, 0, 1);
    assert WholeChain(dts, 2) == [1] + Chain(dts, 0, 2);
    assert WholeChain(dts, 3) == [2] + Chain(dts, 2, 2);
  }

  function PointParam(typ: int): DataType {
    TypeAt(FormalParameter, 20, "p", typ, [])
  }

  lemma ShapesOfTags(dtName: string)
    ensures ShapeOf([StructureType], dtName) == Shape(0, Structure, true, false)
    ensures ShapeOf([PointerType, StructureType], dtName) == Shape(1, Structure, true, false)
  {
    hide IsStringValue, IsNumberValue;
    var tags := [PointerType, StructureType];
    assert [StructureType][..0] == [];
    assert tags[..1] == [PointerType] && [PointerType][..0] == [];
  }

  lemma PointShapes()
    ensures ShapeOfParam(PointTypes(), PointParam(2)) == Shape(0, Structure, true, false)
    ensures ShapeOfParam(PointTypes(), PointParam(3)) == Shape(1, Structure, true, false)
  {
    hide NameAlong, WholeChain, ShapeOf;
    var dts := PointTypes();
    PointChains();
    var p, q := TypedParam(dts, PointParam(2)), TypedParam(dts, PointParam(3));
    assert p.datatypes == [StructureType] && q.datatypes == [PointerType, StructureType];
    ShapesOfTags(p.dtName);
    ShapesOfTags(q.dtName);
  }

  /** Reporting a structure with a member that is passed by value throws, whatever the
      registers and the memory. */
  lemma ByValueThrows(regs: Cpu.Regs, mem: Mem)
    ensures ArgumentEnding(PointTypes(), PointParam(2), regs, mem, 0) == Threw
  {
    hide StructureOf, ArgumentEnding, ShapeOfParam, ChainEnds;
    PointChains();
    PointShapes();
    StructureByValueEnding(PointTypes(), PointParam(2), regs, mem, 0);
  }

  /** Reporting a null pointer to it throws, whatever the memory. */
  lemma NullStructureThrows(regs: Cpu.Regs, mem: Mem)
    requires ValueOf(regs, 0) == 0
    ensures ArgumentEnding(PointTypes(), PointParam(3), regs, mem, 0) == Threw
  {
    hide StructureOf, ArgumentEnding, ShapeOfParam, ChainEnds;
    PointChains();
    PointShapes();
    StructurePointerEnding(PointTypes(), PointParam(3), regs, mem, 0);
  }

  // ----- A breakpoint set twice

  /** A breakpoint at 0x1000, over a native no-operation. */
  function Trapped(): Cpu.Cpu {
    var mem: Mem := map[0x1000 := INT3, 0x1001 := 0x90, 0x1002 := 0x90, 0x1003 := 0x90,
                        0x1004 := 0x90, 0x1005 := 0x90, 0x1006 := 0x90, 0x1007 := 0x90];
    Cpu.Cpu(mem, seq(16, _ => 0), 0x1000)
  }

  /** Setting it again saves the trap as the original byte: the native one is lost. */
  lemma SecondSetLosesByte()
    ensures var cpu, view := Trapped(), map[0x1000 := Entry(0x90, true)];
            var cpu' := cpu.(mem := cpu.mem[0x1000 := INT3]);
            var view' := view[0x1000 := Entry(cpu.mem[0x1000], true)];
            && Armed(cpu, view) && PeekData(cpu.mem, 0x1000) != ALL_ONES
            && NativeOf(cpu, view).mem[0x1000] == 0x90
            && NativeOf(cpu', view').mem[0x1000] == INT3
  {
    TrapIsNoFailure(Trapped().mem, 0x1000, 0x1000);
    ArmOne(Trapped(), map[0x1000 := Entry(0x90, true)], 0x1000);
  }

  // ----- Breakpoints that can be set in one order only

  function FunctionAt(a: Word): DataType {
    TypeAt(Subprogram, a, "f", 0, []).(lowPc := a, declLine := 1)
  }

  function UnitWith(functions: seq<DataType>): CompileUnit {
    CompileUnit("f.c", [], [], functions)
  }

  /** Eight bytes of ones, then four zeros. */
  function OnesThenZeros(): Mem {
    map[0x1000 := 0xFF, 0x1001 := 0xFF, 0x1002 := 0xFF, 0x1003 := 0xFF,
        0x1004 := 0xFF, 0x1005 := 0xFF, 0x1006 := 0xFF, 0x1007 := 0xFF,
        0x1008 := 0, 0x1009 := 0, 0x100A := 0, 0x100B := 0]
  }

  function BothSymbols(): map<Word, Symbol> {
    map[0x1000 := Symbol(0x1000, "f", true), 0x1004 := Symbol(0x1004, "g", true)]
  }

  /** One function of two starts in a word of ones, the other inside that word but in a
      readable one. */
  lemma TwoWords()
    ensures var mem := OnesThenZeros();
            PeekData(mem, 0x1000) == ALL_ONES && Mapped(mem, 0x1000, 8) && PeekData(mem, 0x1004) != ALL_ONES
  {
    hide PeekData;
    PeekIsAllOnes(OnesThenZeros(), 0x1000);
    PeekIsAllOnes(OnesThenZeros(), 0x1004);
    assert OnesThenZeros()[0x1008] == 0;
  }

  lemma FirstWordFirstFails()
    ensures !Settable([UnitWith([FunctionAt(0x1000), FunctionAt(0x1004)])], BothSymbols(), OnesThenZeros())
  {
    hide PeekData, OnesThenZeros;
    var units, m := [UnitWith([FunctionAt(0x1000), FunctionAt(0x1004)])], BothSymbols();
    TwoWords();
    assert EligibleAt(units, m, 0, 0) && !CanSet(units, m, OnesThenZeros(), 0, 0);
  }

  lemma SecondWordFirstSucceeds()
    ensures Settable([UnitWith([FunctionAt(0x1004), FunctionAt(0x1000)])], BothSymbols(), OnesThenZeros())
  {
    hide PeekData, OnesThenZeros;
    var units, m := [UnitWith([FunctionAt(0x1004), FunctionAt(0x1000)])], BothSymbols();
    TwoWords();
    assert EligibleAt(units, m, 0, 0) && CanSet(units, m, OnesThenZeros(), 0, 0);
    assert StartsEarlierIn(units, m, 0x1000, 0, 1);
    assert CanSet(units, m, OnesThenZeros(), 0, 1);
  }
}
