/** src/compile_unit.cc: `process_cu_tree`, which flattens a tree of entries into one compile
    unit.  What is below a top-level entry is attached only when the next one arrives. */
module Flattener {
  import opened Memory
  import opened Common
  import opened TypeChain
  import opened DieTree

  datatype PrevTag = NoTag | Functions | Datatype

  /** The compile unit under construction, the records not yet attached, and what the last
      top-level entry was. */
  datatype State = State(unit: CompileUnit, members: seq<DataType>, prevTag: PrevTag)

  function StartState(): State {
    State(CompileUnit("", [], [], []), [], NoTag)
  }

  function AttachToFunction(u: CompileUnit, members: seq<DataType>): CompileUnit {
    if u.functions == [] then u
    else
      var n := |u.functions| - 1;
      u.(functions := u.functions[n := WithLocals(u.functions[n], members)])
  }

  function AttachToDatatype(u: CompileUnit, members: seq<DataType>): CompileUnit {
    if u.datatypes == [] then u
    else
      var n := |u.datatypes| - 1;
      u.(datatypes := u.datatypes[n := u.datatypes[n].(members := members)])
  }

  /** Attaches the collected records, if there are any, to the last function or type. */
  function Flush(st: State): State {
    if st.members == [] then st
    else
      var u := match st.prevTag
               case Functions => AttachToFunction(st.unit, st.members)
               case Datatype => AttachToDatatype(st.unit, st.members)
               case NoTag => st.unit;
      State(u, [], NoTag)
  }

  /** The record of a new top-level entry. */
  function Enter(d: Die, st: State, funcAddr: string -> Word): State {
    var u := st.unit;
    match d.tag
    case Subprogram =>
      st.(unit := u.(functions := u.functions + [FunctionRecordOf(d, u.datatypes, funcAddr)]), prevTag := Functions)
    case Variable =>
      st.(unit := u.(globalVariables := u.globalVariables + [RecordOf(d, u.datatypes)]), prevTag := NoTag)
    case _ =>
      st.(unit := u.(datatypes := u.datatypes + [RecordOf(d, u.datatypes)]), prevTag := Datatype)
  }

  /** The visit of an entry below a top-level one. */
  function Descend(d: Die, st: State): State {
    if d.tag == InlinedSubroutine then (if st.prevTag == Functions then Flush(st) else st)
    else if Collectable(d) then st.(members := st.members + [RecordOf(d, st.unit.datatypes)])
    else st
  }

  /** The visit of one entry, before its children. */
  function Visit(d: Die, depth: nat, st: State, funcAddr: string -> Word): State {
    if depth <= 1 then
      if depth == 1 && d.tag == CompileUnitTag then st.(members := [], unit := st.unit.(filename := d.name)) else st
    else if depth == 2 then Enter(d, Flush(st), funcAddr)
    else Descend(d, st)
  }

  function Process(d: Die, depth: nat, st: State, funcAddr: string -> Word): State
    decreases d, 1
  {
    ProcessAll(d.children, depth + 1, Visit(d, depth, st, funcAddr), funcAddr)
  }

  function ProcessAll(ds: seq<Die>, depth: nat, st: State, funcAddr: string -> Word): State
    decreases ds, 0
  {
    if ds == [] then st
    else Process(ds[|ds| - 1], depth, ProcessAll(ds[..|ds| - 1], depth, st, funcAddr), funcAddr)
  }

  /** The last function or type exists whenever the previous tag says so. */
  predicate Consistent(st: State) {
    && (st.prevTag == Functions ==> st.unit.functions != [])
    && (st.prevTag == Datatype ==> st.unit.datatypes != [])
  }

  // ----- The traversal in place

  class CompileUnitBuilder {
    var filename: string
    var datatypes: seq<DataType>
    var globalVariables: seq<DataType>
    var functions: seq<DataType>
    var members: seq<DataType>
    var prevTag: PrevTag
    const funcAddr: string -> Word

    constructor (funcAddr: string -> Word)
      ensures View() == StartState() && this.funcAddr == funcAddr
    {
      filename, datatypes, globalVariables, functions, members := "", [], [], [], [];
      prevTag := NoTag;
      this.funcAddr := funcAddr;
    }

    function View(): State
      reads this
    {
      State(CompileUnit(filename, datatypes, globalVariables, functions), members, prevTag)
    }

    /** The two loops that attach collected records to the last function. */
    method SaveToFunction()
      requires functions != []
      modifies this`functions
      ensures View() == old(View()).(unit := AttachToFunction(old(View()).unit, members))
    {
      hide ParametersIn, VariablesIn;
      var dt := functions[|functions| - 1];
      ghost var before := dt;
      LocalsStart(dt, members);
      for i := 0 to |members|
        invariant functions == old(functions) && dt == WithLocals(before, members[..i])
      {
        LocalsSnoc(members, i);
        var r := members[i];
        if r.tag == FormalParameter {
          dt := dt.(parameters := dt.parameters + [r]);
        }
        if r.tag == UnspecifiedParameters {
          dt := dt.(parameters := dt.parameters + [r]);
        }
        if r.tag == Variable {
          dt := dt.(members := dt.members + [r]);
        }
      }
      assert members[..|members|] == members;
      functions := functions[|functions| - 1 := dt];
    }

    method SaveMembers()
      requires Consistent(View())
      modifies this
      ensures View() == Flush(old(View())) && Consistent(View())
    {
      if |members| > 0 {
        if prevTag == Functions {
          SaveToFunction();
        } else if prevTag == Datatype {
          var n := |datatypes| - 1;
          datatypes := datatypes[n := datatypes[n].(members := members)];
        }
        members := [];
        prevTag := NoTag;
      }
    }

    /** The search loop of `set_datatype`. */
    method SetDatatype(record: DataType) returns (r: DataType)
      requires record.typ > 0
      ensures r == record.(datatypeIndex := IndexOf(datatypes, record.typ))
    {
      r := record.(datatypeIndex := 0);
      for idx := 0 to |datatypes|
        invariant r == record.(datatypeIndex := 0)
        invariant forall j :: 0 <= j < idx ==> datatypes[j].sectionOffset != record.typ
      {
        if datatypes[idx].sectionOffset == record.typ {
          FoundAt(datatypes, record.typ, 0, idx);
          return r.(datatypeIndex := idx);
        }
      }
      NotFound(datatypes, record.typ, 0);
    }

    /** A record with its attributes and, if it has a type, the index of the type. */
    method NewRecord(node: Die) returns (r: DataType)
      ensures r == RecordOf(node, datatypes)
    {
      r := RecordOf(node, []);
      if r.typ > 0 {
        r := SetDatatype(r);
      }
    }

    method VisitNode(node: Die, depth: nat)
      requires Consistent(View())
      modifies this
      ensures View() == Visit(node, depth, old(View()), funcAddr) && Consistent(View())
    {
      hide RecordOf;
      if depth == 1 && node.tag == CompileUnitTag {
        members := [];
        filename := node.name;
      }
      if depth == 2 {
        SaveMembers();
        var record := NewRecord(node);
        if node.tag == Subprogram {
          var func := record.(lowPc := node.lowPc, inlined := node.inlined);
          func := func.(highPc := Plus(func.lowPc, node.highPc), dynSym := false);
          if func.lowPc == 0 && func.inlined < 1 {
            func := func.(lowPc := funcAddr(node.name), dynSym := true);
          }
          functions := functions + [func];
          prevTag := Functions;
        } else if node.tag == Variable {
          globalVariables := globalVariables + [record];
          prevTag := NoTag;
        } else {
          datatypes := datatypes + [record];
          prevTag := Datatype;
        }
      }
      if depth > 2 {
        if node.tag == InlinedSubroutine {
          if prevTag == Functions && |members| > 0 {
            SaveMembers();
          }
        } else if Collectable(node) {
          var record := NewRecord(node);
          members := members + [record];
        }
      }
    }

    method ProcessCuTree(node: Die, depth: nat)
      requires Consistent(View())
      modifies this
      ensures View() == Process(node, depth, old(View()), funcAddr) && Consistent(View())
      decreases node
    {
      VisitNode(node, depth);
      ghost var visited := View();
      for i := 0 to |node.children|
        invariant Consistent(View())
        invariant View() == ProcessAll(node.children[..i], depth + 1, visited, funcAddr)
      {
        ProcessCuTree(node.children[i], depth + 1);
        assert node.children[..i + 1][..i] == node.children[..i];
      }
      assert node.children[..|node.children|] == node.children;
    }
  }

  function UnitsOf(roots: seq<Die>, funcAddr: string -> Word): (units: seq<CompileUnit>)
    ensures |units| == |roots|
    ensures forall i :: 0 <= i < |roots| ==> units[i] == Process(roots[i], 1, StartState(), funcAddr).unit
  {
    seq(|roots|, i requires 0 <= i < |roots| => Process(roots[i], 1, StartState(), funcAddr).unit)
  }

  /** One compile unit per root, in order. */
  method GetCompileUnits(roots: seq<Die>, funcAddr: string -> Word) returns (units: seq<CompileUnit>)
    ensures units == UnitsOf(roots, funcAddr)
  {
    units := [];
    for i := 0 to |roots|
      invariant |units| == i
      invariant forall j :: 0 <= j < i ==> units[j] == Process(roots[j], 1, StartState(), funcAddr).unit
    {
      var builder := new CompileUnitBuilder(funcAddr);
      builder.ProcessCuTree(roots[i], 1);
      units := units + [builder.View().unit];
    }
  }

  lemma LocalsStart(f: DataType, members: seq<DataType>)
    ensures WithLocals(f, members[..0]) == f
  {
    assert members[..0] == [];
  }

  lemma LocalsSnoc(members: seq<DataType>, i: nat)
    requires i < |members|
    ensures ParametersIn(members[..i + 1]) ==
            ParametersIn(members[..i]) + if IsParameter(members[i]) then [members[i]] else []
    ensures VariablesIn(members[..i + 1]) ==
            VariablesIn(members[..i]) + if members[i].tag == Variable then [members[i]] else []
  {
    assert members[..i + 1][..i] == members[..i];
  }
}
