/** The debugging information entries of a compile unit: the tree that section 2.3 of the
    DWARF Version 4 standard describes, with the attributes already read. */
module DieTree {
  import opened Memory
  import opened Common
  import opened TypeChain

  datatype Die = Die(
    tag: Tag,
    offset: int,
    name: string,
    byteSize: nat,
    typ: int,
    declLine: int,
    dataMemberLocation: int,
    lowPc: Word,
    highPc: Word,
    inlined: int,
    children: seq<Die>)

  /** A tree and the trees below it, each node before its children. */
  function Preorder(d: Die): (ds: seq<Die>)
    decreases d, 1
  {
    [d] + PreorderAll(d.children)
  }

  function PreorderAll(ds: seq<Die>): seq<Die>
    decreases ds, 0
  {
    if ds == [] then [] else PreorderAll(ds[..|ds| - 1]) + Preorder(ds[|ds| - 1])
  }

  /** The nodes below `d`. */
  function Below(d: Die): seq<Die> {
    PreorderAll(d.children)
  }

  /** The nodes that are recorded as parameters, variables or members. */
  predicate Collectable(d: Die) {
    d.tag in {FormalParameter, UnspecifiedParameters, Variable, Member}
  }

  function Collect(ds: seq<Die>): (r: seq<Die>)
    ensures forall i :: 0 <= i < |r| ==> r[i] in ds && Collectable(r[i])
  {
    if ds == [] then []
    else
      var last := ds[|ds| - 1];
      Collect(ds[..|ds| - 1]) + if Collectable(last) then [last] else []
  }

  lemma CollectSnoc(ds: seq<Die>, d: Die)
    ensures Collect(ds + [d]) == Collect(ds) + if Collectable(d) then [d] else []
  {
    assert (ds + [d])[..|ds|] == ds;
  }

  /** Where the parameters of a function end: at the first inlined subroutine that something
      collectable precedes. */
  function Cut(ds: seq<Die>): (n: nat)
    ensures n <= |ds|
    ensures n < |ds| ==> ds[n].tag == InlinedSubroutine && Collect(ds[..n]) != []
    ensures forall i :: 0 <= i < n ==> ds[i].tag == InlinedSubroutine ==> Collect(ds[..i]) == []
  {
    if ds == [] then 0
    else
      var init, last := ds[..|ds| - 1], ds[|ds| - 1];
      var n := Cut(init);
      assert forall i :: 0 <= i < |ds| ==> ds[..i] == init[..i];
      if n < |init| then n
      else if last.tag == InlinedSubroutine && Collect(init) != [] then |init|
      else |ds|
  }

  lemma CutSnoc(ds: seq<Die>, d: Die)
    ensures Cut(ds + [d]) ==
            if Cut(ds) < |ds| then Cut(ds)
            else if d.tag == InlinedSubroutine && Collect(ds) != [] then |ds|
            else |ds| + 1
  {
    assert (ds + [d])[..|ds|] == ds;
  }

  // ----- Records

  /** `set_datatype`: the position of the type among the types known so far; 0 also stands
      for a type that is not known yet, and for no type. */
  function IndexOf(dts: seq<DataType>, typ: int): (i: nat)
    ensures i != 0 ==> i < |dts| && dts[i].sectionOffset == typ
    ensures i == 0 ==> typ <= 0 || (|dts| > 0 && dts[0].sectionOffset == typ)
                       || forall j :: 0 <= j < |dts| ==> dts[j].sectionOffset != typ
  {
    if typ <= 0 then 0
    else
      match Find(dts, typ)
      case Some(i) => i
      case None => 0
  }

  /** The record of a variable, parameter, member or type, without what is below it. */
  function RecordOf(d: Die, dts: seq<DataType>): DataType {
    DataType(d.tag, d.offset, IndexOf(dts, d.typ), d.name, d.byteSize, d.typ, d.declLine,
             d.dataMemberLocation, 0, 0, 0, false, [], [])
  }

  function RecordsOf(ds: seq<Die>, dts: seq<DataType>): (rs: seq<DataType>)
    ensures |rs| == |ds| && forall i :: 0 <= i < |rs| ==> rs[i] == RecordOf(ds[i], dts)
  {
    seq(|ds|, i requires 0 <= i < |ds| => RecordOf(ds[i], dts))
  }

  /** The record of a function.  A function without code of its own is looked up by name. */
  function FunctionRecordOf(d: Die, dts: seq<DataType>, funcAddr: string -> Word): DataType {
    var imported := d.lowPc == 0 && d.inlined < 1;
    RecordOf(d, dts).(
      lowPc := if imported then funcAddr(d.name) else d.lowPc,
      highPc := Plus(d.lowPc, d.highPc),
      inlined := d.inlined,
      dynSym := imported)
  }

  // ----- Which records a function keeps, and where

  predicate IsParameter(r: DataType) {
    r.tag == FormalParameter || r.tag == UnspecifiedParameters
  }

  function ParametersIn(rs: seq<DataType>): (ps: seq<DataType>)
    ensures forall i :: 0 <= i < |ps| ==> ps[i] in rs
  {
    if rs == [] then []
    else
      var last := rs[|rs| - 1];
      ParametersIn(rs[..|rs| - 1]) + if IsParameter(last) then [last] else []
  }

  function VariablesIn(rs: seq<DataType>): (vs: seq<DataType>)
    ensures forall i :: 0 <= i < |vs| ==> vs[i] in rs
  {
    if rs == [] then []
    else
      var last := rs[|rs| - 1];
      VariablesIn(rs[..|rs| - 1]) + if last.tag == Variable then [last] else []
  }

  function WithLocals(f: DataType, rs: seq<DataType>): DataType {
    f.(parameters := f.parameters + ParametersIn(rs), members := f.members + VariablesIn(rs))
  }

  // ----- What each top-level entry should become

  function FunctionSpec(d: Die, dts: seq<DataType>, funcAddr: string -> Word): DataType {
    WithLocals(FunctionRecordOf(d, dts, funcAddr), RecordsOf(Collect(Below(d)[..Cut(Below(d))]), dts))
  }

  function TypeSpec(d: Die, dts: seq<DataType>): DataType {
    var record := RecordOf(d, dts);
    record.(members := RecordsOf(Collect(Below(d)), dts + [record]))
  }

  /** The compile unit that the top-level entries `tops` describe, entry by entry. */
  function UnitSpec(filename: string, tops: seq<Die>, funcAddr: string -> Word): CompileUnit {
    if tops == [] then CompileUnit(filename, [], [], [])
    else
      var u := UnitSpec(filename, tops[..|tops| - 1], funcAddr);
      var d := tops[|tops| - 1];
      match d.tag
      case Subprogram => u.(functions := u.functions + [FunctionSpec(d, u.datatypes, funcAddr)])
      case Variable => u.(globalVariables := u.globalVariables + [RecordOf(d, u.datatypes)])
      case _ => u.(datatypes := u.datatypes + [TypeSpec(d, u.datatypes)])
  }
}
