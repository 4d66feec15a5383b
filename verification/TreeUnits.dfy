/** What a flattened compile unit says, field by field, in terms of the entries of its tree. */
module TreeUnits {
  import opened Memory
  import opened Common
  import opened DieTree
  import opened Flattener
  import opened FlattenerTheorems

  // ----- Entries by their tags

  /** The entries with one of the given tags, in order. */
  function Entries(ds: seq<Die>, tags: set<Tag>): (es: seq<Die>)
    ensures forall i :: 0 <= i < |es| ==> es[i] in ds && es[i].tag in tags
  {
    if ds == [] then []
    else
      var last := ds[|ds| - 1];
      Entries(ds[..|ds| - 1], tags) + if last.tag in tags then [last] else []
  }

  /** The entries with none of the given tags, in order. */
  function EntriesExcept(ds: seq<Die>, tags: set<Tag>): (es: seq<Die>)
    ensures forall i :: 0 <= i < |es| ==> es[i] in ds && es[i].tag !in tags
  {
    if ds == [] then []
    else
      var last := ds[|ds| - 1];
      EntriesExcept(ds[..|ds| - 1], tags) + if last.tag !in tags then [last] else []
  }

  /** A tree begins with its root, and then has the trees of the root's children one after the
      other: number `i` after those before it. */
  lemma PreorderPositions(d: Die, i: nat)
    requires i < |d.children|
    ensures var before, child := PreorderAll(d.children[..i]), Preorder(d.children[i]);
            && |Preorder(d)| >= 1 + |before| + |child| && Preorder(d)[0] == d
            && Preorder(d)[1 + |before|..1 + |before| + |child|] == child
            && |PreorderAll(d.children[..i + 1])| == |before| + |child|
            && (i == 0 ==> before == [])
            && (i == |d.children| - 1 ==> |Preorder(d)| == 1 + |before| + |child|)
  {
    hide Preorder;
    PreorderPrefix(d.children, i);
    PreorderPrefix(d.children, |d.children| - 1);
    assert d.children[..|d.children|] == d.children;
    PreorderRoot(d);
  }

  lemma PreorderRoot(d: Die)
    ensures Preorder(d) == [d] + PreorderAll(d.children)
  {
  }

  lemma {:induction false} PreorderSlice(ds: seq<Die>, i: nat)
    requires i < |ds|
    ensures var before, child := PreorderAll(ds[..i]), Preorder(ds[i]);
            |PreorderAll(ds)| >= |before| + |child| && PreorderAll(ds)[|before|..|before| + |child|] == child
    decreases |ds|
  {
    hide Preorder;
    var init := ds[..|ds| - 1];
    if i < |init| {
      PreorderSlice(init, i);
      assert init[..i] == ds[..i];
    }
  }

  lemma PreorderPrefix(ds: seq<Die>, i: nat)
    requires i < |ds|
    ensures PreorderAll(ds[..i + 1]) == PreorderAll(ds[..i]) + Preorder(ds[i])
    ensures var before, child := PreorderAll(ds[..i]), Preorder(ds[i]);
            |PreorderAll(ds)| >= |before| + |child| && PreorderAll(ds)[|before|..|before| + |child|] == child
  {
    hide Preorder;
    assert ds[..i + 1][..i] == ds[..i];
    PreorderSlice(ds, i);
  }

  /** The functions, variables and types of a unit. */
  function SubprogramsIn(tops: seq<Die>): seq<Die> {
    Entries(tops, {Subprogram})
  }

  function GlobalsIn(tops: seq<Die>): seq<Die> {
    Entries(tops, {Variable})
  }

  function TypesIn(tops: seq<Die>): seq<Die> {
    EntriesExcept(tops, {Subprogram, Variable})
  }

  /** The parameters and the variables of the function at `d`: those before the cut. */
  function ParametersBelow(d: Die): seq<Die> {
    Entries(Below(d)[..Cut(Below(d))], {FormalParameter, UnspecifiedParameters})
  }

  function VariablesBelow(d: Die): seq<Die> {
    Entries(Below(d)[..Cut(Below(d))], {Variable})
  }

  /** The members of the type at `d`: all that can be collected. */
  function MembersBelow(d: Die): seq<Die> {
    Entries(Below(d), {FormalParameter, UnspecifiedParameters, Variable, Member})
  }

  /** One of the entries is a parameter, a variable or a member. */
  ghost predicate AnyLocal(ds: seq<Die>) {
    exists k :: 0 <= k < |ds| && ds[k].tag in {FormalParameter, UnspecifiedParameters, Variable, Member}
  }

  /** The cut is at the first inlined subroutine that one of these precedes, or at the end if
      there is none. */
  lemma CutIsFirst(ds: seq<Die>)
    ensures var n := Cut(ds);
            && (n < |ds| ==> ds[n].tag == InlinedSubroutine && AnyLocal(ds[..n]))
            && forall i :: 0 <= i < n ==> ds[i].tag == InlinedSubroutine ==> !AnyLocal(ds[..i])
  {
    hide AnyLocal, Collect;
    CollectsIff(ds[..Cut(ds)]);
    forall i | 0 <= i < Cut(ds) && ds[i].tag == InlinedSubroutine
      ensures !AnyLocal(ds[..i])
    {
      CollectsIff(ds[..i]);
    }
  }

  lemma {:induction false} CollectsIff(ds: seq<Die>)
    ensures Collect(ds) != [] <==> AnyLocal(ds)
  {
    if ds != [] {
      var init := ds[..|ds| - 1];
      CollectsIff(init);
      assert forall k :: 0 <= k < |init| ==> init[k] == ds[k];
    }
  }

  // ----- Records

  /** The fields that all records have, the position of the type excepted. */
  predicate BearsFields(r: DataType, d: Die) {
    && r.tag == d.tag && r.sectionOffset == d.offset && r.name == d.name && r.byteSize == d.byteSize
    && r.typ == d.typ && r.declLine == d.declLine && r.dataMemberLocation == d.dataMemberLocation
  }

  /** A record with nothing attached. */
  predicate Records(r: DataType, d: Die) {
    BearsFields(r, d) && r.parameters == [] && r.members == []
  }

  ghost predicate RecordsAll(rs: seq<DataType>, ds: seq<Die>) {
    |rs| == |ds| && forall k :: 0 <= k < |ds| ==> Records(rs[k], ds[k])
  }

  /** Where the function at `d` starts: a function without code of its own is looked up by
      name, unless it is inlined. */
  function StartOf(d: Die, funcAddr: string -> Word): Word {
    if d.lowPc == 0 && d.inlined < 1 then funcAddr(d.name) else d.lowPc
  }

  /** `f` is made of the subprogram `d`; `kept` tells whether its locals are. */
  ghost predicate FunctionMatches(f: DataType, d: Die, funcAddr: string -> Word, kept: bool) {
    && BearsFields(f, d)
    && f.lowPc == StartOf(d, funcAddr) && f.highPc == (d.lowPc + d.highPc) % 0x1_0000_0000_0000_0000
    && f.inlined == d.inlined && (f.dynSym <==> d.lowPc == 0 && d.inlined < 1)
    && if kept then RecordsAll(f.parameters, ParametersBelow(d)) && RecordsAll(f.members, VariablesBelow(d))
       else f.parameters == [] && f.members == []
  }

  /** `r` is made of the type `d`; `kept` tells whether its members are. */
  ghost predicate TypeMatches(r: DataType, d: Die, kept: bool) {
    && BearsFields(r, d) && r.parameters == []
    && if kept then RecordsAll(r.members, MembersBelow(d)) else r.members == []
  }

  /** The locals of subprogram number `j` reach its record, if it is not the last entry of its
      unit or was cut before its end. */
  predicate KeepsParameters(tops: seq<Die>, j: nat)
    requires j < |SubprogramsIn(tops)|
  {
    var d := SubprogramsIn(tops)[j];
    j < |SubprogramsIn(tops)| - 1 || tops[|tops| - 1].tag != Subprogram || Cut(Below(d)) < |Below(d)|
  }

  /** The members of type number `j` reach its record, if it is not the last entry of its unit. */
  predicate KeepsMembers(tops: seq<Die>, j: nat)
    requires j < |TypesIn(tops)|
  {
    j < |TypesIn(tops)| - 1 || tops[|tops| - 1].tag in {Subprogram, Variable}
  }

  ghost predicate FunctionsMatch(fs: seq<DataType>, tops: seq<Die>, funcAddr: string -> Word, complete: bool) {
    && |fs| == |SubprogramsIn(tops)|
    && forall j :: 0 <= j < |fs| ==>
         FunctionMatches(fs[j], SubprogramsIn(tops)[j], funcAddr, complete || KeepsParameters(tops, j))
  }

  ghost predicate TypesMatch(rs: seq<DataType>, tops: seq<Die>, complete: bool) {
    && |rs| == |TypesIn(tops)|
    && forall j :: 0 <= j < |rs| ==> TypeMatches(rs[j], TypesIn(tops)[j], complete || KeepsMembers(tops, j))
  }

  // ----- What is attached

  lemma EntriesSnoc(ds: seq<Die>, d: Die, tags: set<Tag>)
    ensures Entries(ds + [d], tags) == Entries(ds, tags) + if d.tag in tags then [d] else []
  {
    assert (ds + [d])[..|ds|] == ds;
  }

  lemma {:induction false} CollectIsEntries(ds: seq<Die>)
    ensures Collect(ds) == Entries(ds, {FormalParameter, UnspecifiedParameters, Variable, Member})
  {
    if ds != [] {
      CollectIsEntries(ds[..|ds| - 1]);
    }
  }

  lemma RecordsMatch(ds: seq<Die>, dts: seq<DataType>)
    ensures RecordsAll(RecordsOf(ds, dts), ds)
  {
    hide IndexOf;
  }

  lemma LocalsSnocOne(rs: seq<DataType>, r: DataType)
    ensures ParametersIn(rs + [r]) ==
            ParametersIn(rs) + if r.tag in {FormalParameter, UnspecifiedParameters} then [r] else []
    ensures VariablesIn(rs + [r]) == VariablesIn(rs) + if r.tag == Variable then [r] else []
  {
    assert (rs + [r])[..|rs|] == rs;
  }

  lemma RecordsSnocOne(es: seq<Die>, d: Die, dts: seq<DataType>, b: bool)
    ensures RecordsOf(es + (if b then [d] else []), dts) == RecordsOf(es, dts) + if b then [RecordOf(d, dts)] else []
    ensures RecordOf(d, dts).tag == d.tag
  {
    hide IndexOf;
    if b {
      RecordsConcat(es, [d], dts);
      assert RecordsOf([d], dts) == [RecordOf(d, dts)];
    } else {
      assert es + [] == es && RecordsOf(es, dts) + [] == RecordsOf(es, dts);
    }
  }

  /** Picking out the parameters or the variables and making records of them commute. */
  lemma {:induction false} LocalsAreEntries(ds: seq<Die>, dts: seq<DataType>)
    ensures ParametersIn(RecordsOf(Collect(ds), dts)) ==
            RecordsOf(Entries(ds, {FormalParameter, UnspecifiedParameters}), dts)
    ensures VariablesIn(RecordsOf(Collect(ds), dts)) == RecordsOf(Entries(ds, {Variable}), dts)
  {
    if ds == [] {
      assert RecordsOf(Collect(ds), dts) == [];
    } else {
      var init, d := ds[..|ds| - 1], ds[|ds| - 1];
      LocalsAreEntries(init, dts);
      hide Collect, ParametersIn, VariablesIn, RecordsOf, Entries, RecordOf;
      assert ds == init + [d];
      RecordsSnoc(init, d, dts);
      var parameters := {FormalParameter, UnspecifiedParameters};
      EntriesSnoc(init, d, parameters);
      EntriesSnoc(init, d, {Variable});
      RecordsSnocOne(Entries(init, parameters), d, dts, d.tag in parameters);
      RecordsSnocOne(Entries(init, {Variable}), d, dts, d.tag == Variable);
      LocalsSnocOne(RecordsOf(Collect(init), dts), RecordOf(d, dts));
      assert RecordsOf(Collect(init), dts) + [] == RecordsOf(Collect(init), dts);
    }
  }

  lemma FunctionSpecMatches(d: Die, dts: seq<DataType>, funcAddr: string -> Word)
    ensures FunctionMatches(FunctionSpec(d, dts, funcAddr), d, funcAddr, true)
    ensures FunctionMatches(FunctionRecordOf(d, dts, funcAddr), d, funcAddr, false)
  {
    hide Collect, ParametersIn, VariablesIn, Entries, Below, Cut, RecordsOf, IndexOf;
    var ds := Below(d)[..Cut(Below(d))];
    var rs := RecordsOf(Collect(ds), dts);
    LocalsAreEntries(ds, dts);
    RecordsMatch(ParametersBelow(d), dts);
    RecordsMatch(VariablesBelow(d), dts);
    assert [] + ParametersIn(rs) == ParametersIn(rs) && [] + VariablesIn(rs) == VariablesIn(rs);
  }

  lemma TypeSpecMatches(d: Die, dts: seq<DataType>)
    ensures TypeMatches(TypeSpec(d, dts), d, true) && TypeMatches(RecordOf(d, dts), d, false)
  {
    hide Collect, Entries, Below, RecordsOf, IndexOf;
    CollectIsEntries(Below(d));
    RecordsMatch(MembersBelow(d), dts + [RecordOf(d, dts)]);
  }

  // ----- The whole unit

  ghost predicate UnitMatches(u: CompileUnit, filename: string, tops: seq<Die>, funcAddr: string -> Word,
                              complete: bool)
  {
    && u.filename == filename
    && FunctionsMatch(u.functions, tops, funcAddr, complete)
    && RecordsAll(u.globalVariables, GlobalsIn(tops))
    && TypesMatch(u.datatypes, tops, complete)
  }

  /** One more top-level entry. */
  lemma FunctionAdded(fs: seq<DataType>, f: DataType, tops: seq<Die>, d: Die, funcAddr: string -> Word, complete: bool)
    requires FunctionsMatch(fs, tops, funcAddr, true) && d.tag == Subprogram
    requires FunctionMatches(f, d, funcAddr, complete || Cut(Below(d)) < |Below(d)|)
    ensures FunctionsMatch(fs + [f], tops + [d], funcAddr, complete)
  {
    hide Cut, Below, FunctionMatches, Entries;
    EntriesSnoc(tops, d, {Subprogram});
  }

  lemma FunctionsStay(fs: seq<DataType>, tops: seq<Die>, d: Die, funcAddr: string -> Word, complete: bool)
    requires FunctionsMatch(fs, tops, funcAddr, true) && d.tag != Subprogram
    ensures FunctionsMatch(fs, tops + [d], funcAddr, complete)
  {
    hide Cut, Below, FunctionMatches, Entries;
    EntriesSnoc(tops, d, {Subprogram});
    assert SubprogramsIn(tops + [d]) == SubprogramsIn(tops);
  }

  lemma ExceptSnoc(ds: seq<Die>, d: Die, tags: set<Tag>)
    ensures EntriesExcept(ds + [d], tags) == EntriesExcept(ds, tags) + if d.tag !in tags then [d] else []
  {
    assert (ds + [d])[..|ds|] == ds;
  }

  lemma TypeAdded(rs: seq<DataType>, r: DataType, tops: seq<Die>, d: Die, complete: bool)
    requires TypesMatch(rs, tops, true) && d.tag !in {Subprogram, Variable} && TypeMatches(r, d, complete)
    ensures TypesMatch(rs + [r], tops + [d], complete)
  {
    hide TypeMatches, EntriesExcept;
    ExceptSnoc(tops, d, {Subprogram, Variable});
  }

  lemma TypesStay(rs: seq<DataType>, tops: seq<Die>, d: Die, complete: bool)
    requires TypesMatch(rs, tops, true) && d.tag in {Subprogram, Variable}
    ensures TypesMatch(rs, tops + [d], complete)
  {
    hide TypeMatches, EntriesExcept;
    ExceptSnoc(tops, d, {Subprogram, Variable});
    assert TypesIn(tops + [d]) == TypesIn(tops);
  }

  lemma GlobalsGrow(rs: seq<DataType>, r: DataType, tops: seq<Die>, d: Die)
    requires RecordsAll(rs, GlobalsIn(tops)) && (d.tag == Variable ==> Records(r, d))
    ensures RecordsAll(if d.tag == Variable then rs + [r] else rs, GlobalsIn(tops + [d]))
  {
    hide Records, Entries;
    EntriesSnoc(tops, d, {Variable});
  }

  lemma NothingMatches(filename: string, funcAddr: string -> Word, complete: bool)
    ensures UnitMatches(CompileUnit(filename, [], [], []), filename, [], funcAddr, complete)
  {
  }

  lemma RecordMatches(d: Die, dts: seq<DataType>)
    ensures Records(RecordOf(d, dts), d)
  {
  }

  /** The per-entry specification says what the entries say. */
  lemma {:induction false} SpecMatches(filename: string, tops: seq<Die>, funcAddr: string -> Word)
    ensures UnitMatches(UnitSpec(filename, tops, funcAddr), filename, tops, funcAddr, true)
  {
    hide FunctionSpec, TypeSpec, RecordOf, FunctionsMatch, TypesMatch, FunctionMatches, TypeMatches, RecordsAll;
    hide SubprogramsIn, GlobalsIn, TypesIn, Records;
    if tops == [] {
      NothingMatches(filename, funcAddr, true);
    } else {
      var init, d := tops[..|tops| - 1], tops[|tops| - 1];
      var u := UnitSpec(filename, init, funcAddr);
      assert tops == init + [d];
      SpecMatches(filename, init, funcAddr);
      EntryAdded(u, filename, init, d, funcAddr);
    }
  }

  lemma EntryAdded(u: CompileUnit, filename: string, init: seq<Die>, d: Die, funcAddr: string -> Word)
    requires UnitMatches(u, filename, init, funcAddr, true)
    ensures var u' := match d.tag
                      case Subprogram => u.(functions := u.functions + [FunctionSpec(d, u.datatypes, funcAddr)])
                      case Variable => u.(globalVariables := u.globalVariables + [RecordOf(d, u.datatypes)])
                      case _ => u.(datatypes := u.datatypes + [TypeSpec(d, u.datatypes)]);
            UnitMatches(u', filename, init + [d], funcAddr, true)
  {
    hide FunctionSpec, TypeSpec, RecordOf, FunctionsMatch, TypesMatch, FunctionMatches, TypeMatches, RecordsAll;
    hide SubprogramsIn, GlobalsIn, TypesIn, Records, Cut, Below;
    RecordMatches(d, u.datatypes);
    GlobalsGrow(u.globalVariables, RecordOf(d, u.datatypes), init, d);
    if d.tag == Subprogram {
      FunctionSpecMatches(d, u.datatypes, funcAddr);
      FunctionAdded(u.functions, FunctionSpec(d, u.datatypes, funcAddr), init, d, funcAddr, true);
    } else {
      FunctionsStay(u.functions, init, d, funcAddr, true);
    }
    if d.tag in {Subprogram, Variable} {
      TypesStay(u.datatypes, init, d, true);
    } else {
      TypeSpecMatches(d, u.datatypes);
      TypeAdded(u.datatypes, TypeSpec(d, u.datatypes), init, d, true);
    }
  }

  /** The record of the last top-level entry, if it is a function. */
  lemma LastFunction(d: Die, u: CompileUnit, funcAddr: string -> Word)
    requires d.tag == Subprogram
    ensures var st := Scanned(Below(d), Enter(d, State(u, [], NoTag), funcAddr).unit);
            && |st.unit.functions| == |u.functions| + 1
            && st.unit == u.(functions := u.functions + [st.unit.functions[|u.functions|]])
            && FunctionMatches(st.unit.functions[|u.functions|], d, funcAddr, Cut(Below(d)) < |Below(d)|)
  {
    hide Collect, Cut, Below, RecordsOf, FunctionMatches, ParametersIn, VariablesIn, IndexOf;
    FunctionSpecMatches(d, u.datatypes, funcAddr);
    var f := FunctionRecordOf(d, u.datatypes, funcAddr);
    var g := FunctionSpec(d, u.datatypes, funcAddr);
    assert (u.functions + [f])[|u.functions| := g] == u.functions + [g];
  }

  lemma PendingMatches(filename: string, tops: seq<Die>, funcAddr: string -> Word)
    ensures UnitMatches(Pending(filename, tops, funcAddr).unit, filename, tops, funcAddr, false)
  {
    hide Scanned, FunctionsMatch, TypesMatch, FunctionMatches, TypeMatches, RecordsAll, UnitSpec, RecordOf;
    hide SubprogramsIn, GlobalsIn, TypesIn, Records, Cut, Below, RecordsOf, Collect;
    if tops == [] {
      NothingMatches(filename, funcAddr, false);
    } else {
      var init, d := tops[..|tops| - 1], tops[|tops| - 1];
      var u := UnitSpec(filename, init, funcAddr);
      assert tops == init + [d];
      SpecMatches(filename, init, funcAddr);
      RecordMatches(d, u.datatypes);
      GlobalsGrow(u.globalVariables, RecordOf(d, u.datatypes), init, d);
      if d.tag == Subprogram {
        LastFunction(d, u, funcAddr);
        var u' := Scanned(Below(d), Enter(d, State(u, [], NoTag), funcAddr).unit).unit;
        FunctionAdded(u.functions, u'.functions[|u.functions|], init, d, funcAddr, false);
      } else {
        FunctionsStay(u.functions, init, d, funcAddr, false);
      }
      if d.tag in {Subprogram, Variable} {
        TypesStay(u.datatypes, init, d, false);
      } else {
        TypeSpecMatches(d, u.datatypes);
        TypeAdded(u.datatypes, RecordOf(d, u.datatypes), init, d, false);
      }
    }
  }

  /** A flattened unit has the functions, the variables and the types of its tree, one for one,
      in order and field by field; only the last entry can lack what is below it. */
  lemma FlattenedMatches(root: Die, funcAddr: string -> Word)
    requires root.tag == CompileUnitTag
    ensures UnitMatches(Process(root, 1, StartState(), funcAddr).unit, root.name, root.children, funcAddr, false)
    ensures UnitMatches(Flush(Process(root, 1, StartState(), funcAddr)).unit, root.name, root.children, funcAddr, true)
  {
    hide Process, Flush, Pending, UnitSpec, UnitMatches;
    FlattenedUnit(root, funcAddr);
    FlattenedAfterFlush(root, funcAddr);
    PendingMatches(root.name, root.children, funcAddr);
    SpecMatches(root.name, root.children, funcAddr);
  }
}
