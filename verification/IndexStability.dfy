/** Type indices set while the list of types is still growing stay right to the end. */
module IndexStability {
  import opened Memory
  import opened Common
  import opened TypeChain
  import opened DieTree
  import opened Flattener
  import opened FlattenerTheorems

  /** Section offsets increase in the order of the traversal, as they do in a file. */
  ghost predicate Increasing(ds: seq<Die>) {
    forall i, j :: 0 <= i < j < |ds| ==> ds[i].offset < ds[j].offset
  }

  ghost predicate Sorted(dts: seq<DataType>) {
    forall i, j :: 0 <= i < j < |dts| ==> dts[i].sectionOffset < dts[j].sectionOffset
  }

  /** A nonzero index names the one type with the wanted offset.  A zero index means the
      first type, no type, or one that comes no earlier than the record itself. */
  ghost predicate IndexStable(r: DataType, dts: seq<DataType>) {
    if r.datatypeIndex != 0 then
      && 0 <= r.datatypeIndex < |dts| && dts[r.datatypeIndex].sectionOffset == r.typ
      && forall j :: 0 <= j < |dts| && dts[j].sectionOffset == r.typ ==> j == r.datatypeIndex
    else
      r.typ <= 0 || forall j :: 0 <= j < |dts| && dts[j].sectionOffset == r.typ ==> j == 0 || r.typ >= r.sectionOffset
  }

  /** A record with a stable index and an offset below `b`. */
  ghost predicate Fits(r: DataType, dts: seq<DataType>, b: int) {
    IndexStable(r, dts) && r.sectionOffset < b
  }

  ghost predicate AllFit(rs: seq<DataType>, dts: seq<DataType>, b: int) {
    forall r <- rs :: Fits(r, dts, b)
  }

  /** The same for its parameters, variables and members. */
  ghost predicate Tidy(r: DataType, dts: seq<DataType>, b: int) {
    Fits(r, dts, b) && AllFit(r.parameters, dts, b) && AllFit(r.members, dts, b)
  }

  ghost predicate AllTidy(rs: seq<DataType>, dts: seq<DataType>, b: int) {
    forall r <- rs :: Tidy(r, dts, b)
  }

  /** The types are sorted, and every record made below offset `b` has a stable index. */
  ghost predicate TidyUnit(u: CompileUnit, b: int) {
    && Sorted(u.datatypes)
    && AllTidy(u.datatypes, u.datatypes, b)
    && AllTidy(u.functions, u.datatypes, b)
    && AllTidy(u.globalVariables, u.datatypes, b)
  }

  /** Sorted lists of types grow by types with larger offsets. */
  ghost predicate Extends(dts': seq<DataType>, dts: seq<DataType>) {
    && |dts| <= |dts'| && Sorted(dts')
    && forall i :: 0 <= i < |dts| ==> dts'[i].sectionOffset == dts[i].sectionOffset
  }

  /** A record made while the list was `dts`, all of whose types come before it, and with
      only types from its own offset on added later, is stable. */
  lemma RecordIsStable(d: Die, dts: seq<DataType>, dts': seq<DataType>)
    requires Extends(dts', dts)
    requires forall j :: |dts| <= j < |dts'| ==> dts'[j].sectionOffset >= d.offset
    ensures IndexStable(RecordOf(d, dts), dts')
  {
    var i := IndexOf(dts, d.typ);
    if i != 0 {
      assert dts'[i].sectionOffset == d.typ;
    } else if d.typ > 0 {
      forall j | 0 <= j < |dts'| && dts'[j].sectionOffset == d.typ
        ensures j == 0 || d.typ >= d.offset
      {
        if j < |dts| {
          assert dts[j].sectionOffset == d.typ;
        }
      }
    }
  }

  /** Stability survives the arrival of a type with a larger offset. */
  lemma FitsLater(r: DataType, dts: seq<DataType>, t: DataType, b: int)
    requires Fits(r, dts, t.sectionOffset) && Extends(dts + [t], dts) && t.sectionOffset <= b
    ensures Fits(r, dts + [t], b)
  {
    var dts' := dts + [t];
    assert forall j :: 0 <= j < |dts| ==> dts'[j] == dts[j];
    assert dts'[|dts|] == t;
  }

  lemma AllFitLater(rs: seq<DataType>, dts: seq<DataType>, t: DataType, b: int)
    requires AllFit(rs, dts, t.sectionOffset) && Extends(dts + [t], dts) && t.sectionOffset <= b
    ensures AllFit(rs, dts + [t], b)
  {
    hide Fits, Extends;
    forall r | r in rs
      ensures Fits(r, dts + [t], b)
    {
      FitsLater(r, dts, t, b);
    }
  }

  lemma AllTidyLater(rs: seq<DataType>, dts: seq<DataType>, t: DataType, b: int)
    requires AllTidy(rs, dts, t.sectionOffset) && Extends(dts + [t], dts) && t.sectionOffset <= b
    ensures AllTidy(rs, dts + [t], b)
  {
    hide Fits, AllFit, Extends;
    forall r | r in rs
      ensures Tidy(r, dts + [t], b)
    {
      FitsLater(r, dts, t, b);
      AllFitLater(r.parameters, dts, t, b);
      AllFitLater(r.members, dts, t, b);
    }
  }

  lemma AllTidyBelow(rs: seq<DataType>, dts: seq<DataType>, a: int, b: int)
    requires AllTidy(rs, dts, a) && a <= b
    ensures AllTidy(rs, dts, b)
  {
    hide IndexStable;
  }

  lemma SortedSnoc(dts: seq<DataType>, t: DataType, u: seq<DataType>)
    requires Sorted(dts) && AllTidy(dts, u, t.sectionOffset)
    ensures Sorted(dts + [t]) && Extends(dts + [t], dts)
  {
    hide IndexStable;
    var dts' := dts + [t];
    forall i, j | 0 <= i < j < |dts'|
      ensures dts'[i].sectionOffset < dts'[j].sectionOffset
    {
      assert dts[i] in dts;
      assert Fits(dts[i], u, t.sectionOffset);
    }
  }

  // ----- Adding one top-level entry

  lemma AddFunction(u: CompileUnit, f: DataType, a: int, b: int)
    requires TidyUnit(u, a) && a <= b && Tidy(f, u.datatypes, b)
    ensures TidyUnit(u.(functions := u.functions + [f]), b)
  {
    hide Tidy;
    AllTidyBelow(u.datatypes, u.datatypes, a, b);
    AllTidyBelow(u.functions, u.datatypes, a, b);
    AllTidyBelow(u.globalVariables, u.datatypes, a, b);
  }

  lemma AddVariable(u: CompileUnit, v: DataType, a: int, b: int)
    requires TidyUnit(u, a) && a <= b && Tidy(v, u.datatypes, b)
    ensures TidyUnit(u.(globalVariables := u.globalVariables + [v]), b)
  {
    hide Tidy;
    AllTidyBelow(u.datatypes, u.datatypes, a, b);
    AllTidyBelow(u.functions, u.datatypes, a, b);
    AllTidyBelow(u.globalVariables, u.datatypes, a, b);
  }

  lemma AddType(u: CompileUnit, t: DataType, b: int)
    requires TidyUnit(u, t.sectionOffset) && t.sectionOffset < b && Tidy(t, u.datatypes + [t], b)
    ensures TidyUnit(u.(datatypes := u.datatypes + [t]), b)
  {
    hide Tidy, Extends;
    SortedSnoc(u.datatypes, t, u.datatypes);
    AllTidyLater(u.datatypes, u.datatypes, t, b);
    AllTidyLater(u.functions, u.datatypes, t, b);
    AllTidyLater(u.globalVariables, u.datatypes, t, b);
  }

  /** The records of entries at or behind all types of the list. */
  lemma RecordsFit(ds: seq<Die>, dts: seq<DataType>, dts': seq<DataType>, b: int)
    requires Extends(dts', dts) && |dts'| == |dts| && forall d <- ds :: d.offset < b
    ensures AllFit(RecordsOf(ds, dts), dts', b)
  {
    hide IndexStable, Extends, RecordOf;
    forall r | r in RecordsOf(ds, dts)
      ensures Fits(r, dts', b)
    {
      var i :| 0 <= i < |ds| && r == RecordOf(ds[i], dts);
      RecordIsStable(ds[i], dts, dts');
      RecordOffset(ds[i], dts);
    }
  }

  lemma RecordOffset(d: Die, dts: seq<DataType>)
    ensures RecordOf(d, dts).sectionOffset == d.offset
    ensures RecordOf(d, dts).parameters == RecordOf(d, dts).members == []
  {
  }

  lemma WithLocalsTidy(f: DataType, rs: seq<DataType>, dts: seq<DataType>, b: int)
    requires Tidy(f, dts, b) && AllFit(rs, dts, b)
    ensures Tidy(WithLocals(f, rs), dts, b)
  {
    assert AllFit(ParametersIn(rs), dts, b) && AllFit(VariablesIn(rs), dts, b);
    assert IndexStable(WithLocals(f, rs), dts);
  }

  lemma FunctionRecordTidy(d: Die, dts: seq<DataType>, funcAddr: string -> Word, b: int)
    requires Extends(dts, dts) && d.offset < b
    ensures Tidy(FunctionRecordOf(d, dts, funcAddr), dts, b)
  {
    RecordIsStable(d, dts, dts);
    assert IndexStable(FunctionRecordOf(d, dts, funcAddr), dts);
  }

  /** The record of a type, complete or not, in the list that it ends. */
  lemma TypeTidy(d: Die, dts: seq<DataType>, members: seq<DataType>, b: int)
    requires Extends(dts + [RecordOf(d, dts)], dts) && d.offset < b
    requires AllFit(members, dts + [RecordOf(d, dts)], b)
    ensures var t := RecordOf(d, dts).(members := members); Tidy(t, dts + [t], b)
  {
    var record := RecordOf(d, dts);
    var t := record.(members := members);
    SameOffsets(dts, record, t);
    RecordIsStable(d, dts, dts + [t]);
    assert IndexStable(t, dts + [t]);
    forall r | r in members
      ensures Fits(r, dts + [t], b)
    {
      StableSameOffsets(r, dts + [record], dts + [t]);
    }
  }

  lemma SameOffsets(dts: seq<DataType>, record: DataType, t: DataType)
    requires Extends(dts + [record], dts) && t.sectionOffset == record.sectionOffset
    ensures Extends(dts + [t], dts) && Extends(dts + [t], dts + [record])
  {
    var a, b := dts + [record], dts + [t];
    assert forall i :: 0 <= i < |b| ==> b[i].sectionOffset == a[i].sectionOffset;
  }

  lemma StableSameOffsets(r: DataType, a: seq<DataType>, b: seq<DataType>)
    requires IndexStable(r, a) && |a| == |b| && forall i :: 0 <= i < |a| ==> a[i].sectionOffset == b[i].sectionOffset
    ensures IndexStable(r, b)
  {
  }

  // ----- The whole unit

  /** Everything in `tops`, at any depth, comes before offset `b`. */
  ghost predicate AllBefore(ds: seq<Die>, b: int) {
    forall d <- ds :: d.offset < b
  }

  /** In preorder the last top-level entry comes after everything before it and before
      everything below it. */
  lemma PreorderSplits(tops: seq<Die>, b: int)
    requires tops != [] && Increasing(PreorderAll(tops)) && AllBefore(PreorderAll(tops), b)
    ensures var init, d := tops[..|tops| - 1], tops[|tops| - 1];
            && Increasing(PreorderAll(init)) && AllBefore(PreorderAll(init), d.offset)
            && AllBefore(Below(d), b) && d.offset < b
  {
    var init, d := tops[..|tops| - 1], tops[|tops| - 1];
    var all, front := PreorderAll(tops), PreorderAll(init);
    assert Preorder(d) == [d] + Below(d);
    assert all == front + Preorder(d);
    assert all[|front|] == d;
    assert forall i :: 0 <= i < |front| ==> all[i] == front[i];
    forall x | x in Below(d)
      ensures x.offset < b
    {
      assert x in all;
    }
  }

  lemma CollectBefore(ds: seq<Die>, n: nat, b: int)
    requires AllBefore(ds, b) && n <= |ds|
    ensures AllBefore(Collect(ds), b) && AllBefore(Collect(ds[..n]), b) && AllBefore(Collect(ds[n..]), b)
  {
  }

  lemma ExtendsItself(dts: seq<DataType>)
    requires Sorted(dts)
    ensures Extends(dts, dts)
  {
  }

  /** A new type, complete or not, keeps the list sorted. */
  lemma TypeExtends(u: CompileUnit, d: Die)
    requires TidyUnit(u, d.offset)
    ensures Extends(u.datatypes + [RecordOf(d, u.datatypes)], u.datatypes)
    ensures Extends(u.datatypes + [RecordOf(d, u.datatypes)], u.datatypes + [RecordOf(d, u.datatypes)])
  {
    RecordOffset(d, u.datatypes);
    SortedSnoc(u.datatypes, RecordOf(d, u.datatypes), u.datatypes);
  }

  lemma AddEntry(u: CompileUnit, d: Die, funcAddr: string -> Word, b: int)
    requires TidyUnit(u, d.offset) && d.offset < b && AllBefore(Below(d), b)
    ensures d.tag == Subprogram ==> TidyUnit(u.(functions := u.functions + [FunctionSpec(d, u.datatypes, funcAddr)]), b)
    ensures d.tag == Variable ==> TidyUnit(u.(globalVariables := u.globalVariables + [RecordOf(d, u.datatypes)]), b)
    ensures d.tag != Subprogram && d.tag != Variable ==>
              TidyUnit(u.(datatypes := u.datatypes + [TypeSpec(d, u.datatypes)]), b)
  {
    hide AllTidy, Tidy, Extends, RecordsOf, RecordOf, Collect, Cut, WithLocals, FunctionRecordOf, AllBefore;
    var dts := u.datatypes;
    ExtendsItself(dts);
    CollectBefore(Below(d), Cut(Below(d)), b);
    match d.tag
    case Subprogram =>
      AddFunctionEntry(u, d, funcAddr, Collect(Below(d)[..Cut(Below(d))]), b);
    case Variable =>
      VariableTidy(d, dts, b);
      AddVariable(u, RecordOf(d, dts), d.offset, b);
    case _ =>
      AddTypeEntry(u, d, Collect(Below(d)), b);
  }

  lemma VariableTidy(d: Die, dts: seq<DataType>, b: int)
    requires Extends(dts, dts) && d.offset < b
    ensures Tidy(RecordOf(d, dts), dts, b)
  {
    RecordIsStable(d, dts, dts);
    RecordOffset(d, dts);
  }

  /** A function with any of the entries below it as locals. */
  lemma AddFunctionEntry(u: CompileUnit, d: Die, funcAddr: string -> Word, locals: seq<Die>, b: int)
    requires TidyUnit(u, d.offset) && d.offset < b && AllBefore(locals, b)
    ensures var f := FunctionRecordOf(d, u.datatypes, funcAddr);
            && TidyUnit(u.(functions := u.functions + [f]), b)
            && TidyUnit(u.(functions := u.functions + [WithLocals(f, RecordsOf(locals, u.datatypes))]), b)
            && AllFit(RecordsOf(locals, u.datatypes), u.datatypes, b)
  {
    hide AllTidy, Tidy, Extends, RecordsOf, WithLocals, FunctionRecordOf, AllFit;
    var dts := u.datatypes;
    var f := FunctionRecordOf(d, dts, funcAddr);
    ExtendsItself(dts);
    FunctionRecordTidy(d, dts, funcAddr, b);
    AddFunction(u, f, d.offset, b);
    RecordsFit(locals, dts, dts, b);
    WithLocalsTidy(f, RecordsOf(locals, dts), dts, b);
    AddFunction(u, WithLocals(f, RecordsOf(locals, dts)), d.offset, b);
  }

  /** A type with any of the entries below it as members, and without. */
  lemma AddTypeEntry(u: CompileUnit, d: Die, members: seq<Die>, b: int)
    requires TidyUnit(u, d.offset) && d.offset < b && AllBefore(members, b)
    ensures var record := RecordOf(d, u.datatypes);
            var rs := RecordsOf(members, u.datatypes + [record]);
            && TidyUnit(u.(datatypes := u.datatypes + [record]), b)
            && TidyUnit(u.(datatypes := u.datatypes + [record.(members := rs)]), b)
            && AllFit(rs, u.datatypes + [record], b)
  {
    hide AllTidy, Tidy, Extends, RecordsOf, AllFit, RecordOf;
    var dts := u.datatypes;
    var record := RecordOf(d, dts);
    var rs := RecordsOf(members, dts + [record]);
    RecordOffset(d, dts);
    TypeExtends(u, d);
    RecordsFit(members, dts + [record], dts + [record], b);
    TypeTidy(d, dts, rs, b);
    AddType(u, record.(members := rs), b);
    NoneFit(dts + [record], b);
    TypeTidy(d, dts, [], b);
    assert record.(members := []) == record;
    AddType(u, record, b);
  }

  lemma NoneFit(dts: seq<DataType>, b: int)
    ensures AllFit([], dts, b)
  {
  }

  lemma TidyStart(filename: string, b: int)
    ensures TidyUnit(CompileUnit(filename, [], [], []), b)
  {
  }

  lemma {:induction false} SpecIsTidy(filename: string, tops: seq<Die>, funcAddr: string -> Word, b: int)
    requires Increasing(PreorderAll(tops)) && AllBefore(PreorderAll(tops), b)
    ensures TidyUnit(UnitSpec(filename, tops, funcAddr), b)
    decreases |tops|
  {
    hide TidyUnit, Increasing, AllBefore, FunctionSpec, TypeSpec, RecordOf;
    if tops == [] {
      TidyStart(filename, b);
    } else {
      var init, d := tops[..|tops| - 1], tops[|tops| - 1];
      PreorderSplits(tops, b);
      SpecIsTidy(filename, init, funcAddr, d.offset);
      AddEntry(UnitSpec(filename, init, funcAddr), d, funcAddr, b);
    }
  }

  /** In a tree whose offsets increase in preorder the types end up sorted, and every index
      set along the way, in the unit and among the records still pending, is stable. */
  lemma IndicesAreStable(root: Die, funcAddr: string -> Word, b: int)
    requires root.tag == CompileUnitTag
    requires Increasing(PreorderAll(root.children)) && AllBefore(PreorderAll(root.children), b)
    ensures var st := Process(root, 1, StartState(), funcAddr);
            TidyUnit(st.unit, b) && AllFit(st.members, st.unit.datatypes, b)
    ensures TidyUnit(UnitSpec(root.name, root.children, funcAddr), b)
  {
    hide TidyUnit, Increasing, AllBefore, FunctionSpec, TypeSpec, RecordOf, AllFit, UnitSpec, Process;
    hide Enter, Scanned;
    var tops := root.children;
    FlattenedUnit(root, funcAddr);
    SpecIsTidy(root.name, tops, funcAddr, b);
    if tops == [] {
      TidyStart(root.name, b);
      NoneFit([], b);
    } else {
      var init, d := tops[..|tops| - 1], tops[|tops| - 1];
      PreorderSplits(tops, b);
      SpecIsTidy(root.name, init, funcAddr, d.offset);
      PendingIsTidy(UnitSpec(root.name, init, funcAddr), d, funcAddr, b);
    }
  }

  lemma PendingIsTidy(u: CompileUnit, d: Die, funcAddr: string -> Word, b: int)
    requires TidyUnit(u, d.offset) && d.offset < b && AllBefore(Below(d), b)
    ensures var entered := Enter(d, State(u, [], NoTag), funcAddr);
            if d.tag == Subprogram then
              var st := Scanned(Below(d), entered.unit);
              TidyUnit(st.unit, b) && AllFit(st.members, st.unit.datatypes, b)
            else
              && TidyUnit(entered.unit, b)
              && AllFit(RecordsOf(Collect(Below(d)), entered.unit.datatypes), entered.unit.datatypes, b)
  {
    hide TidyUnit, AllBefore, RecordOf, FunctionRecordOf, AllFit, Collect, Cut, WithLocals, RecordsOf;
    var ds, n := Below(d), Cut(Below(d));
    CollectBefore(ds, n, b);
    match d.tag
    case Subprogram =>
      var f := FunctionRecordOf(d, u.datatypes, funcAddr);
      AddFunctionEntry(u, d, funcAddr, Collect(ds), b);
      AddFunctionEntry(u, d, funcAddr, Collect(ds[..n]), b);
      AddFunctionEntry(u, d, funcAddr, Collect(ds[n..]), b);
      var g := WithLocals(f, RecordsOf(Collect(ds[..n]), u.datatypes));
      assert (u.functions + [f])[|u.functions| := g] == u.functions + [g];
    case Variable =>
      SortedTypes(u, d.offset);
      ExtendsItself(u.datatypes);
      VariableTidy(d, u.datatypes, b);
      AddVariable(u, RecordOf(d, u.datatypes), d.offset, b);
      BeforeElements(Collect(ds), b);
      RecordsFit(Collect(ds), u.datatypes, u.datatypes, b);
    case _ =>
      AddTypeEntry(u, d, Collect(ds), b);
  }

  lemma SortedTypes(u: CompileUnit, b: int)
    requires TidyUnit(u, b)
    ensures Sorted(u.datatypes)
  {
  }

  lemma BeforeElements(ds: seq<Die>, b: int)
    requires AllBefore(ds, b)
    ensures forall d <- ds :: d.offset < b
  {
  }

  // ----- The flat list of types is fit for following offsets

  lemma {:induction false} TopsInPreorder(tops: seq<Die>)
    ensures forall d <- tops :: d in PreorderAll(tops)
  {
    if tops != [] {
      var init, last := tops[..|tops| - 1], tops[|tops| - 1];
      TopsInPreorder(init);
      assert Preorder(last)[0] == last;
      assert tops == init + [last];
    }
  }

  ghost predicate AllPositive(dts: seq<DataType>) {
    forall t <- dts :: t.sectionOffset > 0
  }

  lemma PositiveSnoc(dts: seq<DataType>, t: DataType)
    requires AllPositive(dts) && t.sectionOffset > 0
    ensures AllPositive(dts + [t])
  {
  }

  lemma {:induction false} SpecIsPositive(filename: string, tops: seq<Die>, funcAddr: string -> Word)
    requires forall d <- tops :: d.offset > 0
    ensures AllPositive(UnitSpec(filename, tops, funcAddr).datatypes)
    decreases |tops|
  {
    hide FunctionSpec, AllPositive, RecordsOf, Collect, IndexOf;
    if tops == [] {
      assert AllPositive([]) by {
        NonePositive();
      }
    } else {
      var init, d := tops[..|tops| - 1], tops[|tops| - 1];
      SpecIsPositive(filename, init, funcAddr);
      var dts := UnitSpec(filename, init, funcAddr).datatypes;
      PositiveSnoc(dts, TypeSpec(d, dts));
    }
  }

  lemma NonePositive()
    ensures AllPositive([])
  {
  }

  lemma PendingIsPositive(filename: string, tops: seq<Die>, funcAddr: string -> Word)
    requires forall d <- tops :: d.offset > 0
    ensures AllPositive(Pending(filename, tops, funcAddr).unit.datatypes)
  {
    hide FunctionSpec, TypeSpec, AllPositive, RecordsOf, Collect, IndexOf, Cut, WithLocals, UnitSpec;
    if tops == [] {
      NonePositive();
    } else {
      var init, d := tops[..|tops| - 1], tops[|tops| - 1];
      SpecIsPositive(filename, init, funcAddr);
      var dts := UnitSpec(filename, init, funcAddr).datatypes;
      PositiveSnoc(dts, RecordOf(d, dts));
    }
  }

  /** A compile unit as it stands in a file. */
  ghost predicate ProperTree(root: Die) {
    && root.tag == CompileUnitTag && Increasing(PreorderAll(root.children))
    && forall d <- PreorderAll(root.children) :: d.offset > 0
  }

  /** Flattening a tree with positive offsets that increase in preorder gives a list of types
      with the offsets that the type chains and the restart scan rely on. */
  lemma FlattenedOffsetsAreProper(root: Die, funcAddr: string -> Word)
    requires ProperTree(root)
    ensures ProperOffsets(Process(root, 1, StartState(), funcAddr).unit.datatypes)
  {
    hide Process, Pending;
    var all := PreorderAll(root.children);
    var b := if all == [] then 0 else all[|all| - 1].offset + 1;
    assert AllBefore(all, b) by {
      LastIsGreatest(all);
    }
    TopsInPreorder(root.children);
    IndicesAreStable(root, funcAddr, b);
    FlattenedUnit(root, funcAddr);
    PendingIsPositive(root.name, root.children, funcAddr);
    var dts := Process(root, 1, StartState(), funcAddr).unit.datatypes;
    assert forall i :: 0 <= i < |dts| ==> dts[i] in dts;
  }

  lemma LastIsGreatest(ds: seq<Die>)
    requires Increasing(ds)
    ensures ds != [] ==> AllBefore(ds, ds[|ds| - 1].offset + 1)
  {
  }
}
