/** What the threaded traversal computes, entry by entry. */
module FlattenerTheorems {
  import opened Memory
  import opened Common
  import opened DieTree
  import opened Flattener

  // ----- Below the top level the traversal is a scan of the entries in preorder

  function Scan(ds: seq<Die>, st: State): State {
    if ds == [] then st else Descend(ds[|ds| - 1], Scan(ds[..|ds| - 1], st))
  }

  lemma ScanSnoc(ds: seq<Die>, d: Die, st: State)
    ensures Scan(ds + [d], st) == Descend(d, Scan(ds, st))
  {
    assert (ds + [d])[..|ds|] == ds;
  }

  lemma {:induction false} ScanConcat(a: seq<Die>, b: seq<Die>, st: State)
    ensures Scan(a + b, st) == Scan(b, Scan(a, st))
    decreases |b|
  {
    hide Descend;
    if b == [] {
      assert a + b == a;
    } else {
      var init, last := b[..|b| - 1], b[|b| - 1];
      ScanConcat(a, init, st);
      ScanSnoc(a + init, last, st);
      assert a + b == a + init + [last];
    }
  }

  lemma {:induction false} ProcessIsScan(d: Die, depth: nat, st: State, funcAddr: string -> Word)
    requires depth > 2
    ensures Process(d, depth, st, funcAddr) == Scan(Preorder(d), st)
    decreases d, 1
  {
    hide Descend;
    ProcessAllIsScan(d.children, depth + 1, Descend(d, st), funcAddr);
    ScanConcat([d], PreorderAll(d.children), st);
    ScanSnoc([], d, st);
    assert [] + [d] == [d];
  }

  lemma {:induction false} ProcessAllIsScan(ds: seq<Die>, depth: nat, st: State, funcAddr: string -> Word)
    requires depth > 2
    ensures ProcessAll(ds, depth, st, funcAddr) == Scan(PreorderAll(ds), st)
    decreases ds, 0
  {
    hide Descend, Preorder, Process;
    if ds != [] {
      var init, last := ds[..|ds| - 1], ds[|ds| - 1];
      ProcessAllIsScan(init, depth, st, funcAddr);
      ProcessIsScan(last, depth, Scan(PreorderAll(init), st), funcAddr);
      ScanConcat(PreorderAll(init), Preorder(last), st);
    }
  }

  /** A top-level entry flushes its predecessor, enters itself, and scans what is below it. */
  lemma TopLevel(d: Die, st: State, funcAddr: string -> Word)
    ensures Process(d, 2, st, funcAddr) == Scan(Below(d), Enter(d, Flush(st), funcAddr))
  {
    ProcessAllIsScan(d.children, 3, Enter(d, Flush(st), funcAddr), funcAddr);
  }

  // ----- What a scan collects

  lemma RecordsConcat(a: seq<Die>, b: seq<Die>, dts: seq<DataType>)
    ensures RecordsOf(a + b, dts) == RecordsOf(a, dts) + RecordsOf(b, dts)
  {
    hide RecordOf;
    var whole, parts := RecordsOf(a + b, dts), RecordsOf(a, dts) + RecordsOf(b, dts);
    forall i | 0 <= i < |whole|
      ensures whole[i] == parts[i]
    {
      assert (a + b)[i] == if i < |a| then a[i] else b[i - |a|];
    }
  }

  lemma RecordsSnoc(ds: seq<Die>, d: Die, dts: seq<DataType>)
    ensures RecordsOf(Collect(ds + [d]), dts) ==
            RecordsOf(Collect(ds), dts) + if Collectable(d) then [RecordOf(d, dts)] else []
  {
    hide RecordOf, Collect;
    CollectSnoc(ds, d);
    var last := if Collectable(d) then [d] else [];
    RecordsConcat(Collect(ds), last, dts);
    assert RecordsOf(last, dts) == if Collectable(d) then [RecordOf(d, dts)] else [];
  }

  /** Under a type or a variable everything collectable is collected. */
  lemma {:induction false} ScanCollects(ds: seq<Die>, st: State)
    requires st.prevTag != Functions
    ensures Scan(ds, st) == st.(members := st.members + RecordsOf(Collect(ds), st.unit.datatypes))
    decreases |ds|
  {
    if ds == [] {
      assert RecordsOf(Collect(ds), st.unit.datatypes) == [];
    } else {
      var init, last := ds[..|ds| - 1], ds[|ds| - 1];
      ScanCollects(init, st);
      RecordsSnoc(init, last, st.unit.datatypes);
      assert init + [last] == ds;
    }
  }

  /** What a function's scan leaves behind: everything up to the cut belongs to the function,
      the rest to nobody. */
  function Scanned(ds: seq<Die>, u: CompileUnit): State {
    var n := Cut(ds);
    if n == |ds| then State(u, RecordsOf(Collect(ds), u.datatypes), Functions)
    else State(AttachToFunction(u, RecordsOf(Collect(ds[..n]), u.datatypes)),
               RecordsOf(Collect(ds[n..]), u.datatypes), NoTag)
  }

  lemma DescendUnattached(d: Die, st: State)
    requires st.prevTag == NoTag
    ensures Descend(d, st) ==
            st.(members := st.members + if Collectable(d) then [RecordOf(d, st.unit.datatypes)] else [])
  {
  }

  lemma AttachKeepsTypes(u: CompileUnit, rs: seq<DataType>)
    ensures AttachToFunction(u, rs).datatypes == u.datatypes
  {
  }

  lemma SliceSnoc(ds: seq<Die>, d: Die, n: nat)
    requires n <= |ds|
    ensures (ds + [d])[..n] == ds[..n] && (ds + [d])[n..] == ds[n..] + [d]
  {
  }

  lemma ScannedAfterCut(ds: seq<Die>, d: Die, u: CompileUnit)
    requires u.functions != [] && Cut(ds) < |ds|
    ensures Scanned(ds + [d], u) == Descend(d, Scanned(ds, u))
  {
    hide RecordsOf, RecordOf, Collect, AttachToFunction, Descend, Collectable, Cut;
    var n := Cut(ds);
    CutSnoc(ds, d);
    AttachKeepsTypes(u, RecordsOf(Collect(ds[..n]), u.datatypes));
    DescendUnattached(d, Scanned(ds, u));
    RecordsSnoc(ds[n..], d, u.datatypes);
    SliceSnoc(ds, d, n);
  }

  lemma ScannedBeforeCut(ds: seq<Die>, d: Die, u: CompileUnit)
    requires u.functions != [] && Cut(ds) == |ds|
    ensures Scanned(ds + [d], u) == Descend(d, Scanned(ds, u))
  {
    hide RecordOf, Collect, WithLocals, Cut, RecordsOf, AttachToFunction;
    var ds' := ds + [d];
    CutSnoc(ds, d);
    RecordsSnoc(ds, d, u.datatypes);
    if d.tag == InlinedSubroutine && Collect(ds) != [] {
      assert ds'[..|ds|] == ds && ds'[|ds|..] == [] + [d];
      CollectSnoc([], d);
      CollectNothing();
      assert RecordsOf([], u.datatypes) == [];
    }
  }

  lemma CollectNothing()
    ensures Collect([]) == []
  {
  }

  lemma ScannedSnoc(ds: seq<Die>, d: Die, u: CompileUnit)
    requires u.functions != []
    ensures Scanned(ds + [d], u) == Descend(d, Scanned(ds, u))
  {
    hide Scanned, Descend;
    if Cut(ds) < |ds| {
      ScannedAfterCut(ds, d, u);
    } else {
      ScannedBeforeCut(ds, d, u);
    }
  }

  lemma {:induction false} ScanFunction(ds: seq<Die>, u: CompileUnit)
    requires u.functions != []
    ensures Scan(ds, State(u, [], Functions)) == Scanned(ds, u)
    decreases |ds|
  {
    hide Descend, Scanned;
    if ds == [] {
      ScannedNothing(u);
    } else {
      var init, last := ds[..|ds| - 1], ds[|ds| - 1];
      ScanFunction(init, u);
      ScannedSnoc(init, last, u);
      assert init + [last] == ds;
    }
  }

  lemma ScannedNothing(u: CompileUnit)
    ensures Scanned([], u) == State(u, [], Functions)
  {
    assert RecordsOf(Collect([]), u.datatypes) == [];
  }

  // ----- The state after a list of top-level entries

  /** All entries but the last as they should be, the last one entered and scanned. */
  function Pending(filename: string, tops: seq<Die>, funcAddr: string -> Word): State {
    if tops == [] then State(CompileUnit(filename, [], [], []), [], NoTag)
    else
      var u := UnitSpec(filename, tops[..|tops| - 1], funcAddr);
      var d := tops[|tops| - 1];
      var entered := Enter(d, State(u, [], NoTag), funcAddr);
      if d.tag == Subprogram then Scanned(Below(d), entered.unit)
      else entered.(members := RecordsOf(Collect(Below(d)), entered.unit.datatypes))
  }

  lemma LocalsOfNone(f: DataType)
    ensures WithLocals(f, []) == f
  {
  }

  lemma EnterIsPending(u: CompileUnit, d: Die, funcAddr: string -> Word)
    ensures var entered := Enter(d, State(u, [], NoTag), funcAddr);
            Scan(Below(d), entered) ==
            if d.tag == Subprogram then Scanned(Below(d), entered.unit)
            else entered.(members := RecordsOf(Collect(Below(d)), entered.unit.datatypes))
  {
    var entered := Enter(d, State(u, [], NoTag), funcAddr);
    if d.tag == Subprogram {
      ScanFunction(Below(d), entered.unit);
    } else {
      ScanCollects(Below(d), entered);
      var rs := RecordsOf(Collect(Below(d)), entered.unit.datatypes);
      assert [] + rs == rs;
    }
  }

  lemma FlushFunction(u: CompileUnit, d: Die, funcAddr: string -> Word)
    requires d.tag == Subprogram
    ensures var entered := Enter(d, State(u, [], NoTag), funcAddr);
            Flush(Scanned(Below(d), entered.unit)) ==
            State(u.(functions := u.functions + [FunctionSpec(d, u.datatypes, funcAddr)]), [],
                  Flush(Scanned(Below(d), entered.unit)).prevTag)
  {
    hide RecordsOf, Collect, WithLocals, FunctionRecordOf;
    var below, record := Below(d), FunctionRecordOf(d, u.datatypes, funcAddr);
    var n := Cut(below);
    var kept := RecordsOf(Collect(below[..n]), u.datatypes);
    LocalsOfNone(record);
    assert n == |below| ==> below[..n] == below;
    var f := WithLocals(record, kept);
    assert (u.functions + [record])[|u.functions| := f] == u.functions + [f];
  }

  lemma FlushType(u: CompileUnit, d: Die, funcAddr: string -> Word)
    requires d.tag != Subprogram && d.tag != Variable
    ensures var entered := Enter(d, State(u, [], NoTag), funcAddr);
            var pending := entered.(members := RecordsOf(Collect(Below(d)), entered.unit.datatypes));
            && Flush(pending).unit == u.(datatypes := u.datatypes + [TypeSpec(d, u.datatypes)])
            && Flush(pending).members == []
  {
    hide RecordsOf, Collect, RecordOf;
    var record, spec := RecordOf(d, u.datatypes), TypeSpec(d, u.datatypes);
    assert RecordOf(d, u.datatypes).members == [] by {
      RecordHasNoMembers(d, u.datatypes);
    }
    assert (u.datatypes + [record])[|u.datatypes| := spec] == u.datatypes + [spec];
  }

  lemma RecordHasNoMembers(d: Die, dts: seq<DataType>)
    ensures RecordOf(d, dts).members == []
  {
  }

  /** One more run of the flush block completes the last entry too. */
  lemma FlushCompletes(filename: string, tops: seq<Die>, funcAddr: string -> Word)
    ensures Flush(Pending(filename, tops, funcAddr)).unit == UnitSpec(filename, tops, funcAddr)
    ensures Flush(Pending(filename, tops, funcAddr)).members == []
  {
    hide Flush, Scanned, TypeSpec, FunctionSpec, RecordsOf;
    if tops == [] {
      FlushNothing(Pending(filename, tops, funcAddr));
    } else {
      var u := UnitSpec(filename, tops[..|tops| - 1], funcAddr);
      var d := tops[|tops| - 1];
      match d.tag
      case Subprogram => FlushFunction(u, d, funcAddr);
      case Variable => FlushVariable(Pending(filename, tops, funcAddr));
      case _ => FlushType(u, d, funcAddr);
    }
  }

  lemma FlushNothing(st: State)
    requires st.members == []
    ensures Flush(st) == st
  {
  }

  lemma FlushVariable(st: State)
    requires st.prevTag == NoTag
    ensures Flush(st).unit == st.unit && Flush(st).members == []
  {
  }

  // ----- The whole unit

  lemma {:induction false} ProcessTops(filename: string, tops: seq<Die>, funcAddr: string -> Word)
    ensures ProcessAll(tops, 2, State(CompileUnit(filename, [], [], []), [], NoTag), funcAddr)
         == Pending(filename, tops, funcAddr)
    decreases |tops|
  {
    hide Scanned, Enter, Flush, Process, UnitSpec;
    if tops != [] {
      var init, d := tops[..|tops| - 1], tops[|tops| - 1];
      ProcessTops(filename, init, funcAddr);
      TopLevel(d, Pending(filename, init, funcAddr), funcAddr);
      FlushedState(filename, init, funcAddr);
      EnterAfterFlush(d, Flush(Pending(filename, init, funcAddr)), funcAddr);
      EnterIsPending(UnitSpec(filename, init, funcAddr), d, funcAddr);
    }
  }

  lemma FlushedState(filename: string, tops: seq<Die>, funcAddr: string -> Word)
    ensures var st := Flush(Pending(filename, tops, funcAddr));
            st.unit == UnitSpec(filename, tops, funcAddr) && st.members == []
  {
    FlushCompletes(filename, tops, funcAddr);
  }

  /** Entering a new top-level entry forgets what the previous one was. */
  lemma EnterAfterFlush(d: Die, st: State, funcAddr: string -> Word)
    requires st.members == []
    ensures Enter(d, st, funcAddr) == Enter(d, State(st.unit, [], NoTag), funcAddr)
  {
  }

  /** On return from the root every top-level entry but the last is exactly as specified,
      and the last is entered, with what is below it still pending. */
  lemma FlattenedUnit(root: Die, funcAddr: string -> Word)
    requires root.tag == CompileUnitTag
    ensures Process(root, 1, StartState(), funcAddr) == Pending(root.name, root.children, funcAddr)
  {
    hide Enter, Flush, Descend, Pending;
    ProcessTops(root.name, root.children, funcAddr);
  }

  /** One more run of the flush block makes every record, the last included, as specified. */
  lemma FlattenedAfterFlush(root: Die, funcAddr: string -> Word)
    requires root.tag == CompileUnitTag
    ensures Flush(Process(root, 1, StartState(), funcAddr)).unit == UnitSpec(root.name, root.children, funcAddr)
  {
    hide Flush, Pending, UnitSpec, Process;
    FlattenedUnit(root, funcAddr);
    FlushCompletes(root.name, root.children, funcAddr);
  }

  function IsPrefix(a: seq<DataType>, b: seq<DataType>): bool {
    |a| <= |b| && b[..|a|] == a
  }

  /** The records of all top-level entries but the last are final without that flush. */
  lemma AllButLastAreFinal(root: Die, funcAddr: string -> Word)
    requires root.tag == CompileUnitTag && root.children != []
    ensures var u := Process(root, 1, StartState(), funcAddr).unit;
            var spec := UnitSpec(root.name, root.children[..|root.children| - 1], funcAddr);
            && IsPrefix(spec.functions, u.functions)
            && IsPrefix(spec.datatypes, u.datatypes)
            && IsPrefix(spec.globalVariables, u.globalVariables)
            && |u.functions| + |u.datatypes| + |u.globalVariables|
            == |spec.functions| + |spec.datatypes| + |spec.globalVariables| + 1
  {
    hide Process, Collect, Cut, WithLocals, RecordOf, FunctionRecordOf;
    FlattenedUnit(root, funcAddr);
  }

  /** What was below the last top-level entry has reached it already. */
  predicate LastIsComplete(tops: seq<Die>) {
    tops == [] ||
    var d := tops[|tops| - 1];
    match d.tag
    case Variable => true
    case Subprogram => Cut(Below(d)) < |Below(d)| || forall r <- Collect(Below(d)) :: r.tag == Member
    case _ => Collect(Below(d)) == []
  }

  lemma {:induction false} NoLocalsIff(rs: seq<DataType>)
    ensures ParametersIn(rs) == [] && VariablesIn(rs) == []
       <==> forall i :: 0 <= i < |rs| ==> !IsParameter(rs[i]) && rs[i].tag != Variable
  {
    if rs != [] {
      var init := rs[..|rs| - 1];
      NoLocalsIff(init);
      assert forall i :: 0 <= i < |init| ==> init[i] == rs[i];
    }
  }

  lemma LocalsVanishIff(f: DataType, rs: seq<DataType>)
    requires f.parameters == [] && f.members == []
    ensures WithLocals(f, rs) == f <==> ParametersIn(rs) == [] && VariablesIn(rs) == []
  {
    hide ParametersIn, VariablesIn;
    assert [] + ParametersIn(rs) == ParametersIn(rs) && [] + VariablesIn(rs) == VariablesIn(rs);
  }

  lemma LastFunctionCompleteIff(d: Die, dts: seq<DataType>, funcAddr: string -> Word)
    ensures (var record := FunctionRecordOf(d, dts, funcAddr);
             record == WithLocals(record, RecordsOf(Collect(Below(d)), dts)))
       <==> forall r <- Collect(Below(d)) :: r.tag == Member
  {
    hide ParametersIn, VariablesIn, WithLocals, Collect;
    var ds := Collect(Below(d));
    var rs := RecordsOf(ds, dts);
    LocalsVanishIff(FunctionRecordOf(d, dts, funcAddr), rs);
    NoLocalsIff(rs);
    assert forall i :: 0 <= i < |rs| ==> rs[i].tag == ds[i].tag;
  }

  /** Without one more flush the unit is as specified exactly when nothing was pending for
      its last top-level entry. */
  lemma LastEntryIsFinalIff(root: Die, funcAddr: string -> Word)
    requires root.tag == CompileUnitTag
    ensures Process(root, 1, StartState(), funcAddr).unit == UnitSpec(root.name, root.children, funcAddr)
       <==> LastIsComplete(root.children)
  {
    FlattenedUnit(root, funcAddr);
    var tops := root.children;
    if tops != [] {
      hide Process, Collect, Cut, WithLocals, RecordsOf;
      var u := UnitSpec(root.name, tops[..|tops| - 1], funcAddr);
      var d := tops[|tops| - 1];
      match d.tag
      case Subprogram => FinalFunctionIff(u, d, funcAddr);
      case Variable =>
      case _ => FinalTypeIff(u, d);
    }
  }

  lemma FinalFunctionIff(u: CompileUnit, d: Die, funcAddr: string -> Word)
    ensures var record := FunctionRecordOf(d, u.datatypes, funcAddr);
            Scanned(Below(d), u.(functions := u.functions + [record])).unit
            == u.(functions := u.functions + [FunctionSpec(d, u.datatypes, funcAddr)])
            <==> Cut(Below(d)) < |Below(d)| || forall r <- Collect(Below(d)) :: r.tag == Member
  {
    hide Collect, Cut, WithLocals, RecordsOf, FunctionRecordOf;
    var record, spec := FunctionRecordOf(d, u.datatypes, funcAddr), FunctionSpec(d, u.datatypes, funcAddr);
    LastFunctionCompleteIff(d, u.datatypes, funcAddr);
    SnocEqual(u.functions, record, spec);
    assert Below(d)[..|Below(d)|] == Below(d);
    assert (u.functions + [record])[|u.functions| := spec] == u.functions + [spec];
  }

  lemma FinalTypeIff(u: CompileUnit, d: Die)
    ensures var record := RecordOf(d, u.datatypes);
            u.(datatypes := u.datatypes + [record]) == u.(datatypes := u.datatypes + [TypeSpec(d, u.datatypes)])
            <==> Collect(Below(d)) == []
  {
    hide Collect;
    SnocEqual(u.datatypes, RecordOf(d, u.datatypes), TypeSpec(d, u.datatypes));
  }

  lemma SnocEqual(s: seq<DataType>, a: DataType, b: DataType)
    ensures s + [a] == s + [b] <==> a == b
  {
    assert (s + [a])[|s|] == a && (s + [b])[|s|] == b;
  }
}
