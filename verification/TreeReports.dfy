/** From the tree of debugging information entries to the report of a call: which function is
    named, and which parameters are printed. */
module TreeReports {
  import opened Memory
  import opened Common
  import opened Helpers
  import opened TypeChain
  import opened TypeNames
  import opened DieTree
  import opened Flattener
  import opened TreeUnits
  import opened Breakpoints
  import opened FunctionBreakpoints
  import opened Payload
  import opened Arguments
  import opened NativeReports
  import Cpu
  import Native
  import Runs

  // ----- One parameter

  lemma PointerKeepsName(p: Param, mem: Mem, v: Word, s: Shape)
    ensures PointerValued(p, mem, v, s).name == p.name
  {
    hide PeekData, LongToHexString;
  }

  lemma ReportedName(dts: seq<DataType>, param: DataType, regs: Cpu.Regs, mem: Mem, i: nat)
    ensures Reported(dts, param, regs, mem, i).name == param.name
  {
    hide PointerValued, ShapeOf, NameAlong, WholeChain, LongToHexString, PeekData;
    if i < 6 {
      var q, s := TypedParam(dts, param), ShapeOfParam(dts, param);
      var v := ValueOf(regs, i);
      PointerKeepsName(q.(isComplex := s.complex, value := LongToHexString(v)), mem, v, s);
    }
  }

  /** Printing a parameter looks only at the name, the tag and the type of its record. */
  lemma RestIsNotRead(dts: seq<DataType>, r: DataType, r': DataType, regs: Cpu.Regs, mem: Mem, i: nat)
    requires r.name == r'.name && r.tag == r'.tag && r.typ == r'.typ
    ensures Reported(dts, r, regs, mem, i) == Reported(dts, r', regs, mem, i)
  {
    hide Valued, NameAlong, WholeChain;
  }

  /** Where a function starts that can have a breakpoint. */
  ghost predicate StartsFunction(roots: seq<Die>, funcAddr: string -> Word, a: Word) {
    exists root <- roots, d <- root.children ::
      d.tag == Subprogram && StartOf(d, funcAddr) == a && d.name != "" && d.declLine != 0
  }

  /** A symbol table records a function at the address. */
  ghost predicate HasFunctionSymbol(sections: seq<Section>, a: Word) {
    exists section <- sections, s <- section.symbols ::
      section.isSymbolTable && s.isFunc && s.value == a && 0 < a < 0x8000_0000_0000_0000
  }

  lemma {:induction false} SymbolsAre(sections: seq<Section>, s: Symbol)
    ensures s in AllSymbols(sections) <==> exists section <- sections :: section.isSymbolTable && s in section.symbols
  {
    if sections != [] {
      var init, last := sections[..|sections| - 1], sections[|sections| - 1];
      SymbolsAre(init, s);
      assert sections == init + [last];
    }
  }

  /** The symbols of the tables are recorded table by table, in order. */
  lemma SymbolsInOrder(sections: seq<Section>, last: Section)
    ensures AllSymbols([]) == []
    ensures AllSymbols(sections + [last]) ==
            if last.isSymbolTable then AllSymbols(sections) + last.symbols else AllSymbols(sections)
  {
    assert (sections + [last])[..|sections|] == sections;
  }

  lemma MappedIffSymbol(sections: seq<Section>, m: map<Word, Symbol>, a: Word)
    requires MapsToLast(AllSymbols(sections), m)
    ensures a in m <==> HasFunctionSymbol(sections, a)
  {
    var symbols := AllSymbols(sections);
    if a in m {
      var i: nat :| LastSymbolAt(symbols, a, i);
      SymbolsAre(sections, symbols[i]);
      var section :| section in sections && section.isSymbolTable && symbols[i] in section.symbols;
      assert HasFunctionSymbol(sections, a);
    }
    if HasFunctionSymbol(sections, a) {
      var section, s :| section in sections && s in section.symbols
                        && section.isSymbolTable && s.isFunc && s.value == a && 0 < a < 0x8000_0000_0000_0000;
      SymbolsAre(sections, s);
      var i :| 0 <= i < |symbols| && symbols[i] == s;
      assert IsFunctionSymbol(symbols[i]);
    }
  }

  lemma {:induction false} EntryIsListed(ds: seq<Die>, d: Die, tags: set<Tag>)
    requires d in ds && d.tag in tags
    ensures d in Entries(ds, tags)
  {
    var init, last := ds[..|ds| - 1], ds[|ds| - 1];
    assert ds == init + [last];
    if d != last {
      EntryIsListed(init, d, tags);
    }
  }

  lemma FunctionOfEntry(root: Die, funcAddr: string -> Word, d: Die)
    requires root.tag == CompileUnitTag && d in root.children && d.tag == Subprogram
    ensures exists f <- Process(root, 1, StartState(), funcAddr).unit.functions ::
              f.lowPc == StartOf(d, funcAddr) && f.name == d.name && f.declLine == d.declLine
  {
    hide Process, Entries, KeepsParameters, ParametersBelow, VariablesBelow;
    FlattenedMatches(root, funcAddr);
    EntryIsListed(root.children, d, {Subprogram});
    var j :| 0 <= j < |SubprogramsIn(root.children)| && SubprogramsIn(root.children)[j] == d;
    var f := Process(root, 1, StartState(), funcAddr).unit.functions[j];
    assert FunctionMatches(f, d, funcAddr, KeepsParameters(root.children, j));
  }

  lemma TargetStartsFunction(roots: seq<Die>, funcAddr: string -> Word, m: map<Word, Symbol>, a: Word)
    requires forall root <- roots :: root.tag == CompileUnitTag
    requires a in Targets(UnitsOf(roots, funcAddr), m)
    ensures a in m && StartsFunction(roots, funcAddr, a)
  {
    hide Process, KeepsParameters, ParametersBelow, VariablesBelow;
    var units := UnitsOf(roots, funcAddr);
    var cu: nat, fn: nat :| EligibleAt(units, m, cu, fn) && units[cu].functions[fn].lowPc == a;
    assert roots[cu] in roots;
    FlattenedMatches(roots[cu], funcAddr);
    var d := SubprogramsIn(roots[cu].children)[fn];
    assert FunctionMatches(units[cu].functions[fn], d, funcAddr, KeepsParameters(roots[cu].children, fn));
    assert d in roots[cu].children;
  }

  lemma FunctionIsTarget(roots: seq<Die>, funcAddr: string -> Word, m: map<Word, Symbol>, a: Word)
    requires forall root <- roots :: root.tag == CompileUnitTag
    requires a in m && a != 0 && StartsFunction(roots, funcAddr, a)
    ensures a in Targets(UnitsOf(roots, funcAddr), m)
  {
    hide Process, Entries, StartOf;
    var units := UnitsOf(roots, funcAddr);
    var root, d :| root in roots && d in root.children
                   && d.tag == Subprogram && StartOf(d, funcAddr) == a && d.name != "" && d.declLine != 0;
    FunctionOfEntry(root, funcAddr, d);
    var cu :| 0 <= cu < |roots| && roots[cu] == root;
    var f :| f in units[cu].functions && f.lowPc == a && f.name == d.name && f.declLine == d.declLine;
    var fn :| 0 <= fn < |units[cu].functions| && units[cu].functions[fn] == f;
    assert EligibleAt(units, m, cu, fn);
  }

  /** Exactly those addresses get a breakpoint at which a named function with a line starts and
      a function symbol is recorded. */
  lemma BreakpointsAreFunctions(roots: seq<Die>, funcAddr: string -> Word, sections: seq<Section>,
                                m: map<Word, Symbol>, a: Word)
    requires MapsToLast(AllSymbols(sections), m) && forall root <- roots :: root.tag == CompileUnitTag
    ensures a in Targets(UnitsOf(roots, funcAddr), m)
       <==> StartsFunction(roots, funcAddr, a) && HasFunctionSymbol(sections, a)
  {
    hide MapsToLast, HasFunctionSymbol, Targets, StartsFunction;
    MappedIffSymbol(sections, m, a);
    if a in Targets(UnitsOf(roots, funcAddr), m) {
      TargetStartsFunction(roots, funcAddr, m, a);
    }
    if StartsFunction(roots, funcAddr, a) && HasFunctionSymbol(sections, a) {
      PositiveSymbol(sections, a);
      FunctionIsTarget(roots, funcAddr, m, a);
    }
  }

  lemma PositiveSymbol(sections: seq<Section>, a: Word)
    requires HasFunctionSymbol(sections, a)
    ensures a != 0
  {
  }

  // ----- A run

  /** `ps` are the parameters at the entries `ds`, in order, printed from the registers `regs`
      and, where the words read hold no breakpoint, the native memory `mem`. */
  ghost predicate PrintsEntries(ps: seq<Param>, dts: seq<DataType>, ds: seq<Die>,
                                regs: Cpu.Regs, mem: Mem, bps: set<Word>)
  {
    && |ps| == |ds|
    && forall n :: 0 <= n < |ds| ==>
         && ps[n].name == ds[n].name
         && ps[n] == Reported(dts, RecordOf(ds[n], []), regs, Cpu.Overlay(mem, bps), n)
         && (ArgumentClear(dts, RecordOf(ds[n], []), regs, mem, bps, n)
             ==> ps[n] == Reported(dts, RecordOf(ds[n], []), regs, mem, n))
  }

  lemma EntriesArePrinted(ps: seq<Param>, dts: seq<DataType>, rs: seq<DataType>, ds: seq<Die>,
                          regs: Cpu.Regs, mem: Mem, bps: set<Word>)
    requires RecordsAll(rs, ds) && ps == ReportedAll(dts, rs, regs, Cpu.Overlay(mem, bps))
    ensures PrintsEntries(ps, dts, ds, regs, mem, bps)
  {
    hide Reported, ArgumentClear, Cpu.Overlay, IndexOf;
    forall n | 0 <= n < |ds|
      ensures ps[n].name == ds[n].name
      ensures ps[n] == Reported(dts, RecordOf(ds[n], []), regs, Cpu.Overlay(mem, bps), n)
      ensures ArgumentClear(dts, RecordOf(ds[n], []), regs, mem, bps, n)
              ==> ps[n] == Reported(dts, RecordOf(ds[n], []), regs, mem, n)
    {
      assert Records(rs[n], ds[n]);
      RestIsNotRead(dts, rs[n], RecordOf(ds[n], []), regs, Cpu.Overlay(mem, bps), n);
      ReportedName(dts, RecordOf(ds[n], []), regs, Cpu.Overlay(mem, bps), n);
      if ArgumentClear(dts, RecordOf(ds[n], []), regs, mem, bps, n) {
        ArgumentIsNative(dts, RecordOf(ds[n], []), regs, mem, bps, n);
      }
    }
  }

  /** The report of a call to subprogram number `j` in the unit of `root`, which starts where the
      native machine `t` is, from its registers and its memory. */
  ghost predicate ReportsCall(r: FunctionPayload, root: Die, j: nat, funcAddr: string -> Word,
                              dts: seq<DataType>, t: Cpu.Cpu, bps: set<Word>)
    requires j < |SubprogramsIn(root.children)|
  {
    var d := SubprogramsIn(root.children)[j];
    && StartOf(d, funcAddr) == t.pc && d.name != "" && d.declLine != 0
    && r.address == t.pc && r.name == d.name && r.filename == root.name && r.lineNo == d.declLine
    && r.totalParams == |r.paramVars|
    && if KeepsParameters(root.children, j) then PrintsEntries(r.paramVars, dts, ParametersBelow(d), t.regs, t.mem, bps)
       else r.paramVars == []
  }

  lemma PayloadReportsCall(root: Die, j: nat, funcAddr: string -> Word, t: Cpu.Cpu, bps: set<Word>)
    requires root.tag == CompileUnitTag && j < |SubprogramsIn(root.children)|
    requires var u := Process(root, 1, StartState(), funcAddr).unit;
             j < |u.functions| && u.functions[j].lowPc == t.pc
             && u.functions[j].name != "" && u.functions[j].declLine != 0
    ensures var u := Process(root, 1, StartState(), funcAddr).unit;
            ReportsCall(PayloadOf(u, u.functions[j], t.regs, Cpu.Overlay(t.mem, bps)), root, j, funcAddr,
                        u.datatypes, t, bps)
  {
    hide Process, KeepsParameters, ParametersBelow, VariablesBelow, PrintsEntries, RecordsAll, Reported;
    hide AddressesShown, SubprogramsIn, TypesMatch;
    FlattenedMatches(root, funcAddr);
    var u := Process(root, 1, StartState(), funcAddr).unit;
    var f := u.functions[j];
    var d := SubprogramsIn(root.children)[j];
    assert FunctionMatches(f, d, funcAddr, KeepsParameters(root.children, j));
    if KeepsParameters(root.children, j) {
      EntriesArePrinted(ReportedAll(u.datatypes, f.parameters, t.regs, Cpu.Overlay(t.mem, bps)),
                        u.datatypes, f.parameters, ParametersBelow(d), t.regs, t.mem, bps);
    }
  }

  /** Report number `i` of a run of a program with the trees `roots` is that of the native
      machine at its arrival number `i`: it names the function at some entry of a tree and
      prints the parameters below that entry, in order. */
  lemma RunReportsTree(roots: seq<Die>, funcAddr: string -> Word, symbolsMap: map<Word, Symbol>,
                       entries: map<Word, Breakpoint>, start: Cpu.Cpu, fuel: nat, end: Runs.RunEnd, steps: nat,
                       now: Cpu.Cpu, logged: seq<Native.Visit>, reported: seq<FunctionPayload>, i: nat)
    returns (k: nat, cu: nat, fn: nat)
    requires forall root <- roots :: root.tag == CompileUnitTag
    requires var units := UnitsOf(roots, funcAddr);
             && Described(units, symbolsMap, entries) && Runs.Resolves(units, entries)
             && Runs.RunIs(Runs.CalleesOf(units, entries), start, fuel, end, steps, now, logged, reported)
    requires i < |reported|
    ensures k < steps && Native.NativeRun(start, k).Alive? && |Native.Visits(start, entries.Keys, k)| == i
    ensures cu < |roots| && fn < |SubprogramsIn(roots[cu].children)|
    ensures ReportsCall(reported[i], roots[cu], fn, funcAddr, UnitsOf(roots, funcAddr)[cu].datatypes,
                        Native.NativeRun(start, k).s, entries.Keys)
  {
    hide Native.NativeRun, Native.Visits, Runs.RunIs, PayloadOf, ReportsCall, Cpu.Overlay, Process, SubprogramsIn;
    var units := UnitsOf(roots, funcAddr);
    k := Runs.ReportIsNative(Runs.CalleesOf(units, entries), start, fuel, end, steps, now, logged, reported, i);
    var t := Native.NativeRun(start, k).s;
    cu, fn := entries[t.pc].cuIndex, entries[t.pc].fnIndex;
    assert roots[cu] in roots;
    FlattenedMatches(roots[cu], funcAddr);
    assert FirstAt(units, symbolsMap, t.pc, cu, fn);
    PayloadReportsCall(roots[cu], fn, funcAddr, t, entries.Keys);
  }
}
