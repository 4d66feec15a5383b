/** src/debugger_manager.cc: the function symbols, and which functions get a breakpoint. */
module FunctionBreakpoints {
  import opened Memory
  import opened Common
  import opened Cpu
  import opened Breakpoints

  // ----- Function symbols

  predicate IsFunctionSymbol(s: Symbol) {
    s.isFunc && Int64(s.value) > 0
  }

  function AllSymbols(sections: seq<Section>): seq<Symbol> {
    if sections == [] then []
    else
      var last := sections[|sections| - 1];
      AllSymbols(sections[..|sections| - 1]) + if last.isSymbolTable then last.symbols else []
  }

  /** Index `i` holds the last function symbol recorded for address `a`. */
  ghost predicate LastSymbolAt(symbols: seq<Symbol>, a: Word, i: nat) {
    && i < |symbols| && IsFunctionSymbol(symbols[i]) && symbols[i].value == a
    && forall j :: i < j < |symbols| && IsFunctionSymbol(symbols[j]) ==> symbols[j].value != a
  }

  ghost predicate MapsToLast(symbols: seq<Symbol>, m: map<Word, Symbol>) {
    && (forall i :: 0 <= i < |symbols| && IsFunctionSymbol(symbols[i]) ==> symbols[i].value in m)
    && (forall a <- m :: exists i: nat :: LastSymbolAt(symbols, a, i) && m[a] == symbols[i])
  }

  lemma MapsToLastStart()
    ensures AllSymbols([]) == [] && MapsToLast([], map[])
  {
  }

  lemma AllSymbolsStep(sections: seq<Section>, i: nat)
    requires i < |sections|
    ensures AllSymbols(sections[..i + 1]) ==
            AllSymbols(sections[..i]) + if sections[i].isSymbolTable then sections[i].symbols else []
  {
    assert sections[..i + 1][..i] == sections[..i];
  }

  lemma MapsToLastStep(symbols: seq<Symbol>, m: map<Word, Symbol>, s: Symbol)
    requires MapsToLast(symbols, m)
    ensures MapsToLast(symbols + [s], if IsFunctionSymbol(s) then m[s.value := s] else m)
  {
    var symbols' := symbols + [s];
    var m' := if IsFunctionSymbol(s) then m[s.value := s] else m;
    forall a | a in m'
      ensures exists i: nat :: LastSymbolAt(symbols', a, i) && m'[a] == symbols'[i]
    {
      if IsFunctionSymbol(s) && a == s.value {
        assert LastSymbolAt(symbols', a, |symbols|);
      } else {
        var i: nat :| LastSymbolAt(symbols, a, i) && m[a] == symbols[i];
        assert LastSymbolAt(symbols', a, i);
      }
    }
  }

  // ----- Which functions get a breakpoint

  predicate Eligible(f: DataType, symbolsMap: map<Word, Symbol>) {
    f.lowPc != 0 && f.name != "" && f.declLine != 0 && f.lowPc in symbolsMap
  }

  predicate EligibleAt(units: seq<CompileUnit>, symbolsMap: map<Word, Symbol>, cu: nat, fn: nat) {
    cu < |units| && fn < |units[cu].functions| && Eligible(units[cu].functions[fn], symbolsMap)
  }

  predicate Before(cu: nat, fn: nat, cu': nat, fn': nat) {
    cu < cu' || (cu == cu' && fn < fn')
  }

  /** (cu, fn) is lexicographically first among the eligible functions that start at `a`. */
  ghost predicate FirstAt(units: seq<CompileUnit>, symbolsMap: map<Word, Symbol>, a: Word, cu: nat, fn: nat) {
    && EligibleAt(units, symbolsMap, cu, fn) && units[cu].functions[fn].lowPc == a
    && forall cu': nat, fn': nat ::
         EligibleAt(units, symbolsMap, cu', fn') && units[cu'].functions[fn'].lowPc == a
         ==> !Before(cu', fn', cu, fn)
  }

  /** The addresses that get a breakpoint. */
  ghost function Targets(units: seq<CompileUnit>, symbolsMap: map<Word, Symbol>): iset<Word> {
    iset cu: nat, fn: nat | EligibleAt(units, symbolsMap, cu, fn) :: units[cu].functions[fn].lowPc
  }

  ghost predicate HasFunction(units: seq<CompileUnit>, f: DataType) {
    exists cu: nat :: cu < |units| && f in units[cu].functions
  }

  /** The addresses do not depend on the order of the compile units or of their functions. */
  lemma TargetsIgnoreOrder(units: seq<CompileUnit>, units': seq<CompileUnit>, symbolsMap: map<Word, Symbol>)
    requires forall f: DataType :: HasFunction(units, f) <==> HasFunction(units', f)
    ensures forall a :: a in Targets(units, symbolsMap) <==> a in Targets(units', symbolsMap)
  {
    forall a
      ensures a in Targets(units, symbolsMap) <==> a in Targets(units', symbolsMap)
    {
      TargetIff(units, symbolsMap, a);
      TargetIff(units', symbolsMap, a);
    }
  }

  lemma TargetIff(units: seq<CompileUnit>, symbolsMap: map<Word, Symbol>, a: Word)
    ensures a in Targets(units, symbolsMap)
       <==> exists f: DataType :: HasFunction(units, f) && Eligible(f, symbolsMap) && f.lowPc == a
  {
    if a in Targets(units, symbolsMap) {
      var cu: nat, fn: nat :| EligibleAt(units, symbolsMap, cu, fn) && units[cu].functions[fn].lowPc == a;
      assert HasFunction(units, units[cu].functions[fn]);
    }
    if f: DataType :| HasFunction(units, f) && Eligible(f, symbolsMap) && f.lowPc == a {
      var cu: nat :| cu < |units| && f in units[cu].functions;
      var fn: nat :| fn < |units[cu].functions| && units[cu].functions[fn] == f;
      assert EligibleAt(units, symbolsMap, cu, fn);
    }
  }

  /** The targets are the addresses of symbols at which a function with a name and a line starts. */
  lemma TargetsAre(units: seq<CompileUnit>, symbolsMap: map<Word, Symbol>, a: Word)
    ensures a in Targets(units, symbolsMap)
       <==> a != 0 && a in symbolsMap
            && exists u <- units, f <- u.functions :: f.lowPc == a && f.name != "" && f.declLine != 0
  {
    TargetIff(units, symbolsMap, a);
    if a in Targets(units, symbolsMap) {
      var f: DataType :| HasFunction(units, f) && Eligible(f, symbolsMap) && f.lowPc == a;
      var cu: nat :| cu < |units| && f in units[cu].functions;
      assert units[cu] in units;
    }
    if a != 0 && a in symbolsMap
       && exists u <- units, f <- u.functions :: f.lowPc == a && f.name != "" && f.declLine != 0 {
      var u, f :| u in units && f in u.functions && f.lowPc == a && f.name != "" && f.declLine != 0;
      var cu :| 0 <= cu < |units| && units[cu] == u;
      assert HasFunction(units, f) && Eligible(f, symbolsMap);
    }
  }

  /** Each entry stands for the first eligible function at its address and bears the name
      of the symbol there. */
  ghost predicate Described(units: seq<CompileUnit>, symbolsMap: map<Word, Symbol>, entries: map<Word, Breakpoint>) {
    forall a <- entries ::
      && a in symbolsMap
      && FirstAt(units, symbolsMap, a, entries[a].cuIndex, entries[a].fnIndex)
      && entries[a].name == symbolsMap[a].name
      && entries[a].breakpointType == FUNCTION_CALL
  }

  /** `entries` covers the eligible functions before (cu, fn) and no others. */
  ghost predicate CoversBefore(units: seq<CompileUnit>, symbolsMap: map<Word, Symbol>,
                               entries: map<Word, Breakpoint>, cu: nat, fn: nat) {
    && (forall a <- entries :: Before(entries[a].cuIndex, entries[a].fnIndex, cu, fn))
    && (forall cu': nat, fn': nat ::
          EligibleAt(units, symbolsMap, cu', fn') && Before(cu', fn', cu, fn)
          ==> units[cu'].functions[fn'].lowPc in entries)
  }

  const FUNCTION_CALL := "function_call"

  lemma CoverNothing(units: seq<CompileUnit>, symbolsMap: map<Word, Symbol>)
    ensures Described(units, symbolsMap, map[]) && CoversBefore(units, symbolsMap, map[], 0, 0)
  {
  }

  lemma CoverOne(units: seq<CompileUnit>, symbolsMap: map<Word, Symbol>,
                 entries: map<Word, Breakpoint>, entries': map<Word, Breakpoint>, cu: nat, fn: nat)
    requires EligibleAt(units, symbolsMap, cu, fn)
    requires Described(units, symbolsMap, entries) && CoversBefore(units, symbolsMap, entries, cu, fn)
    requires var a := units[cu].functions[fn].lowPc;
             && a in entries'
             && if a in entries then entries' == entries else
                && entries' == entries[a := entries'[a]]
                && entries'[a].cuIndex == cu && entries'[a].fnIndex == fn
                && entries'[a].name == symbolsMap[a].name && entries'[a].breakpointType == FUNCTION_CALL
    ensures Described(units, symbolsMap, entries') && CoversBefore(units, symbolsMap, entries', cu, fn + 1)
  {
  }

  lemma CoverNone(units: seq<CompileUnit>, symbolsMap: map<Word, Symbol>, entries: map<Word, Breakpoint>,
                  cu: nat, fn: nat)
    requires !EligibleAt(units, symbolsMap, cu, fn)
    requires CoversBefore(units, symbolsMap, entries, cu, fn)
    ensures CoversBefore(units, symbolsMap, entries, cu, fn + 1)
  {
  }

  lemma CoverUnit(units: seq<CompileUnit>, symbolsMap: map<Word, Symbol>, entries: map<Word, Breakpoint>, cu: nat)
    requires cu < |units| && CoversBefore(units, symbolsMap, entries, cu, |units[cu].functions|)
    ensures CoversBefore(units, symbolsMap, entries, cu + 1, 0)
  {
  }

  lemma CoveredAll(units: seq<CompileUnit>, symbolsMap: map<Word, Symbol>, entries: map<Word, Breakpoint>)
    requires Described(units, symbolsMap, entries) && CoversBefore(units, symbolsMap, entries, |units|, 0)
    ensures forall a :: a in entries <==> a in Targets(units, symbolsMap)
  {
  }

  lemma NativeOfNoBreakpoints(cpu: Cpu)
    ensures Armed(cpu, map[]) && NativeOf(cpu, map[]) == cpu
  {
    assert Restore(cpu.mem, map[]) == cpu.mem;
  }

  /** Traps never make a word fail that the native program could read. */
  lemma FailureIsNative(cpu: Cpu, view: View, a: Word)
    requires Armed(cpu, view) && PeekData(cpu.mem, a) == ALL_ONES
    ensures PeekData(NativeOf(cpu, view).mem, a) == ALL_ONES
  {
    hide PeekData;
    PeekIsAllOnes(cpu.mem, a);
    PeekIsAllOnes(NativeOf(cpu, view).mem, a);
    assert Mapped(NativeOf(cpu, view).mem, a, 8) <==> Mapped(cpu.mem, a, 8);
  }

  // ----- When all breakpoints can be set

  /** Some eligible function before (cu, fn) starts in the word at `a`. */
  ghost predicate StartsEarlierIn(units: seq<CompileUnit>, symbolsMap: map<Word, Symbol>, a: int, cu: nat, fn: nat) {
    exists cu': nat, fn': nat ::
      && EligibleAt(units, symbolsMap, cu', fn') && Before(cu', fn', cu, fn)
      && a <= units[cu'].functions[fn'].lowPc < a + 8
  }

  /** The breakpoint of the eligible function (cu, fn) can be set when its turn comes: its word
      is readable in the native memory `mem`, or has become so by an earlier breakpoint. */
  ghost predicate CanSet(units: seq<CompileUnit>, symbolsMap: map<Word, Symbol>, mem: Mem, cu: nat, fn: nat)
    requires EligibleAt(units, symbolsMap, cu, fn)
  {
    var a := units[cu].functions[fn].lowPc;
    PeekData(mem, a) != ALL_ONES || (Mapped(mem, a, 8) && StartsEarlierIn(units, symbolsMap, a, cu, fn))
  }

  /** That holds of all eligible functions. */
  ghost predicate Settable(units: seq<CompileUnit>, symbolsMap: map<Word, Symbol>, mem: Mem) {
    forall cu: nat, fn: nat :: EligibleAt(units, symbolsMap, cu, fn) ==> CanSet(units, symbolsMap, mem, cu, fn)
  }

  /** That holds of all eligible functions before (cu, fn). */
  ghost predicate SettableBefore(units: seq<CompileUnit>, symbolsMap: map<Word, Symbol>, mem: Mem, cu: nat, fn: nat) {
    forall cu': nat, fn': nat ::
      EligibleAt(units, symbolsMap, cu', fn') && Before(cu', fn', cu, fn) ==> CanSet(units, symbolsMap, mem, cu', fn')
  }

  ghost predicate SomeIn(keys: set<Word>, a: int) {
    exists k <- keys :: a <= k < a + 8
  }

  /** A word of patched memory is readable exactly if it was so before, or is mapped and holds
      a trap. */
  lemma PatchedIsReadable(cpu: Cpu, view: View, a: int)
    requires Armed(cpu, view)
    ensures PeekData(cpu.mem, a) != ALL_ONES
       <==> (var mem := NativeOf(cpu, view).mem;
             PeekData(mem, a) != ALL_ONES || (Mapped(mem, a, 8) && SomeIn(view.Keys, a)))
  {
    hide PeekData;
    var mem := NativeOf(cpu, view).mem;
    PeekIsAllOnes(cpu.mem, a);
    PeekIsAllOnes(mem, a);
    assert Mapped(mem, a, 8) <==> Mapped(cpu.mem, a, 8);
    if Mapped(mem, a, 8) {
      forall k | a <= k < a + 8
        ensures cpu.mem[k] == if k in view then INT3 else mem[k]
      {
        assert k in cpu.mem;
      }
      assert forall k <- view :: a <= k < a + 8 ==> cpu.mem[k] == INT3;
    }
  }

  /** A table that covers the functions before (cu, fn) has an entry in the word at `a` exactly
      if one of them starts there. */
  lemma EntriesStartEarlier(units: seq<CompileUnit>, symbolsMap: map<Word, Symbol>, entries: map<Word, Breakpoint>,
                            a: int, cu: nat, fn: nat)
    requires Described(units, symbolsMap, entries) && CoversBefore(units, symbolsMap, entries, cu, fn)
    ensures StartsEarlierIn(units, symbolsMap, a, cu, fn) <==> SomeIn(entries.Keys, a)
  {
    if k :| k in entries && a <= k < a + 8 {
      assert EligibleAt(units, symbolsMap, entries[k].cuIndex, entries[k].fnIndex);
    }
  }

  /** The next breakpoint is set, or already there, exactly if it can be. */
  lemma SetIffCanSet(units: seq<CompileUnit>, symbolsMap: map<Word, Symbol>, entries: map<Word, Breakpoint>,
                     cpu: Cpu, view: View, cu: nat, fn: nat)
    requires Armed(cpu, view) && view.Keys == entries.Keys && EligibleAt(units, symbolsMap, cu, fn)
    requires Described(units, symbolsMap, entries) && CoversBefore(units, symbolsMap, entries, cu, fn)
    ensures (var a := units[cu].functions[fn].lowPc;
             a in entries || PeekData(cpu.mem, a) != ALL_ONES)
       <==> CanSet(units, symbolsMap, NativeOf(cpu, view).mem, cu, fn)
  {
    hide PeekData, StartsEarlierIn, Described, CoversBefore;
    var a := units[cu].functions[fn].lowPc;
    PatchedIsReadable(cpu, view, a);
    EntriesStartEarlier(units, symbolsMap, entries, a, cu, fn);
    if a in entries {
      assert a in view && Mapped(NativeOf(cpu, view).mem, a, 8);
    }
  }

  lemma EligibleHere(units: seq<CompileUnit>, symbolsMap: map<Word, Symbol>, cu: nat, fn: nat)
    requires cu < |units| && fn < |units[cu].functions|
    ensures EligibleAt(units, symbolsMap, cu, fn) <==> Eligible(units[cu].functions[fn], symbolsMap)
    ensures Eligible(units[cu].functions[fn], symbolsMap) ==> units[cu].functions[fn].lowPc in Targets(units, symbolsMap)
  {
  }

  lemma OneUnsettable(units: seq<CompileUnit>, symbolsMap: map<Word, Symbol>, mem: Mem, cu: nat, fn: nat)
    requires EligibleAt(units, symbolsMap, cu, fn) && !CanSet(units, symbolsMap, mem, cu, fn)
    ensures !Settable(units, symbolsMap, mem)
  {
  }

  lemma SettableStart(units: seq<CompileUnit>, symbolsMap: map<Word, Symbol>, mem: Mem)
    ensures SettableBefore(units, symbolsMap, mem, 0, 0)
  {
  }

  lemma SettableStep(units: seq<CompileUnit>, symbolsMap: map<Word, Symbol>, mem: Mem, cu: nat, fn: nat)
    requires SettableBefore(units, symbolsMap, mem, cu, fn)
    requires EligibleAt(units, symbolsMap, cu, fn) ==> CanSet(units, symbolsMap, mem, cu, fn)
    ensures SettableBefore(units, symbolsMap, mem, cu, fn + 1)
  {
    hide CanSet, EligibleAt;
  }

  lemma SettableUnit(units: seq<CompileUnit>, symbolsMap: map<Word, Symbol>, mem: Mem, cu: nat)
    requires cu < |units| && SettableBefore(units, symbolsMap, mem, cu, |units[cu].functions|)
    ensures SettableBefore(units, symbolsMap, mem, cu + 1, 0)
  {
    hide CanSet;
  }

  lemma SettableAll(units: seq<CompileUnit>, symbolsMap: map<Word, Symbol>, mem: Mem)
    requires SettableBefore(units, symbolsMap, mem, |units|, 0)
    ensures Settable(units, symbolsMap, mem)
  {
    hide CanSet;
  }

  // ----- The order of units and functions

  /** However the units and their functions are ordered, two complete tables patch the memory
      in the same way. */
  lemma PatchesIgnoreOrder(units: seq<CompileUnit>, units': seq<CompileUnit>, symbolsMap: map<Word, Symbol>,
                           cpu: Cpu, entries: map<Word, Breakpoint>, entries': map<Word, Breakpoint>)
    requires forall f: DataType :: HasFunction(units, f) <==> HasFunction(units', f)
    requires forall a :: a in entries <==> a in Targets(units, symbolsMap)
    requires forall a :: a in entries' <==> a in Targets(units', symbolsMap)
    ensures Patch(cpu, entries.Keys) == Patch(cpu, entries'.Keys)
  {
    hide Targets, HasFunction, Patch;
    TargetsIgnoreOrder(units, units', symbolsMap);
    assert entries.Keys == entries'.Keys;
  }
}
