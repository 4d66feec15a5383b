/** src/debugger_manager.cc: the debugger itself. */
module Debugger {
  import opened Memory
  import opened Text
  import opened Common
  import opened Cpu
  import opened Native
  import opened Ptrace
  import opened Breakpoints
  import opened FunctionBreakpoints
  import opened SteppingOver
  import opened Runs
  import opened DieTree
  import opened Flattener
  import opened IndexStability
  import opened TreeReports
  import TypeChain
  import Payload

  class Debugger {
    const child: Tracee
    const table: BreakpointTable
    var units: seq<CompileUnit>
    var symbols: seq<Symbol>
    var symbolsMap: map<Word, Symbol>
    var log: seq<Visit>
    var reports: seq<Payload.FunctionPayload>

    constructor (child: Tracee)
      ensures this.child == child && fresh(table) && table.child == child && table.entries == map[]
      ensures units == [] && symbols == [] && symbolsMap == map[] && log == [] && reports == []
    {
      this.child := child;
      table := new BreakpointTable(child);
      units, symbols, symbolsMap, log, reports := [], [], map[], [], [];
    }

    ghost predicate Ready()
      reads this, table, child, table.entries.Values
    {
      table.child == child && table.Valid() && Armed(child.cpu, table.View())
    }

    /** The program as it would be without the debugger. */
    ghost function NativeCpu(): Cpu
      reads this, table, child, table.entries.Values
    {
      NativeOf(child.cpu, table.View())
    }

    /** Records every symbol; of several function symbols at one address the last one
        recorded names it. */
    method GetSymbols(sections: seq<Section>)
      requires symbols == [] && symbolsMap == map[]
      modifies this`symbols, this`symbolsMap
      ensures symbols == AllSymbols(sections)
      ensures MapsToLast(symbols, symbolsMap)
    {
      hide MapsToLast, AllSymbols, IsFunctionSymbol;
      MapsToLastStart();
      assert sections[..0] == [];
      for i := 0 to |sections|
        invariant symbols == AllSymbols(sections[..i])
        invariant MapsToLast(symbols, symbolsMap)
      {
        AllSymbolsStep(sections, i);
        if sections[i].isSymbolTable {
          ghost var before := symbols;
          for j := 0 to |sections[i].symbols|
            invariant symbols == before + sections[i].symbols[..j]
            invariant MapsToLast(symbols, symbolsMap)
          {
            var symbol := sections[i].symbols[j];
            MapsToLastStep(symbols, symbolsMap, symbol);
            if IsFunctionSymbol(symbol) {
              symbolsMap := symbolsMap[symbol.value := symbol];
            }
            symbols := symbols + [symbol];
          }
        }
      }
      assert sections[..|sections|] == sections;
    }

    /** Sets a breakpoint at the start of every eligible function. */
    method SetAllFunctionBreakpoints() returns (ok: bool)
      requires Ready() && table.entries == map[]
      modifies table, child
      ensures Ready() && NativeCpu() == old(child.cpu)
      ensures Described(units, symbolsMap, table.entries)
      ensures forall a <- table.entries :: fresh(table.entries[a])
      ensures ok ==> forall a :: a in table.entries <==> a in Targets(units, symbolsMap)
      ensures ok ==> child.cpu == Patch(old(child.cpu), table.entries.Keys)
      ensures ok <==> Settable(units, symbolsMap, old(child.cpu.mem))
      ensures !ok ==> exists a <- Targets(units, symbolsMap) :: PeekData(old(child.cpu.mem), a) == ALL_ONES
    {
      hide EligibleAt, CanSet, SettableBefore, Settable, Targets;
      hide Armed, NativeOf, Restore, PeekData, Described, CoversBefore, Patch;
      NativeOfNoBreakpoints(child.cpu);
      CoverNothing(units, symbolsMap);
      ghost var mem := child.cpu.mem;
      SettableStart(units, symbolsMap, mem);
      assert table.View() == map[];
      for cu := 0 to |units|
        invariant Ready() && NativeCpu() == old(child.cpu)
        invariant Described(units, symbolsMap, table.entries)
        invariant forall a <- table.entries :: fresh(table.entries[a])
        invariant CoversBefore(units, symbolsMap, table.entries, cu, 0)
        invariant SettableBefore(units, symbolsMap, mem, cu, 0)
      {
        for fn := 0 to |units[cu].functions|
          invariant Ready() && NativeCpu() == old(child.cpu)
          invariant Described(units, symbolsMap, table.entries)
          invariant forall a <- table.entries :: fresh(table.entries[a])
          invariant CoversBefore(units, symbolsMap, table.entries, cu, fn)
          invariant SettableBefore(units, symbolsMap, mem, cu, fn)
        {
          var func := units[cu].functions[fn];
          EligibleHere(units, symbolsMap, cu, fn);
          if Eligible(func, symbolsMap) {
            ghost var entries := table.entries;
            SetIffCanSet(units, symbolsMap, entries, child.cpu, table.View(), cu, fn);
            var symbol := symbolsMap[func.lowPc];
            var armed := table.SetFunctionBreakpoint(symbol.name, func.lowPc, FUNCTION_CALL, cu, fn);
            if !armed {
              FailureIsNative(child.cpu, table.View(), func.lowPc);
              OneUnsettable(units, symbolsMap, mem, cu, fn);
              return false;
            }
            CoverOne(units, symbolsMap, entries, table.entries, cu, fn);
          } else {
            CoverNone(units, symbolsMap, table.entries, cu, fn);
          }
          SettableStep(units, symbolsMap, mem, cu, fn);
        }
        CoverUnit(units, symbolsMap, table.entries, cu);
        SettableUnit(units, symbolsMap, mem, cu);
      }
      ArmedIsOverlay(child.cpu, table.View());
      CoveredAll(units, symbolsMap, table.entries);
      SettableAll(units, symbolsMap, mem);
      return true;
    }

    /** Reports a breakpoint: its address, and the payload of the call if it can be built. */
    method GetBreakpointInfo(bp: Breakpoint) returns (ending: Payload.Ending)
      requires Resolves(units, table.entries) && bp.address in table.entries && table.entries[bp.address] == bp
      modifies this`log, this`reports
      ensures var visit := Visit(bp.address, child.cpu);
              var callees := CalleesOf(units, table.entries);
              && log == old(log) + [visit]
              && ending == EndingAt(callees, visit)
              && reports == old(reports) + if ending == Payload.Completed then [ReportAt(callees, visit)] else []
    {
      hide TypeChain.ProperOffsets, Payload.PayloadEnding, Payload.PayloadOf;
      log := log + [Visit(bp.address, child.cpu)];
      ending := Payload.Completed;
      if bp.breakpointType == FUNCTION_CALL {
        var cu := units[bp.cuIndex];
        var func := cu.functions[bp.fnIndex];
        var payload;
        ending, payload := Payload.GenerateFunctionPayload(child, cu, func);
        if ending == Payload.Completed {
          reports := reports + [payload];
        }
      }
    }

    /** Handles a SIGTRAP stop after which the PC is one past `native.pc`.  On a breakpoint
        the debugger reports it, performs one native instruction and is armed again; elsewhere
        it does nothing. */
    method StepOverBreakpoint(ghost native: Cpu) returns (r: StepResult)
      requires Ready() && NativeCpu() == native.(pc := Plus(native.pc, 1))
      requires Respects(native, table.entries.Keys) && Resolves(units, table.entries)
      modifies this`log, this`reports, child, table.entries.Values
      ensures native.pc !in table.entries ==>
                r == Resumable && Ready() && NativeCpu() == old(NativeCpu()) && log == old(log) && reports == old(reports)
      ensures native.pc in table.entries ==>
                var visit := Visit(native.pc, Seen(native, table.entries.Keys));
                var callees := CalleesOf(units, table.entries);
                && log == old(log) + [visit]
                && if EndingAt(callees, visit) != Payload.Completed then
                     r == ReportLost(EndingAt(callees, visit)) && reports == old(reports)
                     && Ready() && NativeCpu() == old(NativeCpu())
                   else
                     && reports == old(reports) + [ReportAt(callees, visit)]
                     && match NativeStep(native)
                        case Dead(f) => r == DebuggeeGone(f)
                        case Alive(t) => r == Resumable && Ready() && NativeCpu() == t
    {
      hide Armed, NativeOf, Patch, PeekData, Respects, NativeStep, Mapped, EndingAt, ReportAt;
      hide Resolves, CalleesOf;
      RewindWrap(native.pc);
      NativeOfPc(child.cpu, table.View());
      var pc := child.GetProgramCounter();
      var location := Plus(pc, -1);
      r := Resumable;
      if location in table.entries {
        var bp := table.entries[location];
        UnpatchFacts(native, child.cpu, table.View());
        if bp.enabled {
          var ending := GetBreakpointInfo(bp);
          if ending != Payload.Completed {
            return ReportLost(ending);
          }
          r := StepOff(bp, location, native);
        }
      }
    }

    /** The second half of `step_over_breakpoint`: rewinds, unpatches, performs one
        instruction and patches again. */
    method StepOff(bp: Breakpoint, location: Word, ghost native: Cpu) returns (r: StepResult)
      requires Ready() && NativeCpu() == native.(pc := Plus(native.pc, 1))
      requires Respects(native, table.entries.Keys)
      requires location == native.pc && location in table.entries && table.entries[location] == bp
      modifies child, bp
      ensures match NativeStep(native)
              case Dead(f) => r == DebuggeeGone(f)
              case Alive(t) => r == Resumable && Ready() && NativeCpu() == t
    {
      hide Armed, NativeOf, Patch, PeekData, Respects, NativeStep, Mapped;
      ghost var cpu, view, bps := child.cpu, table.View(), table.entries.Keys;
      UnpatchFacts(native, cpu, view);
      child.SetProgramCounter(location);
      var ok := bp.DisableBreakpoint(child);
      assert child.cpu == Patch(native, bps - {location});
      StepUnpatched(native, bps);
      var stop := child.SingleStep();
      if stop.Gone? {
        return DebuggeeGone(stop.fate);
      }
      ghost var t := NativeStep(native).s;
      RepatchFacts(native, cpu, view, t);
      ok := bp.EnableBreakpoint(child);
      assert table.View() == view[location := Entry(bp.originalData, true)];
      return Resumable;
    }

    /** One round of the run loop, in at most `fuel` instructions: either it is not the last,
        and has performed at least one instruction, or it ends the run. */
    method Round(fuel: nat)
      returns (end: Option<RunEnd>, steps: nat, ghost logged: seq<Visit>, ghost reported: seq<Payload.FunctionPayload>)
      requires Ready() && Resolves(units, table.entries)
      requires WellBehaved(NativeCpu(), table.entries.Keys, fuel)
      modifies this`log, this`reports, child, table.entries.Values
      ensures log == old(log) + logged && reports == old(reports) + reported
      ensures var callees := CalleesOf(units, table.entries);
              match end
              case None =>
                && 0 < steps <= fuel && Ready()
                && NativeRun(old(NativeCpu()), steps) == Alive(NativeCpu())
                && SoFar(callees, old(NativeCpu()), steps, logged, reported)
              case Some(e) =>
                && RunIs(callees, old(NativeCpu()), fuel, e, steps, NativeCpu(), logged, reported)
                && (!e.Finished? ==> Ready())
    {
      hide Armed, NativeOf, Patch, PeekData, Respects, NativeStep, Mapped, WellBehaved;
      hide Visits, NativeRun, HwCont, EndingAt, ReportAt, ReportsOf, AllComplete, AllKnown;
      hide Resolves, CalleesOf, SoFar, RunIs;
      ghost var native, view, cpu, bps := NativeCpu(), table.View(), child.cpu, table.entries.Keys;
      ghost var callees := CalleesOf(units, table.entries);
      logged, reported := [], [];
      RunStart(native, bps);
      SoFarStart(callees, native);
      ReadyToContinue(native, bps, 0, fuel, cpu, view);
      var stop;
      stop, steps := child.Cont(fuel);
      SoFarAlong(callees, native, 0, native, steps, [], []);
      WellBehavedShorter(native, bps, fuel, steps);
      match stop
      case Budget =>
        ArmedAlong(cpu, view, steps, NativeRun(native, steps).s, child.cpu.pc);
        RunIsOver(callees, native, fuel, Observed, steps, NativeCpu(), logged, reported);
        return Some(Observed), steps, logged, reported;
      case Gone(fate) =>
        RunIsOver(callees, native, fuel, Finished(fate), steps, NativeCpu(), logged, reported);
        return Some(Finished(fate)), steps, logged, reported;
      case SigTrap =>
        ghost var here := NativeRun(native, steps).s;
        ArmedAlong(cpu, view, steps, here, child.cpu.pc);
        var r := StepOverBreakpoint(here);
        if r.ReportLost? {
          logged := [Visit(here.pc, Seen(here, bps))];
          RunIsLost(callees, native, fuel, steps, here, [], [], r.ending);
          assert [] + logged == logged;
          return Some(Lost(r.ending)), steps, logged, reported;
        }
        if here.pc in table.entries {
          logged, reported := [Visit(here.pc, Seen(here, bps))], [ReportAt(callees, Visit(here.pc, Seen(here, bps)))];
        }
        OneMoreReported(callees, native, steps, here);
        steps := steps + 1;
        match r
        case Resumable => return None, steps, logged, reported;
        case DebuggeeGone(fate) =>
          RunIsOver(callees, native, fuel, Finished(fate), steps, NativeCpu(), logged, reported);
          return Some(Finished(fate)), steps, logged, reported;
    }

    /** The run loop, observed for at most `fuel` instructions of the program. */
    method ContinueExecution(fuel: nat)
      returns (end: RunEnd, steps: nat, ghost logged: seq<Visit>, ghost reported: seq<Payload.FunctionPayload>)
      requires Ready() && Resolves(units, table.entries)
      requires WellBehaved(NativeCpu(), table.entries.Keys, fuel)
      modifies this`log, this`reports, child, table.entries.Values
      ensures log == old(log) + logged && reports == old(reports) + reported
      ensures RunIs(CalleesOf(units, table.entries), old(NativeCpu()), fuel, end, steps, NativeCpu(), logged, reported)
      ensures !end.Finished? ==> Ready()
    {
      hide Armed, NativeOf, WellBehaved, Visits, NativeRun, Resolves, CalleesOf, SoFar, RunIs;
      ghost var start, bps := NativeCpu(), table.entries.Keys;
      ghost var callees := CalleesOf(units, table.entries);
      logged, reported := [], [];
      steps := 0;
      RunStart(start, bps);
      SoFarStart(callees, start);
      while true
        invariant steps <= fuel && Ready()
        invariant NativeRun(start, steps) == Alive(NativeCpu())
        invariant log == old(log) + logged && reports == old(reports) + reported
        invariant SoFar(callees, start, steps, logged, reported)
        decreases fuel - steps
      {
        ghost var native := NativeCpu();
        WellBehavedLater(start, bps, steps, fuel - steps);
        ghost var logged', reported';
        var last, more;
        last, more, logged', reported' := Round(fuel - steps);
        if last.Some? {
          RunIsLater(callees, start, steps, logged, reported,
                     native, fuel - steps, last.value, more, NativeCpu(), logged', reported');
          return last.value, steps + more, logged + logged', reported + reported';
        }
        SoFarLater(callees, start, steps, logged, reported, native, more, logged', reported');
        RunSplits(start, steps, more);
        steps, logged, reported := steps + more, logged + logged', reported + reported';
      }
    }

    /** The whole program: symbols, compile units, breakpoints on all functions, and the run
        loop.  If every breakpoint can be set, what follows is a run of the program that was
        loaded, with the breakpoints at the addresses that should have one. */
    method Run(sections: seq<Section>, roots: seq<Die>, funcAddr: string -> Word, fuel: nat)
      returns (started: bool, end: RunEnd, steps: nat)
      requires table.child == child && table.entries == map[]
      requires symbols == [] && symbolsMap == map[] && units == [] && log == [] && reports == []
      requires forall root <- roots :: ProperTree(root)
      requires KeepsClear(child.cpu, UnitsOf(roots, funcAddr), AllSymbols(sections), fuel)
      modifies this, table, child
      ensures MapsToLast(AllSymbols(sections), symbolsMap)
      ensures units == UnitsOf(roots, funcAddr)
      ensures Described(units, symbolsMap, table.entries) && Resolves(units, table.entries)
      ensures started <==> Settable(units, symbolsMap, old(child.cpu.mem))
      ensures started ==>
                && (forall a ::
                      a in table.entries <==> StartsFunction(roots, funcAddr, a) && HasFunctionSymbol(sections, a))
                && RunIs(CalleesOf(units, table.entries), old(child.cpu), fuel, end, steps, NativeCpu(), log, reports)
      ensures !started ==>
                && log == [] && reports == []
                && exists a <- Targets(units, symbolsMap) :: PeekData(old(child.cpu.mem), a) == ALL_ONES
    {
      hide WellBehaved, RunIs, MapsToLast, Described, Armed, NativeOf, PeekData, KeepsClear, Settable;
      hide TypeChain.ProperOffsets, Targets, Resolves, AllSymbols, Process, StartsFunction, HasFunctionSymbol;
      end, steps := Observed, 0;
      GetSymbols(sections);
      units := GetCompileUnits(roots, funcAddr);
      forall u | u in units
        ensures TypeChain.ProperOffsets(u.datatypes)
      {
        var i :| 0 <= i < |units| && units[i] == u;
        FlattenedOffsetsAreProper(roots[i], funcAddr);
      }
      ReadyAtStart(child.cpu);
      assert table.View() == map[];
      ghost var start := child.cpu;
      started := SetAllFunctionBreakpoints();
      DescribedResolves(units, symbolsMap, table.entries);
      if started {
        forall a: Word
          ensures a in table.entries <==> StartsFunction(roots, funcAddr, a) && HasFunctionSymbol(sections, a)
        {
          BreakpointsAreFunctions(roots, funcAddr, sections, symbolsMap, a);
        }
        ClearOfBreakpoints(start, units, symbols, fuel, symbolsMap, table.entries.Keys);
        ghost var logged, reported;
        end, steps, logged, reported := ContinueExecution(fuel);
        assert [] + logged == logged && [] + reported == reported;
      }
    }
  }
}
