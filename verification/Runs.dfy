/** src/debugger_manager.cc: what a run of the program under the debugger is. */
module Runs {
  import opened Memory
  import opened Common
  import opened Cpu
  import opened Native
  import opened Breakpoints
  import opened FunctionBreakpoints
  import TypeChain
  import Payload

  // ----- The run loop

  lemma RunStart(start: Cpu, bps: set<Word>)
    ensures NativeRun(start, 0) == Alive(start) && Visits(start, bps, 0) == []
  {
  }

  /** An armed debuggee, continued, follows the native program. */
  lemma ReadyToContinue(start: Cpu, bps: set<Word>, n: nat, fuel: nat, cpu: Cpu, view: View)
    requires Armed(cpu, view) && view.Keys == bps
    requires WellBehaved(start, bps, n + fuel) && NativeRun(start, n) == Alive(NativeOf(cpu, view))
    ensures WellBehaved(NativeOf(cpu, view), bps, fuel)
    ensures Follows(NativeOf(cpu, view), bps, fuel, HwCont(cpu, fuel))
  {
    ArmedIsOverlay(cpu, view);
    WellBehavedLater(start, bps, n, fuel);
    ContFollows(NativeOf(cpu, view), bps, fuel);
  }

  lemma WellBehavedShorter(s: Cpu, bps: set<Word>, n: nat, m: nat)
    requires WellBehaved(s, bps, n) && m <= n
    ensures WellBehaved(s, bps, m)
    ensures m < n && NativeRun(s, m).Alive? ==> Respects(NativeRun(s, m).s, bps)
  {
  }

  /** Wherever a continued debuggee stops, the untouched table still describes it. */
  lemma ArmedAlong(cpu: Cpu, view: View, n: nat, t: Cpu, pc: Word)
    requires Armed(cpu, view) && WellBehaved(NativeOf(cpu, view), view.Keys, n)
    requires NativeRun(NativeOf(cpu, view), n) == Alive(t)
    ensures var stopped := Patch(t, view.Keys).(pc := pc);
            Armed(stopped, view) && NativeOf(stopped, view) == t.(pc := pc)
    ensures Patch(t, view.Keys).pc == t.pc
  {
    ArmedIsOverlay(cpu, view);
    RunKeepsBytes(NativeOf(cpu, view), view.Keys, n);
    OverlayIsArmed(t.(pc := pc), view);
  }

  /** One more native instruction. */
  lemma OneMore(start: Cpu, bps: set<Word>, n: nat, here: Cpu)
    requires NativeRun(start, n) == Alive(here)
    ensures NativeRun(start, n + 1) == NativeStep(here)
    ensures Visits(start, bps, n + 1) ==
            Visits(start, bps, n) + if here.pc in bps then [Visit(here.pc, Seen(here, bps))] else []
  {
    hide Step, Patch;
    RunSplits(start, n, 1);
    VisitsSplit(start, bps, n, 1);
    assert NativeRun(here, 1) == NativeStep(here);
    assert Visits(here, bps, 1) == if here.pc in bps then [Visit(here.pc, Seen(here, bps))] else [];
  }

  // ----- How things end

  datatype StepResult = Resumable | DebuggeeGone(fate: Fate) | ReportLost(ending: Payload.Ending)

  /** The debuggee is gone; a report throws or never ends; or only the observation is over.
      There is no other end: patching never fails once all breakpoints are set. */
  datatype RunEnd = Finished(fate: Fate) | Lost(ending: Payload.Ending) | Observed

  // ----- What is reported

  /** The compile unit and the function behind each breakpoint. */
  type Callees = map<Word, (CompileUnit, DataType)>

  /** Every entry names a function of a unit whose types have proper offsets. */
  ghost predicate Resolves(units: seq<CompileUnit>, entries: map<Word, Breakpoint>) {
    && (forall a <- entries ::
          && entries[a].breakpointType == FUNCTION_CALL
          && entries[a].cuIndex < |units| && entries[a].fnIndex < |units[entries[a].cuIndex].functions|)
    && (forall u <- units :: TypeChain.ProperOffsets(u.datatypes))
  }

  ghost function CalleesOf(units: seq<CompileUnit>, entries: map<Word, Breakpoint>): (callees: Callees)
    requires Resolves(units, entries)
    ensures callees.Keys == entries.Keys
  {
    map a | a in entries :: (units[entries[a].cuIndex], units[entries[a].cuIndex].functions[entries[a].fnIndex])
  }

  lemma DescribedResolves(units: seq<CompileUnit>, symbolsMap: map<Word, Symbol>, entries: map<Word, Breakpoint>)
    requires Described(units, symbolsMap, entries) && forall u <- units :: TypeChain.ProperOffsets(u.datatypes)
    ensures Resolves(units, entries)
  {
  }

  function EndingAt(callees: Callees, v: Visit): Payload.Ending
    requires v.address in callees
  {
    var (cu, func) := callees[v.address];
    Payload.PayloadEnding(cu.datatypes, func.parameters, v.seen.regs, v.seen.mem, |func.parameters|)
  }

  function ReportAt(callees: Callees, v: Visit): Payload.FunctionPayload
    requires v.address in callees
  {
    var (cu, func) := callees[v.address];
    Payload.PayloadOf(cu, func, v.seen.regs, v.seen.mem)
  }

  ghost predicate AllKnown(callees: Callees, visits: seq<Visit>) {
    forall v <- visits :: v.address in callees
  }

  function ReportsOf(callees: Callees, visits: seq<Visit>): (reports: seq<Payload.FunctionPayload>)
    requires AllKnown(callees, visits)
    ensures |reports| == |visits| && forall i :: 0 <= i < |visits| ==> reports[i] == ReportAt(callees, visits[i])
  {
    seq(|visits|, i requires 0 <= i < |visits| => ReportAt(callees, visits[i]))
  }

  ghost predicate AllComplete(callees: Callees, visits: seq<Visit>)
    requires AllKnown(callees, visits)
  {
    forall v <- visits :: EndingAt(callees, v) == Payload.Completed
  }

  lemma ReportsSnoc(callees: Callees, visits: seq<Visit>, v: Visit)
    requires AllKnown(callees, visits) && v.address in callees
    ensures AllKnown(callees, visits + [v])
    ensures ReportsOf(callees, visits + [v]) == ReportsOf(callees, visits) + [ReportAt(callees, v)]
    ensures AllComplete(callees, visits) && EndingAt(callees, v) == Payload.Completed
            ==> AllComplete(callees, visits + [v])
  {
    hide ReportAt, EndingAt;
    var before, after := ReportsOf(callees, visits), ReportsOf(callees, visits + [v]);
    assert forall i :: 0 <= i < |visits| ==> (visits + [v])[i] == visits[i];
    assert after == before + [ReportAt(callees, v)];
  }

  /** `logged` are the arrivals within the first `n` native instructions, all of them
      reported in `reported`. */
  ghost predicate SoFar(callees: Callees, start: Cpu, n: nat,
                        logged: seq<Visit>, reported: seq<Payload.FunctionPayload>)
  {
    && logged == Visits(start, callees.Keys, n)
    && AllKnown(callees, logged) && AllComplete(callees, logged)
    && reported == ReportsOf(callees, logged)
  }

  lemma SoFarStart(callees: Callees, start: Cpu)
    ensures SoFar(callees, start, 0, [], [])
  {
    assert Visits(start, callees.Keys, 0) == [];
  }

  lemma SoFarAlong(callees: Callees, start: Cpu, n: nat, native: Cpu, more: nat,
                   logged: seq<Visit>, reported: seq<Payload.FunctionPayload>)
    requires SoFar(callees, start, n, logged, reported) && NativeRun(start, n) == Alive(native)
    requires Visits(native, callees.Keys, more) == []
    ensures SoFar(callees, start, n + more, logged, reported)
  {
    hide Step, Patch, Visits, NativeRun, ReportAt, EndingAt;
    VisitsSplit(start, callees.Keys, n, more);
  }

  /** An arrival joins the log, and the reports if its report completes. */
  lemma SoFarArrival(callees: Callees, start: Cpu, n: nat, here: Cpu,
                     logged: seq<Visit>, reported: seq<Payload.FunctionPayload>)
    requires SoFar(callees, start, n, logged, reported) && NativeRun(start, n) == Alive(here) && here.pc in callees
    ensures var v := Visit(here.pc, Seen(here, callees.Keys));
            && logged + [v] == Visits(start, callees.Keys, n + 1)
            && (EndingAt(callees, v) == Payload.Completed
                ==> SoFar(callees, start, n + 1, logged + [v], reported + [ReportAt(callees, v)]))
  {
    hide Step, Patch, Visits, NativeRun, ReportAt, EndingAt;
    OneMore(start, callees.Keys, n, here);
    ReportsSnoc(callees, logged, Visit(here.pc, Seen(here, callees.Keys)));
  }

  lemma SoFarElsewhere(callees: Callees, start: Cpu, n: nat, here: Cpu,
                       logged: seq<Visit>, reported: seq<Payload.FunctionPayload>)
    requires SoFar(callees, start, n, logged, reported) && NativeRun(start, n) == Alive(here) && here.pc !in callees
    ensures SoFar(callees, start, n + 1, logged, reported)
  {
    hide Step, Patch, Visits, NativeRun, ReportAt, EndingAt;
    OneMore(start, callees.Keys, n, here);
  }

  // ----- What a run is

  /** What `steps` instructions of the program `start` under the debugger come to, when they
      end with `end`: `now` is the debuggee with its original bytes put back. */
  ghost predicate RunIs(callees: Callees, start: Cpu, fuel: nat, end: RunEnd, steps: nat, now: Cpu,
                        logged: seq<Visit>, reported: seq<Payload.FunctionPayload>)
  {
    var bps := callees.Keys;
    var visits := Visits(start, bps, steps);
    && steps <= fuel
    // the log is the program's arrivals at breakpoints, each reported unless its report is lost
    && logged == Visits(start, bps, if end.Lost? then steps + 1 else steps)
    && AllKnown(callees, visits) && AllComplete(callees, visits) && reported == ReportsOf(callees, visits)
    // the debuggee is the unpatched program after that many instructions
    && (match NativeRun(start, steps)
        case Dead(f) => end == Finished(f)
        case Alive(t) =>
          match end
          case Finished(_) => false
          case Lost(e) =>
            && t.pc in bps && now == t.(pc := Plus(t.pc, 1))
            && e == EndingAt(callees, Visit(t.pc, Seen(t, bps))) && e != Payload.Completed
          case Observed => now == t && steps == fuel)
  }

  lemma ReportsConcat(callees: Callees, a: seq<Visit>, b: seq<Visit>)
    requires AllKnown(callees, a) && AllKnown(callees, b) && AllComplete(callees, a) && AllComplete(callees, b)
    ensures AllKnown(callees, a + b) && AllComplete(callees, a + b)
    ensures ReportsOf(callees, a + b) == ReportsOf(callees, a) + ReportsOf(callees, b)
  {
    hide ReportAt, EndingAt;
    var whole, parts := ReportsOf(callees, a + b), ReportsOf(callees, a) + ReportsOf(callees, b);
    forall i | 0 <= i < |whole|
      ensures whole[i] == parts[i]
    {
      assert (a + b)[i] == if i < |a| then a[i] else b[i - |a|];
    }
  }

  lemma SoFarLater(callees: Callees, start: Cpu, n: nat, l1: seq<Visit>, r1: seq<Payload.FunctionPayload>,
                   native: Cpu, m: nat, l2: seq<Visit>, r2: seq<Payload.FunctionPayload>)
    requires SoFar(callees, start, n, l1, r1) && NativeRun(start, n) == Alive(native)
    requires SoFar(callees, native, m, l2, r2)
    ensures SoFar(callees, start, n + m, l1 + l2, r1 + r2)
  {
    hide NativeRun, Visits, AllKnown, AllComplete, ReportsOf;
    VisitsSplit(start, callees.Keys, n, m);
    ReportsConcat(callees, l1, l2);
  }

  /** A run from where an earlier part of it stopped is a run from the start. */
  lemma RunIsLater(callees: Callees, start: Cpu, n: nat, l1: seq<Visit>, r1: seq<Payload.FunctionPayload>,
                   native: Cpu, fuel: nat, end: RunEnd, m: nat, now: Cpu,
                   l2: seq<Visit>, r2: seq<Payload.FunctionPayload>)
    requires SoFar(callees, start, n, l1, r1)
    requires NativeRun(start, n) == Alive(native) && RunIs(callees, native, fuel, end, m, now, l2, r2)
    ensures RunIs(callees, start, n + fuel, end, n + m, now, l1 + l2, r1 + r2)
  {
    hide NativeRun, Visits, AllKnown, AllComplete, ReportsOf, EndingAt, ReportAt, Patch;
    var bps := callees.Keys;
    RunSplits(start, n, m);
    VisitsSplit(start, bps, n, m);
    VisitsSplit(start, bps, n, m + 1);
    ReportsConcat(callees, l1, Visits(native, bps, m));
  }

  /** The ways a run ends with nothing lost. */
  lemma RunIsOver(callees: Callees, start: Cpu, fuel: nat, end: RunEnd, steps: nat, now: Cpu,
                  logged: seq<Visit>, reported: seq<Payload.FunctionPayload>)
    requires steps <= fuel && SoFar(callees, start, steps, logged, reported)
    requires match NativeRun(start, steps)
             case Dead(f) => end == Finished(f)
             case Alive(t) => end == Observed && now == t && steps == fuel
    ensures RunIs(callees, start, fuel, end, steps, now, logged, reported)
  {
    hide NativeRun, Visits, AllKnown, AllComplete, ReportsOf, EndingAt;
  }

  lemma RunIsLost(callees: Callees, start: Cpu, fuel: nat, steps: nat, here: Cpu,
                  logged: seq<Visit>, reported: seq<Payload.FunctionPayload>, ending: Payload.Ending)
    requires steps < fuel && SoFar(callees, start, steps, logged, reported)
    requires NativeRun(start, steps) == Alive(here) && here.pc in callees && ending != Payload.Completed
    requires ending == EndingAt(callees, Visit(here.pc, Seen(here, callees.Keys)))
    ensures RunIs(callees, start, fuel, Lost(ending), steps, here.(pc := Plus(here.pc, 1)),
                  logged + [Visit(here.pc, Seen(here, callees.Keys))], reported)
  {
    hide NativeRun, Visits, AllKnown, AllComplete, ReportsOf, EndingAt, Patch;
    OneMore(start, callees.Keys, steps, here);
  }

  /** One more instruction, from a state with nothing logged yet. */
  lemma OneMoreReported(callees: Callees, start: Cpu, n: nat, here: Cpu)
    requires SoFar(callees, start, n, [], []) && NativeRun(start, n) == Alive(here)
    ensures NativeRun(start, n + 1) == NativeStep(here)
    ensures var v := Visit(here.pc, Seen(here, callees.Keys));
            if here.pc !in callees then SoFar(callees, start, n + 1, [], [])
            else EndingAt(callees, v) == Payload.Completed ==> SoFar(callees, start, n + 1, [v], [ReportAt(callees, v)])
  {
    hide NativeRun, Visits, SoFar, Patch, NativeStep, EndingAt, ReportAt;
    OneMore(start, callees.Keys, n, here);
    if here.pc in callees {
      var v := Visit(here.pc, Seen(here, callees.Keys));
      SoFarArrival(callees, start, n, here, [], []);
      assert [] + [v] == [v] && [] + [ReportAt(callees, v)] == [ReportAt(callees, v)];
    } else {
      SoFarElsewhere(callees, start, n, here, [], []);
    }
  }

  /** A call in the log of a run is reported as the payload of the native machine at the
      instruction that makes the log entry: the parameters in order, each of the first six
      printed from its native register. */
  lemma ReportIsNative(callees: Callees, start: Cpu, fuel: nat, end: RunEnd, steps: nat, now: Cpu,
                       logged: seq<Visit>, reported: seq<Payload.FunctionPayload>, i: nat) returns (k: nat)
    requires RunIs(callees, start, fuel, end, steps, now, logged, reported) && i < |reported|
    ensures k < steps && NativeRun(start, k).Alive? && |Visits(start, callees.Keys, k)| == i
    ensures var t := NativeRun(start, k).s;
            && t.pc in callees && i < |logged| && logged[i] == Visit(t.pc, Seen(t, callees.Keys))
            && var (cu, func) := callees[t.pc];
               && reported[i] == Payload.PayloadOf(cu, func, t.regs, Overlay(t.mem, callees.Keys))
               && |reported[i].paramVars| == |func.parameters|
               && forall j :: 0 <= j < |func.parameters| ==>
                    reported[i].paramVars[j] ==
                    Payload.Reported(cu.datatypes, func.parameters[j], t.regs, Overlay(t.mem, callees.Keys), j)
  {
    hide NativeRun, Visits, EndingAt, Overlay, Payload.Reported;
    var visits := Visits(start, callees.Keys, steps);
    k := VisitIsArrival(start, callees.Keys, steps, i);
    if end.Lost? {
      VisitsSplit(start, callees.Keys, steps, 1);
    }
    assert reported[i] == ReportAt(callees, visits[i]);
  }

  /** The program keeps clear of the breakpoints that the units and the symbols, of which the
      last one recorded counts, call for. */
  ghost predicate KeepsClear(cpu: Cpu, units: seq<CompileUnit>, symbols: seq<Symbol>, fuel: nat) {
    forall m: map<Word, Symbol>, bps: set<Word> ::
      MapsToLast(symbols, m) && (forall a :: a in bps <==> a in Targets(units, m)) ==> WellBehaved(cpu, bps, fuel)
  }

  lemma ClearOfBreakpoints(cpu: Cpu, units: seq<CompileUnit>, symbols: seq<Symbol>, fuel: nat,
                           m: map<Word, Symbol>, bps: set<Word>)
    requires KeepsClear(cpu, units, symbols, fuel) && MapsToLast(symbols, m)
    requires forall a :: a in bps <==> a in Targets(units, m)
    ensures WellBehaved(cpu, bps, fuel)
  {
    hide MapsToLast, Targets, WellBehaved;
  }

  lemma ReadyAtStart(cpu: Cpu)
    ensures Armed(cpu, map[])
  {
  }
}
