/** The unpatched program, run under a tracer that resumes it after every trap of its
    own, and how a patched run continued by PTRACE_CONT follows it. */
module Native {
  import opened Memory
  import opened Cpu

  datatype Fate = ChildExited | ChildSignalled

  datatype Run = Alive(s: Cpu) | Dead(fate: Fate)

  function NativeStep(s: Cpu): Run {
    match Step(s)
    case Running(t) => Alive(t)
    case Trapped(t) => Alive(t)
    case Exited => Dead(ChildExited)
    case Faulted => Dead(ChildSignalled)
  }

  /** The unpatched program after `n` instructions. */
  function NativeRun(s: Cpu, n: nat): Run
    decreases n
  {
    if n == 0 then Alive(s) else
    match NativeStep(s)
    case Alive(t) => NativeRun(t, n - 1)
    case Dead(f) => Dead(f)
  }

  /** A reported breakpoint, with the machine as the debugger finds it. */
  datatype Visit = Visit(address: Word, seen: Cpu)

  /** What the debugger finds when the native machine `s` arrives at a breakpoint. */
  function Seen(s: Cpu, bps: set<Word>): Cpu {
    Patch(s, bps).(pc := Plus(s.pc, 1))
  }

  /** The arrivals at addresses of `bps` among the first `n` native instructions. */
  function Visits(s: Cpu, bps: set<Word>, n: nat): seq<Visit>
    decreases n
  {
    if n == 0 then [] else
    (if s.pc in bps then [Visit(s.pc, Seen(s, bps))] else []) +
    match NativeStep(s)
    case Alive(t) => Visits(t, bps, n - 1)
    case Dead(_) => []
  }

  /** For `n` native instructions the program keeps clear of the bytes of `bps`, except
      for executing the instructions that begin there. */
  ghost predicate WellBehaved(s: Cpu, bps: set<Word>, n: nat) {
    forall k :: 0 <= k < n && NativeRun(s, k).Alive? ==> Respects(NativeRun(s, k).s, bps)
  }

  lemma WellBehavedNow(s: Cpu, bps: set<Word>, n: nat)
    requires WellBehaved(s, bps, n) && n > 0
    ensures Respects(s, bps)
  {
    assert NativeRun(s, 0) == Alive(s);
  }

  lemma {:induction false} RunSplits(s: Cpu, m: nat, n: nat)
    ensures NativeRun(s, m + n) ==
            match NativeRun(s, m) { case Alive(t) => NativeRun(t, n) case Dead(f) => Dead(f) }
    decreases m
  {
    hide Step;
    if m > 0 {
      match NativeStep(s)
      case Alive(t) => RunSplits(t, m - 1, n);
      case Dead(_) =>
    }
  }

  lemma {:induction false} VisitsSplit(s: Cpu, bps: set<Word>, m: nat, n: nat)
    ensures Visits(s, bps, m + n) == Visits(s, bps, m) +
            match NativeRun(s, m) { case Alive(t) => Visits(t, bps, n) case Dead(_) => [] }
    decreases m
  {
    hide Step, Seen, NativeStep;
    if m > 0 {
      match NativeStep(s)
      case Alive(t) => VisitsSplit(t, bps, m - 1, n);
      case Dead(_) =>
    }
  }

  lemma WellBehavedLater(s: Cpu, bps: set<Word>, m: nat, n: nat)
    requires WellBehaved(s, bps, m + n) && NativeRun(s, m).Alive?
    ensures WellBehaved(NativeRun(s, m).s, bps, n)
  {
    forall k | 0 <= k < n && NativeRun(NativeRun(s, m).s, k).Alive?
      ensures Respects(NativeRun(NativeRun(s, m).s, k).s, bps)
    {
      RunSplits(s, m, k);
      assert NativeRun(s, m + k).Alive?;
    }
  }

  /** The saved originals stay right: an instruction that keeps clear of the breakpoint
      bytes leaves them as they were, and maps and unmaps nothing. */
  lemma StepKeepsBytes(s: Cpu, bps: set<Word>)
    requires Respects(s, bps) && NativeStep(s).Alive?
    ensures NativeStep(s).s.mem.Keys == s.mem.Keys
    ensures forall a <- bps :: a in s.mem ==> NativeStep(s).s.mem[a] == s.mem[a]
  {
  }

  lemma {:induction false} RunKeepsBytes(s: Cpu, bps: set<Word>, n: nat)
    requires WellBehaved(s, bps, n) && NativeRun(s, n).Alive?
    ensures NativeRun(s, n).s.mem.Keys == s.mem.Keys
    ensures forall a <- bps :: a in s.mem ==> NativeRun(s, n).s.mem[a] == s.mem[a]
    decreases n
  {
    hide Step, Respects;
    if n > 0 {
      WellBehavedNow(s, bps, n);
      StepKeepsBytes(s, bps);
      assert NativeRun(s, 1) == NativeStep(s);
      WellBehavedLater(s, bps, 1, n - 1);
      RunKeepsBytes(NativeStep(s).s, bps, n - 1);
    }
  }

  // ----- The visits are the arrivals, in order and once each

  /** The arrival at instruction number `k` has its place in the log, after the arrivals
      before it.  What the debugger sees there are the native registers. */
  lemma {:induction false} ArrivalIsVisit(s: Cpu, bps: set<Word>, n: nat, k: nat)
    requires k < n && NativeRun(s, k).Alive? && NativeRun(s, k).s.pc in bps
    ensures var t := NativeRun(s, k).s;
            var i := |Visits(s, bps, k)|;
            && i < |Visits(s, bps, n)| && Visits(s, bps, n)[i] == Visit(t.pc, Seen(t, bps))
            && Visits(s, bps, n)[i].seen.regs == t.regs && Visits(s, bps, n)[i].seen.pc == Plus(t.pc, 1)
  {
    hide Step;
    VisitsSplit(s, bps, k, n - k);
  }

  /** Every entry of the log is such an arrival. */
  lemma {:induction false} VisitIsArrival(s: Cpu, bps: set<Word>, n: nat, i: nat) returns (k: nat)
    requires i < |Visits(s, bps, n)|
    ensures k < n && NativeRun(s, k).Alive? && |Visits(s, bps, k)| == i
    ensures var t := NativeRun(s, k).s;
            t.pc in bps && Visits(s, bps, n)[i] == Visit(t.pc, Seen(t, bps))
    decreases n
  {
    hide Step, Patch;
    if s.pc in bps && i == 0 {
      k := 0;
    } else {
      var skipped := if s.pc in bps then 1 else 0;
      var k' := VisitIsArrival(NativeStep(s).s, bps, n - 1, i - skipped);
      k := k' + 1;
    }
  }

  // ----- PTRACE_CONT

  /** How a continued or single-stepped child comes back to the tracer.  Budget is the
      end of the observation, not an event of the child. */
  datatype Stop = SigTrap | Gone(fate: Fate) | Budget

  /** `steps` counts the instructions completed, the trap excepted. */
  datatype Continued = Continued(stop: Stop, s: Cpu, steps: nat)

  /** Lets the machine run to its next stop, for at most `fuel` instructions. */
  function HwCont(s: Cpu, fuel: nat): Continued
    decreases fuel
  {
    if fuel == 0 then Continued(Budget, s, 0) else
    match Step(s)
    case Running(t) => var r := HwCont(t, fuel - 1); r.(steps := r.steps + 1)
    case Trapped(t) => Continued(SigTrap, t, 0)
    case Exited => Continued(Gone(ChildExited), s, 1)
    case Faulted => Continued(Gone(ChildSignalled), s, 1)
  }

  lemma HwContNoFuel(s: Cpu)
    ensures HwCont(s, 0) == Continued(Budget, s, 0)
  {
  }

  lemma HwContUnfold(s: Cpu, fuel: nat)
    requires fuel > 0
    ensures HwCont(s, fuel) ==
            match Step(s)
            case Running(t) => (var r := HwCont(t, fuel - 1); Continued(r.stop, r.s, r.steps + 1))
            case Trapped(t) => Continued(SigTrap, t, 0)
            case Exited => Continued(Gone(ChildExited), s, 1)
            case Faulted => Continued(Gone(ChildSignalled), s, 1)
  {
    hide Step;
  }

  /** What a stop of the patched machine says about the native one. */
  ghost predicate Follows(s: Cpu, bps: set<Word>, fuel: nat, r: Continued) {
    var native := NativeRun(s, r.steps);
    && r.steps <= fuel
    && Visits(s, bps, r.steps) == []
    && match r.stop
       case Budget =>
         r.steps == fuel && native.Alive? && r.s == Patch(native.s, bps)
       case SigTrap =>
         && r.steps < fuel && native.Alive?
         && r.s == Seen(native.s, bps)
         && (native.s.pc in bps || NativeStep(native.s) == Alive(native.s.(pc := r.s.pc)))
       case Gone(f) => native == Dead(f)
  }

  /** A continued patched machine follows the native one to its next arrival at a
      breakpoint, its next own trap, or its end, and reports nothing on the way. */
  lemma {:induction false} ContFollows(s: Cpu, bps: set<Word>, fuel: nat)
    requires WellBehaved(s, bps, fuel) && bps <= s.mem.Keys
    ensures Follows(s, bps, fuel, HwCont(Patch(s, bps), fuel))
    decreases fuel
  {
    hide Exec;
    if fuel == 0 {
    } else if s.pc in bps {
      StepOntoTrap(s, bps);
    } else {
      WellBehavedNow(s, bps, fuel);
      StepPatched(s, bps);
      match Step(s)
      case Running(t) =>
        StepKeepsBytes(s, bps);
        assert NativeRun(s, 1) == Alive(t);
        WellBehavedLater(s, bps, 1, fuel - 1);
        ContFollows(t, bps, fuel - 1);
      case Trapped(t) => TrapIsOneByte(s);
      case Exited =>
        assert NativeRun(s, 1) == Dead(ChildExited);
      case Faulted =>
        assert NativeRun(s, 1) == Dead(ChildSignalled);
    }
  }
}
