/** What is reported is what native memory holds, wherever the words that are read hold no
    breakpoint. */
module NativeReports {
  import opened Memory
  import opened Helpers
  import opened Common
  import opened ParameterExtractor
  import opened ParameterValues
  import opened TypeNames
  import opened Payload
  import opened Arguments
  import Cpu
  import Native
  import Runs

  // ----- One word, one list, one text

  lemma WordIsNative(mem: Mem, bps: set<Word>, a: int)
    requires Cpu.Avoids(bps, a, 8)
    ensures PeekData(Cpu.Overlay(mem, bps), a) == PeekData(mem, a)
  {
    var patched := Cpu.Overlay(mem, bps);
    assert Mapped(patched, a, 8) <==> Mapped(mem, a, 8);
    if Mapped(mem, a, 8) {
      Cpu.LoadAvoiding(mem, bps, a, 8);
    }
  }

  /** No breakpoint is in a slot that the scan for numbers reads, the one it stops at included. */
  ghost predicate NumbersClear(mem: Mem, bps: set<Word>, a: nat, stride: nat)
    requires stride > 0
  {
    forall i: nat :: i <= |Numbers(mem, a, stride)| ==> Cpu.Avoids(bps, a + i * stride, 8)
  }

  lemma {:induction false} NumbersAreNative(mem: Mem, bps: set<Word>, a: nat, stride: nat)
    requires stride > 0 && NumbersClear(mem, bps, a, stride)
    ensures Numbers(Cpu.Overlay(mem, bps), a, stride) == Numbers(mem, a, stride)
    decreases WORD_LIMIT - a
  {
    hide PeekData, Cpu.Avoids, Cpu.Overlay;
    assert Cpu.Avoids(bps, a + 0 * stride, 8);
    WordIsNative(mem, bps, a);
    if !NumberStops(mem, a) {
      UnmappedAbove(mem, a);
      forall i: nat | i <= |Numbers(mem, a + stride, stride)|
        ensures Cpu.Avoids(bps, a + stride + i * stride, 8)
      {
        assert Cpu.Avoids(bps, a + (i + 1) * stride, 8);
        assert a + (i + 1) * stride == a + stride + i * stride;
      }
      NumbersAreNative(mem, bps, a + stride, stride);
    }
  }

  /** No breakpoint is in a slot that the scan for pointers reads. */
  ghost predicate PointersClear(mem: Mem, bps: set<Word>, a: nat) {
    forall i: nat :: i <= |Pointers(mem, a)| ==> Cpu.Avoids(bps, a + 8 * i, 8)
  }

  lemma {:induction false} PointersAreNative(mem: Mem, bps: set<Word>, a: nat)
    requires PointersClear(mem, bps, a)
    ensures Pointers(Cpu.Overlay(mem, bps), a) == Pointers(mem, a)
    decreases WORD_LIMIT - a
  {
    hide PeekData, Cpu.Avoids, Cpu.Overlay;
    assert Cpu.Avoids(bps, a + 8 * 0, 8);
    WordIsNative(mem, bps, a);
    if !PointerStops(mem, a) {
      UnmappedAbove(mem, a);
      forall i: nat | i <= |Pointers(mem, a + 8)|
        ensures Cpu.Avoids(bps, a + 8 + 8 * i, 8)
      {
        assert Cpu.Avoids(bps, a + 8 * (i + 1), 8);
      }
      PointersAreNative(mem, bps, a + 8);
    }
  }

  /** No breakpoint is in a word that the scan for characters reads: those of the printable
      run and the one in which it ends. */
  ghost predicate StringClear(mem: Mem, bps: set<Word>, a: nat) {
    Cpu.Avoids(bps, a, PrintableRun(mem, a) / 8 * 8 + 8)
  }

  lemma StringIsNative(mem: Mem, bps: set<Word>, a: nat)
    requires StringClear(mem, bps, a)
    ensures StringAt(Cpu.Overlay(mem, bps), a) == StringAt(mem, a)
  {
    hide PrintableRun;
    var patched, n := Cpu.Overlay(mem, bps), PrintableRun(mem, a);
    assert forall k :: a <= k < a + n ==> k in mem;
    assert Mapped(patched, a, n);
    RunIsMaximal(patched, a, n);
    assert Mapped(patched, a + n / 8 * 8, 8) <==> Mapped(mem, a + n / 8 * 8, 8);
    Cpu.LoadAvoiding(mem, bps, a, ScanLength(mem, a));
  }

  // ----- One argument

  /** No breakpoint is in a word that is read to print what the value `v` leads to. */
  ghost predicate ReadsClear(mem: Mem, bps: set<Word>, v: Word, s: Shape, byteSize: nat) {
    s.variadic || s.pointers == 0 || v == ALL_ONES ||
    (&& Cpu.Avoids(bps, v, 8)
     && (PeekData(mem, v) != 0 ==>
           match (s.pointers, s.kind)
           case (1, Number) => v == 0 || NumbersClear(mem, bps, v, Stride(byteSize))
           case (1, Text) => StringClear(mem, bps, v)
           case (2, Number) =>
             && PointersClear(mem, bps, v)
             && forall p <- Pointers(mem, v) :: NumbersClear(mem, bps, p, Stride(byteSize))
           case (2, Text) =>
             PointersClear(mem, bps, v) && forall p <- Pointers(mem, v) :: StringClear(mem, bps, p)
           case _ => true))
  }

  lemma NumberPairsAreNative(mem: Mem, bps: set<Word>, v: Word, byteSize: nat)
    requires PointersClear(mem, bps, v)
    requires forall p <- Pointers(mem, v) :: NumbersClear(mem, bps, p, Stride(byteSize))
    ensures NumberPairs(Cpu.Overlay(mem, bps), v, byteSize) == NumberPairs(mem, v, byteSize)
  {
    hide Pointers, Numbers, PointersClear, NumbersClear;
    PointersAreNative(mem, bps, v);
    forall p | p in Pointers(mem, v)
      ensures Numbers(Cpu.Overlay(mem, bps), p, Stride(byteSize)) == Numbers(mem, p, Stride(byteSize))
    {
      NumbersAreNative(mem, bps, p, Stride(byteSize));
    }
  }

  lemma StringPairsAreNative(mem: Mem, bps: set<Word>, v: Word)
    requires PointersClear(mem, bps, v) && forall p <- Pointers(mem, v) :: StringClear(mem, bps, p)
    ensures StringPairs(Cpu.Overlay(mem, bps), v) == StringPairs(mem, v)
  {
    hide Pointers, StringAt, PointersClear, StringClear;
    PointersAreNative(mem, bps, v);
    forall p | p in Pointers(mem, v)
      ensures StringAt(Cpu.Overlay(mem, bps), p) == StringAt(mem, p)
    {
      StringIsNative(mem, bps, p);
    }
  }

  /** A pointer is printed as if there were no breakpoints. */
  lemma PointerIsNative(p: Param, mem: Mem, bps: set<Word>, v: Word, s: Shape)
    requires p.value == LongToHexString(v) && s.pointers > 0 && !s.variadic && ReadsClear(mem, bps, v, s, p.byteSize)
    ensures PointerValued(p, Cpu.Overlay(mem, bps), v, s) == PointerValued(p, mem, v, s)
  {
    hide PeekData, LongToHexString, Cpu.Overlay, Cpu.Avoids, NumbersClear, PointersClear, StringClear;
    hide Numbers, NumberPairs, StringPairs, StringAt, Pointers;
    SpecialPointers(v);
    if v != ALL_ONES {
      WordIsNative(mem, bps, v);
      if PeekData(mem, v) != 0 {
        match (s.pointers, s.kind)
        case (1, Number) =>
          if v != 0 {
            NumbersAreNative(mem, bps, v, Stride(p.byteSize));
          }
        case (1, Text) => StringIsNative(mem, bps, v);
        case (2, Number) => NumberPairsAreNative(mem, bps, v, p.byteSize);
        case (2, Text) => StringPairsAreNative(mem, bps, v);
        case _ =>
      }
    }
  }

  /** The words read for argument number `i` hold no breakpoint. */
  ghost predicate ArgumentClear(dts: seq<DataType>, param: DataType, regs: Cpu.Regs, mem: Mem, bps: set<Word>, i: nat) {
    i < 6 ==>
      ReadsClear(mem, bps, ValueOf(regs, i), ShapeOfParam(dts, param), TypedParam(dts, param).byteSize)
  }

  lemma ArgumentIsNative(dts: seq<DataType>, param: DataType, regs: Cpu.Regs, mem: Mem, bps: set<Word>, i: nat)
    requires ArgumentClear(dts, param, regs, mem, bps, i)
    ensures Reported(dts, param, regs, Cpu.Overlay(mem, bps), i) == Reported(dts, param, regs, mem, i)
  {
    hide WithMetadata, ShapeOf, PointerValued, LongToHexString, ReadsClear, Cpu.Overlay;
    if i < 6 {
      var q, s, v := TypedParam(dts, param), ShapeOfParam(dts, param), ValueOf(regs, i);
      if !s.variadic && s.pointers > 0 {
        PointerIsNative(q.(isComplex := s.complex, value := LongToHexString(v)), mem, bps, v, s);
      }
    }
  }

  // ----- A call

  ghost predicate CallClear(dts: seq<DataType>, params: seq<DataType>, regs: Cpu.Regs, mem: Mem, bps: set<Word>) {
    forall i :: 0 <= i < |params| ==> ArgumentClear(dts, params[i], regs, mem, bps, i)
  }

  /** A call is reported, and its report ends, as if there were no breakpoints. */
  lemma CallIsNative(cu: CompileUnit, func: DataType, regs: Cpu.Regs, mem: Mem, bps: set<Word>)
    requires CallClear(cu.datatypes, func.parameters, regs, mem, bps)
    ensures PayloadOf(cu, func, regs, Cpu.Overlay(mem, bps)) == PayloadOf(cu, func, regs, mem)
    ensures PayloadEnding(cu.datatypes, func.parameters, regs, Cpu.Overlay(mem, bps), |func.parameters|)
         == PayloadEnding(cu.datatypes, func.parameters, regs, mem, |func.parameters|)
  {
    hide Reported, ArgumentClear, Cpu.Overlay;
    var dts, params := cu.datatypes, func.parameters;
    forall i | 0 <= i < |params|
      ensures Reported(dts, params[i], regs, Cpu.Overlay(mem, bps), i) == Reported(dts, params[i], regs, mem, i)
    {
      ArgumentIsNative(dts, params[i], regs, mem, bps, i);
    }
    assert ReportedAll(dts, params, regs, Cpu.Overlay(mem, bps)) == ReportedAll(dts, params, regs, mem);
    EndingIsNative(dts, params, regs, mem, bps, |params|);
  }

  lemma {:induction false} EndingIsNative(dts: seq<DataType>, params: seq<DataType>, regs: Cpu.Regs, mem: Mem,
                                          bps: set<Word>, n: nat)
    requires n <= |params|
    requires forall i :: 0 <= i < |params| ==>
               Reported(dts, params[i], regs, Cpu.Overlay(mem, bps), i) == Reported(dts, params[i], regs, mem, i)
    ensures PayloadEnding(dts, params, regs, Cpu.Overlay(mem, bps), n) == PayloadEnding(dts, params, regs, mem, n)
    decreases n
  {
    hide Reported, ByValueEnding, ComplexEnding, IsByValueStructure, ChainEnds, Cpu.Overlay;
    if n > 0 {
      EndingIsNative(dts, params, regs, mem, bps, n - 1);
    }
  }

  // ----- A run

  /** Call number `i` of a run is reported as the payload of the native registers and the
      native memory at the instruction that makes it, if the words read hold no breakpoint. */
  lemma RunReportsNativeMemory(callees: Runs.Callees, start: Cpu.Cpu, fuel: nat, end: Runs.RunEnd, steps: nat,
                               now: Cpu.Cpu, logged: seq<Native.Visit>, reported: seq<FunctionPayload>, i: nat)
    returns (k: nat)
    requires Runs.RunIs(callees, start, fuel, end, steps, now, logged, reported) && i < |reported|
    ensures k < steps && Native.NativeRun(start, k).Alive? && |Native.Visits(start, callees.Keys, k)| == i
    ensures var t := Native.NativeRun(start, k).s;
            && t.pc in callees
            && var (cu, func) := callees[t.pc];
               CallClear(cu.datatypes, func.parameters, t.regs, t.mem, callees.Keys) ==>
                 reported[i] == PayloadOf(cu, func, t.regs, t.mem)
  {
    hide Native.NativeRun, Native.Visits, Runs.RunIs, PayloadOf, CallClear, Cpu.Overlay;
    k := Runs.ReportIsNative(callees, start, fuel, end, steps, now, logged, reported, i);
    var t := Native.NativeRun(start, k).s;
    var (cu, func) := callees[t.pc];
    if CallClear(cu.datatypes, func.parameters, t.regs, t.mem, callees.Keys) {
      CallIsNative(cu, func, t.regs, t.mem, callees.Keys);
    }
  }

  /** If the types of all parameters have an end and lead to no structure, every call in the log
      of a run is reported, and the run does not end with a report. */
  lemma OrdinaryRunLosesNothing(callees: Runs.Callees, start: Cpu.Cpu, fuel: nat, end: Runs.RunEnd, steps: nat,
                                now: Cpu.Cpu, logged: seq<Native.Visit>, reported: seq<FunctionPayload>)
    requires Runs.RunIs(callees, start, fuel, end, steps, now, logged, reported)
    requires forall a <- callees, p <- callees[a].1.parameters :: IsOrdinary(callees[a].0.datatypes, p)
    ensures !end.Lost? && |reported| == |logged|
  {
    hide Native.NativeRun, Native.Visits, IsOrdinary, PayloadEnding, Cpu.Patch;
    if end.Lost? {
      var t := Native.NativeRun(start, steps).s;
      var (cu, func) := callees[t.pc];
      var seen := Native.Seen(t, callees.Keys);
      forall p | p in func.parameters
        ensures IsOrdinary(cu.datatypes, p)
      {
        assert p in callees[t.pc].1.parameters;
      }
      OrdinaryCallCompletes(cu.datatypes, func.parameters, seen.regs, seen.mem);
    }
  }

  /** For a parameter that points to a structure the addresses printed in the report of a call
      are its native register plus the location of each member. */
  lemma RunPrintsMemberAddresses(callees: Runs.Callees, start: Cpu.Cpu, fuel: nat, end: Runs.RunEnd, steps: nat,
                                 now: Cpu.Cpu, logged: seq<Native.Visit>, reported: seq<FunctionPayload>,
                                 i: nat, n: nat)
    returns (k: nat)
    requires Runs.RunIs(callees, start, fuel, end, steps, now, logged, reported) && i < |reported|
    ensures k < steps && Native.NativeRun(start, k).Alive? && |Native.Visits(start, callees.Keys, k)| == i
    ensures var t := Native.NativeRun(start, k).s;
            && t.pc in callees
            && var (cu, func) := callees[t.pc];
               var shown := reported[i].memberAddresses;
               && |shown| == |func.parameters|
               && (n < |func.parameters| && n < 6
                   && PointsToStructure(cu.datatypes, func.parameters[n], ValueOf(t.regs, n))
                   ==>
                     var members, v := MembersOf(cu.datatypes, func.parameters[n].typ), ValueOf(t.regs, n);
                     && |shown[n]| == |members|
                     && forall m :: 0 <= m < |members| ==> shown[n][m] == v + members[m].dataMemberLocation)
  {
    hide Native.NativeRun, Native.Visits, Runs.RunIs, Reported, AddressesShown, ShapeOfParam, MembersOf, Cpu.Overlay;
    k := Runs.ReportIsNative(callees, start, fuel, end, steps, now, logged, reported, i);
    var t := Native.NativeRun(start, k).s;
    var (cu, func) := callees[t.pc];
    if n < |func.parameters| && n < 6 && PointsToStructure(cu.datatypes, func.parameters[n], ValueOf(t.regs, n)) {
      MemberAddresses(cu.datatypes, func.parameters[n], t.regs, Cpu.Overlay(t.mem, callees.Keys), n);
    }
  }
}
