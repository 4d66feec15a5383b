/** src/debugger_manager.cc: unpatching a breakpoint for one instruction and patching it again. */
module SteppingOver {
  import opened Memory
  import opened Cpu
  import opened Native
  import opened Breakpoints

  // ----- Unpatching for one step

  /** The armed table with the entry at `a` unpatched. */
  lemma DisarmOne(cpu: Cpu, view: View, a: Word)
    requires Armed(cpu, view) && a in view
    ensures var native := NativeOf(cpu, view);
            a in cpu.mem && cpu.(mem := cpu.mem[a := view[a].originalData]) == Patch(native, view.Keys - {a})
  {
    ArmedIsOverlay(cpu, view);
    var native := NativeOf(cpu, view);
    assert cpu.mem[a := view[a].originalData] == Overlay(native.mem, view.Keys - {a});
  }

  lemma FewerBreakpoints(s: Cpu, bps: set<Word>, a: Word)
    requires Respects(s, bps)
    ensures Respects(s, bps - {a})
  {
  }

  /** One instruction with only the breakpoint under it unpatched is one native instruction. */
  lemma StepUnpatched(s: Cpu, bps: set<Word>)
    requires Respects(s, bps)
    ensures NativeStep(Patch(s, bps - {s.pc})) ==
            match NativeStep(s) { case Alive(t) => Alive(Patch(t, bps - {s.pc})) case Dead(f) => Dead(f) }
  {
    FewerBreakpoints(s, bps, s.pc);
    StepPatched(s, bps - {s.pc});
  }

  /** Patching the one unpatched byte again re-arms the table around the new state. */
  lemma RearmOne(native: Cpu, view: View, a: Word)
    requires a in view && forall b <- view ::
               Mapped(native.mem, b, 8) && view[b].originalData == native.mem[b] && (b != a ==> view[b].enabled)
    ensures var cpu := Patch(native, view.Keys - {a});
            && a in cpu.mem && cpu.mem[a] == native.mem[a]
            && var cpu' := cpu.(mem := cpu.mem[a := INT3]);
               var view' := view[a := Entry(native.mem[a], true)];
               Armed(cpu', view') && NativeOf(cpu', view') == native
  {
    var view' := view[a := Entry(native.mem[a], true)];
    OverlayIsArmed(native, view');
    assert view'.Keys == view.Keys;
    assert Overlay(native.mem, view.Keys - {a})[a := INT3] == Overlay(native.mem, view.Keys);
  }

  lemma NativeOfPc(cpu: Cpu, view: View)
    ensures NativeOf(cpu, view).pc == cpu.pc
  {
  }

  /** The word at a breakpoint that has just been executed can always be patched again: it
      would have to be eight 0xFF bytes, and those are no instruction. */
  lemma NeverUnreadable(native: Cpu, bps: set<Word>, t: Cpu)
    requires Respects(native, bps) && native.pc in bps && Mapped(native.mem, native.pc, 8)
    requires NativeStep(native) == Alive(t)
    ensures PeekData(Overlay(t.mem, bps - {native.pc}), native.pc) != ALL_ONES
  {
    hide PeekData;
    var a, mem := native.pc, Overlay(t.mem, bps - {native.pc});
    StepKeepsBytes(native, bps);
    PeekIsAllOnes(mem, a);
    assert Mapped(mem, a, 8) && mem[a] == native.mem[a];
    if native.mem[a] == 0xFF {
      JumpHasSecondByte(native);
      assert a + 1 !in bps && mem[a + 1] == t.mem[a + 1];
    }
  }

  /** The instructions with opcode 0xFF: their second byte is another, and they write nothing. */
  lemma JumpHasSecondByte(native: Cpu)
    requires Mapped(native.mem, native.pc, 8) && native.mem[native.pc] == 0xFF && NativeStep(native).Alive?
    ensures NativeStep(native).s.mem == native.mem && native.mem[native.pc + 1] != 0xFF
  {
  }

  /** Rewind and unpatch: the debuggee is about to execute the native instruction. */
  lemma UnpatchFacts(native: Cpu, cpu: Cpu, view: View)
    requires Armed(cpu, view) && NativeOf(cpu, view) == native.(pc := Plus(native.pc, 1)) && native.pc in view
    ensures cpu == Seen(native, view.Keys)
    ensures Plus(cpu.pc, -1) == native.pc && view[native.pc].enabled
    ensures PeekData(cpu.mem, native.pc) != ALL_ONES
    ensures cpu.(pc := native.pc, mem := cpu.mem[native.pc := view[native.pc].originalData])
         == Patch(native, view.Keys - {native.pc})
  {
    RewindWrap(native.pc);
    ArmedIsOverlay(cpu, view);
    DisarmOne(cpu, view, native.pc);
    TrapIsNoFailure(cpu.mem, native.pc, native.pc);
  }

  /** Step and repatch: the debuggee is one native instruction further and armed again. */
  lemma RepatchFacts(native: Cpu, cpu: Cpu, view: View, t: Cpu)
    requires Armed(cpu, view) && NativeOf(cpu, view) == native.(pc := Plus(native.pc, 1)) && native.pc in view
    requires Respects(native, view.Keys) && NativeStep(native) == Alive(t)
    ensures var a := native.pc;
            var stepped := Patch(t, view.Keys - {a});
            && a in stepped.mem && PeekData(stepped.mem, a) != ALL_ONES
            && var rearmed := stepped.(mem := stepped.mem[a := INT3]);
               var view' := view[a := Entry(stepped.mem[a], true)];
               Armed(rearmed, view') && NativeOf(rearmed, view') == t
  {
    ArmedIsOverlay(cpu, view);
    StepKeepsBytes(native, view.Keys);
    NeverUnreadable(native, view.Keys, t);
    RearmOne(t, view, native.pc);
  }
}
