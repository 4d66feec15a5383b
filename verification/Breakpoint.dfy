/** src/breakpoint.cc: one trap byte, patched and unpatched through whole words, and the
    table of all of them. */
module Breakpoints {
  import opened Memory
  import opened Cpu
  import opened Ptrace

  class Breakpoint {
    const breakpointType: string
    const name: string
    const address: Word
    const cuIndex: nat
    const fnIndex: nat
    var originalData: Byte
    var enabled: bool

    constructor (breakpointType: string, name: string, address: Word, cuIndex: nat, fnIndex: nat)
      ensures this.breakpointType == breakpointType && this.name == name && this.address == address
      ensures this.cuIndex == cuIndex && this.fnIndex == fnIndex
      ensures originalData == 0 && !enabled
    {
      this.breakpointType, this.name, this.address := breakpointType, name, address;
      this.cuIndex, this.fnIndex := cuIndex, fnIndex;
      originalData, enabled := 0, false;
    }

    /** Saves the byte at the address and puts a trap there.  `ok` is false where the
        source throws. */
    method EnableBreakpoint(child: Tracee) returns (ok: bool)
      modifies this, child
      ensures ok <==> PeekData(old(child.cpu.mem), address) != ALL_ONES
      ensures ok ==> Mapped(old(child.cpu.mem), address, 8) && address in old(child.cpu.mem)
      ensures ok ==> enabled && originalData == old(child.cpu.mem)[address]
      ensures ok ==> child.cpu == old(child.cpu).(mem := old(child.cpu.mem)[address := INT3])
      ensures !ok ==> enabled == old(enabled) && originalData == 0xFF && child.cpu == old(child.cpu)
    {
      var data := child.Peek(address);
      originalData := data % 256;
      if data == ALL_ONES {
        return false;
      }
      LowByteOfPeek(child.cpu.mem, address);
      PatchOneByte(child.cpu.mem, address, INT3);
      child.Poke(address, SetLowByte(data, INT3));
      enabled := true;
      ok := true;
    }

    /** Puts the saved byte back. */
    method DisableBreakpoint(child: Tracee) returns (ok: bool)
      modifies this, child
      ensures ok <==> PeekData(old(child.cpu.mem), address) != ALL_ONES
      ensures ok ==> Mapped(old(child.cpu.mem), address, 8) && !enabled
      ensures ok ==> child.cpu == old(child.cpu).(mem := old(child.cpu.mem)[address := originalData])
      ensures !ok ==> enabled == old(enabled) && child.cpu == old(child.cpu)
      ensures originalData == old(originalData)
    {
      var data := child.Peek(address);
      if data == ALL_ONES {
        return false;
      }
      PatchOneByte(child.cpu.mem, address, originalData);
      child.Poke(address, SetLowByte(data, originalData));
      enabled := false;
      ok := true;
    }
  }

  // ----- What a table says about the debuggee

  /** The mutable part of a table entry. */
  datatype Entry = Entry(originalData: Byte, enabled: bool)

  type View = map<Word, Entry>

  /** Memory with the enabled entries' saved bytes put back. */
  function Restore(mem: Mem, view: View): (mem': Mem)
    ensures mem'.Keys == mem.Keys
    ensures forall k <- mem ::
              mem'[k] == if k in view && view[k].enabled then view[k].originalData else mem[k]
  {
    map k | k in mem :: if k in view && view[k].enabled then view[k].originalData else mem[k]
  }

  /** The debuggee with every enabled trap byte replaced by its saved original. */
  function NativeOf(cpu: Cpu, view: View): Cpu {
    cpu.(mem := Restore(cpu.mem, view))
  }

  /** Every entry is armed: its byte is a trap, its word is mapped. */
  ghost predicate Armed(cpu: Cpu, view: View) {
    forall a <- view :: view[a].enabled && Mapped(cpu.mem, a, 8) && cpu.mem[a] == INT3
  }

  /** Armed tables overlay the native program: traps at the keys, and every other byte,
      the ones sharing a word with a trap included, is native. */
  lemma ArmedIsOverlay(cpu: Cpu, view: View)
    requires Armed(cpu, view)
    ensures cpu == Patch(NativeOf(cpu, view), view.Keys)
    ensures forall a <- view :: a in cpu.mem && NativeOf(cpu, view).mem[a] == view[a].originalData
  {
    assert cpu.mem == Overlay(NativeOf(cpu, view).mem, view.Keys);
  }

  /** Conversely, a native program overlaid with traps whose originals are saved. */
  lemma OverlayIsArmed(native: Cpu, view: View)
    requires forall a <- view ::
               view[a].enabled && Mapped(native.mem, a, 8) && view[a].originalData == native.mem[a]
    ensures var cpu := Patch(native, view.Keys); Armed(cpu, view) && NativeOf(cpu, view) == native
  {
    var cpu := Patch(native, view.Keys);
    assert Restore(cpu.mem, view) == native.mem;
  }

  /** Saving the byte at `a` and trapping it keeps the table armed.  It keeps the native
      program exactly when `a` was free or held a native trap. */
  lemma ArmOne(cpu: Cpu, view: View, a: Word)
    requires Armed(cpu, view) && Mapped(cpu.mem, a, 8)
    ensures var cpu' := cpu.(mem := cpu.mem[a := INT3]);
            var view' := view[a := Entry(cpu.mem[a], true)];
            && Armed(cpu', view')
            && (NativeOf(cpu', view') == NativeOf(cpu, view)
                <==> (a in view ==> view[a].originalData == INT3))
  {
    var mem' := cpu.mem[a := INT3];
    var view' := view[a := Entry(cpu.mem[a], true)];
    assert mem'.Keys == cpu.mem.Keys;
    var before, after := Restore(cpu.mem, view), Restore(mem', view');
    assert after[a] == cpu.mem[a];
    if a in view ==> view[a].originalData == INT3 {
      assert after == before;
    } else {
      assert before[a] == view[a].originalData;
    }
  }

  /** The debuggee and the static table of breakpoints set in it. */
  class BreakpointTable {
    const child: Tracee
    var entries: map<Word, Breakpoint>

    constructor (child: Tracee)
      ensures this.child == child && entries == map[]
    {
      this.child := child;
      entries := map[];
    }

    ghost predicate Valid()
      reads this
    {
      forall a <- entries :: entries[a].address == a
    }

    function View(): (view: View)
      reads this, entries.Values
      ensures view.Keys == entries.Keys
    {
      map a | a in entries :: Entry(entries[a].originalData, entries[a].enabled)
    }

    /** The overload with indices: sets a breakpoint unless there is one.  The native
        program survives. */
    method SetFunctionBreakpoint(name: string, address: Word, breakpointType: string,
                                 cuIndex: nat, fnIndex: nat) returns (ok: bool)
      requires Valid() && Armed(child.cpu, View())
      modifies this, child
      ensures Valid()
      ensures ok <==> address in old(entries) || PeekData(old(child.cpu.mem), address) != ALL_ONES
      ensures !ok || address in old(entries) ==> entries == old(entries) && child.cpu == old(child.cpu)
      ensures Armed(child.cpu, View()) && NativeOf(child.cpu, View()) == old(NativeOf(child.cpu, View()))
      ensures ok && address !in old(entries) ==>
                && address in entries && fresh(entries[address])
                && entries == old(entries)[address := entries[address]]
                && entries[address].name == name && entries[address].breakpointType == breakpointType
                && entries[address].cuIndex == cuIndex && entries[address].fnIndex == fnIndex
    {
      hide Armed, NativeOf, Restore, Mapped, PeekData;
      ghost var cpu, view := child.cpu, View();
      var bp := new Breakpoint(breakpointType, name, address, cuIndex, fnIndex);
      if address in entries {
        return true;
      }
      ok := bp.EnableBreakpoint(child);
      if ok {
        entries := entries[address := bp];
        assert View() == view[address := Entry(cpu.mem[address], true)];
        ArmOne(cpu, view, address);
      }
    }

    /** The overload without indices: sets a breakpoint even over another.  The native
        program survives exactly when there was none, or when it had a trap of its own
        at the address. */
    method SetBreakpoint(name: string, address: Word, breakpointType: string) returns (ok: bool)
      requires Valid() && Armed(child.cpu, View())
      modifies this, child
      ensures Valid()
      ensures ok <==> PeekData(old(child.cpu.mem), address) != ALL_ONES
      ensures !ok ==> entries == old(entries) && child.cpu == old(child.cpu)
      ensures Armed(child.cpu, View())
      ensures ok ==> (NativeOf(child.cpu, View()) == old(NativeOf(child.cpu, View()))
                      <==> (address in old(entries) ==> old(View())[address].originalData == INT3))
      ensures ok ==>
                && address in old(child.cpu.mem)
                && child.cpu == old(child.cpu).(mem := old(child.cpu.mem)[address := INT3])
                && View() == old(View())[address := Entry(old(child.cpu.mem)[address], true)]
      ensures ok ==>
                && address in entries && fresh(entries[address])
                && entries == old(entries)[address := entries[address]]
                && entries[address].name == name && entries[address].breakpointType == breakpointType
    {
      hide Armed, NativeOf, Restore, Mapped, PeekData;
      ghost var cpu, view := child.cpu, View();
      var bp := new Breakpoint(breakpointType, name, address, 0, 0);
      ok := bp.EnableBreakpoint(child);
      if ok {
        entries := entries[address := bp];
        assert View() == view[address := Entry(cpu.mem[address], true)];
        ArmOne(cpu, view, address);
      }
    }
  }

  // ----- Patching at two addresses

  /** Memory after `enable_breakpoint` or `disable_breakpoint` writes `b` at `a`. */
  function WriteThroughWord(mem: Mem, a: Word, b: Byte): Mem {
    PokeData(mem, a, SetLowByte(PeekData(mem, a), b))
  }

  /** Enabling and disabling at distinct addresses commute, and neither disturbs the byte
      the other one saves, even when their words overlap. */
  lemma PatchesCommute(mem: Mem, a: Word, x: Byte, b: Word, y: Byte)
    requires a != b && Mapped(mem, a, 8) && Mapped(mem, b, 8)
    ensures WriteThroughWord(WriteThroughWord(mem, a, x), b, y)
         == WriteThroughWord(WriteThroughWord(mem, b, y), a, x)
    ensures PeekData(WriteThroughWord(mem, a, x), b) % 256 == PeekData(mem, b) % 256
    ensures PeekData(WriteThroughWord(mem, b, y), a) % 256 == PeekData(mem, a) % 256
  {
    PatchOneByte(mem, a, x);
    PatchOneByte(mem, b, y);
    PatchOneByte(mem[a := x], b, y);
    PatchOneByte(mem[b := y], a, x);
    assert mem[a := x][b := y] == mem[b := y][a := x];
    LowByteOfPeek(mem, a);
    LowByteOfPeek(mem, b);
    LowByteOfPeek(mem[a := x], b);
    LowByteOfPeek(mem[b := y], a);
  }

  /** A trap anywhere in a word keeps it from reading as a failure. */
  lemma TrapIsNoFailure(mem: Mem, a: Word, k: int)
    requires Mapped(mem, a, 8) && a <= k < a + 8 && mem[k] == INT3
    ensures PeekData(mem, a) != ALL_ONES
  {
    PeekIsAllOnes(mem, a);
  }

  /** Whether breakpoints can be set does depend on the order: after one is set at `b`, the
      word at `a` can be patched exactly if it could be before or `b` is in it. */
  lemma OrderDecidesFailure(mem: Mem, a: Word, b: Word)
    requires Mapped(mem, a, 8) && Mapped(mem, b, 8)
    ensures PeekData(WriteThroughWord(mem, b, INT3), a) != ALL_ONES
       <==> PeekData(mem, a) != ALL_ONES || a <= b < a + 8
  {
    hide PeekData;
    PatchOneByte(mem, b, INT3);
    PeekIsAllOnes(mem, a);
    PeekIsAllOnes(mem[b := INT3], a);
    if a <= b < a + 8 {
      assert mem[b := INT3][b] == INT3;
    }
  }
}
