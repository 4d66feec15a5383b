/** The traced child process: the machine behind the ptrace requests of the debugger. */
module Ptrace {
  import opened Memory
  import opened Cpu
  import opened Native

  class Tracee {
    var cpu: Cpu

    constructor (cpu: Cpu)
      ensures this.cpu == cpu
    {
      this.cpu := cpu;
    }

    /** PTRACE_PEEKDATA; -1 on failure. */
    method Peek(a: int) returns (data: Word)
      ensures data == PeekData(cpu.mem, a)
    {
      data := PeekData(cpu.mem, a);
    }

    /** PTRACE_POKEDATA */
    method Poke(a: Word, data: Word)
      modifies this
      ensures cpu == old(cpu).(mem := PokeData(old(cpu.mem), a, data))
    {
      cpu := cpu.(mem := PokeData(cpu.mem, a, data));
    }

    /** PTRACE_GETREGS and PTRACE_SETREGS, as far as the program counter is concerned. */
    method GetProgramCounter() returns (pc: Word)
      ensures pc == cpu.pc
    {
      pc := cpu.pc;
    }

    method SetProgramCounter(pc: Word)
      modifies this
      ensures cpu == old(cpu).(pc := pc)
    {
      cpu := cpu.(pc := pc);
    }

    /** PTRACE_CONT and the wait for the next stop, observed for at most `fuel` instructions. */
    method Cont(fuel: nat) returns (stop: Stop, steps: nat)
      modifies this
      ensures Continued(stop, cpu, steps) == HwCont(old(cpu), fuel)
    {
      hide *;
      stop, steps := Budget, 0;
      while steps < fuel
        invariant steps <= fuel
        invariant var r := HwCont(cpu, fuel - steps);
                  HwCont(old(cpu), fuel) == Continued(r.stop, r.s, steps + r.steps)
      {
        HwContUnfold(cpu, fuel - steps);
        match Step(cpu)
        case Running(t) =>
          cpu, steps := t, steps + 1;
        case Trapped(t) =>
          cpu := t;
          return SigTrap, steps;
        case Exited =>
          return Gone(ChildExited), steps + 1;
        case Faulted =>
          return Gone(ChildSignalled), steps + 1;
      }
      HwContNoFuel(cpu);
    }

    /** PTRACE_SINGLESTEP and the wait for its trap. */
    method SingleStep() returns (stop: Stop)
      modifies this
      ensures match NativeStep(old(cpu))
              case Alive(t) => stop == SigTrap && cpu == t
              case Dead(f) => stop == Gone(f) && cpu == old(cpu)
    {
      match Step(cpu)
      case Running(t) =>
        cpu := t;
        stop := SigTrap;
      case Trapped(t) =>
        cpu := t;
        stop := SigTrap;
      case Exited =>
        stop := Gone(ChildExited);
      case Faulted =>
        stop := Gone(ChildSignalled);
    }
  }
}
