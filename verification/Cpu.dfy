/** The debuggee's processor: a small machine with variable-length instructions,
    sixteen 64-bit registers numbered as x86-64 encodes them, and a one-byte trap. */
module Cpu {
  import opened Memory

  type Regs = r: seq<Word> | |r| == 16 witness seq(16, _ => 0)

  const RCX := 1
  const RDX := 2
  const RSP := 4
  const RSI := 6
  const RDI := 7
  const R8 := 8
  const R9 := 9

  datatype Cpu = Cpu(mem: Mem, regs: Regs, pc: Word)

  type RegName = r: nat | r < 16

  datatype Instr =
    | Nop
    | Int3
    | Hlt
    | MovImm(dst: RegName, imm: Word)
    | Add(dst: RegName, src: RegName)
    | Load(dst: RegName, base: RegName)
    | Store(base: RegName, src: RegName)
    | StoreByte(base: RegName, src: RegName)
    | Jmp(rel: int)
    | JmpReg(target: RegName)
    | JmpIfZero(test: RegName, rel: int)
    | Call(rel: int)
    | Ret
    | Illegal

  datatype Outcome =
    | Running(s: Cpu)   // the next instruction is at s.pc
    | Trapped(s: Cpu)   // an int3 was executed; s.pc is one past it
    | Exited            // the process ended
    | Faulted           // the process got a signal other than SIGTRAP

  // ----- Decoding

  /** The opcode byte alone fixes the length. */
  function Length(opcode: Byte): (n: nat)
    ensures 1 <= n <= 10
  {
    match opcode
    case 0xB8 => 10
    case 0x01 => 3
    case 0x8B => 3
    case 0x89 => 3
    case 0x88 => 3
    case 0x74 => 3
    case 0xEB => 2
    case 0xE8 => 2
    case 0xFF => 2
    case _ => 1
  }

  function Rel8(b: Byte): int {
    if b < 0x80 then b else b - 0x100
  }

  function DecodeInstr(bs: seq<Byte>): Instr
    requires |bs| > 0 && |bs| == Length(bs[0])
  {
    match bs[0]
    case 0x90 => Nop
    case 0xCC => Int3
    case 0xF4 => Hlt
    case 0xC3 => Ret
    case 0xB8 => Pow256Of8(); DecodeBound(bs[2..]); MovImm(bs[1] % 16, Decode(bs[2..]))
    case 0x01 => Add(bs[1] % 16, bs[2] % 16)
    case 0x8B => Load(bs[1] % 16, bs[2] % 16)
    case 0x89 => Store(bs[1] % 16, bs[2] % 16)
    case 0x88 => StoreByte(bs[1] % 16, bs[2] % 16)
    case 0x74 => JmpIfZero(bs[1] % 16, Rel8(bs[2]))
    case 0xEB => Jmp(Rel8(bs[1]))
    case 0xE8 => Call(Rel8(bs[1]))
    case 0xFF => if 0xE0 <= bs[1] < 0xE8 then JmpReg(bs[1] - 0xE0) else Illegal
    case _ => Illegal
  }

  predicate Fetchable(s: Cpu) {
    s.pc in s.mem && Mapped(s.mem, s.pc, Length(s.mem[s.pc]))
  }

  function Fetch(s: Cpu): (bs: seq<Byte>)
    requires Fetchable(s)
    ensures |bs| > 0 && |bs| == Length(bs[0])
  {
    LoadBytes(s.mem, s.pc, Length(s.mem[s.pc]))
  }

  // ----- Execution

  /** The range of bytes an instruction reads or writes as data. */
  function DataRange(i: Instr, regs: Regs): (int, nat) {
    match i
    case Load(_, base) => (regs[base], 8)
    case Store(base, _) => (regs[base], 8)
    case StoreByte(base, _) => (regs[base], 1)
    case Call(_) => (Plus(regs[RSP], -8), 8)
    case Ret => (regs[RSP], 8)
    case _ => (0, 0)
  }

  /** Executes `i`, of length `len`, at s.pc. */
  function Exec(i: Instr, len: nat, s: Cpu): Outcome {
    var next := Plus(s.pc, len);
    var (a, n) := DataRange(i, s.regs);
    if !Mapped(s.mem, a, n) then Faulted else
    match i
    case Nop => Running(s.(pc := next))
    case Int3 => Trapped(s.(pc := next))
    case Hlt => Exited
    case MovImm(d, w) => Running(s.(regs := s.regs[d := w], pc := next))
    case Add(d, r) => Running(s.(regs := s.regs[d := Plus(s.regs[d], s.regs[r])], pc := next))
    case Load(d, _) => Running(s.(regs := s.regs[d := LoadWord(s.mem, a)], pc := next))
    case Store(_, r) => Running(s.(mem := StoreWord(s.mem, a, s.regs[r]), pc := next))
    case StoreByte(_, r) => Running(s.(mem := StoreBytes(s.mem, a, [s.regs[r] % 256]), pc := next))
    case Jmp(rel) => Running(s.(pc := Plus(next, rel)))
    case JmpReg(t) => Running(s.(pc := s.regs[t]))
    case JmpIfZero(t, rel) => Running(s.(pc := if s.regs[t] == 0 then Plus(next, rel) else next))
    case Call(rel) =>
      Running(s.(mem := StoreWord(s.mem, a, next), regs := s.regs[RSP := a], pc := Plus(next, rel)))
    case Ret =>
      Running(s.(regs := s.regs[RSP := Plus(s.regs[RSP], 8)], pc := LoadWord(s.mem, a)))
    case Illegal => Faulted
  }

  function Step(s: Cpu): Outcome {
    if !Fetchable(s) then Faulted
    else
      var bs := Fetch(s);
      Exec(DecodeInstr(bs), |bs|, s)
  }

  /** A trap changes nothing but the PC, which ends one past the int3. */
  lemma TrapIsOneByte(s: Cpu)
    requires Step(s).Trapped?
    ensures Step(s).s == s.(pc := Plus(s.pc, 1))
  {
  }

  // ----- Patched memory

  /** `mem` with the trap byte at every address of `bps`. */
  function Overlay(mem: Mem, bps: set<Word>): (mem': Mem)
    ensures mem'.Keys == mem.Keys
    ensures forall k <- mem :: mem'[k] == if k in bps then INT3 else mem[k]
  {
    map k | k in mem :: if k in bps then INT3 else mem[k]
  }

  function Patch(s: Cpu, bps: set<Word>): Cpu {
    s.(mem := Overlay(s.mem, bps))
  }

  function PatchOutcome(o: Outcome, bps: set<Word>): Outcome {
    match o
    case Running(s) => Running(Patch(s, bps))
    case Trapped(s) => Trapped(Patch(s, bps))
    case _ => o
  }

  ghost predicate Avoids(bps: set<Word>, a: int, n: nat) {
    forall k :: a <= k < a + n ==> k !in bps
  }

  /** The instruction at s.pc neither has a breakpoint strictly inside it nor reads or
      writes a breakpoint byte as data. */
  ghost predicate Respects(s: Cpu, bps: set<Word>) {
    Fetchable(s) ==>
      var bs := Fetch(s);
      var (a, n) := DataRange(DecodeInstr(bs), s.regs);
      && Avoids(bps, s.pc + 1, |bs| - 1)
      && Avoids(bps, a, n)
  }

  lemma LoadAvoiding(mem: Mem, bps: set<Word>, a: int, n: nat)
    requires Avoids(bps, a, n) && Mapped(mem, a, n)
    ensures LoadBytes(Overlay(mem, bps), a, n) == LoadBytes(mem, a, n)
  {
  }

  lemma StoreAvoiding(mem: Mem, bps: set<Word>, a: int, bs: seq<Byte>)
    requires Avoids(bps, a, |bs|)
    ensures StoreBytes(Overlay(mem, bps), a, bs) == Overlay(StoreBytes(mem, a, bs), bps)
  {
  }

  lemma FetchPatched(s: Cpu, bps: set<Word>)
    requires Respects(s, bps) && s.pc !in bps
    ensures Fetchable(Patch(s, bps)) <==> Fetchable(s)
    ensures Fetchable(s) ==> Fetch(Patch(s, bps)) == Fetch(s)
  {
    if Fetchable(s) {
      assert Avoids(bps, s.pc, |Fetch(s)|);
      LoadAvoiding(s.mem, bps, s.pc, |Fetch(s)|);
    }
  }

  lemma ExecPatched(i: Instr, len: nat, s: Cpu, bps: set<Word>)
    requires var (a, n) := DataRange(i, s.regs); Avoids(bps, a, n)
    ensures Exec(i, len, Patch(s, bps)) == PatchOutcome(Exec(i, len, s), bps)
  {
    var (a, n) := DataRange(i, s.regs);
    var mem' := Overlay(s.mem, bps);
    assert Mapped(mem', a, n) <==> Mapped(s.mem, a, n);
    if Mapped(s.mem, a, n) {
      LoadAvoiding(s.mem, bps, a, n);
      match i
      case Store(_, r) => StoreAvoiding(s.mem, bps, a, Encode(s.regs[r], 8));
      case StoreByte(_, r) => StoreAvoiding(s.mem, bps, a, [s.regs[r] % 256]);
      case Call(_) => StoreAvoiding(s.mem, bps, a, Encode(Plus(s.pc, len), 8));
      case _ =>
    }
  }

  /** Away from its breakpoints, a patched machine does what the unpatched one does. */
  lemma StepPatched(s: Cpu, bps: set<Word>)
    requires Respects(s, bps) && s.pc !in bps
    ensures Step(Patch(s, bps)) == PatchOutcome(Step(s), bps)
  {
    FetchPatched(s, bps);
    if Fetchable(s) {
      ExecPatched(DecodeInstr(Fetch(s)), |Fetch(s)|, s, bps);
    }
  }

  /** On a breakpoint, a patched machine traps and changes nothing but the PC. */
  lemma StepOntoTrap(s: Cpu, bps: set<Word>)
    requires s.pc in bps && s.pc in s.mem
    ensures Step(Patch(s, bps)) == Trapped(Patch(s, bps).(pc := Plus(s.pc, 1)))
  {
  }

  /** Rewinding the PC after a trap leads back to the trap. */
  lemma RewindWrap(pc: Word)
    ensures Plus(Plus(pc, 1), -1) == pc
  {
  }

  /** Keeping clear of the breakpoints is necessary: a word read from memory tells whether a
      program is patched unless every trap in it is the program's own. */
  lemma LoadSeesTraps(mem: Mem, bps: set<Word>, a: int)
    requires Mapped(mem, a, 8)
    ensures LoadWord(Overlay(mem, bps), a) == LoadWord(mem, a)
       <==> forall k :: a <= k < a + 8 && k in bps ==> mem[k] == INT3
  {
    var bs, bs' := LoadBytes(mem, a, 8), LoadBytes(Overlay(mem, bps), a, 8);
    EncodeOfDecode(bs);
    EncodeOfDecode(bs');
    if LoadWord(Overlay(mem, bps), a) == LoadWord(mem, a) {
      forall k | a <= k < a + 8 && k in bps
        ensures mem[k] == INT3
      {
        assert bs'[k - a] == bs[k - a];
      }
    }
    if forall k :: a <= k < a + 8 && k in bps ==> mem[k] == INT3 {
      assert bs' == bs;
    }
  }
}
