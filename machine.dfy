/**
 * Semantics of `ToyVm::run`: one fetch/decode/dispatch step on two uint32
 * registers, a uint32 program counter and 65536 uint32 memory cells, and a
 * step-bounded execution of the whole loop.
 */
module Machine {
  import opened Words
  import opened Encoding

  /** Number of cells of `mem_`. */
  const MemSize: int := 0x1_0000

  type Memory = m: seq<u32> | |m| == MemSize witness seq(MemSize, _ => 0)
  type Regs = r: seq<u32> | |r| == 2 witness [0, 0]

  /** What `PUT` prints: the register letter and the register's value (formatting left out). */
  datatype Event = Print(letter: char, value: u32)

  /** The state `run` works on: `pc`, `reg[2]`, `mem_`, and what has been printed so far. */
  datatype State = State(pc: u32, reg: Regs, mem: Memory, out: seq<Event>)

  /** `mem_` as the constructor leaves it: all zero. */
  function Zeros(): Memory
  {
    seq(MemSize, _ => 0)
  }

  /** The state at the start of `run`: registers zero, `pc` zero, memory as left by earlier runs. */
  function Initial(mem: Memory): State
  {
    State(0, [0, 0], mem, [])
  }

  /** `'A' + r`. */
  function Letter(r: Reg): char
  {
    if r == A then 'A' else 'B'
  }

  /** The `pc` after an instruction: `pc += delta` (only for a taken branch), then `pc++`, both modulo 2^32. */
  function NextPc(pc: u32, delta: int): u32
  {
    (pc + delta + 1) % Modulus
  }

  /** One pass through the `switch` of `run`, followed by `pc++`. */
  function Execute(ins: Instr, s: State): State
  {
    var i := Index(ins.r);
    var next := NextPc(s.pc, 0);
    match ins.op
    case LDI => s.(reg := s.reg[i := ins.imm], pc := next)
    case LD => s.(reg := s.reg[i := s.mem[ins.imm]], pc := next)
    case ST => s.(mem := s.mem[ins.imm := s.reg[i]], pc := next)
    case ADD => s.(reg := s.reg[i := Add32(s.reg[i], s.mem[ins.imm])], pc := next)
    case ADDI => s.(reg := s.reg[i := Add32(s.reg[i], ins.imm)], pc := next)
    case SUB => s.(reg := s.reg[i := Sub32(s.reg[i], s.mem[ins.imm])], pc := next)
    case SUBI => s.(reg := s.reg[i := Sub32(s.reg[i], ins.imm)], pc := next)
    case PUT => s.(out := s.out + [Print(Letter(ins.r), s.reg[i])], pc := next)
    case JNZ => s.(pc := if s.reg[i] != 0 then NextPc(s.pc, Signed16(ins.imm)) else next)
  }

  /** Fetch `code_[pc]`, decode it and execute it. */
  function Step(code: seq<Word>, s: State): State
    requires WellFormed(code) && s.pc < |code|
  {
    Execute(Decoded(code, s.pc), s)
  }

  /** Where `run` stands after a number of steps: returned (the updated `pc` reached `code_.size()`), or still looping. */
  datatype Outcome = Halted(state: State) | Running(state: State)

  /**
   * `run` bounded to `fuel` steps: each step executes `code_[pc]`, and the
   * loop exits exactly when the updated `pc >= code_.size()`.
   */
  function Exec(code: seq<Word>, s: State, fuel: nat): (o: Outcome)
    requires WellFormed(code) && s.pc < |code|
    ensures o.Halted? ==> o.state.pc >= |code| && fuel > 0
    ensures o.Running? ==> o.state.pc < |code|
    decreases fuel
  {
    if fuel == 0 then Running(s)
    else
      var t := Step(code, s);
      if t.pc >= |code| then Halted(t) else Exec(code, t, fuel - 1)
  }

  /** Predicate for the six opcodes that write only the register they name. */
  predicate WritesRegister(op: Op)
  {
    op in {LDI, LD, ADD, ADDI, SUB, SUBI}
  }

  /**
   * LDI, LD, ADD, ADDI, SUB and SUBI change only `reg[r]`, to the value the
   * source computes modulo 2^32, and advance `pc` by one.
   */
  lemma StepWritesRegister(code: seq<Word>, s: State, ins: Instr)
    requires WellFormed(code) && s.pc < |code| && code[s.pc] == Encode(ins)
    requires WritesRegister(ins.op)
    ensures var t, i := Step(code, s), Index(ins.r);
      && t.mem == s.mem && t.out == s.out && t.pc == (s.pc + 1) % Modulus
      && t.reg[1 - i] == s.reg[1 - i]
      && (ins.op == LDI ==> t.reg[i] == ins.imm)
      && (ins.op == LD ==> t.reg[i] == s.mem[ins.imm])
      && (ins.op == ADD ==> (t.reg[i] - (s.reg[i] + s.mem[ins.imm])) % Modulus == 0)
      && (ins.op == ADDI ==> (t.reg[i] - (s.reg[i] + ins.imm)) % Modulus == 0)
      && (ins.op == SUB ==> (t.reg[i] - (s.reg[i] - s.mem[ins.imm])) % Modulus == 0)
      && (ins.op == SUBI ==> (t.reg[i] - (s.reg[i] - ins.imm)) % Modulus == 0)
  {
    DecodeEncode(ins);
  }

  /** ST changes only `mem_[imm]`, to `reg[r]`. */
  lemma StepStore(code: seq<Word>, s: State, r: Reg, imm: u16)
    requires WellFormed(code) && s.pc < |code| && code[s.pc] == Encode(Instr(ST, r, imm))
    ensures var t := Step(code, s);
      && t.reg == s.reg && t.out == s.out && t.pc == (s.pc + 1) % Modulus
      && t.mem[imm] == s.reg[Index(r)]
      && forall j :: 0 <= j < MemSize && j != imm ==> t.mem[j] == s.mem[j]
  {
    DecodeEncode(Instr(ST, r, imm));
  }

  /** PUT changes neither registers nor memory; it appends `(letter, reg[r])` to the output. */
  lemma StepPut(code: seq<Word>, s: State, r: Reg, imm: u16)
    requires WellFormed(code) && s.pc < |code| && code[s.pc] == Encode(Instr(PUT, r, imm))
    ensures var t := Step(code, s);
      && t.reg == s.reg && t.mem == s.mem && t.pc == (s.pc + 1) % Modulus
      && t.out == s.out + [Print(Letter(r), s.reg[Index(r)])]
  {
    DecodeEncode(Instr(PUT, r, imm));
  }

  /**
   * JNZ changes only `pc`: to `pc + 1` when `reg[r]` is zero, otherwise to
   * `pc + 1 + signed16(imm)` modulo 2^32 (exactly that value when it is in range).
   */
  lemma StepJnz(code: seq<Word>, s: State, r: Reg, imm: u16)
    requires WellFormed(code) && s.pc < |code| && code[s.pc] == Encode(Instr(JNZ, r, imm))
    ensures var t := Step(code, s);
      && t.reg == s.reg && t.mem == s.mem && t.out == s.out
      && (s.reg[Index(r)] == 0 ==> t.pc == (s.pc + 1) % Modulus)
      && (s.reg[Index(r)] != 0 ==> (t.pc - (s.pc + 1 + Signed16(imm))) % Modulus == 0)
      && (s.reg[Index(r)] != 0 && 0 <= s.pc + 1 + Signed16(imm) < Modulus ==> t.pc == s.pc + 1 + Signed16(imm))
  {
    DecodeEncode(Instr(JNZ, r, imm));
  }

  /** Running `f` steps and then `g` more is running `f + g` steps; a halted run stays halted. */
  lemma {:induction false} ExecAdditive(code: seq<Word>, s: State, f: nat, g: nat)
    requires WellFormed(code) && s.pc < |code|
    ensures Exec(code, s, f + g) == match Exec(code, s, f)
      case Halted(t) => Halted(t)
      case Running(t) => Exec(code, t, g)
    decreases f
  {
    if f > 0 {
      var t := Step(code, s);
      if t.pc < |code| {
        ExecAdditive(code, t, f - 1, g);
      }
    }
  }

  /** Once `run` has returned within some number of steps, any larger bound gives the same result. */
  lemma ExecHaltedStable(code: seq<Word>, s: State, f: nat, g: nat)
    requires WellFormed(code) && s.pc < |code|
    requires Exec(code, s, f).Halted? && f <= g
    ensures Exec(code, s, g) == Exec(code, s, f)
  {
    ExecAdditive(code, s, f, g - f);
  }

  /** One step that does not reach the end leaves `fuel - 1` steps to go from the next state. */
  lemma ExecUnfold(code: seq<Word>, s: State, fuel: nat)
    requires WellFormed(code) && s.pc < |code| && fuel > 0
    requires Step(code, s).pc < |code|
    ensures Exec(code, s, fuel) == Exec(code, Step(code, s), fuel - 1)
  {
  }
}
