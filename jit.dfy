/**
 * `ToyVm::recompile`, abstracted: the translation of the instruction buffer
 * into one native block per VM instruction (x86 instructions as values,
 * Xbyak's byte encoding left out), a semantics for those blocks, and the
 * proof that running the blocks from the prologue's zeroed registers does
 * what the interpreter does.
 */
module Jit {
  import opened Wrappers
  import opened Words
  import opened Encoding
  import opened Machine

  /** The host registers the routine computes in: esi, edi hold A, B; eax, ecx, edx cache `mem_[0..2]`. (ebx holds the base of `mem_` throughout.) */
  datatype Host32 = Eax | Ecx | Edx | Esi | Edi

  /** A 32-bit operand: a host register, or the dword `ptr[ebx + disp]` inside `mem_`. */
  datatype Loc = Direct(h: Host32) | Cell(disp: nat)

  /** A source operand: a location or an immediate. */
  datatype Src = Of(loc: Loc) | Imm(v: u32)

  /**
   * The native instructions recompile emits. CallPrint stands for the whole
   * `push`/`call printf`/`add esp`/`pop` sequence of PUT, TestJnz for
   * `test r, r` followed by `jnz` to a numbered label.
   */
  datatype X86 =
    | Mov(dst: Loc, src: Src)
    | Add(dst: Loc, src: Src)
    | Sub(dst: Loc, src: Src)
    | CallPrint(letter: char, value: Host32)
    | TestJnz(h: Host32, target: int)

  /** The native code of one VM instruction, preceded by its label `L(labelNum)`. */
  datatype Block = Block(labelNum: int, code: X86)

  /** `memTblNum`: how many low memory cells live in host registers. */
  const CachedCells: nat := 3

  /** `const Reg32 reg[2] = { esi, edi }`. */
  function HostOf(r: Reg): Host32
  {
    if r == A then Esi else Edi
  }

  /** `const Reg32 memTbl[] = { eax, ecx, edx }`. */
  function CacheReg(i: nat): Host32
    requires i < CachedCells
  {
    if i == 0 then Eax else if i == 1 then Ecx else Edx
  }

  /** The operand for `mem_[imm]`: `memTbl[imm]` when `imm < memTblNum`, else `ptr[mem + imm * 4]`. */
  function MemOperand(imm: u16): Loc
  {
    if imm < CachedCells then Direct(CacheReg(imm)) else Cell(imm * 4)
  }

  /** The body of recompile's `switch` for one instruction; `labelNum` has already been incremented past the instruction's own label. */
  function Lower(labelNum: int, ins: Instr): X86
  {
    var reg := Direct(HostOf(ins.r));
    match ins.op
    case LDI => Mov(reg, Imm(ins.imm))
    case LD => Mov(reg, Of(MemOperand(ins.imm)))
    case ST => Mov(MemOperand(ins.imm), Of(reg))
    case ADD => Add(reg, Of(MemOperand(ins.imm)))
    case ADDI => Add(reg, Imm(ins.imm))
    case SUB => Sub(reg, Of(MemOperand(ins.imm)))
    case SUBI => Sub(reg, Imm(ins.imm))
    case PUT => CallPrint(Letter(ins.r), HostOf(ins.r))
    case JNZ => TestJnz(HostOf(ins.r), labelNum + Signed16(ins.imm))
  }

  /** The memory and register operands an instruction reads or writes. */
  function Locs(x: X86): seq<Loc>
  {
    match x
    case Mov(d, s) => [d] + (if s.Of? then [s.loc] else [])
    case Add(d, s) => [d] + (if s.Of? then [s.loc] else [])
    case Sub(d, s) => [d] + (if s.Of? then [s.loc] else [])
    case CallPrint(_, r) => [Direct(r)]
    case TestJnz(r, _) => [Direct(r)]
  }

  /** A memory operand names an aligned dword inside `mem_`. */
  predicate Addressable(l: Loc)
  {
    l.Cell? ==> l.disp % 4 == 0 && l.disp / 4 < MemSize
  }

  /** Every operand of an instruction is a host register or an aligned dword of `mem_`. */
  predicate InBounds(x: X86)
  {
    match x
    case Mov(d, src) => Addressable(d) && (src.Of? ==> Addressable(src.loc))
    case Add(d, src) => Addressable(d) && (src.Of? ==> Addressable(src.loc))
    case Sub(d, src) => Addressable(d) && (src.Of? ==> Addressable(src.loc))
    case _ => true
  }

  /** Every block only addresses what it may. */
  predicate Assembled(blocks: seq<Block>)
  {
    forall i :: 0 <= i < |blocks| ==> InBounds(blocks[i].code)
  }

  /** recompile's pass over `code_`: block i carries label i and the lowering of instruction i. */
  function Translate(code: seq<Word>): (blocks: seq<Block>)
    requires WellFormed(code)
    ensures |blocks| == |code|
  {
    seq(|code|, i requires 0 <= i < |code| => Block(i, Lower(i + 1, Decoded(code, i))))
  }

  /** Whatever it translates, recompile only addresses aligned dwords of `mem_`, never one of the cached cells. */
  lemma TranslateAddresses(code: seq<Word>)
    requires WellFormed(code)
    ensures Assembled(Translate(code))
    ensures forall i, j :: 0 <= i < |code| && 0 <= j < |Locs(Translate(code)[i].code)| && Locs(Translate(code)[i].code)[j].Cell? ==>
      Locs(Translate(code)[i].code)[j].disp / 4 >= CachedCells
  {
  }

  /**
   * The JNZ block's label is the interpreter's taken-branch target
   * `pc + 1 + signed16(imm)`, and a taken JNZ in the interpreter lands
   * exactly there whenever that index is a valid uint32.
   */
  lemma JnzTargetMatchesInterpreter(code: seq<Word>, s: State, r: Reg, imm: u16)
    requires WellFormed(code) && s.pc < |code| && code[s.pc] == Encode(Instr(JNZ, r, imm))
    ensures Translate(code)[s.pc] == Block(s.pc, TestJnz(HostOf(r), s.pc + 1 + Signed16(imm)))
    ensures s.reg[Index(r)] != 0 && 0 <= s.pc + 1 + Signed16(imm) < Modulus ==>
      Step(code, s).pc == s.pc + 1 + Signed16(imm)
  {
    DecodeEncode(Instr(JNZ, r, imm));
  }

  /**
   * LD, ST, ADD and SUB on `mem_[imm]` with `imm < memTblNum` operate on
   * that cell's cache register and never on the array; with a larger `imm`
   * they address `ptr[mem + imm * 4]`.
   */
  lemma MemoryOperandSelection(labelNum: int, op: Op, r: Reg, imm: u16)
    requires op in {LD, ST, ADD, SUB}
    ensures var locs := Locs(Lower(labelNum, Instr(op, r, imm)));
      && (imm < CachedCells ==> Direct(CacheReg(imm)) in locs && forall l :: l in locs ==> !l.Cell?)
      && (imm >= CachedCells ==> Cell(imm * 4) in locs)
  {
  }

  /** The host state of the generated routine: the five value registers, `mem_`, printed output, and the block being executed. */
  datatype Host = Host(eax: u32, ecx: u32, edx: u32, esi: u32, edi: u32, mem: Memory, out: seq<Event>, pc: nat)

  /** The routine's prologue: `xor` of eax, ecx, edx, esi and edi, `mov ebx, mem_`, start at the first block. */
  function Prologue(mem: Memory): Host
  {
    Host(0, 0, 0, 0, 0, mem, [], 0)
  }

  function Get(h: Host, r: Host32): u32
  {
    match r
    case Eax => h.eax
    case Ecx => h.ecx
    case Edx => h.edx
    case Esi => h.esi
    case Edi => h.edi
  }

  function Set(h: Host, r: Host32, v: u32): Host
  {
    match r
    case Eax => h.(eax := v)
    case Ecx => h.(ecx := v)
    case Edx => h.(edx := v)
    case Esi => h.(esi := v)
    case Edi => h.(edi := v)
  }

  function Load(h: Host, l: Loc): u32
    requires Addressable(l)
  {
    match l
    case Direct(r) => Get(h, r)
    case Cell(d) => h.mem[d / 4]
  }

  function Store(h: Host, l: Loc, v: u32): Host
    requires Addressable(l)
  {
    match l
    case Direct(r) => Set(h, r, v)
    case Cell(d) => h.(mem := h.mem[d / 4 := v])
  }

  function Fetch(h: Host, src: Src): u32
    requires src.Of? ==> Addressable(src.loc)
  {
    match src
    case Of(l) => Load(h, l)
    case Imm(v) => v
  }

  /** The first block carrying a label, searching from `from` on; None when recompile never placed that label. */
  function FindLabel(blocks: seq<Block>, labelNum: int, from: nat): (j: Option<nat>)
    ensures j.Some? ==> from <= j.value < |blocks| && blocks[j.value].labelNum == labelNum
    ensures j.Some? ==> forall k :: from <= k < j.value ==> blocks[k].labelNum != labelNum
    ensures j.None? ==> forall k :: from <= k < |blocks| ==> blocks[k].labelNum != labelNum
    decreases |blocks| - from
  {
    if from >= |blocks| then None
    else if blocks[from].labelNum == labelNum then Some(from)
    else FindLabel(blocks, labelNum, from + 1)
  }

  /** Result of one native block: the next host state, or a jump to a label that was never placed. */
  datatype NativeStep = Next(host: Host) | Fault

  /** Execute one block; falling through moves to the next block, a taken `jnz` to its label's block. */
  function RunBlock(blocks: seq<Block>, h: Host): (n: NativeStep)
    requires Assembled(blocks) && h.pc < |blocks|
    ensures n.Next? ==> n.host.pc <= |blocks|
  {
    var x := blocks[h.pc].code;
    match x
    case TestJnz(r, target) =>
      if Get(h, r) == 0 then Next(h.(pc := h.pc + 1))
      else (match FindLabel(blocks, target, 0)
        case Some(j) => Next(h.(pc := j))
        case None => Fault)
    case _ => Next(StraightLine(h, x))
  }

  /** The block run for a non-branching instruction: its effect on `h`, then the fall-through to the next block. */
  function StraightLine(h: Host, x: X86): Host
    requires InBounds(x) && !x.TestJnz?
  {
    match x
    case Mov(d, src) => Store(h, d, Fetch(h, src)).(pc := h.pc + 1)
    case Add(d, src) => Store(h, d, Add32(Load(h, d), Fetch(h, src))).(pc := h.pc + 1)
    case Sub(d, src) => Store(h, d, Sub32(Load(h, d), Fetch(h, src))).(pc := h.pc + 1)
    case CallPrint(c, r) => h.(out := h.out + [Print(c, Get(h, r))], pc := h.pc + 1)
  }

  /** Where the generated routine stands after a number of blocks: returned past the last block, faulted, or still running. */
  datatype NativeOutcome = Returned(host: Host) | Looping(host: Host) | Faulted(host: Host)

  function NativeExec(blocks: seq<Block>, h: Host, fuel: nat): (n: NativeOutcome)
    requires Assembled(blocks) && h.pc < |blocks|
    ensures n.Looping? ==> n.host.pc < |blocks|
    decreases fuel
  {
    if fuel == 0 then Looping(h)
    else match RunBlock(blocks, h)
      case Fault => Faulted(h)
      case Next(h') => if h'.pc >= |blocks| then Returned(h') else NativeExec(blocks, h', fuel - 1)
  }

  /**
   * How a host state stands for an interpreter state: esi and edi hold A
   * and B, eax, ecx and edx hold `mem_[0..2]`, every other cell is the
   * array's own, and the same lines have been printed.
   */
  ghost predicate Represents(h: Host, s: State)
  {
    && h.esi == s.reg[0] && h.edi == s.reg[1]
    && h.eax == s.mem[0] && h.ecx == s.mem[1] && h.edx == s.mem[2]
    && (forall j :: CachedCells <= j < MemSize ==> h.mem[j] == s.mem[j])
    && h.out == s.out
  }

  /** A label that recompile placed is found at its own index; any other label is not found. */
  lemma LabelsAreIndices(code: seq<Word>, target: int)
    requires WellFormed(code)
    ensures FindLabel(Translate(code), target, 0) == if 0 <= target < |code| then Some(target) else None
  {
    var blocks := Translate(code);
    assert forall k :: 0 <= k < |blocks| ==> blocks[k].labelNum == k;
    if 0 <= target < |code| {
      assert blocks[target].labelNum == target;
    }
  }

  lemma GetRepresented(h: Host, s: State, r: Reg)
    requires Represents(h, s)
    ensures Get(h, HostOf(r)) == s.reg[Index(r)]
  {
  }

  lemma SetRepresented(h: Host, s: State, r: Reg, v: u32)
    requires Represents(h, s)
    ensures Represents(Set(h, HostOf(r), v), s.(reg := s.reg[Index(r) := v]))
  {
  }

  lemma LoadRepresented(h: Host, s: State, imm: u16)
    requires Represents(h, s)
    ensures Load(h, MemOperand(imm)) == s.mem[imm]
  {
  }

  lemma StoreRepresented(h: Host, s: State, imm: u16, v: u32)
    requires Represents(h, s)
    ensures Represents(Store(h, MemOperand(imm), v), s.(mem := s.mem[imm := v]))
  {
  }

  /** A JNZ whose target index recompile labelled (0 <= target < size) — the only jumps the generated code can take. */
  ghost predicate JumpsInRange(code: seq<Word>)
    requires WellFormed(code)
  {
    forall i :: 0 <= i < |code| && Decoded(code, i).op == JNZ ==>
      0 <= i + 1 + Signed16(Decoded(code, i).imm) < |code|
  }

  /** The lowering of a non-branching instruction does to a representing host state what Execute does to the VM state. */
  lemma StraightLineSimulation(ins: Instr, s: State, h: Host, labelNum: int)
    requires ins.op != JNZ && s.pc + 1 < Modulus
    requires h.pc == s.pc && Represents(h, s)
    ensures InBounds(Lower(labelNum, ins)) && !Lower(labelNum, ins).TestJnz?
    ensures var h', t := StraightLine(h, Lower(labelNum, ins)), Execute(ins, s);
      Represents(h', t) && h'.pc == t.pc
  {
    var r, imm := ins.r, ins.imm;
    var i := Index(r);
    GetRepresented(h, s, r);
    match ins.op
    case LDI =>
      SetRepresented(h, s, r, imm);
    case LD =>
      LoadRepresented(h, s, imm);
      SetRepresented(h, s, r, s.mem[imm]);
    case ST =>
      StoreRepresented(h, s, imm, s.reg[i]);
    case ADD =>
      LoadRepresented(h, s, imm);
      SetRepresented(h, s, r, Add32(s.reg[i], s.mem[imm]));
    case ADDI =>
      SetRepresented(h, s, r, Add32(s.reg[i], imm));
    case SUB =>
      LoadRepresented(h, s, imm);
      SetRepresented(h, s, r, Sub32(s.reg[i], s.mem[imm]));
    case SUBI =>
      SetRepresented(h, s, r, Sub32(s.reg[i], imm));
    case PUT =>
  }

  /** The JNZ block: falls through on zero, otherwise goes to the labelled block or, when there is none, faults where the interpreter returns. */
  lemma JnzSimulation(code: seq<Word>, s: State, h: Host)
    requires WellFormed(code) && |code| < 0x8000_0000 && s.pc < |code|
    requires Decoded(code, s.pc).op == JNZ
    requires h.pc == s.pc && Represents(h, s)
    ensures Assembled(Translate(code))
    ensures var t, target := Step(code, s), s.pc + 1 + Signed16(Decoded(code, s.pc).imm);
      match RunBlock(Translate(code), h)
      case Next(h') => Represents(h', t) && h'.pc == t.pc
      case Fault => (Represents(h, t) && t.pc >= |code| && !(0 <= target < |code|))
  {
    TranslateAddresses(code);
    var blocks, ins := Translate(code), Decoded(code, s.pc);
    var i, target := Index(ins.r), s.pc + 1 + Signed16(ins.imm);
    assert blocks[s.pc].code == TestJnz(HostOf(ins.r), target);
    var t := Step(code, s);
    assert t.reg == s.reg && t.mem == s.mem && t.out == s.out;
    GetRepresented(h, s, ins.r);
    if s.reg[i] == 0 {
      assert RunBlock(blocks, h) == Next(h.(pc := h.pc + 1));
    } else {
      assert t.pc == (s.pc + Signed16(ins.imm) + 1) % Modulus;
      LabelsAreIndices(code, target);
      if 0 <= target < |code| {
        assert RunBlock(blocks, h) == Next(h.(pc := target));
      } else {
        assert RunBlock(blocks, h) == Fault;
      }
    }
  }

  /**
   * One block of the generated code does what one interpreter step does.
   * The only difference: a taken JNZ to an index recompile never labelled
   * (outside the buffer, or exactly its end) has no block to go to, where
   * the interpreter returns.
   */
  lemma StepSimulation(code: seq<Word>, s: State, h: Host)
    requires WellFormed(code) && |code| < 0x8000_0000 && s.pc < |code|
    requires h.pc == s.pc && Represents(h, s)
    ensures Assembled(Translate(code))
    ensures var t := Step(code, s);
      match RunBlock(Translate(code), h)
      case Next(h') => Represents(h', t) && h'.pc == t.pc
      case Fault => (Represents(h, t) && t.pc >= |code| && Decoded(code, s.pc).op == JNZ
        && !(0 <= s.pc + 1 + Signed16(Decoded(code, s.pc).imm) < |code|))
  {
    TranslateAddresses(code);
    var blocks, ins := Translate(code), Decoded(code, s.pc);
    if ins.op == JNZ {
      JnzSimulation(code, s, h);
    } else {
      var x := Lower(s.pc + 1, ins);
      assert blocks[s.pc].code == x;
      StraightLineSimulation(ins, s, h, s.pc + 1);
      assert RunBlock(blocks, h) == Next(StraightLine(h, x));
    }
  }

  /**
   * Any number of blocks of the generated code do what as many interpreter
   * steps do: the host state keeps representing the VM state, both are
   * still running together, and when the routine returns past its last
   * block the interpreter has returned at `pc == code_.size()`. A fault
   * (a jump to a label never placed) happens only where the interpreter
   * returns, and never in a program whose jumps stay inside the buffer.
   */
  lemma {:induction false} ExecSimulation(code: seq<Word>, s: State, h: Host, fuel: nat)
    requires WellFormed(code) && |code| < 0x8000_0000 && s.pc < |code|
    requires h.pc == s.pc && Represents(h, s)
    ensures Assembled(Translate(code))
    ensures var o, n := Exec(code, s, fuel), NativeExec(Translate(code), h, fuel);
      && Represents(n.host, o.state)
      && (n.Looping? <==> o.Running?)
      && (n.Looping? ==> n.host.pc == o.state.pc)
      && (n.Returned? ==> o.Halted? && o.state.pc == |code|)
      && (n.Faulted? ==> o.Halted?)
      && (JumpsInRange(code) ==> !n.Faulted?)
    decreases fuel
  {
    TranslateAddresses(code);
    if fuel > 0 {
      StepSimulation(code, s, h);
      var t := Step(code, s);
      match RunBlock(Translate(code), h)
      case Fault =>
      case Next(h') =>
        if t.pc < |code| {
          ExecSimulation(code, t, h', fuel - 1);
        }
    }
  }

  /**
   * The memory the routine behaves as if it started from: its prologue
   * zeroes eax, ecx and edx, so `mem_[0..2]` are never read, while the
   * other cells are used in place.
   */
  function CachedCleared(mem: Memory): (m: Memory)
    ensures m[0] == 0 && m[1] == 0 && m[2] == 0
    ensures forall i :: CachedCells <= i < MemSize ==> m[i] == mem[i]
    ensures mem[0] == 0 && mem[1] == 0 && mem[2] == 0 ==> m == mem
  {
    mem[0 := 0][1 := 0][2 := 0]
  }

  /**
   * Calling the recompiled routine is observably the same as `run` on the
   * same memory with cells 0..2 cleared (the same memory when they are
   * already zero): same printed lines, same registers, same memory cells
   * (0..2 held in eax, ecx, edx), returning exactly when `run` returns by
   * reaching the end.
   */
  lemma CompiledMatchesInterpreted(code: seq<Word>, mem: Memory, fuel: nat)
    requires WellFormed(code) && 0 < |code| < 0x8000_0000
    ensures Assembled(Translate(code))
    ensures var o, n := Exec(code, Initial(CachedCleared(mem)), fuel), NativeExec(Translate(code), Prologue(mem), fuel);
      && Represents(n.host, o.state)
      && n.host.out == o.state.out
      && (n.Looping? <==> o.Running?)
      && (n.Returned? ==> o.Halted? && o.state.pc == |code|)
      && (n.Faulted? ==> o.Halted?)
      && (JumpsInRange(code) ==> !n.Faulted?)
  {
    ExecSimulation(code, Initial(CachedCleared(mem)), Prologue(mem), fuel);
  }
}
