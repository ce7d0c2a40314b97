/**
 * `class ToyVm`: the append-only instruction buffer `code_`, the single
 * `mark_` cursor, the 65536-cell `mem_` array, the `v*` emitters, and the
 * two ways of executing the buffer (`run` and `recompile`).
 */
module Vm {
  import opened Words
  import opened Encoding
  import opened Machine
  import opened Jit

  class ToyVm {
    /** `code_`: the encoded program, only ever appended to. */
    var code: seq<Word>
    /** `mark_`: the instruction index recorded by the last `setMark`. */
    var mark: int
    /** `mem_`: 65536 uint32 cells, zeroed once by the constructor and kept across runs. */
    const mem: array<u32>

    ghost predicate Valid()
      reads this
    {
      && mem.Length == MemSize
      && WellFormed(code)
      && 0 <= mark <= |code|
    }

    /** `ToyVm()`: `mark_(0)`, `memset(mem_, 0, sizeof(mem_))`, empty buffer. */
    constructor ()
      ensures Valid() && fresh(mem)
      ensures code == [] && mark == 0 && mem[..] == Zeros()
    {
      code := [];
      mark := 0;
      mem := new u32[MemSize](_ => 0);
      new;
      assert mem[..] == Zeros();
    }

    /** The private `encode`: pushes the word of one instruction onto `code_`. */
    method Emit(ins: Instr)
      requires Valid()
      modifies this
      ensures Valid() && mark == old(mark)
      ensures code == old(code) + [Encode(ins)]
    {
      DecodeEncode(ins);
      code := code + [Encode(ins)];
    }

    /** `vldi(r, imm)`: R = imm. */
    method Vldi(r: Reg, imm: u16)
      requires Valid()
      modifies this
      ensures Valid() && mark == old(mark)
      ensures code == old(code) + [Encode(Instr(LDI, r, imm))]
    {
      Emit(Instr(LDI, r, imm));
    }

    /** `vld(r, idx)`: R = mem_[idx]. */
    method Vld(r: Reg, idx: u16)
      requires Valid()
      modifies this
      ensures Valid() && mark == old(mark)
      ensures code == old(code) + [Encode(Instr(LD, r, idx))]
    {
      Emit(Instr(LD, r, idx));
    }

    /** `vst(r, idx)`: mem_[idx] = R. */
    method Vst(r: Reg, idx: u16)
      requires Valid()
      modifies this
      ensures Valid() && mark == old(mark)
      ensures code == old(code) + [Encode(Instr(ST, r, idx))]
    {
      Emit(Instr(ST, r, idx));
    }

    /** `vadd(r, idx)`: R += mem_[idx]. */
    method Vadd(r: Reg, idx: u16)
      requires Valid()
      modifies this
      ensures Valid() && mark == old(mark)
      ensures code == old(code) + [Encode(Instr(ADD, r, idx))]
    {
      Emit(Instr(ADD, r, idx));
    }

    /** `vaddi(r, imm)`: R += imm. */
    method Vaddi(r: Reg, imm: u16)
      requires Valid()
      modifies this
      ensures Valid() && mark == old(mark)
      ensures code == old(code) + [Encode(Instr(ADDI, r, imm))]
    {
      Emit(Instr(ADDI, r, imm));
    }

    /** `vsub(r, idx)`: R -= mem_[idx]. */
    method Vsub(r: Reg, idx: u16)
      requires Valid()
      modifies this
      ensures Valid() && mark == old(mark)
      ensures code == old(code) + [Encode(Instr(SUB, r, idx))]
    {
      Emit(Instr(SUB, r, idx));
    }

    /** `vsubi(r, imm)`: R -= imm. */
    method Vsubi(r: Reg, imm: u16)
      requires Valid()
      modifies this
      ensures Valid() && mark == old(mark)
      ensures code == old(code) + [Encode(Instr(SUBI, r, imm))]
    {
      Emit(Instr(SUBI, r, imm));
    }

    /** `vjnz(r, offset)`: the offset is stored as `static_cast<uint16>(offset)`. */
    method Vjnz(r: Reg, offset: int)
      requires Valid()
      modifies this
      ensures Valid() && mark == old(mark)
      ensures code == old(code) + [Encode(Instr(JNZ, r, Trunc16(offset)))]
    {
      Emit(Instr(JNZ, r, Trunc16(offset)));
    }

    /** `vput(r)`: `encode(PUT, r)` with the default immediate 0. */
    method Vput(r: Reg)
      requires Valid()
      modifies this
      ensures Valid() && mark == old(mark)
      ensures code == old(code) + [Encode(Instr(PUT, r, 0))]
    {
      Emit(Instr(PUT, r, 0));
    }

    /** `setMark()`: remembers the index of the next instruction, replacing any earlier mark. */
    method SetMark()
      requires Valid()
      modifies this
      ensures Valid() && code == old(code)
      ensures mark == |code|
    {
      mark := |code|;
    }

    /** `getMarkOffset()`: -1 right after `setMark`, one less for every instruction emitted since. */
    method GetMarkOffset() returns (offset: int)
      requires Valid()
      ensures offset == mark - |code| - 1
      ensures offset <= -1
    {
      offset := mark - |code| - 1;
    }

    /**
     * `run()`, bounded to `fuel` steps: registers start at zero, `mem_`
     * starts as earlier runs left it, and the loop returns exactly when the
     * updated `pc` reaches `code_.size()`. `halted` says whether it did
     * within the bound; `out` is what the PUTs printed.
     */
    method Run(fuel: nat) returns (halted: bool, out: seq<Event>)
      requires Valid() && |code| > 0
      modifies mem
      ensures var o := Exec(code, Initial(old(mem[..])), fuel);
        && halted == o.Halted?
        && mem[..] == o.state.mem
        && out == o.state.out
    {
      var reg := new u32[2](_ => 0);
      var end := |code|;
      var pc: u32 := 0;
      out := [];
      halted := false;
      ghost var init := Initial(mem[..]);
      assert init == State(pc, reg[..], mem[..], out);
      var steps := 0;
      while steps < fuel
        invariant 0 <= steps <= fuel && pc < end
        invariant Exec(code, init, fuel) == Exec(code, State(pc, reg[..], mem[..], out), fuel - steps)
        decreases fuel - steps
      {
        var ins := DecodeInstr(code[pc]).value;
        pc, out := Dispatch(ins, reg, pc, out);
        steps := steps + 1;
        if pc >= end {
          halted := true;
          break;
        }
      }
    }

    /** One pass through the `switch` of `run` on the local `reg[2]`, followed by `pc++`. */
    method Dispatch(ins: Instr, reg: array<u32>, pc: u32, out: seq<Event>) returns (pc': u32, out': seq<Event>)
      requires Valid() && reg.Length == 2 && reg != mem
      modifies reg, mem
      ensures State(pc', reg[..], mem[..], out') == Execute(ins, State(pc, old(reg[..]), old(mem[..]), out))
    {
      var r, imm := Index(ins.r), ins.imm;
      pc', out' := pc, out;
      match ins.op {
        case LDI => reg[r] := imm;
        case LD => reg[r] := mem[imm];
        case ST => mem[imm] := reg[r];
        case ADD => reg[r] := Add32(reg[r], mem[imm]);
        case ADDI => reg[r] := Add32(reg[r], imm);
        case SUB => reg[r] := Sub32(reg[r], mem[imm]);
        case SUBI => reg[r] := Sub32(reg[r], imm);
        case PUT => out' := out + [Print(Letter(ins.r), reg[r])];
        case JNZ =>
          if reg[r] != 0 {
            pc' := (pc + Signed16(imm)) % Modulus;
            WrapThenIncrement(pc + Signed16(imm));
          }
      }
      pc' := (pc' + 1) % Modulus;
    }

    /**
     * `recompile()`'s pass over `code_`: one block per instruction, labelled
     * with `labelNum++`, with the operand and label selection of its `switch`.
     */
    method Recompile() returns (blocks: seq<Block>)
      requires Valid() && |code| > 0
      ensures blocks == Translate(code)
    {
      var end := |code|;
      var pc := 0;
      var labelNum := 0;
      blocks := [];
      while true
        invariant 0 <= pc < end && labelNum == pc
        invariant blocks == Translate(code)[..pc]
        decreases end - pc
      {
        var ins := DecodeInstr(code[pc]).value;
        var here := labelNum;
        labelNum := labelNum + 1;
        var reg := Direct(HostOf(ins.r));
        var imm := ins.imm;
        var x: X86;
        match ins.op {
          case LDI => x := Mov(reg, Imm(imm));
          case LD =>
            if imm < CachedCells {
              x := Mov(reg, Of(Direct(CacheReg(imm))));
            } else {
              x := Mov(reg, Of(Cell(imm * 4)));
            }
          case ST =>
            if imm < CachedCells {
              x := Mov(Direct(CacheReg(imm)), Of(reg));
            } else {
              x := Mov(Cell(imm * 4), Of(reg));
            }
          case ADD =>
            if imm < CachedCells {
              x := Add(reg, Of(Direct(CacheReg(imm))));
            } else {
              x := Add(reg, Of(Cell(imm * 4)));
            }
          case ADDI => x := Add(reg, Imm(imm));
          case SUB =>
            if imm < CachedCells {
              x := Sub(reg, Of(Direct(CacheReg(imm))));
            } else {
              x := Sub(reg, Of(Cell(imm * 4)));
            }
          case SUBI => x := Sub(reg, Imm(imm));
          case PUT => x := CallPrint(Letter(ins.r), HostOf(ins.r));
          case JNZ => x := TestJnz(HostOf(ins.r), labelNum + Signed16(imm));
        }
        assert Block(here, x) == Translate(code)[pc];
        blocks := blocks + [Block(here, x)];
        pc := pc + 1;
        if pc >= end {
          break;
        }
      }
    }
  }

  /** Wrapping `pc += offset` and then `pc++` is the same as wrapping once. */
  lemma WrapThenIncrement(x: int)
    ensures (x % Modulus + 1) % Modulus == (x + 1) % Modulus
  {
  }

  /**
   * `vjnz(r, getMarkOffset())` emitted at index `|code|` branches back to the
   * mark, in the interpreter and in the recompiled code alike, as long as the
   * offset fits in the 16-bit immediate.
   */
  lemma BranchToMark(code: seq<Word>, mark: int, r: Reg, s: State)
    requires WellFormed(code) && 0 <= mark <= |code| && |code| - mark < 0x8000
    requires s.pc == |code| && s.reg[Index(r)] != 0
    ensures var code' := code + [Encode(Instr(JNZ, r, Trunc16(mark - |code| - 1)))];
      && WellFormed(code')
      && Step(code', s).pc == mark
      && Translate(code')[|code|].code == TestJnz(HostOf(r), mark)
  {
    var imm := Trunc16(mark - |code| - 1);
    var code' := code + [Encode(Instr(JNZ, r, imm))];
    DecodeEncode(Instr(JNZ, r, imm));
    assert WellFormed(code');
    SignedTrunc(mark - |code| - 1);
    JnzTargetMatchesInterpreter(code', s, r, imm);
  }
}
