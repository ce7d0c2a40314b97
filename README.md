# toyvm in Dafny

A model of `sample/toyvm.cpp`, the toy bytecode VM shipped with the Xbyak
JIT assembler, together with proofs about it. The VM has two 32-bit
registers A and B, a 32-bit program counter and 65536 32-bit memory cells.
Programs are built by appending fixed 32-bit instruction words to a buffer.
The buffer is then either interpreted by `run()` or translated by
`recompile()` into x86 code that keeps A and B in esi and edi and caches
cells 0..2 in eax, ecx and edx. The `Fib` sample builds an iterative
Fibonacci loop with the emitters, and `main` compares it with a plain C
loop, `fibC`.

The project consists of these files:

- `words.dfy` (`Words`) defines uint16 and uint32 on unbounded integers. It gives wrapping
  add and subtract, and `static_cast<uint16>` and `static_cast<signed short>`.
- `encoding.dfy` (`Encoding`) covers the instruction word: opcode in bits 31..24, register in
  bits 23..16, immediate in bits 15..0. It holds `encode` and `decode`, the enum values
  (`LD`=0 … `JNZ`=8, `A`=0, `B`=1) and both round trips. `encode` and `decode` work on
  integers with multiplication, division and remainder by powers of two. Lemmas on `bv32`
  show that the source's shifts and masks compute those same formulas on 32-bit words.
- `machine.dfy` (`Machine`) gives the semantics of one step of `run()` and of a step-bounded run.
  It includes the per-opcode frame lemmas.
- `jit.dfy` (`Jit`) models `recompile()` as a translation to abstract x86 blocks: one labelled
  block per instruction, with the source's operand and label selection. It gives a
  semantics for those blocks and a simulation proof: the recompiled routine
  prints what `run()` prints.
- `toyvm.dfy` (`Vm`) is the `ToyVm` class. It holds the `code_` buffer, the `mark_` cursor and the
  `mem_` array, with the emitters, `setMark` and `getMarkOffset`. `run()` is an
  imperative loop proved against `Machine.Exec`. `recompile()` is a loop proved
  against `Jit.Translate`.
- `fib.dfy` (`FibSample`) covers the `Fib` constructor, `fibC`, and `main`'s sequence of
  recompile, run, run by JIT and `fibC`.
- `wrappers.dfy` (`Wrappers`) holds `Option`.

Unknown opcodes reach `assert(0)` in the source, and register fields other
than 0 and 1 index past `reg[2]`. Both are excluded by the precondition
`WellFormed(code)`: every word decodes to a known instruction. Every buffer the
emitters build satisfies it (`ToyVm.Valid`).

## Model

| member | source | states |
|---|---|---|
| Words.Add32 | sample/toyvm.cpp:94-99 | `reg[r] += x` on uint32 is the sum, minus 2^32 exactly when the sum overflows |
| Words.Sub32 | sample/toyvm.cpp:100-105 | `reg[r] -= x` on uint32 is the difference, plus 2^32 exactly when it borrows |
| Words.Trunc16 | sample/toyvm.cpp:58 | `static_cast<uint16>` keeps a 16-bit value and adds 2^16 to a negative one in [-2^16, 0) |
| Words.Signed16 | sample/toyvm.cpp:110 | `static_cast<signed short>` yields a value in [-32768, 32767], negative exactly when bit 15 is set |
| Words.SignedTrunc | sample/toyvm.cpp:58 | a `vjnz` offset in [-32768, 32767], stored as uint16 and read back as signed short, is the same offset |
| Words.TruncSigned | sample/toyvm.cpp:110 | every stored 16-bit immediate is the truncation of the signed offset it is read as |
| Encoding.OpCode | sample/toyvm.cpp:42-45 | the enum values `LD`=0, `LDI`=1, … `JNZ`=8, all below `END_OF_CODE` |
| Encoding.OpOf | sample/toyvm.cpp:84-115 | an opcode field names an instruction exactly when it is below 9, and then the one with that enum value |
| Encoding.Index | sample/toyvm.cpp:39-41 | `A`=0, `B`=1 |
| Encoding.RegOf | sample/toyvm.cpp:71 | a register field selects `reg[0]` or `reg[1]` exactly when it is 0 or 1 |
| Encoding.ShiftsAreArithmetic | sample/toyvm.cpp:230-235 | `x >> 24`, `(x >> 16) & 0xff` and `x & 0xffff` are the quotient and remainder forms the model decodes with |
| Encoding.PackIsSum | sample/toyvm.cpp:236-238 | `(code << 24) \| (r << 16) \| imm` with fields in range is `code·2^24 + r·2^16 + imm` |
| Encoding.DecodePack | sample/toyvm.cpp:230-240 | `decode(encode(code, r, imm))` gives back `(code, r, imm)` for any `code, r < 256` and 16-bit `imm` |
| Encoding.PackDecode | sample/toyvm.cpp:230-240 | every 32-bit word is the encoding of its own decoded fields |
| Encoding.Interpret | sample/toyvm.cpp:84-115 | decoded fields denote an instruction exactly when the opcode is below 9 and the register is A or B, and then that instruction |
| Encoding.DecodeEncode | sample/toyvm.cpp:230-240 | every instruction decodes back from its word |
| Encoding.EncodeDecode | sample/toyvm.cpp:230-240 | every word that decodes is the encoding of what it decodes to |
| Encoding.AssembleDecodes | sample/toyvm.cpp:236-240 | a buffer of encoded instructions is well formed and decodes to the same instructions |
| Machine.Exec | sample/toyvm.cpp:68-119 | a bounded run stops exactly when the updated `pc` reaches `code_.size()`, after at least one step, and otherwise stands at a valid `pc` |
| Machine.StepWritesRegister | sample/toyvm.cpp:85-105 | LDI, LD, ADD, ADDI, SUB and SUBI change only `reg[r]`, to the value the source computes modulo 2^32, and advance `pc` by one |
| Machine.StepStore | sample/toyvm.cpp:91-93 | ST changes only `mem_[imm]`, to `reg[r]` |
| Machine.StepPut | sample/toyvm.cpp:106-108 | PUT changes neither registers nor memory and appends `('A' + r, reg[r])` to the output |
| Machine.StepJnz | sample/toyvm.cpp:109-116 | JNZ changes only `pc`: to `pc + 1` when `reg[r]` is zero, otherwise to `pc + 1 + signed16(imm)` modulo 2^32 |
| Machine.ExecAdditive | sample/toyvm.cpp:74-118 | running f steps and then g more is running f + g steps, and a returned run stays returned |
| Machine.ExecHaltedStable | sample/toyvm.cpp:117 | once `run` has returned within a bound, every larger bound gives the same result |
| Machine.ExecUnfold | sample/toyvm.cpp:74-118 | a step that does not reach the end leaves the rest of the run to the next state |
| Jit.Translate | sample/toyvm.cpp:146-219 | `recompile` emits exactly one block per instruction of `code_` |
| Jit.TranslateAddresses | sample/toyvm.cpp:159-187 | the recompiled code only addresses `ptr[mem + imm * 4]` for `imm >= 3`, never a cached cell |
| Jit.JnzTargetMatchesInterpreter | sample/toyvm.cpp:209-211 | the JNZ block jumps to label `labelNum + signed16(imm)`, the interpreter's taken-branch `pc` |
| Jit.MemoryOperandSelection | sample/toyvm.cpp:158-187 | LD, ST, ADD and SUB with `imm < 3` use eax, ecx or edx and never the array; other indices use `ptr[mem + imm * 4]` |
| Jit.FindLabel | sample/toyvm.cpp:211 | a label lookup finds the first block at or after the start that carries the label, or none |
| Jit.LabelsAreIndices | sample/toyvm.cpp:148-153 | the label of block i is i, so a jump finds its target exactly when the target is an instruction index |
| Jit.StraightLineSimulation | sample/toyvm.cpp:155-208 | the block of a non-branching instruction has the same effect on registers, cached cells, memory and output as `run`'s step |
| Jit.JnzSimulation | sample/toyvm.cpp:209-211 | `test; jnz` moves to the same instruction as `run`'s JNZ, or faults only when `run` returns there |
| Jit.StepSimulation | sample/toyvm.cpp:154-218 | every block keeps the host state representing the VM state |
| Jit.ExecSimulation | sample/toyvm.cpp:120-225 | from corresponding states, the routine and `run` stay in step: both loop, or both finish with the same output, and a routine whose jumps stay inside the buffer never faults |
| Jit.CachedCleared | sample/toyvm.cpp:139-141 | the routine starts as if `mem_[0..2]` were zero and every other cell as in `mem_` |
| Jit.CompiledMatchesInterpreted | sample/toyvm.cpp:132-145 | calling the recompiled routine keeps the registers, memory and output of `run` on the same memory with cells 0..2 cleared. Both loop together, and when the routine returns, `run` has returned at `pc == code_.size()`. The routine faults only where `run` returns, and for programs whose jumps stay inside the buffer it never faults, so it then returns exactly when `run` returns |
| Vm.ToyVm.constructor | sample/toyvm.cpp:46-50 | a new VM has an empty buffer, mark 0 and all-zero memory |
| Vm.ToyVm.Emit | sample/toyvm.cpp:236-240 | `encode` appends exactly one word, the instruction's encoding, and leaves earlier words and the mark alone |
| Vm.ToyVm.Vldi | sample/toyvm.cpp:51 | appends LDI r, imm |
| Vm.ToyVm.Vld | sample/toyvm.cpp:52 | appends LD r, idx |
| Vm.ToyVm.Vst | sample/toyvm.cpp:53 | appends ST r, idx |
| Vm.ToyVm.Vadd | sample/toyvm.cpp:54 | appends ADD r, idx |
| Vm.ToyVm.Vaddi | sample/toyvm.cpp:55 | appends ADDI r, imm |
| Vm.ToyVm.Vsub | sample/toyvm.cpp:56 | appends SUB r, idx |
| Vm.ToyVm.Vsubi | sample/toyvm.cpp:57 | appends SUBI r, imm |
| Vm.ToyVm.Vjnz | sample/toyvm.cpp:58 | appends JNZ r with the offset truncated to 16 bits |
| Vm.ToyVm.Vput | sample/toyvm.cpp:59 | appends PUT r with immediate 0 |
| Vm.ToyVm.SetMark | sample/toyvm.cpp:60-63 | the mark becomes the current buffer size, replacing any earlier mark |
| Vm.ToyVm.GetMarkOffset | sample/toyvm.cpp:64-67 | the offset is `mark_ - size - 1`: -1 right after `setMark`, -(k+1) after k more emissions, never positive |
| Vm.ToyVm.Run | sample/toyvm.cpp:68-119 | the loop ends in the state a bounded run from zero registers and the current `mem_` reaches, with `mem_` updated in place and the PUT output |
| Vm.ToyVm.Dispatch | sample/toyvm.cpp:84-116 | one pass of the `switch` on the local registers and `mem_`, followed by `pc++`, is one step of the semantics |
| Vm.ToyVm.Recompile | sample/toyvm.cpp:146-219 | the walk over `code_` with `labelNum++` produces exactly the translation: one block per instruction with its operand and label selection |
| Vm.BranchToMark | sample/toyvm.cpp:58-67 | `vjnz(r, getMarkOffset())` sends a taken branch back to the marked instruction, in `run` and in the recompiled code |
| FibSample.FibWords | sample/toyvm.cpp:258-273 | the Fib program is these 13 words in this order |
| FibSample.Iterations | sample/toyvm.cpp:290-291 | `fibC`'s loop runs n times, or 2^32 times for n = 0, since `n--` wraps |
| FibSample.FibLoopIsFibonacci | sample/toyvm.cpp:286-291 | from consecutive Fibonacci numbers, k passes of the loop give the Fibonacci number k further on, modulo 2^32 |
| FibSample.FibRefIsFibonacci | sample/toyvm.cpp:281-293 | `fibC(n)` prints Fibonacci number Iterations(n) + 1 of the sequence 1, 1, 2, 3, … (counting from 0) modulo 2^32, which is number n + 1 for n ≥ 1 and number 2^32 + 1 for n = 0 |
| FibSample.FibC | sample/toyvm.cpp:281-293 | the native loop computes the reference value |
| FibSample.NewFib | sample/toyvm.cpp:245-274 | `Fib(n)` builds the empty buffer for n ≥ 65536 and otherwise the 13-word Fib program with `static_cast<uint16>(n)` |
| FibSample.EmitSetUp | sample/toyvm.cpp:258-261 | the four set-up emissions append their four words |
| FibSample.EmitPass | sample/toyvm.cpp:264-271 | the seven loop-body emissions append their seven words |
| FibSample.EmitExit | sample/toyvm.cpp:272-273 | with the mark seven instructions back, `getMarkOffset` is -8 and the branch and PUT are appended |
| FibSample.FibDecodes | sample/toyvm.cpp:258-273 | the Fib buffer decodes to the Fib instructions |
| FibSample.FirstHalf | sample/toyvm.cpp:264-267 | the first four loop instructions make `t = c; c += p; p = t` |
| FibSample.SecondHalf | sample/toyvm.cpp:269-272 | the last four count down `mem_[2]` and branch back to the mark exactly while it is not zero |
| FibSample.FibExits | sample/toyvm.cpp:273 | after the last pass, the final `vput(A)` appends A's value to the output and `run` returns in one step |
| FibSample.FibLoopRuns | sample/toyvm.cpp:263-273 | from the mark with k passes left, `run` has returned within a bound of 8k + 1 steps, having printed A = the reference loop's value |
| FibSample.FibRuns | sample/toyvm.cpp:258-273 | the Fib program prints exactly one line, A with `fibC(n)`'s value, from any memory |
| FibSample.FibPrints | sample/toyvm.cpp:243-293 | `run` on `Fib(n)` returns after printing exactly `A = fibC(n)`, for every 16-bit n |
| FibSample.FibJumpsInRange | sample/toyvm.cpp:272 | the Fib program's only branch lands inside the buffer, so its recompiled routine never faults |
| FibSample.Benchmark | sample/toyvm.cpp:295-325 | `main`'s run, run by JIT (after the run) and `fibC` all produce the same single value |

## Left out

- Xbyak's byte-level code emission is not modelled: instruction encodings, `L()` label patching, the `push`/`pop` of ebx, esi and edi, and `ret`. The Xbyak library is not part of this model. `recompile` is modelled as abstract x86 blocks with a small semantics.
- The cdecl marshalling around the `printf` call in recompiled PUT is left out. It saves and restores eax, ecx and edx, which the block semantics takes as given.
- `runByJIT` casting `getCode()` to a function pointer is a native call. It is modelled by running the abstract blocks (`Jit.NativeExec`).
- `printf` formatting (`%c %8d(0x%08x)`) and the `debug` trace are left out. A PUT is an output event `(letter, value)`.
- `main`'s `Clock` timing, the benchmark messages and exception handling are left out. `FibSample.Benchmark` keeps only the order of calls, for a 16-bit `n` (`main` uses 10000).
- The `stderr` message of `Fib(n)` for n ≥ 65536 is left out; only the early return is modelled.
- Vm.ToyVm.Run: bounded by a step count (`fuel`), because `run()` can loop forever. It reports whether the program returned within the bound.
- Vm.ToyVm.Run: requires a non-empty, well-formed buffer. The source reads `code_[0]` before any test and stops on an unknown opcode with `assert(0)`. So `run()` on the empty buffer of `Fib(n)` with n ≥ 65536 is out of scope.
- Vm.ToyVm.GetMarkOffset: `mark_` and `(int)code_.size()` are C `int`s. Their overflow for buffers of 2^31 words or more is not modelled.
- Jit.CompiledMatchesInterpreted: stated for buffers shorter than 2^31 instructions. That bound is an assumption of the proof, not a limit of the correspondence. The interpreter's `pc` wraps modulo 2^32 while labels are plain numbers. The two agree for any buffer up to about 2^32 − 2^15 instructions, where a backward branch past index 0 still wraps to a `pc` at or past the end.
- Jit.CompiledMatchesInterpreted: when `run` returns by a taken branch to an index at or past `code_.size()` or below 0, the routine faults instead of returning (see the `Jit.JnzSimulation` line below). So "returns exactly when `run` returns" holds only for programs whose jumps stay inside the buffer (`Jit.JumpsInRange`).
- Jit.JnzSimulation: a branch to a label `recompile` never places is a fault of the routine. That covers a negative target, and a target at or past the end, including exactly `code_.size()`. In those cases the interpreter returns. What Xbyak does with such a label is not visible here, so the model claims correspondence only up to that point. `FibSample.FibJumpsInRange` shows the sample program never does it.
- Encoding.ShiftsAreArithmetic: proved on `bv32` only. The step from those `bv32` values to the integers that `Encoding.Decode` and `Encoding.Pack` work on is not proved. The SMT solver cannot reason about arithmetic under the `bv32`/`int` conversion within the resource budget, so that link rests on the two formulas being the same.
- Encoding.PackIsSum: proved on `bv32` only, like Encoding.ShiftsAreArithmetic. That the `bv32` sum equals the integer `Encoding.Pack` is not proved, for the same reason.
- The 32-bit `ebx` base address `mem_` and `imm * 4` addressing are modelled as cell indices. Host memory outside `mem_` is not modelled.
