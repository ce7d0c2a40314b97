/**
 * The sample program: the `Fib` subclass that emits an iterative Fibonacci
 * loop through the emitters, the native `fibC` it is compared with, and
 * `main`'s sequence of recompile, run, run by JIT and `fibC`.
 */
module FibSample {
  import opened Words
  import opened Encoding
  import opened Machine
  import opened Jit
  import opened Vm

  /**
   * The instructions `Fib(n)` emits: A holds c, mem_[0] holds p, mem_[1]
   * holds t and mem_[2] the counter n. The loop body starts at index 4,
   * where `setMark` is called, and the branch at index 11 goes back there.
   */
  function FibInstrs(n: u16): seq<Instr>
  {
    [ Instr(LDI, A, 1), Instr(ST, A, 0), Instr(LDI, B, n), Instr(ST, B, 2),
      Instr(ST, A, 1), Instr(ADD, A, 0), Instr(LD, B, 1), Instr(ST, B, 0),
      Instr(LD, B, 2), Instr(SUBI, B, 1), Instr(ST, B, 2), Instr(JNZ, B, Trunc16(-8)),
      Instr(PUT, A, 0) ]
  }

  function FibCode(n: u16): seq<Word>
  {
    Assemble(FibInstrs(n))
  }

  /** The Fib program word by word, as the emitters push it. */
  lemma FibWords(n: u16)
    ensures FibCode(n) == [
      Encode(Instr(LDI, A, 1)), Encode(Instr(ST, A, 0)), Encode(Instr(LDI, B, n)), Encode(Instr(ST, B, 2)),
      Encode(Instr(ST, A, 1)), Encode(Instr(ADD, A, 0)), Encode(Instr(LD, B, 1)), Encode(Instr(ST, B, 0)),
      Encode(Instr(LD, B, 2)), Encode(Instr(SUBI, B, 1)), Encode(Instr(ST, B, 2)), Encode(Instr(JNZ, B, Trunc16(-8))),
      Encode(Instr(PUT, A, 0)) ]
  {
  }

  /** How many times the do-while loop of `fibC` runs: `n`, or 2^32 for 0, since `n--` wraps. */
  function Iterations(n: u32): (k: nat)
    ensures 1 <= k <= Modulus && k % Modulus == n
  {
    if n == 0 then Modulus else n
  }

  /** `k` more passes of `t = c; c += p; p = t` from `(p, c)`, giving the final `c`. */
  function FibLoop(p: u32, c: u32, k: nat): u32
    requires k >= 1
    decreases k
  {
    var c' := Add32(c, p);
    if k == 1 then c' else FibLoop(c, c', k - 1)
  }

  /** The value `fibC(n)` prints: the Fibonacci recurrence from 1, 1, modulo 2^32. */
  function FibRef(n: u32): u32
  {
    FibLoop(1, 1, Iterations(n))
  }

  /** The textbook Fibonacci numbers, 1, 1, 2, 3, 5, ... */
  function Fibonacci(i: nat): nat
  {
    if i < 2 then 1 else Fibonacci(i - 1) + Fibonacci(i - 2)
  }

  /** The loop keeps `(p, c)` equal to consecutive Fibonacci numbers modulo 2^32. */
  lemma {:induction false} FibLoopIsFibonacci(i: nat, k: nat)
    requires k >= 1
    ensures FibLoop(Fibonacci(i) % Modulus, Fibonacci(i + 1) % Modulus, k) == Fibonacci(i + k + 1) % Modulus
    decreases k
  {
    var p, c := Fibonacci(i) % Modulus, Fibonacci(i + 1) % Modulus;
    assert Add32(c, p) == Fibonacci(i + 2) % Modulus;
    if k > 1 {
      FibLoopIsFibonacci(i + 1, k - 1);
    }
  }

  /** `fibC(n)` prints the (n+1)-th Fibonacci number (counting 1, 1, 2, ... from 0) modulo 2^32. */
  lemma FibRefIsFibonacci(n: u32)
    ensures FibRef(n) == Fibonacci(Iterations(n) + 1) % Modulus
  {
    FibLoopIsFibonacci(0, Iterations(n));
  }

  /** `fibC`: the native loop the benchmark compares with; returns the `c` it prints. */
  method FibC(n: u32) returns (c: u32)
    ensures c == FibRef(n)
  {
    var p: u32 := 1;
    c := 1;
    var m := n;
    ghost var k := Iterations(n);
    while true
      invariant 1 <= k <= Modulus && m == k % Modulus
      invariant FibLoop(p, c, k) == FibRef(n)
      decreases k
    {
      var t := c;
      c := Add32(c, p);
      p := t;
      m := Sub32(m, 1);
      k := k - 1;
      if m == 0 {
        break;
      }
    }
  }

  /** `Fib(n)`: the empty buffer when `n >= 65536`, otherwise the program above with `static_cast<uint16>(n)`. */
  method NewFib(n: int) returns (fib: ToyVm)
    ensures fresh(fib) && fresh(fib.mem) && fib.Valid()
    ensures fib.mem[..] == Zeros()
    ensures fib.code == if n >= 0x1_0000 then [] else FibCode(Trunc16(n))
  {
    fib := new ToyVm();
    if n >= 0x1_0000 {
      return;
    }
    EmitSetUp(fib, Trunc16(n));
    fib.SetMark();
    EmitPass(fib);
    EmitExit(fib);
    FibWords(Trunc16(n));
  }

  /** `c = 1; p = c; B = n; mem_[2] = B`. */
  method EmitSetUp(fib: ToyVm, n: u16)
    requires fib.Valid() && fib.code == []
    modifies fib
    ensures fib.Valid()
    ensures fib.code == [Encode(Instr(LDI, A, 1)), Encode(Instr(ST, A, 0)), Encode(Instr(LDI, B, n)), Encode(Instr(ST, B, 2))]
  {
    fib.Vldi(A, 1);
    fib.Vst(A, 0);
    fib.Vldi(B, n);
    fib.Vst(B, 2);
  }

  /** The loop body after the mark: `t = c; c += p; p = t; n--`. */
  method EmitPass(fib: ToyVm)
    requires fib.Valid()
    modifies fib
    ensures fib.Valid() && fib.mark == old(fib.mark)
    ensures fib.code == old(fib.code) + [
      Encode(Instr(ST, A, 1)), Encode(Instr(ADD, A, 0)), Encode(Instr(LD, B, 1)), Encode(Instr(ST, B, 0)),
      Encode(Instr(LD, B, 2)), Encode(Instr(SUBI, B, 1)), Encode(Instr(ST, B, 2))]
  {
    fib.Vst(A, 1);
    fib.Vadd(A, 0);
    fib.Vld(B, 1);
    fib.Vst(B, 0);
    fib.Vld(B, 2);
    fib.Vsubi(B, 1);
    fib.Vst(B, 2);
  }

  /** `vjnz(B, getMarkOffset()); vput(A)` with the mark 7 instructions back. */
  method EmitExit(fib: ToyVm)
    requires fib.Valid() && fib.mark == |fib.code| - 7
    modifies fib
    ensures fib.Valid()
    ensures fib.code == old(fib.code) + [Encode(Instr(JNZ, B, Trunc16(-8))), Encode(Instr(PUT, A, 0))]
  {
    var offset := fib.GetMarkOffset();
    fib.Vjnz(B, offset);
    fib.Vput(A);
  }

  /** The interpreter state at the mark with `k` passes left: A = c, mem_[0] = p, mem_[2] = k (mod 2^32). */
  ghost predicate AtLoop(s: State, p: u32, c: u32, k: nat)
  {
    s.pc == 4 && s.reg[0] == c && s.mem[0] == p && 1 <= k <= Modulus && s.mem[2] == k % Modulus
  }

  /** A buffer that decodes, word by word, to the Fib program for `n`. */
  ghost predicate IsFib(code: seq<Word>, n: u16)
  {
    && WellFormed(code) && |code| == 13
    && forall i :: 0 <= i < 13 ==> Decoded(code, i) == FibInstrs(n)[i]
  }

  lemma FibDecodes(n: u16)
    ensures IsFib(FibCode(n), n)
  {
    AssembleDecodes(FibInstrs(n));
  }

  /** The first half of a pass: `t = c; c += p; B = t; p = B`. */
  lemma FirstHalf(code: seq<Word>, n: u16, s: State, p: u32, c: u32, k: nat, fuel: nat)
    requires IsFib(code, n) && AtLoop(s, p, c, k) && fuel >= 5
    ensures var t := State(8, [Add32(c, p), c], s.mem[1 := c][0 := c], s.out);
      Exec(code, s, fuel) == Exec(code, t, fuel - 4)
  {
    var s1 := State(5, s.reg, s.mem[1 := c], s.out);
    assert Decoded(code, 4) == Instr(ST, A, 1);
    assert Step(code, s) == s1;
    var s2 := State(6, [Add32(c, p), s.reg[1]], s1.mem, s.out);
    assert Decoded(code, 5) == Instr(ADD, A, 0);
    assert Step(code, s1) == s2;
    var s3 := State(7, [Add32(c, p), c], s1.mem, s.out);
    assert Decoded(code, 6) == Instr(LD, B, 1);
    assert Step(code, s2) == s3;
    var s4 := State(8, [Add32(c, p), c], s1.mem[0 := c], s.out);
    assert Decoded(code, 7) == Instr(ST, B, 0);
    assert Step(code, s3) == s4;
    ExecUnfold(code, s, fuel);
    ExecUnfold(code, s1, fuel - 1);
    ExecUnfold(code, s2, fuel - 2);
    ExecUnfold(code, s3, fuel - 3);
  }

  /** The second half of a pass: `n--`, then the branch back to the mark while `n != 0`. */
  lemma SecondHalf(code: seq<Word>, n: u16, s: State, k: nat, fuel: nat)
    requires IsFib(code, n)
    requires s.pc == 8 && 1 <= k <= Modulus && s.mem[2] == k % Modulus && fuel >= 5
    ensures var t := State(if k == 1 then 12 else 4, [s.reg[0], (k - 1) % Modulus], s.mem[2 := (k - 1) % Modulus], s.out);
      Exec(code, s, fuel) == Exec(code, t, fuel - 4)
  {
    SignedTrunc(-8);
    var s1 := State(9, [s.reg[0], k % Modulus], s.mem, s.out);
    assert Decoded(code, 8) == Instr(LD, B, 2);
    assert Step(code, s) == s1;
    var s2 := State(10, [s.reg[0], (k - 1) % Modulus], s.mem, s.out);
    assert Decoded(code, 9) == Instr(SUBI, B, 1);
    assert Step(code, s1) == s2;
    var s3 := State(11, s2.reg, s.mem[2 := (k - 1) % Modulus], s.out);
    assert Decoded(code, 10) == Instr(ST, B, 2);
    assert Step(code, s2) == s3;
    var s4 := s3.(pc := if k == 1 then 12 else 4);
    assert Decoded(code, 11) == Instr(JNZ, B, Trunc16(-8));
    assert Step(code, s3) == s4;
    ExecUnfold(code, s, fuel);
    ExecUnfold(code, s1, fuel - 1);
    ExecUnfold(code, s2, fuel - 2);
    ExecUnfold(code, s3, fuel - 3);
  }

  /** After the last pass, the final `vput(A)` prints A and `run` returns. */
  lemma FibExits(code: seq<Word>, n: u16, s: State)
    requires IsFib(code, n) && s.pc == 12
    ensures Exec(code, s, 1) == Halted(s.(pc := 13, out := s.out + [Print('A', s.reg[0])]))
  {
    assert Decoded(code, 12) == Instr(PUT, A, 0);
    assert Step(code, s) == s.(pc := 13, out := s.out + [Print('A', s.reg[0])]);
  }

  /** From the mark with `k` passes left, `run` makes `k` passes of 8 steps and then prints `A`. */
  lemma {:induction false} FibLoopRuns(code: seq<Word>, n: u16, s: State, p: u32, c: u32, k: nat)
    requires IsFib(code, n) && AtLoop(s, p, c, k)
    ensures var o := Exec(code, s, 8 * k + 1);
      o.Halted? && o.state.out == s.out + [Print('A', FibLoop(p, c, k))]
    decreases k
  {
    var t := State(8, [Add32(c, p), c], s.mem[1 := c][0 := c], s.out);
    var u := State(if k == 1 then 12 else 4, [Add32(c, p), (k - 1) % Modulus], t.mem[2 := (k - 1) % Modulus], s.out);
    FirstHalf(code, n, s, p, c, k, 8 * k + 1);
    SecondHalf(code, n, t, k, 8 * k - 3);
    if k == 1 {
      FibExits(code, n, u);
    } else {
      assert AtLoop(u, c, Add32(c, p), k - 1);
      FibLoopRuns(code, n, u, c, Add32(c, p), k - 1);
    }
  }

  /** Steps `run` takes on the Fib program: 4 set-up instructions, 8 per pass, then the PUT. */
  function FibSteps(n: u16): nat
  {
    4 + 8 * Iterations(n) + 1
  }

  /**
   * Given enough steps, `run` on the Fib program returns after printing one
   * line, `A` with the value `fibC(n)` prints, whatever `mem_` held before.
   */
  lemma FibPrints(n: u16, mem: Memory, fuel: nat)
    requires fuel >= FibSteps(n)
    ensures WellFormed(FibCode(n))
    ensures var o := Exec(FibCode(n), Initial(mem), fuel);
      o.Halted? && o.state.out == [Print('A', FibRef(n))]
  {
    FibDecodes(n);
    FibRuns(FibCode(n), n, mem, fuel);
  }

  /** `FibPrints` for any buffer that decodes to the Fib program. */
  lemma FibRuns(code: seq<Word>, n: u16, mem: Memory, fuel: nat)
    requires IsFib(code, n) && fuel >= FibSteps(n)
    ensures var o := Exec(code, Initial(mem), fuel);
      o.Halted? && o.state.out == [Print('A', FibRef(n))]
  {
    var k := Iterations(n);
    var s0 := Initial(mem);
    var s1 := State(1, [1, 0], mem, []);
    assert Decoded(code, 0) == Instr(LDI, A, 1);
    assert Step(code, s0) == s1;
    var s2 := State(2, [1, 0], mem[0 := 1], []);
    assert Decoded(code, 1) == Instr(ST, A, 0);
    assert Step(code, s1) == s2;
    var s3 := State(3, [1, n], s2.mem, []);
    assert Decoded(code, 2) == Instr(LDI, B, n);
    assert Step(code, s2) == s3;
    var s4 := State(4, [1, n], s2.mem[2 := n], []);
    assert Decoded(code, 3) == Instr(ST, B, 2);
    assert Step(code, s3) == s4;
    ExecUnfold(code, s0, 8 * k + 5);
    ExecUnfold(code, s1, 8 * k + 4);
    ExecUnfold(code, s2, 8 * k + 3);
    ExecUnfold(code, s3, 8 * k + 2);
    FibLoopRuns(code, n, s4, 1, 1, k);
    ExecHaltedStable(code, s0, 8 * k + 5, fuel);
  }

  /** The only branch of the Fib program lands inside it, so the recompiled routine never faults. */
  lemma FibJumpsInRange(n: u16)
    ensures WellFormed(FibCode(n)) && JumpsInRange(FibCode(n))
  {
    FibDecodes(n);
    SignedTrunc(-8);
  }

  /**
   * `main` with a step bound: build `Fib(n)`, recompile it, run it on the
   * interpreter, then call the recompiled routine on the memory the run
   * left behind, then `fibC(n)`. All three print the same single value.
   */
  method Benchmark(n: u16, fuel: nat) returns (vmOut: seq<Event>, jitOut: seq<Event>, c: u32)
    requires fuel >= FibSteps(n)
    ensures vmOut == [Print('A', c)] && jitOut == [Print('A', c)]
    ensures c == FibRef(n)
  {
    var fib := NewFib(n);
    var blocks := fib.Recompile();
    var halted;
    halted, vmOut := fib.Run(fuel);
    FibPrints(n, Zeros(), fuel);
    var afterRun := fib.mem[..];
    CompiledMatchesInterpreted(fib.code, afterRun, fuel);
    FibPrints(n, CachedCleared(afterRun), fuel);
    jitOut := NativeExec(blocks, Prologue(afterRun), fuel).host.out;
    c := FibC(n);
  }
}
