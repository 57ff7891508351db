/** The compiled words of `fib` and `main`, run against the source recursion. */
module Fibonacci {

  import opened Options
  import opened Field
  import opened CairoInstruction
  import opened CairoMachine
  import opened CairoSteps

  // The words that only the contract entry at 9 uses.
  const CHECK_SUM: Felt := 0x402b7ffd7ffc7ffd
  const ADD_AP: Felt := 0x40780017fff7fff
  const PUSH_AT_FP5: Felt := 0x480280007ffb8000
  const PUSH_AFTER_FP5: Felt := 0x480280017ffb8000
  const PUSH_AP4: Felt := 0x48127ffc7fff8000

  // The compiled program; main starts at 0, its contract entry at 9 and fib at 20.
  const WORDS: seq<Felt> := [
    PUSH_IMM, 1, PUSH_IMM, 1, PUSH_IMM, 0x1f4, CALL_REL, 0xe, RET,
    CHECK_SUM, CALL_REL, MINUS_TEN, ADD_AP, 1,
    PUSH_AT_FP5, PUSH_AFTER_FP5, PUSH_IMM, 0, PUSH_AP4, RET,
    JNZ_FP3, 5, PUSH_FP4, PUSH_FP4, RET,
    ADD_FP5_FP4, PUSH_FP4, PUSH_AP2, ADD_FP3_IMM, MINUS_ONE, CALL_REL, MINUS_TEN, RET]

  // ----- the source -----

  function Fib(first: Felt, second: Felt, n: Felt): Felt
    decreases n
  {
    if n != 0 then Fib(second, Add(first, second), n - 1) else second
  }

  function F(n: nat): nat {
    if n < 2 then n else F(n - 2) + F(n - 1)
  }

  /** The source recursion is the linear recurrence. */
  lemma {:induction false} FibIsLinear(a: Felt, b: Felt, n: Felt)
    ensures Fib(a, b, n) == Reduce(a * F(n) + b * F(n + 1))
    decreases n
  {
    if n == 0 {
      ReduceSmall(b);
      assert a * F(0) + b * F(1) == b;
    } else {
      FibIsLinear(b, Add(a, b), n - 1);
      var k := Regroup(a, b, F(n - 1), F(n));
      ReduceAbsorbs(b * F(n - 1) + Add(a, b) * F(n), k);
      assert F(n + 1) == F(n - 1) + F(n);
    }
  }

  lemma Regroup(a: Felt, b: Felt, p: int, q: int) returns (k: int)
    ensures b * p + Add(a, b) * q + k * P == a * q + b * (p + q)
  {
    var t := (a + b) / P;
    assert Add(a, b) == a + b - t * P;
    assert Add(a, b) * q == a * q + b * q - (t * q) * P;
    k := t * q;
  }

  // ----- the words of fib -----

  ghost predicate Code(m: Memory, base: nat) {
    base + |WORDS| <= P && Loaded(m, base, WORDS)
  }

  // A frame of fib: arguments, caller's fp and return address sit just below fp = ap.
  ghost predicate Frame(c: Config, base: nat, a: Felt, b: Felt, n: Felt) {
    && Code(c.mem, base) && c.regs.pc == base + 20
    && 5 <= c.regs.fp == c.regs.ap
    && Holds(c.mem, c.regs.fp - 5, a) && Holds(c.mem, c.regs.fp - 4, b) && Holds(c.mem, c.regs.fp - 3, n)
    && c.regs.fp - 2 in c.mem && c.regs.fp - 1 in c.mem
  }

  // The stack cells the whole call will write are unwritten and lie below P.
  ghost predicate Room(c: Config, n: Felt) {
    c.regs.ap + 6 * n + 2 < P && Free(c.mem, c.regs.ap, c.regs.ap + 6 * n + 2)
  }

  ghost predicate Returned(c: Config, d: Config, n: Felt, result: Felt)
    requires 2 <= c.regs.fp && c.regs.fp - 1 in c.mem && c.regs.fp - 2 in c.mem
    requires Room(c, n)
  {
    && d.regs == Registers(c.mem[c.regs.fp - 1], c.regs.ap + 6 * n + 2, c.mem[c.regs.fp - 2])
    && Grown(c.mem, d.mem, c.regs.ap, c.regs.ap + 6 * n + 2)
    && d.mem[d.regs.ap - 1] == result
  }

  lemma CodeAt(m: Memory, base: nat, k: nat)
    requires Code(m, base) && k < |WORDS|
    ensures base + k in m && m[base + k] == WORDS[k]
  {
  }

  // ----- one lemma per word that occurs -----

  // 20: jmp rel 5 if [fp - 3] != 0
  lemma BranchAt(c: Config, base: nat, n: Felt) returns (d: Config)
    requires Code(c.mem, base) && c.regs.pc == base + 20
    requires 3 <= c.regs.fp && c.regs.fp - 1 in c.mem && Holds(c.mem, c.regs.fp - 3, n)
    ensures Reaches(c, 1, d) && d == Config(c.regs.(pc := base + if n == 0 then 22 else 25), c.mem)
  {
    CodeAt(c.mem, base, 20); CodeAt(c.mem, base, 21);
    StepJnz(c, Fp, -3);
    d := AfterJnz(c, Fp, -3);
  }

  // 22, 23, 26: [ap] = [fp - 4]; ap++
  lemma PushSecondAt(c: Config, base: nat, v: Felt) returns (d: Config)
    requires Code(c.mem, base) && c.regs.pc in {base + 22, base + 23, base + 26}
    requires PushRoom(c) && 4 <= c.regs.fp && Holds(c.mem, c.regs.fp - 4, v)
    ensures Reaches(c, 1, d) && d == Pushed(c, 1, v) && Code(d.mem, base)
  {
    CodeAt(c.mem, base, c.regs.pc - base);
    d := PushArgument(c, -4, v);
    StepKeepsCode(c, d, base, WORDS);
  }

  // 25: [ap] = [fp - 5] + [fp - 4]; ap++
  lemma PushSumAt(c: Config, base: nat, u: Felt, v: Felt) returns (d: Config)
    requires Code(c.mem, base) && c.regs.pc == base + 25
    requires PushRoom(c) && 5 <= c.regs.fp && Holds(c.mem, c.regs.fp - 5, u) && Holds(c.mem, c.regs.fp - 4, v)
    ensures Reaches(c, 1, d) && d == Pushed(c, 1, Add(u, v)) && Code(d.mem, base)
  {
    CodeAt(c.mem, base, 25);
    d := PushSum(c, -5, -4, u, v);
    StepKeepsCode(c, d, base, WORDS);
  }

  // 27: [ap] = [ap - 2]; ap++
  lemma PushCopyAt(c: Config, base: nat, v: Felt) returns (d: Config)
    requires Code(c.mem, base) && c.regs.pc == base + 27
    requires PushRoom(c) && 2 <= c.regs.ap && Holds(c.mem, c.regs.ap - 2, v)
    ensures Reaches(c, 1, d) && d == Pushed(c, 1, v) && Code(d.mem, base)
  {
    CodeAt(c.mem, base, 27);
    d := PushLocal(c, -2, v);
    StepKeepsCode(c, d, base, WORDS);
  }

  // 28: [ap] = [fp - 3] + (-1); ap++
  lemma PushPredecessorAt(c: Config, base: nat, n: Felt) returns (d: Config)
    requires Code(c.mem, base) && c.regs.pc == base + 28
    requires PushRoom(c) && 3 <= c.regs.fp && Holds(c.mem, c.regs.fp - 3, n)
    ensures Reaches(c, 1, d) && d == Pushed(c, 2, Add(n, MINUS_ONE)) && Code(d.mem, base)
  {
    CodeAt(c.mem, base, 28); CodeAt(c.mem, base, 29);
    d := PushOffset(c, n, MINUS_ONE);
    StepKeepsCode(c, d, base, WORDS);
  }

  // 30: call rel -10
  lemma CallFibAt(c: Config, base: nat) returns (d: Config)
    requires Code(c.mem, base) && c.regs.pc == base + 30
    requires c.regs.ap + 2 < P && Writable(c, {c.regs.ap, c.regs.ap + 1})
    ensures Reaches(c, 1, d) && Code(d.mem, base)
    ensures d == Config(Registers(base + 20, c.regs.ap + 2, c.regs.ap + 2),
                        c.mem[c.regs.ap := c.regs.fp][c.regs.ap + 1 := base + 32])
  {
    CodeAt(c.mem, base, 30); CodeAt(c.mem, base, 31);
    AddBackwards(c.regs.pc, MINUS_TEN, 10);
    StepCall(c);
    d := AfterCall(c);
    StepKeepsCode(c, d, base, WORDS);
  }

  lemma ReturnWords(k: nat)
    requires k in {8, 19, 24, 32}
    ensures k < |WORDS| && WORDS[k] == RET
  {
  }

  // 8, 19, 24, 32: ret
  lemma ReturnAt(c: Config, base: nat) returns (d: Config)
    requires Code(c.mem, base) && c.regs.pc in {base + 8, base + 19, base + 24, base + 32} && ReturnReady(c)
    ensures Reaches(c, 1, d) && d == AfterReturn(c)
  {
    var k := c.regs.pc - base;
    ReturnWords(k);
    CodeAt(c.mem, base, k);
    AtReturn(c);
    StepReturn(c);
    d := AfterReturn(c);
  }

  // ----- fib -----

  // n = 0: the branch is not taken, second_element is pushed twice, ret.
  lemma Leaf(c: Config, base: nat, a: Felt, b: Felt, n: Felt) returns (d: Config)
    requires n == 0 && Frame(c, base, a, b, n) && Room(c, n)
    ensures Reaches(c, 4, d) && Returned(c, d, n, b)
  {
    var c1 := BranchAt(c, base, n);
    var c2 := PushSecondAt(c1, base, b);
    var c3 := PushSecondAt(c2, base, b);
    d := ReturnAt(c3, base);
    ReachesThen(c, 1, c1, 1, c2); ReachesThen(c, 2, c2, 1, c3); ReachesThen(c, 3, c3, 1, d);
  }

  // n > 0: the branch is taken, the sum and the three arguments are pushed.
  lemma PushArguments(c: Config, base: nat, a: Felt, b: Felt, n: Felt) returns (d: Config)
    requires n > 0 && Frame(c, base, a, b, n) && Room(c, n)
    ensures Reaches(c, 5, d) && Code(d.mem, base)
    ensures d.regs == Registers(base + 30, c.regs.ap + 4, c.regs.fp)
    ensures d.mem == c.mem[c.regs.ap := Add(a, b)][c.regs.ap + 1 := b][c.regs.ap + 2 := Add(a, b)]
                          [c.regs.ap + 3 := n - 1]
  {
    var c1 := BranchAt(c, base, n);
    var c2 := PushSumAt(c1, base, a, b);
    var c3 := PushSecondAt(c2, base, b);
    var c4 := PushCopyAt(c3, base, Add(a, b));
    d := PushPredecessorAt(c4, base, n);
    AddBackwards(n, MINUS_ONE, 1);
    ReachesThen(c, 1, c1, 1, c2); ReachesThen(c, 2, c2, 1, c3);
    ReachesThen(c, 3, c3, 1, c4); ReachesThen(c, 4, c4, 1, d);
  }

  // ... and the call opens the frame of fib(b, a + b, n - 1).
  lemma Descend(c: Config, base: nat, a: Felt, b: Felt, n: Felt) returns (d: Config)
    requires n > 0 && Frame(c, base, a, b, n) && Room(c, n)
    ensures Reaches(c, 6, d) && Frame(d, base, b, Add(a, b), n - 1)
    ensures d.regs.ap == c.regs.ap + 6 && Grown(c.mem, d.mem, c.regs.ap, c.regs.ap + 6)
    ensures Holds(d.mem, d.regs.fp - 1, base + 32) && Holds(d.mem, d.regs.fp - 2, c.regs.fp)
  {
    var c5 := PushArguments(c, base, a, b, n);
    d := CallFibAt(c5, base);
    ReachesThen(c, 5, c5, 1, d);
  }

  // The callee's result is handed on unchanged by the last ret.
  lemma Ascend(c: Config, base: nat, n: Felt, d: Config, e: Config, result: Felt) returns (f: Config)
    requires n > 0 && Code(c.mem, base) && ReturnReady(c) && Room(c, n)
    requires Grown(c.mem, d.mem, c.regs.ap, c.regs.ap + 6) && Code(d.mem, base)
    requires d.regs.ap == d.regs.fp == c.regs.ap + 6
    requires Holds(d.mem, d.regs.fp - 1, base + 32) && Holds(d.mem, d.regs.fp - 2, c.regs.fp)
    requires Room(d, n - 1) && Returned(d, e, n - 1, result)
    ensures Reaches(e, 1, f) && Returned(c, f, n, result)
  {
    LoadedStays(d.mem, e.mem, base, WORDS);
    f := ReturnAt(e, base);
    GrownTransitive(c.mem, d.mem, e.mem, c.regs.ap, c.regs.ap + 6, c.regs.ap + 6 * n + 2);
  }

  /**
   The words of fib compute the source recursion: 7n + 4 steps, exactly the 6n + 2 cells from ap on
   written, control back at the stored return address with the caller's fp, result in [ap - 1].
   */
  lemma {:induction false} FibRuns(c: Config, base: nat, a: Felt, b: Felt, n: Felt) returns (d: Config)
    requires Frame(c, base, a, b, n) && Room(c, n)
    ensures Reaches(c, 7 * n + 4, d) && Returned(c, d, n, Fib(a, b, n))
    decreases n
  {
    if n == 0 {
      d := Leaf(c, base, a, b, n);
    } else {
      var c1 := Descend(c, base, a, b, n);
      var c2 := FibRuns(c1, base, b, Add(a, b), n - 1);
      d := Ascend(c, base, n, c1, c2, Fib(a, b, n));
      ReachesThen(c, 6, c1, 7 * (n - 1) + 4, c2);
      ReachesThen(c, 7 * n + 3, c2, 1, d);
    }
  }

  /** The result is a F(n) + b F(n + 1) mod P. */
  lemma FibCorrect(c: Config, base: nat, a: Felt, b: Felt, n: Felt) returns (d: Config)
    requires Frame(c, base, a, b, n) && Room(c, n)
    ensures Reaches(c, 7 * n + 4, d) && Returned(c, d, n, Reduce(a * F(n) + b * F(n + 1)))
  {
    d := FibRuns(c, base, a, b, n);
    FibIsLinear(a, b, n);
  }

  // ----- fib over read-only memory -----

  lemma LeafSound(c: Config, base: nat, a: Felt, b: Felt, n: Felt, r': Registers)
    requires n == 0 && Frame(c, base, a, b, n) && c.regs.ap + 2 < P
    requires Executes(c.mem, c.regs, 4, r')
    ensures r' == Registers(c.mem[c.regs.fp - 1], c.regs.ap + 2, c.mem[c.regs.fp - 2])
    ensures Holds(c.mem, c.regs.ap + 1, b)
  {
    ExecutionStarts(c, 4, r');
    var c1 := BranchAt(c, base, n);
    Follow(c, c1, 3, r');
    var c2 := PushSecondAt(c1, base, b);
    Follow(c1, c2, 2, r');
    var c3 := PushSecondAt(c2, base, b);
    Follow(c2, c3, 1, r');
    var d := ReturnAt(c3, base);
    Follow(c3, d, 0, r');
    ExecutionEnds(c.mem, d.regs, r');
  }

  lemma ArgumentsSound(c: Config, base: nat, a: Felt, b: Felt, n: Felt, k: nat, r': Registers) returns (d: Config)
    requires n > 0 && Frame(c, base, a, b, n) && c.regs.ap + 8 < P
    requires Executes(c.mem, c.regs, k + 6, r')
    ensures d.mem == c.mem && d.regs == Registers(base + 30, c.regs.ap + 4, c.regs.fp)
    ensures Executes(c.mem, d.regs, k + 1, r')
    ensures Holds(c.mem, c.regs.ap + 1, b) && Holds(c.mem, c.regs.ap + 2, Add(a, b))
    ensures Holds(c.mem, c.regs.ap + 3, n - 1)
  {
    ExecutionStarts(c, k + 6, r');
    var c1 := BranchAt(c, base, n);
    Follow(c, c1, k + 5, r');
    var c2 := PushSumAt(c1, base, a, b);
    Follow(c1, c2, k + 4, r');
    var c3 := PushSecondAt(c2, base, b);
    Follow(c2, c3, k + 3, r');
    var c4 := PushCopyAt(c3, base, Add(a, b));
    Follow(c3, c4, k + 2, r');
    d := PushPredecessorAt(c4, base, n);
    Follow(c4, d, k + 1, r');
    AddBackwards(n, MINUS_ONE, 1);
  }

  lemma DescendSound(c: Config, base: nat, a: Felt, b: Felt, n: Felt, k: nat, r': Registers) returns (d: Config)
    requires n > 0 && Frame(c, base, a, b, n) && c.regs.ap + 8 < P
    requires Executes(c.mem, c.regs, k + 6, r')
    ensures d.mem == c.mem && Frame(d, base, b, Add(a, b), n - 1) && d.regs.ap == c.regs.ap + 6
    ensures Holds(c.mem, d.regs.fp - 1, base + 32) && Holds(c.mem, d.regs.fp - 2, c.regs.fp)
    ensures Executes(c.mem, d.regs, k, r')
  {
    var c5 := ArgumentsSound(c, base, a, b, n, k, r');
    ExecutionStarts(c5, k + 1, r');
    d := CallFibAt(c5, base);
    Follow(c5, d, k, r');
  }

  /** Soundness over read-only memory: in any memory that holds the code and the frame - whatever its other
      cells hold, and wherever the stack lies - an execution of that length returns, with the right value
      in [ap - 1]. */
  lemma FibSound(full: Memory, r: Registers, base: nat, a: Felt, b: Felt, n: Felt, r': Registers)
    requires Frame(Config(r, full), base, a, b, n) && r.ap + 6 * n + 2 < P
    requires Executes(full, r, 7 * n + 4, r')
    ensures r' == Registers(full[r.fp - 1], r.ap + 6 * n + 2, full[r.fp - 2])
    ensures Holds(full, r.ap + 6 * n + 1, Reduce(a * F(n) + b * F(n + 1)))
  {
    FibSoundSource(full, r, base, a, b, n, r');
    FibIsLinear(a, b, n);
  }

  lemma {:induction false} FibSoundSource(full: Memory, r: Registers, base: nat, a: Felt, b: Felt, n: Felt,
                                          r': Registers)
    requires Frame(Config(r, full), base, a, b, n) && r.ap + 6 * n + 2 < P
    requires Executes(full, r, 7 * n + 4, r')
    ensures r' == Registers(full[r.fp - 1], r.ap + 6 * n + 2, full[r.fp - 2])
    ensures Holds(full, r.ap + 6 * n + 1, Fib(a, b, n))
    decreases n
  {
    if n == 0 {
      LeafSound(Config(r, full), base, a, b, n, r');
    } else {
      var k := 7 * (n - 1) + 4;
      var d := DescendSound(Config(r, full), base, a, b, n, k + 1, r');
      var back := ExecutionSplits(full, d.regs, k, 1, r');
      FibSoundSource(full, d.regs, base, b, Add(a, b), n - 1, back);
      ReturnSound(Config(back, full), base, r');
    }
  }

  lemma ReturnSound(c: Config, base: nat, r': Registers)
    requires Code(c.mem, base) && c.regs.pc in {base + 8, base + 19, base + 24, base + 32} && ReturnReady(c)
    requires Executes(c.mem, c.regs, 1, r')
    ensures r' == AfterReturn(c).regs
  {
    ExecutionStarts(c, 1, r');
    var d := ReturnAt(c, base);
    Follow(c, d, 0, r');
    ExecutionEnds(c.mem, d.regs, r');
  }

  // ----- main -----

  // The third argument main passes to fib; a comment in the source announces 10.
  const ARGUMENT: Felt := 500

  lemma MainWords(k: nat)
    requires k in {0, 2, 4}
    ensures WORDS[k] == PUSH_IMM && WORDS[k + 1] == if k == 4 then ARGUMENT else 1
  {
  }

  lemma PushConstant(c: Config, base: nat, k: nat)
    requires Code(c.mem, base) && k + 1 < |WORDS| && WORDS[k] == PUSH_IMM && c.regs.pc == base + k
    ensures At(c, Push(-1, 1, FromPc, Op1Alone)) && Holds(c.mem, c.regs.pc + 1, WORDS[k + 1])
  {
    CodeAt(c.mem, base, k);
    CodeAt(c.mem, base, k + 1);
  }

  // 0, 2, 4: [ap] = immediate; ap++
  lemma PushConstantAt(c: Config, base: nat, k: nat, v: Felt) returns (d: Config)
    requires k in {0, 2, 4} && v == (if k == 4 then ARGUMENT else 1)
    requires Code(c.mem, base) && c.regs.pc == base + k && PushRoom(c)
    ensures Reaches(c, 1, d) && d == Pushed(c, 2, v) && Code(d.mem, base)
  {
    MainWords(k);
    PushConstant(c, base, k);
    d := PushImmediate(c, v);
    StepKeepsCode(c, d, base, WORDS);
  }

  lemma CallWords()
    ensures |WORDS| > 30 && WORDS[6] == CALL_REL && WORDS[7] == 14
  {
  }

  // 6: call rel 14
  lemma CallFromMainAt(c: Config, base: nat) returns (d: Config)
    requires Code(c.mem, base) && c.regs.pc == base + 6
    requires c.regs.ap + 2 < P && Writable(c, {c.regs.ap, c.regs.ap + 1})
    ensures Reaches(c, 1, d) && Code(d.mem, base)
    ensures d == Config(Registers(base + 20, c.regs.ap + 2, c.regs.ap + 2),
                        c.mem[c.regs.ap := c.regs.fp][c.regs.ap + 1 := base + 8])
  {
    CallWords();
    CodeAt(c.mem, base, 6); CodeAt(c.mem, base, 7);
    AtCall(c);
    ReduceSmall(c.regs.pc + 14);
    StepCall(c);
    d := AfterCall(c);
    StepKeepsCode(c, d, base, WORDS);
  }

  lemma MainPushes(c: Config, base: nat) returns (d: Config)
    requires Code(c.mem, base) && c.regs.pc == base && ReturnReady(c) && c.regs.fp <= c.regs.ap
    requires c.regs.ap + 3 < P && Free(c.mem, c.regs.ap, c.regs.ap + 3)
    ensures Reaches(c, 3, d) && Code(d.mem, base)
    ensures d == Config(Registers(base + 6, c.regs.ap + 3, c.regs.fp),
                        c.mem[c.regs.ap := 1][c.regs.ap + 1 := 1][c.regs.ap + 2 := ARGUMENT])
  {
    var c1 := PushConstantAt(c, base, 0, 1);
    var c2 := PushConstantAt(c1, base, 2, 1);
    d := PushConstantAt(c2, base, 4, ARGUMENT);
    ReachesThen(c, 1, c1, 1, c2); ReachesThen(c, 2, c2, 1, d);
  }

  // The three arguments 1, 1, 500 and the call.
  lemma MainCalls(c: Config, base: nat, n: Felt) returns (d: Config)
    requires n == ARGUMENT && Code(c.mem, base) && c.regs.pc == base && ReturnReady(c) && c.regs.fp <= c.regs.ap
    requires c.regs.ap + 6 * n + 7 < P && Free(c.mem, c.regs.ap, c.regs.ap + 6 * n + 7)
    ensures Reaches(c, 4, d) && Frame(d, base, 1, 1, n)
    ensures d.regs.ap == c.regs.ap + 5 && Grown(c.mem, d.mem, c.regs.ap, c.regs.ap + 5)
    ensures Holds(d.mem, d.regs.fp - 1, base + 8) && Holds(d.mem, d.regs.fp - 2, c.regs.fp)
  {
    var c3 := MainPushes(c, base);
    d := CallFromMainAt(c3, base);
    ReachesThen(c, 3, c3, 1, d);
  }

  // The ret of main.
  lemma MainReturns(c: Config, base: nat, n: Felt, d: Config, e: Config, result: Felt) returns (f: Config)
    requires Code(d.mem, base) && ReturnReady(c) && c.regs.ap + 6 * n + 7 < P
    requires Grown(c.mem, d.mem, c.regs.ap, c.regs.ap + 5)
    requires d.regs.ap == d.regs.fp == c.regs.ap + 5
    requires Holds(d.mem, d.regs.fp - 1, base + 8) && Holds(d.mem, d.regs.fp - 2, c.regs.fp)
    requires Room(d, n) && Returned(d, e, n, result)
    ensures Reaches(e, 1, f) && Holds(f.mem, c.regs.ap + 6 * n + 6, result)
    ensures f.regs == Registers(c.mem[c.regs.fp - 1], c.regs.ap + 6 * n + 7, c.mem[c.regs.fp - 2])
    ensures Grown(c.mem, f.mem, c.regs.ap, c.regs.ap + 6 * n + 7)
  {
    LoadedStays(d.mem, e.mem, base, WORDS);
    f := ReturnAt(e, base);
    GrownTransitive(c.mem, d.mem, e.mem, c.regs.ap, c.regs.ap + 5, c.regs.ap + 6 * n + 7);
  }

  // From the call on, for any third argument.
  lemma MainFinishes(c: Config, base: nat, n: Felt, d: Config) returns (f: Config)
    requires ReturnReady(c) && Reaches(c, 4, d) && Frame(d, base, 1, 1, n)
    requires d.regs.ap == c.regs.ap + 5 && Grown(c.mem, d.mem, c.regs.ap, c.regs.ap + 5)
    requires Holds(d.mem, d.regs.fp - 1, base + 8) && Holds(d.mem, d.regs.fp - 2, c.regs.fp)
    requires c.regs.ap + 6 * n + 7 < P && Free(c.mem, c.regs.ap, c.regs.ap + 6 * n + 7)
    ensures Reaches(c, 7 * n + 9, f) && Holds(f.mem, c.regs.ap + 6 * n + 6, Reduce(F(n + 2)))
    ensures f.regs == Registers(c.mem[c.regs.fp - 1], c.regs.ap + 6 * n + 7, c.mem[c.regs.fp - 2])
    ensures Grown(c.mem, f.mem, c.regs.ap, c.regs.ap + 6 * n + 7)
  {
    var e := FibRuns(d, base, 1, 1, n);
    f := MainReturns(c, base, n, d, e, Fib(1, 1, n));
    ReachesThen(c, 4, d, 7 * n + 4, e);
    ReachesThen(c, 7 * n + 8, e, 1, f);
    MainValue(n);
  }

  lemma MainValue(n: Felt)
    ensures Fib(1, 1, n) == Reduce(F(n + 2))
  {
    FibIsLinear(1, 1, n);
  }

  lemma MainRunsFor(c: Config, base: nat, n: Felt) returns (d: Config)
    requires n == ARGUMENT && Code(c.mem, base) && c.regs.pc == base && ReturnReady(c) && c.regs.fp <= c.regs.ap
    requires c.regs.ap + 6 * n + 7 < P && Free(c.mem, c.regs.ap, c.regs.ap + 6 * n + 7)
    ensures Reaches(c, 7 * n + 9, d)
    ensures d.regs == Registers(c.mem[c.regs.fp - 1], c.regs.ap + 6 * n + 7, c.mem[c.regs.fp - 2])
    ensures Grown(c.mem, d.mem, c.regs.ap, c.regs.ap + 6 * n + 7)
    ensures Holds(d.mem, c.regs.ap + 6 * n + 6, Reduce(F(n + 2)))
  {
    var called := MainCalls(c, base, n);
    d := MainFinishes(c, base, n, called);
  }

  /** main leaves F(502) in [ap - 1] after 7 * 500 + 9 = 3509 steps and 6 * 500 + 7 = 3007 cells. */
  lemma MainRuns(c: Config, base: nat) returns (d: Config)
    requires Code(c.mem, base) && c.regs.pc == base && ReturnReady(c) && c.regs.fp <= c.regs.ap
    requires c.regs.ap + 3007 < P && Free(c.mem, c.regs.ap, c.regs.ap + 3007)
    ensures Reaches(c, 3509, d) && Grown(c.mem, d.mem, c.regs.ap, c.regs.ap + 3007)
    ensures d.regs == Registers(c.mem[c.regs.fp - 1], c.regs.ap + 3007, c.mem[c.regs.fp - 2])
    ensures Holds(d.mem, c.regs.ap + 3006, Reduce(F(ARGUMENT + 2)))
  {
    d := MainRunsFor(c, base, ARGUMENT);
  }

  lemma MainArgumentsSound(c: Config, base: nat, k: nat, r': Registers) returns (d: Config)
    requires Code(c.mem, base) && c.regs.pc == base && ReturnReady(c) && c.regs.ap + 5 < P
    requires Executes(c.mem, c.regs, k + 4, r')
    ensures d.mem == c.mem && d.regs == Registers(base + 6, c.regs.ap + 3, c.regs.fp)
    ensures Holds(c.mem, c.regs.ap, 1) && Holds(c.mem, c.regs.ap + 1, 1) && Holds(c.mem, c.regs.ap + 2, ARGUMENT)
    ensures Executes(c.mem, d.regs, k + 1, r')
  {
    ExecutionStarts(c, k + 4, r');
    var c1 := PushConstantAt(c, base, 0, 1);
    Follow(c, c1, k + 3, r');
    var c2 := PushConstantAt(c1, base, 2, 1);
    Follow(c1, c2, k + 2, r');
    d := PushConstantAt(c2, base, 4, ARGUMENT);
    Follow(c2, d, k + 1, r');
  }

  lemma MainCallsSound(c: Config, base: nat, n: Felt, k: nat, r': Registers) returns (d: Config)
    requires n == ARGUMENT && Code(c.mem, base) && c.regs.pc == base && ReturnReady(c) && c.regs.ap + 5 < P
    requires Executes(c.mem, c.regs, k + 4, r')
    ensures d.mem == c.mem && Frame(d, base, 1, 1, n) && d.regs.ap == c.regs.ap + 5
    ensures Holds(c.mem, d.regs.fp - 1, base + 8) && Holds(c.mem, d.regs.fp - 2, c.regs.fp)
    ensures Executes(c.mem, d.regs, k, r')
  {
    var c3 := MainArgumentsSound(c, base, k, r');
    ExecutionStarts(c3, k + 1, r');
    d := CallFromMainAt(c3, base);
    Follow(c3, d, k, r');
  }

  // From the call on, for any third argument.
  lemma MainFinishesSound(d: Config, base: nat, n: Felt, r': Registers)
    requires Frame(d, base, 1, 1, n) && Holds(d.mem, d.regs.fp - 1, base + 8) && d.regs.ap + 6 * n + 2 < P
    requires var fp := d.mem[d.regs.fp - 2]; 2 <= fp && fp - 2 in d.mem && fp - 1 in d.mem
    requires Executes(d.mem, d.regs, 7 * n + 5, r')
    ensures
      var fp := d.mem[d.regs.fp - 2];
      r' == Registers(d.mem[fp - 1], d.regs.ap + 6 * n + 2, d.mem[fp - 2])
    ensures Holds(d.mem, d.regs.ap + 6 * n + 1, Reduce(F(n + 2)))
  {
    var back := ExecutionSplits(d.mem, d.regs, 7 * n + 4, 1, r');
    FibSoundSource(d.mem, d.regs, base, 1, 1, n, back);
    ReturnSound(Config(back, d.mem), base, r');
    MainValue(n);
  }

  lemma MainSoundFor(full: Memory, r: Registers, base: nat, n: Felt, r': Registers)
    requires n == ARGUMENT && Code(full, base) && r.pc == base && ReturnReady(Config(r, full)) && r.ap + 6 * n + 7 < P
    requires Executes(full, r, 7 * n + 9, r')
    ensures r' == Registers(full[r.fp - 1], r.ap + 6 * n + 7, full[r.fp - 2])
    ensures Holds(full, r.ap + 6 * n + 6, Reduce(F(n + 2)))
  {
    var d := MainCallsSound(Config(r, full), base, n, 7 * n + 5, r');
    MainFinishesSound(d, base, n, r');
  }

  /** In any memory that holds the code and main's frame, an execution of 3509 transitions from main
      returns, with F(502) mod P in [ap - 1]. */
  lemma MainSound(full: Memory, r: Registers, base: nat, r': Registers)
    requires Code(full, base) && r.pc == base && ReturnReady(Config(r, full)) && r.ap + 3007 < P
    requires Executes(full, r, 3509, r')
    ensures r' == Registers(full[r.fp - 1], r.ap + 3007, full[r.fp - 2])
    ensures Holds(full, r.ap + 3006, Reduce(F(ARGUMENT + 2)))
  {
    MainSoundFor(full, r, base, ARGUMENT, r');
  }

  // ----- the contract entry -----

  // [fp - 3] = [fp - 4] + [fp - 3]
  const CHECK_SUM_INSTRUCTION: Instruction :=
    Instruction(-3, -4, -3, Fp, Fp, FromFp, Sum, Regular, Keep, AssertEq)

  // ap += immediate
  const ADD_AP_INSTRUCTION: Instruction :=
    Instruction(-1, -1, 1, Fp, Fp, FromPc, Op1Alone, Regular, AddRes, NoOp)

  // [ap] = [[fp - 5] + off]; ap++
  function PushIndirect(off: int): Instruction {
    Instruction(0, -5, off, Ap, Fp, FromOp0, Op1Alone, Regular, AddOne, AssertEq)
  }

  lemma EntryWords()
    ensures |WORDS| > 19 && WORDS[9] == CHECK_SUM && WORDS[10] == CALL_REL && WORDS[11] == MINUS_TEN
    ensures WORDS[12] == ADD_AP && WORDS[13] == 1 && WORDS[14] == PUSH_AT_FP5 && WORDS[15] == PUSH_AFTER_FP5
    ensures WORDS[16] == PUSH_IMM && WORDS[17] == 0 && WORDS[18] == PUSH_AP4 && WORDS[19] == RET
  {
  }

  // 9: the calldata is empty, or the machine does not go on.
  lemma CheckSumPins(c: Config, base: nat, k: nat, r': Registers) returns (d: Config)
    requires Code(c.mem, base) && c.regs.pc == base + 9 && 5 <= c.regs.fp
    requires Executes(c.mem, c.regs, k + 1, r')
    ensures d.mem == c.mem && d.regs == c.regs.(pc := base + 10)
    ensures Executes(c.mem, d.regs, k, r') && (k > 0 ==> Proceeds(d))
    ensures Holds(c.mem, c.regs.fp - 4, 0)
  {
    EntryWords();
    CodeAt(c.mem, base, 9);
    d := FollowNext(c, k, r');
    StepOf(c, CHECK_SUM_INSTRUCTION);
    CheckSumExecutes(c.mem, c.regs, d.regs);
  }

  lemma CheckSumExecutes(m: Memory, r: Registers, r': Registers)
    requires 5 <= r.fp && r.pc + 1 < P && Execute(m, r, CHECK_SUM_INSTRUCTION) == Some(r')
    ensures r' == r.(pc := r.pc + 1) && Holds(m, r.fp - 4, 0)
  {
    assert Op0Cell(r, CHECK_SUM_INSTRUCTION) == r.fp - 4 && DstCell(r, CHECK_SUM_INSTRUCTION) == r.fp - 3;
    assert Op1Cell(r, CHECK_SUM_INSTRUCTION, m[r.fp - 4]) == r.fp - 3;
  }

  // 12: ap += 1
  lemma AddApPins(c: Config, base: nat, k: nat, r': Registers) returns (d: Config)
    requires Code(c.mem, base) && c.regs.pc == base + 12 && 1 <= c.regs.fp && c.regs.ap + 1 < P
    requires Executes(c.mem, c.regs, k + 1, r')
    ensures d.mem == c.mem && d.regs == Registers(base + 14, c.regs.ap + 1, c.regs.fp)
    ensures Executes(c.mem, d.regs, k, r') && (k > 0 ==> Proceeds(d))
  {
    EntryWords();
    CodeAt(c.mem, base, 12); CodeAt(c.mem, base, 13);
    d := FollowNext(c, k, r');
    StepOf(c, ADD_AP_INSTRUCTION);
    AddApExecutes(c.mem, c.regs, d.regs);
  }

  lemma AddApExecutes(m: Memory, r: Registers, r': Registers)
    requires 1 <= r.fp && r.ap + 1 < P && r.pc + 2 < P && Holds(m, r.pc + 1, 1)
    requires Execute(m, r, ADD_AP_INSTRUCTION) == Some(r')
    ensures r' == Registers(r.pc + 2, r.ap + 1, r.fp)
  {
    assert Op1Cell(r, ADD_AP_INSTRUCTION, m[r.fp - 1]) == r.pc + 1;
  }

  // 14, 15: a member of the structure [fp - 5] points to
  lemma IndirectPins(c: Config, base: nat, off: nat, k: nat, r': Registers) returns (d: Config)
    requires Code(c.mem, base) && off < 2 && c.regs.pc == base + 14 + off && 5 <= c.regs.fp && c.regs.ap + 1 < P
    requires c.regs.fp - 5 in c.mem && c.mem[c.regs.fp - 5] + 1 < P
    requires Executes(c.mem, c.regs, k + 1, r')
    ensures d.mem == c.mem && d.regs == Registers(base + 15 + off, c.regs.ap + 1, c.regs.fp)
    ensures Executes(c.mem, d.regs, k, r') && (k > 0 ==> Proceeds(d))
    ensures
      var cell := c.mem[c.regs.fp - 5] + off;
      cell in c.mem && Holds(c.mem, c.regs.ap, c.mem[cell])
  {
    EntryWords();
    CodeAt(c.mem, base, 14 + off);
    d := FollowNext(c, k, r');
    AtIndirect(c, off);
    StepOf(c, PushIndirect(off));
    IndirectExecutes(c.mem, c.regs, off, d.regs);
  }

  lemma AtIndirect(c: Config, off: nat)
    requires off < 2 && Holds(c.mem, c.regs.pc, if off == 0 then PUSH_AT_FP5 else PUSH_AFTER_FP5)
    ensures At(c, PushIndirect(off))
  {
  }

  lemma IndirectExecutes(m: Memory, r: Registers, off: nat, r': Registers)
    requires off < 2 && 5 <= r.fp && r.ap + 1 < P && r.pc + 1 < P && r.fp - 5 in m && m[r.fp - 5] + 1 < P
    requires Execute(m, r, PushIndirect(off)) == Some(r')
    ensures r' == Registers(r.pc + 1, r.ap + 1, r.fp)
    ensures m[r.fp - 5] + off in m && Holds(m, r.ap, m[m[r.fp - 5] + off])
  {
    var i := PushIndirect(off);
    assert Op0Cell(r, i) == r.fp - 5 && DstCell(r, i) == r.ap && Op1Cell(r, i, m[r.fp - 5]) == m[r.fp - 5] + off;
  }

  // 10: call rel -10
  lemma CallMainAt(c: Config, base: nat) returns (d: Config)
    requires Code(c.mem, base) && c.regs.pc == base + 10
    requires c.regs.ap + 2 < P && Writable(c, {c.regs.ap, c.regs.ap + 1})
    ensures Reaches(c, 1, d) && Code(d.mem, base)
    ensures d == Config(Registers(base, c.regs.ap + 2, c.regs.ap + 2),
                        c.mem[c.regs.ap := c.regs.fp][c.regs.ap + 1 := base + 12])
  {
    EntryWords();
    CodeAt(c.mem, base, 10); CodeAt(c.mem, base, 11);
    AddBackwards(c.regs.pc, MINUS_TEN, 10);
    AtCall(c);
    StepCall(c);
    d := AfterCall(c);
    StepKeepsCode(c, d, base, WORDS);
  }

  // 16: [ap] = 0; ap++
  lemma PushZeroAt(c: Config, base: nat) returns (d: Config)
    requires Code(c.mem, base) && c.regs.pc == base + 16 && PushRoom(c)
    ensures Reaches(c, 1, d) && d == Pushed(c, 2, 0) && Code(d.mem, base)
  {
    EntryWords();
    PushConstant(c, base, 16);
    d := PushImmediate(c, 0);
    StepKeepsCode(c, d, base, WORDS);
  }

  // 18: [ap] = [ap - 4]; ap++
  lemma PushFourthAt(c: Config, base: nat, v: Felt) returns (d: Config)
    requires Code(c.mem, base) && c.regs.pc == base + 18
    requires PushRoom(c) && 4 <= c.regs.ap && Holds(c.mem, c.regs.ap - 4, v)
    ensures Reaches(c, 1, d) && d == Pushed(c, 1, v) && Code(d.mem, base)
  {
    EntryWords();
    CodeAt(c.mem, base, 18);
    d := PushLocal(c, -4, v);
    StepKeepsCode(c, d, base, WORDS);
  }

  // Up to the frame of main.
  lemma EntryCallsSound(c: Config, base: nat, k: nat, r': Registers) returns (d: Config)
    requires Code(c.mem, base) && c.regs.pc == base + 9 && 5 <= c.regs.fp && ReturnReady(c) && c.regs.ap + 2 < P
    requires Executes(c.mem, c.regs, k + 2, r')
    ensures d.mem == c.mem && d.regs == Registers(base, c.regs.ap + 2, c.regs.ap + 2)
    ensures Holds(c.mem, c.regs.fp - 4, 0)
    ensures Holds(c.mem, c.regs.ap, c.regs.fp) && Holds(c.mem, c.regs.ap + 1, base + 12)
    ensures Executes(c.mem, d.regs, k, r')
  {
    var c1 := CheckSumPins(c, base, k + 1, r');
    d := CallMainAt(c1, base);
    Follow(c1, d, k, r');
  }

  // From main's return on: the return values of the entry.
  lemma EntryReturnsSound(c: Config, base: nat, r': Registers)
    requires Code(c.mem, base) && c.regs.pc == base + 12 && 5 <= c.regs.fp && ReturnReady(c) && c.regs.ap + 5 < P
    requires c.regs.fp - 5 in c.mem && c.mem[c.regs.fp - 5] + 1 < P && c.regs.ap in c.mem
    requires Executes(c.mem, c.regs, 6, r')
    ensures r' == Registers(c.mem[c.regs.fp - 1], c.regs.ap + 5, c.mem[c.regs.fp - 2])
    ensures
      var args := c.mem[c.regs.fp - 5];
      && args in c.mem && Holds(c.mem, c.regs.ap + 1, c.mem[args])
      && args + 1 in c.mem && Holds(c.mem, c.regs.ap + 2, c.mem[args + 1])
    ensures Holds(c.mem, c.regs.ap + 3, 0) && Holds(c.mem, c.regs.ap + 4, c.mem[c.regs.ap])
  {
    var c1 := AddApPins(c, base, 5, r');
    var c2 := IndirectPins(c1, base, 0, 4, r');
    var c3 := IndirectPins(c2, base, 1, 3, r');
    var c4 := PushZeroAt(c3, base);
    Follow(c3, c4, 2, r');
    var c5 := PushFourthAt(c4, base, c.mem[c.regs.ap]);
    Follow(c4, c5, 1, r');
    ReturnSound(c5, base, r');
  }

  // The cells the entry leaves, `size` cells after its ap.
  ghost predicate EntryLeaves(m: Memory, r: Registers, size: nat)
    requires 5 <= r.fp && r.fp - 5 in m && m[r.fp - 5] + 1 < P && r.ap + size + 6 < P
  {
    var args, top := m[r.fp - 5], r.ap + size + 2;
    && args in m && Holds(m, top, m[args]) && args + 1 in m && Holds(m, top + 1, m[args + 1])
    && Holds(m, top + 2, 0) && top - 1 in m && Holds(m, top + 3, m[top - 1])
  }

  lemma EntrySoundFor(full: Memory, r: Registers, base: nat, n: Felt, r': Registers)
    requires n == ARGUMENT && Code(full, base) && r.pc == base + 9 && 5 <= r.fp && ReturnReady(Config(r, full))
    requires r.fp - 5 in full && full[r.fp - 5] + 1 < P && r.ap + 6 * n + 14 < P && r.ap + 6 * n + 9 in full
    requires Executes(full, r, 7 * n + 17, r')
    ensures r' == Registers(full[r.fp - 1], r.ap + 6 * n + 14, full[r.fp - 2]) && Holds(full, r.fp - 4, 0)
    ensures Holds(full, r.ap + 6 * n + 8, Reduce(F(n + 2))) && EntryLeaves(full, r, 6 * n + 8)
  {
    var d := EntryCallsSound(Config(r, full), base, 7 * n + 15, r');
    var back := ExecutionSplits(full, d.regs, 7 * n + 9, 6, r');
    MainSoundFor(full, d.regs, base, n, back);
    EntryReturnsSound(Config(back, full), base, r');
  }

  /**
   The contract entry, in any memory that holds the code and its frame and leaves room for the pointer its
   hint supplies: an execution of 3517 transitions requires empty calldata, runs main on the way, and
   returns the two members of the structure it was given, the size 0 and the hint's pointer.
   */
  lemma EntrySound(full: Memory, r: Registers, base: nat, r': Registers)
    requires Code(full, base) && r.pc == base + 9 && 5 <= r.fp && ReturnReady(Config(r, full))
    requires r.fp - 5 in full && full[r.fp - 5] + 1 < P && r.ap + 3014 < P && r.ap + 3009 in full
    requires Executes(full, r, 3517, r')
    ensures r' == Registers(full[r.fp - 1], r.ap + 3014, full[r.fp - 2]) && Holds(full, r.fp - 4, 0)
    ensures Holds(full, r.ap + 3008, Reduce(F(ARGUMENT + 2))) && EntryLeaves(full, r, 3008)
  {
    EntrySoundFor(full, r, base, ARGUMENT, r');
  }
}
