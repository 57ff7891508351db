/** The compiled words of `factorial` and its `main`, run against the source recursion. */
module Factorial {

  import opened Field
  import opened CairoInstruction
  import opened CairoMachine
  import opened CairoSteps

  // The compiled program; factorial starts at 0 and main at 12.
  const WORDS: seq<Felt> := [
    ADD_FP3_IMM, MINUS_ONE, JNZ_AP1, 4, PUSH_FP3, RET,
    ADD_FP3_IMM, MINUS_ONE, CALL_REL, MINUS_EIGHT, MUL_FP3_AP1, RET,
    PUSH_IMM, 10, CALL_REL, MINUS_FOURTEEN, CHECK_AP1_IMM, ASSERTED, RET]

  // What main asserts factorial(10) to be.
  const ASSERTED: Felt := 3628800

  // ----- the source -----

  // n - 1 in the field: how many recursive calls factorial(n) makes.
  function Rank(n: Felt): Felt {
    Add(n, MINUS_ONE)
  }

  lemma RankOf(n: Felt)
    ensures n == 0 ==> Rank(n) == P - 1
    ensures n > 0 ==> Rank(n) == n - 1
  {
    if n > 0 { AddBackwards(n, MINUS_ONE, 1); }
  }

  function FactorialOf(n: Felt): Felt
    decreases Rank(n)
  {
    if n == 1 then n else
      RankOf(n);
      RankOf(Rank(n));
      Mul(n, FactorialOf(Rank(n)))
  }

  function Fact(n: nat): nat {
    if n == 0 then 1 else n * Fact(n - 1)
  }

  /** The source recursion is n! mod P. */
  lemma {:induction false} FactorialIsFact(n: Felt)
    requires n > 0
    ensures FactorialOf(n) == Reduce(Fact(n))
    decreases n
  {
    if n == 1 {
      assert Fact(1) == 1 * Fact(0);
      ReduceSmall(1);
    } else {
      RankOf(n);
      FactorialIsFact(n - 1);
      var k := SplitProduct(n, Fact(n - 1));
      ReduceAbsorbs(n * Reduce(Fact(n - 1)), k);
    }
  }

  /** For 0 the recursion would go through the whole field and yield 0, not 0!. */
  lemma {:induction false} FactorialOfZero()
    ensures FactorialOf(0) == 0 && Fact(0) == 1 && Rank(0) == P - 1
  {
    RankOf(0);
    MulZero(FactorialOf(Rank(0)));
  }

  lemma MulZero(x: Felt)
    ensures Mul(0, x) == 0
  {
  }

  // ----- layout -----

  ghost predicate Code(m: Memory, base: nat) {
    base + |WORDS| <= P && Loaded(m, base, WORDS)
  }

  lemma CodeAt(m: Memory, base: nat, k: nat)
    requires Code(m, base) && k < |WORDS|
    ensures base + k in m && m[base + k] == WORDS[k]
  {
  }

  ghost predicate Frame(c: Config, base: nat, n: Felt) {
    && Code(c.mem, base) && c.regs.pc == base
    && 3 <= c.regs.fp == c.regs.ap
    && Holds(c.mem, c.regs.fp - 3, n) && c.regs.fp - 2 in c.mem && c.regs.fp - 1 in c.mem
  }

  // Unwritten stack for k nested calls.
  ghost predicate Room(c: Config, k: nat) {
    c.regs.ap + 5 * k + 2 < P && Free(c.mem, c.regs.ap, c.regs.ap + 5 * k + 2)
  }

  ghost predicate Returned(c: Config, d: Config, k: nat, result: Felt)
    requires 2 <= c.regs.fp && c.regs.fp - 1 in c.mem && c.regs.fp - 2 in c.mem
    requires Room(c, k)
  {
    && d.regs == Registers(c.mem[c.regs.fp - 1], c.regs.ap + 5 * k + 2, c.mem[c.regs.fp - 2])
    && Grown(c.mem, d.mem, c.regs.ap, c.regs.ap + 5 * k + 2)
    && d.mem[d.regs.ap - 1] == result
  }

  // ----- one lemma per word that occurs -----

  // 0, 6: [ap] = [fp - 3] + (-1); ap++
  lemma PushRankAt(c: Config, base: nat, k: nat, n: Felt) returns (d: Config)
    requires k in {0, 6} && Code(c.mem, base) && c.regs.pc == base + k
    requires PushRoom(c) && 3 <= c.regs.fp && Holds(c.mem, c.regs.fp - 3, n)
    ensures Reaches(c, 1, d) && d == Pushed(c, 2, Rank(n)) && Code(d.mem, base)
  {
    CodeAt(c.mem, base, k); CodeAt(c.mem, base, k + 1);
    d := PushOffset(c, n, MINUS_ONE);
    StepKeepsCode(c, d, base, WORDS);
  }

  // 2: jmp rel 4 if [ap - 1] != 0
  lemma BranchAt(c: Config, base: nat, v: Felt) returns (d: Config)
    requires Code(c.mem, base) && c.regs.pc == base + 2
    requires 1 <= c.regs.fp && c.regs.fp - 1 in c.mem && 1 <= c.regs.ap && Holds(c.mem, c.regs.ap - 1, v)
    ensures Reaches(c, 1, d) && d == Config(c.regs.(pc := base + if v == 0 then 4 else 6), c.mem)
  {
    CodeAt(c.mem, base, 2); CodeAt(c.mem, base, 3);
    StepJnz(c, Ap, -1);
    d := AfterJnz(c, Ap, -1);
  }

  // 4: [ap] = [fp - 3]; ap++
  lemma PushNAt(c: Config, base: nat, n: Felt) returns (d: Config)
    requires Code(c.mem, base) && c.regs.pc == base + 4
    requires PushRoom(c) && 3 <= c.regs.fp && Holds(c.mem, c.regs.fp - 3, n)
    ensures Reaches(c, 1, d) && d == Pushed(c, 1, n) && Code(d.mem, base)
  {
    CodeAt(c.mem, base, 4);
    d := PushArgument(c, -3, n);
    StepKeepsCode(c, d, base, WORDS);
  }

  // 8: call rel -8; 14: call rel -14
  lemma CallAt(c: Config, base: nat, k: nat) returns (d: Config)
    requires k in {8, 14} && Code(c.mem, base) && c.regs.pc == base + k
    requires c.regs.ap + 2 < P && Writable(c, {c.regs.ap, c.regs.ap + 1})
    ensures Reaches(c, 1, d) && Code(d.mem, base)
    ensures d == Config(Registers(base, c.regs.ap + 2, c.regs.ap + 2),
                        c.mem[c.regs.ap := c.regs.fp][c.regs.ap + 1 := base + k + 2])
  {
    CodeAt(c.mem, base, k); CodeAt(c.mem, base, k + 1);
    NegativeWords();
    AddBackwards(c.regs.pc, WORDS[k + 1], k);
    StepCall(c);
    d := AfterCall(c);
    StepKeepsCode(c, d, base, WORDS);
  }

  // 10: [ap] = [fp - 3] * [ap - 1]; ap++
  lemma PushProductAt(c: Config, base: nat, n: Felt, v: Felt) returns (d: Config)
    requires Code(c.mem, base) && c.regs.pc == base + 10
    requires PushRoom(c) && 3 <= c.regs.fp && Holds(c.mem, c.regs.fp - 3, n)
    requires 1 <= c.regs.ap && Holds(c.mem, c.regs.ap - 1, v)
    ensures Reaches(c, 1, d) && d == Pushed(c, 1, Mul(n, v)) && Code(d.mem, base)
  {
    CodeAt(c.mem, base, 10);
    d := PushProduct(c, n, v);
    StepKeepsCode(c, d, base, WORDS);
  }

  // 5, 11, 18: ret
  lemma ReturnAt(c: Config, base: nat) returns (d: Config)
    requires Code(c.mem, base) && c.regs.pc in {base + 5, base + 11, base + 18} && ReturnReady(c)
    ensures Reaches(c, 1, d) && d == AfterReturn(c)
  {
    CodeAt(c.mem, base, c.regs.pc - base);
    StepReturn(c);
    d := AfterReturn(c);
  }

  // ----- factorial -----

  lemma Leaf(c: Config, base: nat, n: Felt) returns (d: Config)
    requires n == 1 && Frame(c, base, n) && Room(c, n - 1)
    ensures Reaches(c, 4, d) && Returned(c, d, n - 1, n)
  {
    RankOf(n);
    var c1 := PushRankAt(c, base, 0, n);
    var c2 := BranchAt(c1, base, 0);
    var c3 := PushNAt(c2, base, n);
    d := ReturnAt(c3, base);
    ReachesThen(c, 1, c1, 1, c2); ReachesThen(c, 2, c2, 1, c3); ReachesThen(c, 3, c3, 1, d);
  }

  lemma Descend(c: Config, base: nat, n: Felt) returns (d: Config)
    requires n > 1 && Frame(c, base, n) && Room(c, n - 1)
    ensures Reaches(c, 4, d) && Frame(d, base, n - 1)
    ensures d.regs.ap == c.regs.ap + 4 && Grown(c.mem, d.mem, c.regs.ap, c.regs.ap + 4)
    ensures Holds(d.mem, d.regs.fp - 1, base + 10) && Holds(d.mem, d.regs.fp - 2, c.regs.fp)
  {
    RankOf(n);
    var c1 := PushRankAt(c, base, 0, n);
    var c2 := BranchAt(c1, base, Rank(n));
    var c3 := PushRankAt(c2, base, 6, n);
    d := CallAt(c3, base, 8);
    ReachesThen(c, 1, c1, 1, c2); ReachesThen(c, 2, c2, 1, c3); ReachesThen(c, 3, c3, 1, d);
  }

  // The multiplication after the call, and ret.
  lemma Multiply(e: Config, base: nat, n: Felt, v: Felt) returns (f: Config)
    requires Code(e.mem, base) && e.regs.pc == base + 10 && e.regs.ap + 1 < P && e.regs.ap !in e.mem
    requires 3 <= e.regs.fp && Holds(e.mem, e.regs.fp - 3, n) && ReturnReady(e)
    requires 1 <= e.regs.ap && Holds(e.mem, e.regs.ap - 1, v)
    ensures Reaches(e, 2, f) && Grown(e.mem, f.mem, e.regs.ap, e.regs.ap + 1)
    ensures f.regs == Registers(e.mem[e.regs.fp - 1], e.regs.ap + 1, e.mem[e.regs.fp - 2])
    ensures f.mem[e.regs.ap] == Mul(n, v)
  {
    var e1 := PushProductAt(e, base, n, v);
    GrownByOne(e.mem, e.regs.ap, Mul(n, v));
    f := ReturnAt(e1, base);
    ReachesThen(e, 1, e1, 1, f);
  }

  lemma Ascend(c: Config, base: nat, n: Felt, d: Config, e: Config, v: Felt) returns (f: Config)
    requires n > 1 && Frame(c, base, n) && Room(c, n - 1)
    requires Grown(c.mem, d.mem, c.regs.ap, c.regs.ap + 4) && Code(d.mem, base)
    requires d.regs.ap == d.regs.fp == c.regs.ap + 4
    requires Holds(d.mem, d.regs.fp - 1, base + 10) && Holds(d.mem, d.regs.fp - 2, c.regs.fp)
    requires Room(d, n - 2) && Returned(d, e, n - 2, v)
    ensures Reaches(e, 2, f) && Returned(c, f, n - 1, Mul(n, v))
  {
    var top := c.regs.ap + 5 * n - 4;
    LoadedStays(d.mem, e.mem, base, WORDS);
    GrownTransitive(c.mem, d.mem, e.mem, c.regs.ap, c.regs.ap + 4, top);
    f := Multiply(e, base, n, v);
    GrownTransitive(c.mem, e.mem, f.mem, c.regs.ap, top, top + 1);
  }

  /**
   The words of factorial compute the source recursion: 6(n - 1) + 4 steps, exactly the
   5(n - 1) + 2 cells from ap on written, and the result in [ap - 1].
   */
  lemma {:induction false} FactorialRuns(c: Config, base: nat, n: Felt) returns (d: Config)
    requires n > 0 && Frame(c, base, n) && Room(c, n - 1)
    ensures Reaches(c, 6 * (n - 1) + 4, d) && Returned(c, d, n - 1, FactorialOf(n))
    decreases n
  {
    if n == 1 {
      d := Leaf(c, base, n);
    } else {
      var c1 := Descend(c, base, n);
      var c2 := FactorialRuns(c1, base, n - 1);
      RankOf(n);
      d := Ascend(c, base, n, c1, c2, FactorialOf(n - 1));
      ReachesThen(c, 4, c1, 6 * (n - 2) + 4, c2);
      ReachesThen(c, 6 * n - 4, c2, 2, d);
    }
  }

  /** For every n whose frames fit below P - the rank n - 1 of n = 0 is P - 1, which never fits -
      the result is n! mod P. */
  lemma FactorialCorrect(c: Config, base: nat, n: Felt) returns (d: Config)
    requires Frame(c, base, n) && Room(c, Rank(n))
    ensures n > 0 && Room(c, n - 1)
    ensures Reaches(c, 6 * (n - 1) + 4, d) && Returned(c, d, n - 1, Reduce(Fact(n)))
  {
    RankOf(n);
    d := FactorialRuns(c, base, n);
    FactorialIsFact(n);
  }

  // ----- factorial over read-only memory -----

  lemma LeafSound(c: Config, base: nat, n: Felt, r': Registers)
    requires n == 1 && Frame(c, base, n) && c.regs.ap + 2 < P
    requires Executes(c.mem, c.regs, 4, r')
    ensures r' == Registers(c.mem[c.regs.fp - 1], c.regs.ap + 2, c.mem[c.regs.fp - 2])
    ensures Holds(c.mem, c.regs.ap + 1, n)
  {
    RankOf(n);
    ExecutionStarts(c, 4, r');
    var c1 := PushRankAt(c, base, 0, n);
    Follow(c, c1, 3, r');
    var c2 := BranchAt(c1, base, 0);
    Follow(c1, c2, 2, r');
    var c3 := PushNAt(c2, base, n);
    Follow(c2, c3, 1, r');
    var d := ReturnAt(c3, base);
    Follow(c3, d, 0, r');
    ExecutionEnds(c.mem, d.regs, r');
  }

  lemma DescendSound(c: Config, base: nat, n: Felt, k: nat, r': Registers) returns (d: Config)
    requires n > 1 && Frame(c, base, n) && c.regs.ap + 4 < P
    requires Executes(c.mem, c.regs, k + 4, r')
    ensures d.mem == c.mem && Frame(d, base, n - 1) && d.regs.ap == c.regs.ap + 4
    ensures Holds(c.mem, d.regs.fp - 1, base + 10) && Holds(c.mem, d.regs.fp - 2, c.regs.fp)
    ensures Executes(c.mem, d.regs, k, r')
  {
    RankOf(n);
    ExecutionStarts(c, k + 4, r');
    var c1 := PushRankAt(c, base, 0, n);
    Follow(c, c1, k + 3, r');
    var c2 := BranchAt(c1, base, Rank(n));
    Follow(c1, c2, k + 2, r');
    var c3 := PushRankAt(c2, base, 6, n);
    Follow(c2, c3, k + 1, r');
    d := CallAt(c3, base, 8);
    Follow(c3, d, k, r');
  }

  lemma MultiplySound(e: Config, base: nat, n: Felt, v: Felt, r': Registers)
    requires Code(e.mem, base) && e.regs.pc == base + 10 && e.regs.ap + 1 < P
    requires 3 <= e.regs.fp && Holds(e.mem, e.regs.fp - 3, n) && ReturnReady(e)
    requires 1 <= e.regs.ap && Holds(e.mem, e.regs.ap - 1, v)
    requires Executes(e.mem, e.regs, 2, r')
    ensures r' == Registers(e.mem[e.regs.fp - 1], e.regs.ap + 1, e.mem[e.regs.fp - 2])
    ensures Holds(e.mem, e.regs.ap, Mul(n, v))
  {
    ExecutionStarts(e, 2, r');
    var e1 := PushProductAt(e, base, n, v);
    Follow(e, e1, 1, r');
    var f := ReturnAt(e1, base);
    Follow(e1, f, 0, r');
    ExecutionEnds(e.mem, f.regs, r');
  }

  lemma {:induction false} FactorialSoundSource(full: Memory, r: Registers, base: nat, n: Felt, r': Registers)
    requires n > 0 && Frame(Config(r, full), base, n) && r.ap + 5 * n - 3 < P
    requires Executes(full, r, 6 * (n - 1) + 4, r')
    ensures r' == Registers(full[r.fp - 1], r.ap + 5 * n - 3, full[r.fp - 2])
    ensures Holds(full, r.ap + 5 * n - 4, FactorialOf(n))
    decreases n
  {
    if n == 1 {
      LeafSound(Config(r, full), base, n, r');
    } else {
      var k := 6 * (n - 2) + 4;
      var d := DescendSound(Config(r, full), base, n, k + 2, r');
      var back := ExecutionSplits(full, d.regs, k, 2, r');
      FactorialSoundSource(full, d.regs, base, n - 1, back);
      RankOf(n);
      MultiplySound(Config(back, full), base, n, FactorialOf(n - 1), r');
    }
  }

  /** Soundness over read-only memory: in any memory that holds the code and the frame - whatever its other
      cells hold, and wherever the stack lies - an execution of that length returns, with n! mod P in
      [ap - 1]. */
  lemma FactorialSound(full: Memory, r: Registers, base: nat, n: Felt, r': Registers)
    requires n > 0 && Frame(Config(r, full), base, n) && r.ap + 5 * n - 3 < P
    requires Executes(full, r, 6 * (n - 1) + 4, r')
    ensures r' == Registers(full[r.fp - 1], r.ap + 5 * n - 3, full[r.fp - 2])
    ensures Holds(full, r.ap + 5 * n - 4, Reduce(Fact(n)))
  {
    FactorialSoundSource(full, r, base, n, r');
    FactorialIsFact(n);
  }

  // ----- main -----

  // 12: [ap] = 10; ap++
  lemma PushTenAt(c: Config, base: nat) returns (d: Config)
    requires Code(c.mem, base) && c.regs.pc == base + 12 && PushRoom(c)
    ensures Reaches(c, 1, d) && d == Pushed(c, 2, 10) && Code(d.mem, base)
  {
    CodeAt(c.mem, base, 12); CodeAt(c.mem, base, 13);
    d := PushImmediate(c, 10);
    StepKeepsCode(c, d, base, WORDS);
  }

  // 16: [ap - 1] = 10!
  lemma CheckAt(c: Config, base: nat) returns (d: Config)
    requires Code(c.mem, base) && c.regs.pc == base + 16
    requires 1 <= c.regs.fp && c.regs.fp - 1 in c.mem && 1 <= c.regs.ap && Holds(c.mem, c.regs.ap - 1, ASSERTED)
    ensures Reaches(c, 1, d) && d == Config(c.regs.(pc := base + 18), c.mem)
  {
    CodeAt(c.mem, base, 16); CodeAt(c.mem, base, 17);
    StepCheck(c);
    d := AfterCheck(c);
  }

  lemma FactorialOfTen()
    ensures FactorialOf(10) == ASSERTED
  {
    FactorialIsFact(10);
    assert Fact(10) == ASSERTED;
    ReduceSmall(ASSERTED);
  }

  lemma MainCalls(c: Config, base: nat) returns (d: Config)
    requires Code(c.mem, base) && c.regs.pc == base + 12 && ReturnReady(c) && c.regs.fp <= c.regs.ap
    requires c.regs.ap + 50 < P && Free(c.mem, c.regs.ap, c.regs.ap + 50)
    ensures Reaches(c, 2, d) && Frame(d, base, 10)
    ensures d.regs.ap == c.regs.ap + 3 && Grown(c.mem, d.mem, c.regs.ap, c.regs.ap + 3)
    ensures Holds(d.mem, d.regs.fp - 1, base + 16) && Holds(d.mem, d.regs.fp - 2, c.regs.fp)
  {
    var c1 := PushTenAt(c, base);
    d := CallAt(c1, base, 14);
    ReachesThen(c, 1, c1, 1, d);
  }

  lemma MainReturns(c: Config, base: nat, d: Config, e: Config) returns (f: Config)
    requires Code(d.mem, base) && ReturnReady(c) && c.regs.ap + 50 < P
    requires Grown(c.mem, d.mem, c.regs.ap, c.regs.ap + 3) && d.regs.ap == d.regs.fp == c.regs.ap + 3
    requires Holds(d.mem, d.regs.fp - 1, base + 16) && Holds(d.mem, d.regs.fp - 2, c.regs.fp)
    requires Room(d, 9) && Returned(d, e, 9, ASSERTED)
    ensures Reaches(e, 2, f) && Grown(c.mem, f.mem, c.regs.ap, c.regs.ap + 50)
    ensures f.regs == Registers(c.mem[c.regs.fp - 1], c.regs.ap + 50, c.mem[c.regs.fp - 2])
  {
    LoadedStays(d.mem, e.mem, base, WORDS);
    var e1 := CheckAt(e, base);
    f := ReturnAt(e1, base);
    GrownTransitive(c.mem, d.mem, e.mem, c.regs.ap, c.regs.ap + 3, c.regs.ap + 50);
    ReachesThen(e, 1, e1, 1, f);
  }

  /** main never fails its assertion: 62 steps, 50 cells, and it returns. */
  lemma MainRuns(c: Config, base: nat) returns (d: Config)
    requires Code(c.mem, base) && c.regs.pc == base + 12 && ReturnReady(c) && c.regs.fp <= c.regs.ap
    requires c.regs.ap + 50 < P && Free(c.mem, c.regs.ap, c.regs.ap + 50)
    ensures Reaches(c, 62, d) && Grown(c.mem, d.mem, c.regs.ap, c.regs.ap + 50)
    ensures d.regs == Registers(c.mem[c.regs.fp - 1], c.regs.ap + 50, c.mem[c.regs.fp - 2])
  {
    var c1 := MainCalls(c, base);
    var c2 := FactorialRuns(c1, base, 10);
    FactorialOfTen();
    d := MainReturns(c, base, c1, c2);
    ReachesThen(c, 2, c1, 58, c2);
    ReachesThen(c, 60, c2, 2, d);
  }

  lemma MainCallsSound(c: Config, base: nat, k: nat, r': Registers) returns (d: Config)
    requires Code(c.mem, base) && c.regs.pc == base + 12 && ReturnReady(c) && c.regs.ap + 50 < P
    requires Executes(c.mem, c.regs, k + 2, r')
    ensures d.mem == c.mem && Frame(d, base, 10) && d.regs.ap == c.regs.ap + 3
    ensures Holds(c.mem, d.regs.fp - 1, base + 16) && Holds(c.mem, d.regs.fp - 2, c.regs.fp)
    ensures Executes(c.mem, d.regs, k, r')
  {
    ExecutionStarts(c, k + 2, r');
    var c1 := PushTenAt(c, base);
    Follow(c, c1, k + 1, r');
    d := CallAt(c1, base, 14);
    Follow(c1, d, k, r');
  }

  lemma MainReturnsSound(e: Config, base: nat, r': Registers)
    requires Code(e.mem, base) && e.regs.pc == base + 16 && ReturnReady(e)
    requires 1 <= e.regs.ap && Holds(e.mem, e.regs.ap - 1, ASSERTED)
    requires Executes(e.mem, e.regs, 2, r')
    ensures r' == AfterReturn(e).regs
  {
    var e1 := CheckAt(e, base);
    Follow(e, e1, 1, r');
    var f := ReturnAt(e1, base);
    Follow(e1, f, 0, r');
    ExecutionEnds(e.mem, f.regs, r');
  }

  // The call of an execution that goes on k transitions after it.
  lemma CallSound(d: Config, base: nat, n: Felt, v: Felt, k: nat, r': Registers) returns (back: Registers)
    requires n > 0 && v == FactorialOf(n)
    requires Frame(d, base, n) && d.regs.ap + 5 * n - 3 < P
    requires Executes(d.mem, d.regs, 6 * (n - 1) + 4 + k, r')
    ensures back == Registers(d.mem[d.regs.fp - 1], d.regs.ap + 5 * n - 3, d.mem[d.regs.fp - 2])
    ensures Holds(d.mem, d.regs.ap + 5 * n - 4, v) && Executes(d.mem, back, k, r')
  {
    back := ExecutionSplits(d.mem, d.regs, 6 * (n - 1) + 4, k, r');
    FactorialSoundSource(d.mem, d.regs, base, n, back);
  }

  lemma TenSound(d: Config, base: nat, k: nat, r': Registers) returns (back: Registers)
    requires Frame(d, base, 10) && d.regs.ap + 47 < P
    requires Executes(d.mem, d.regs, 58 + k, r')
    ensures back == Registers(d.mem[d.regs.fp - 1], d.regs.ap + 47, d.mem[d.regs.fp - 2])
    ensures Holds(d.mem, d.regs.ap + 46, ASSERTED) && Executes(d.mem, back, k, r')
  {
    FactorialOfTen();
    back := CallSound(d, base, 10, ASSERTED, k, r');
  }

  /** In any memory that holds the code and main's frame, an execution of 62 transitions from main returns,
      with the asserted 10! in [ap - 1]. */
  lemma MainSound(full: Memory, r: Registers, base: nat, r': Registers)
    requires Code(full, base) && r.pc == base + 12 && ReturnReady(Config(r, full)) && r.ap + 50 < P
    requires Executes(full, r, 62, r')
    ensures r' == Registers(full[r.fp - 1], r.ap + 50, full[r.fp - 2])
    ensures Holds(full, r.ap + 49, ASSERTED)
  {
    var d := MainCallsSound(Config(r, full), base, 60, r');
    var back := TenSound(d, base, 2, r');
    MainReturnsSound(Config(back, full), base, r');
  }
}
