/** One step of each instruction shape the compiled programs use, on cells that do not wrap round P. */
module CairoSteps {

  import opened Options
  import opened Field
  import opened CairoInstruction
  import opened CairoMachine

  // ----- the words that occur -----

  const PUSH_IMM: Felt := 0x480680017fff8000
  const PUSH_FP3: Felt := 0x480a7ffd7fff8000
  const PUSH_FP4: Felt := 0x480a7ffc7fff8000
  const PUSH_AP2: Felt := 0x48127ffe7fff8000
  const ADD_FP5_FP4: Felt := 0x482a7ffc7ffb8000
  const ADD_FP3_IMM: Felt := 0x482680017ffd8000
  const MUL_FP3_AP1: Felt := 0x48527fff7ffd8000
  const CHECK_AP1_IMM: Felt := 0x400680017fff7fff
  const JNZ_FP3: Felt := 0x20780017fff7ffd
  const JNZ_AP1: Felt := 0x20680017fff7fff
  const CALL_REL: Felt := 0x1104800180018000
  const RET: Felt := 0x208b7fff7fff7ffe
  const MINUS_ONE: Felt := 0x800000000000011000000000000000000000000000000000000000000000000
  const MINUS_EIGHT: Felt := 0x800000000000010fffffffffffffffffffffffffffffffffffffffffffffff9
  const MINUS_TEN: Felt := 0x800000000000010fffffffffffffffffffffffffffffffffffffffffffffff7
  const MINUS_FOURTEEN: Felt := 0x800000000000010fffffffffffffffffffffffffffffffffffffffffffffff3

  /** Read as the files hold them, the negative operands are those of the files' prime. */
  lemma NegativeWords()
    ensures MINUS_ONE + 1 == MINUS_EIGHT + 8 == MINUS_TEN + 10 == MINUS_FOURTEEN + 14 == P
  {
  }

  // [ap] = operand; ap++
  function Push(offOp0: int, offOp1: int, src: Op1Source, logic: ResLogic): Instruction {
    Instruction(0, offOp0, offOp1, Ap, Fp, src, logic, Regular, AddOne, AssertEq)
  }

  function Jnz(reg: Register, off: int): Instruction {
    Instruction(off, -1, 1, reg, Fp, FromPc, Op1Alone, JumpNotZero, Keep, NoOp)
  }

  const CHECK_INSTRUCTION: Instruction := Instruction(-1, -1, 1, Ap, Fp, FromPc, Op1Alone, Regular, Keep, AssertEq)
  const CALL_INSTRUCTION: Instruction := Instruction(0, 1, 1, Ap, Ap, FromPc, Op1Alone, JumpRel, Keep, Call)
  const RETURN_INSTRUCTION: Instruction := Instruction(-2, -1, -1, Fp, Fp, FromFp, Op1Alone, JumpAbs, Keep, Ret)

  // ----- code and stack layout -----

  ghost predicate Loaded(m: Memory, base: nat, words: seq<Felt>)
    requires base + |words| <= P
  {
    forall k :: 0 <= k < |words| ==> Holds(m, base + k, words[k])
  }

  predicate Holds(m: Memory, x: Felt, v: Felt) {
    x in m && m[x] == v
  }

  // The cells lo .. hi - 1 are still unwritten.
  ghost predicate Free(m: Memory, lo: nat, hi: nat)
    requires hi <= P
  {
    forall x: Felt :: lo <= x < hi ==> x !in m
  }

  // m' is m with exactly the cells lo .. hi - 1 written.
  ghost predicate Grown(m: Memory, m': Memory, lo: nat, hi: nat)
    requires hi <= P
  {
    && Extends(m, m')
    && Free(m, lo, hi)
    && (forall x: Felt :: lo <= x < hi ==> x in m')
    && (forall x :: x in m' ==> x in m || lo <= x < hi)
  }

  lemma GrownTransitive(m0: Memory, m1: Memory, m2: Memory, lo: nat, mid: nat, hi: nat)
    requires lo <= mid <= hi <= P
    requires Grown(m0, m1, lo, mid) && Grown(m1, m2, mid, hi)
    ensures Grown(m0, m2, lo, hi)
  {
    forall x: Felt | lo <= x < hi
      ensures x !in m0 && x in m2
    {
      if mid <= x { assert x !in m1; }
    }
  }

  lemma GrownByOne(m: Memory, cell: Felt, v: Felt)
    requires cell !in m
    ensures Grown(m, m[cell := v], cell, cell + 1)
  {
  }

  // ----- executions over read-only memory -----

  // An execution of the standard's machine, as the registers it passes through.
  ghost predicate IsExecution(path: seq<Registers>, m: Memory, r: Registers, k: nat, r': Registers) {
    && |path| == k + 1 && path[0] == r && path[k] == r'
    && forall j {:trigger Next(m, path[j])} :: 0 <= j < k ==> Next(m, path[j]) == Some(path[j + 1])
  }

  ghost predicate Executes(m: Memory, r: Registers, k: nat, r': Registers) {
    exists path :: IsExecution(path, m, r, k, r')
  }

  // The machine makes a transition from here.
  ghost predicate Proceeds(c: Config) {
    exists r' :: Executes(c.mem, c.regs, 1, r')
  }

  lemma ProceedsIsNext(c: Config)
    requires Proceeds(c)
    ensures Next(c.mem, c.regs).Some?
  {
    var r' :| Executes(c.mem, c.regs, 1, r');
    var path :| IsExecution(path, c.mem, c.regs, 1, r');
    assert Next(c.mem, path[0]) == Some(path[1]);
  }

  // The cells an instruction writes are unwritten, or the machine proceeds, and then they hold what the
  // instruction asserts.
  ghost predicate Writable(c: Config, cells: set<Felt>) {
    cells !! c.mem.Keys || Proceeds(c)
  }

  // ----- one step of each shape -----

  ghost predicate At(c: Config, i: Instruction) {
    i.OffsetsInRange() && c.regs.pc in c.mem && c.mem[c.regs.pc] == Encode(i)
  }

  lemma StepOf(c: Config, i: Instruction)
    requires At(c, i)
    ensures Step(c) == StepAs(c, i) && Next(c.mem, c.regs) == Execute(c.mem, c.regs, i)
  {
    DecodeEncode(i);
  }

  lemma StepAsBy(c: Config, i: Instruction, m: Memory, r: Registers)
    requires Deduce(c.mem, c.regs, i) == m && Execute(m, c.regs, i) == Some(r)
    ensures StepAs(c, i) == Some(Config(r, m))
  {
  }

  // [ap] = operand; ap++
  lemma PushEffect(c: Config, i: Instruction, op0: Felt, op1Cell: Felt, op1: Felt)
    requires At(c, i) && IsPush(i) && PushReady(c, i, op0, op1Cell, op1)
    ensures StepAs(c, i) == Some(AfterPush(c, i, op0, op1))
  {
    PushDeduces(c, i, op0, op1Cell, op1);
    PushExecutes(AfterPush(c, i, op0, op1).mem, c.regs, i, op0, op1Cell, op1);
  }

  lemma PushDeduces(c: Config, i: Instruction, op0: Felt, op1Cell: Felt, op1: Felt)
    requires At(c, i) && IsPush(i) && PushReady(c, i, op0, op1Cell, op1)
    ensures Deduce(c.mem, c.regs, i) == c.mem[c.regs.ap := Res(i, op0, op1)]
  {
    StepOf(c, i);
    if c.regs.ap in c.mem { ProceedsIsNext(c); }
    ReduceSmall(c.regs.ap);
    assert DstCell(c.regs, i) == c.regs.ap;
  }

  lemma PushExecutes(m: Memory, r: Registers, i: Instruction, op0: Felt, op1Cell: Felt, op1: Felt)
    requires IsPush(i) && r.ap + 1 < P && r.pc + 2 < P
    requires Holds(m, Op0Cell(r, i), op0) && op1Cell == Op1Cell(r, i, op0) && Holds(m, op1Cell, op1)
    requires Holds(m, r.ap, Res(i, op0, op1))
    ensures Execute(m, r, i) == Some(Registers(r.pc + i.Size(), r.ap + 1, r.fp))
  {
    ReduceSmall(r.ap);
    ReduceSmall(r.ap + 1);
    ReduceSmall(r.pc + i.Size());
    var res := Res(i, op0, op1);
    assert DstCell(r, i) == r.ap && NextPc(r, i, res, op1, res) == r.pc + i.Size();
  }

  ghost predicate IsPush(i: Instruction) {
    i.offDst == 0 && i.dstReg == Ap && i.pcUpdate == Regular && i.apUpdate == AddOne && i.opcode == AssertEq
  }

  ghost predicate PushReady(c: Config, i: Instruction, op0: Felt, op1Cell: Felt, op1: Felt) {
    && Writable(c, {c.regs.ap}) && c.regs.ap + 1 < P && c.regs.pc + 2 < P
    && Op0Cell(c.regs, i) in c.mem && c.mem[Op0Cell(c.regs, i)] == op0
    && Op1Cell(c.regs, i, op0) == op1Cell && op1Cell in c.mem && c.mem[op1Cell] == op1
  }

  function AfterPush(c: Config, i: Instruction, op0: Felt, op1: Felt): Config
    requires c.regs.ap + 1 < P && c.regs.pc + 2 < P
  {
    Config(Registers(c.regs.pc + i.Size(), c.regs.ap + 1, c.regs.fp), c.mem[c.regs.ap := Res(i, op0, op1)])
  }

  lemma StepPush(c: Config, i: Instruction, op0: Felt, op1Cell: Felt, op1: Felt)
    requires At(c, i) && IsPush(i) && PushReady(c, i, op0, op1Cell, op1)
    ensures Reaches(c, 1, AfterPush(c, i, op0, op1))
  {
    StepOf(c, i);
    PushEffect(c, i, op0, op1Cell, op1);
    ReachesOne(c, AfterPush(c, i, op0, op1));
  }

  ghost predicate CallReady(c: Config) {
    CallInRange(c) && Writable(c, {c.regs.ap, c.regs.ap + 1})
  }

  predicate CallInRange(c: Config) {
    c.regs.ap + 2 < P && c.regs.pc + 2 < P && c.regs.pc + 1 in c.mem
  }

  function AfterCall(c: Config): Config
    requires CallInRange(c)
  {
    Config(Registers(Add(c.regs.pc, c.mem[c.regs.pc + 1]), c.regs.ap + 2, c.regs.ap + 2),
           c.mem[c.regs.ap := c.regs.fp][c.regs.ap + 1 := c.regs.pc + 2])
  }

  lemma CallCells(r: Registers)
    requires r.ap + 2 < P && r.pc + 2 < P
    ensures DstCell(r, CALL_INSTRUCTION) == r.ap && Op0Cell(r, CALL_INSTRUCTION) == r.ap + 1
    ensures Op1Cell(r, CALL_INSTRUCTION, r.pc + 2) == r.pc + 1
    ensures Add(r.pc, CALL_INSTRUCTION.Size()) == r.pc + 2 && Add(r.ap, 2) == r.ap + 2
  {
  }

  // Where the machine goes on from a call, the return link is in place already.
  lemma CallPinned(c: Config)
    requires At(c, CALL_INSTRUCTION) && CallReady(c)
    ensures c.regs.ap in c.mem ==> c.mem[c.regs.ap] == c.regs.fp
    ensures c.regs.ap + 1 in c.mem ==> c.mem[c.regs.ap + 1] == c.regs.pc + 2
  {
    if c.regs.ap in c.mem || c.regs.ap + 1 in c.mem {
      ProceedsIsNext(c);
      StepOf(c, CALL_INSTRUCTION);
      CallCells(c.regs);
    }
  }

  lemma CallFills(m: Memory, r: Registers)
    requires r.ap + 2 < P && r.pc + 2 < P
    requires r.ap in m ==> m[r.ap] == r.fp
    requires r.ap + 1 in m ==> m[r.ap + 1] == r.pc + 2
    ensures Deduce(m, r, CALL_INSTRUCTION) == m[r.ap := r.fp][r.ap + 1 := r.pc + 2]
  {
    CallCells(r);
  }

  lemma CallExecutes(m: Memory, r: Registers)
    requires r.ap + 2 < P && r.pc + 2 < P && r.pc + 1 in m
    requires Holds(m, r.ap, r.fp) && Holds(m, r.ap + 1, r.pc + 2)
    ensures Execute(m, r, CALL_INSTRUCTION) == Some(Registers(Add(r.pc, m[r.pc + 1]), r.ap + 2, r.ap + 2))
  {
    CallCells(r);
  }

  lemma CallEffect(c: Config)
    requires CallInRange(c)
    requires c.regs.ap in c.mem ==> c.mem[c.regs.ap] == c.regs.fp
    requires c.regs.ap + 1 in c.mem ==> c.mem[c.regs.ap + 1] == c.regs.pc + 2
    ensures StepAs(c, CALL_INSTRUCTION) == Some(AfterCall(c))
  {
    var d := AfterCall(c);
    CallFills(c.mem, c.regs);
    assert c.regs.pc + 1 in d.mem && d.mem[c.regs.pc + 1] == c.mem[c.regs.pc + 1];
    CallExecutes(d.mem, c.regs);
    StepAsBy(c, CALL_INSTRUCTION, d.mem, d.regs);
  }

  lemma AtCall(c: Config)
    requires Holds(c.mem, c.regs.pc, CALL_REL)
    ensures At(c, CALL_INSTRUCTION)
  {
  }

  lemma StepCall(c: Config)
    requires At(c, CALL_INSTRUCTION) && CallReady(c)
    ensures Reaches(c, 1, AfterCall(c))
  {
    StepOf(c, CALL_INSTRUCTION);
    CallPinned(c);
    CallEffect(c);
    ReachesOne(c, AfterCall(c));
  }

  ghost predicate ReturnReady(c: Config) {
    2 <= c.regs.fp && c.regs.fp - 1 in c.mem && c.regs.fp - 2 in c.mem
  }

  function AfterReturn(c: Config): Config
    requires ReturnReady(c)
  {
    Config(Registers(c.mem[c.regs.fp - 1], c.regs.ap, c.mem[c.regs.fp - 2]), c.mem)
  }

  lemma ReturnEffect(c: Config)
    requires ReturnReady(c)
    ensures StepAs(c, RETURN_INSTRUCTION) == Some(AfterReturn(c))
  {
  }

  lemma AtReturn(c: Config)
    requires Holds(c.mem, c.regs.pc, RET)
    ensures At(c, RETURN_INSTRUCTION)
  {
  }

  lemma StepReturn(c: Config)
    requires At(c, RETURN_INSTRUCTION) && ReturnReady(c)
    ensures Reaches(c, 1, AfterReturn(c))
  {
    StepOf(c, RETURN_INSTRUCTION);
    ReturnEffect(c);
    ReachesOne(c, AfterReturn(c));
  }

  ghost predicate JnzReady(c: Config, reg: Register, off: int) {
    && 1 <= c.regs.fp && c.regs.fp - 1 in c.mem
    && c.regs.pc + 2 < P && c.regs.pc + 1 in c.mem && c.regs.pc + c.mem[c.regs.pc + 1] < P
    && 0 <= (if reg == Ap then c.regs.ap else c.regs.fp) + off < P
    && (if reg == Ap then c.regs.ap else c.regs.fp) + off in c.mem
  }

  function AfterJnz(c: Config, reg: Register, off: int): Config
    requires JnzReady(c, reg, off)
  {
    var cond := c.mem[(if reg == Ap then c.regs.ap else c.regs.fp) + off];
    Config(c.regs.(pc := c.regs.pc + if cond == 0 then 2 else c.mem[c.regs.pc + 1]), c.mem)
  }

  lemma JnzEffect(c: Config, reg: Register, off: int)
    requires JnzReady(c, reg, off)
    ensures StepAs(c, Jnz(reg, off)) == Some(AfterJnz(c, reg, off))
  {
    var r, i := c.regs, Jnz(reg, off);
    var cond := (if reg == Ap then r.ap else r.fp) + off;
    assert DstCell(r, i) == cond && Op0Cell(r, i) == r.fp - 1;
    assert Op1Cell(r, i, c.mem[r.fp - 1]) == r.pc + 1;
    var op1 := c.mem[r.pc + 1];
    assert Defined(i) && Deduce(c.mem, r, i) == c.mem && Res(i, c.mem[r.fp - 1], op1) == op1;
    assert NextPc(r, i, c.mem[cond], op1, op1) == AfterJnz(c, reg, off).regs.pc;
  }

  lemma StepJnz(c: Config, reg: Register, off: int)
    requires At(c, Jnz(reg, off)) && JnzReady(c, reg, off)
    ensures Reaches(c, 1, AfterJnz(c, reg, off))
  {
    StepOf(c, Jnz(reg, off));
    JnzEffect(c, reg, off);
    ReachesOne(c, AfterJnz(c, reg, off));
  }

  // [ap - 1] = immediate, where [ap - 1] already holds it.
  lemma StepCheck(c: Config)
    requires At(c, CHECK_INSTRUCTION) && CheckReady(c)
    ensures Reaches(c, 1, AfterCheck(c))
  {
    StepOf(c, CHECK_INSTRUCTION);
    CheckEffect(c);
    ReachesOne(c, AfterCheck(c));
  }

  ghost predicate CheckReady(c: Config) {
    && 1 <= c.regs.fp && c.regs.fp - 1 in c.mem
    && c.regs.pc + 2 < P && c.regs.pc + 1 in c.mem
    && 1 <= c.regs.ap && c.regs.ap - 1 in c.mem && c.mem[c.regs.ap - 1] == c.mem[c.regs.pc + 1]
  }

  function AfterCheck(c: Config): Config
    requires CheckReady(c)
  {
    Config(c.regs.(pc := c.regs.pc + 2), c.mem)
  }

  lemma CheckEffect(c: Config)
    requires CheckReady(c)
    ensures StepAs(c, CHECK_INSTRUCTION) == Some(AfterCheck(c))
  {
    var r := c.regs;
    assert DstCell(r, CHECK_INSTRUCTION) == r.ap - 1 && Op0Cell(r, CHECK_INSTRUCTION) == r.fp - 1;
    assert Op1Cell(r, CHECK_INSTRUCTION, c.mem[r.fp - 1]) == r.pc + 1;
  }

  // ----- the operand shapes that occur, without wrap-round -----

  // [ap] = [fp + off]; ap++
  lemma PushArgument(c: Config, off: int, v: Felt) returns (d: Config)
    requires At(c, Push(-1, off, FromFp, Op1Alone)) && PushRoom(c)
    requires 0 <= c.regs.fp + off < P && Holds(c.mem, c.regs.fp + off, v)
    ensures Reaches(c, 1, d) && d == Pushed(c, 1, v)
  {
    var i := Push(-1, off, FromFp, Op1Alone);
    var op0 := c.mem[c.regs.fp - 1];
    assert Op0Cell(c.regs, i) == c.regs.fp - 1;
    StepPush(c, i, op0, c.regs.fp + off, v);
    d := AfterPush(c, i, op0, v);
  }

  // [ap] = [ap + off]; ap++
  lemma PushLocal(c: Config, off: int, v: Felt) returns (d: Config)
    requires At(c, Push(-1, off, FromAp, Op1Alone)) && PushRoom(c)
    requires 0 <= c.regs.ap + off < P && Holds(c.mem, c.regs.ap + off, v)
    ensures Reaches(c, 1, d) && d == Pushed(c, 1, v)
  {
    var i := Push(-1, off, FromAp, Op1Alone);
    var op0 := c.mem[c.regs.fp - 1];
    assert Op0Cell(c.regs, i) == c.regs.fp - 1;
    StepPush(c, i, op0, c.regs.ap + off, v);
    d := AfterPush(c, i, op0, v);
  }

  // [ap] = immediate; ap++
  lemma PushImmediate(c: Config, v: Felt) returns (d: Config)
    requires At(c, Push(-1, 1, FromPc, Op1Alone)) && PushRoom(c)
    requires Holds(c.mem, c.regs.pc + 1, v)
    ensures Reaches(c, 1, d) && d == Pushed(c, 2, v)
  {
    var i := Push(-1, 1, FromPc, Op1Alone);
    var op0 := c.mem[c.regs.fp - 1];
    assert Op0Cell(c.regs, i) == c.regs.fp - 1;
    StepPush(c, i, op0, c.regs.pc + 1, v);
    d := AfterPush(c, i, op0, v);
  }

  // [ap] = [fp + off0] + [fp + off1]; ap++
  lemma PushSum(c: Config, off0: int, off1: int, u: Felt, v: Felt) returns (d: Config)
    requires At(c, Push(off0, off1, FromFp, Sum)) && PushRoom(c)
    requires 0 <= c.regs.fp + off0 < P && Holds(c.mem, c.regs.fp + off0, u)
    requires 0 <= c.regs.fp + off1 < P && Holds(c.mem, c.regs.fp + off1, v)
    ensures Reaches(c, 1, d) && d == Pushed(c, 1, Add(u, v))
  {
    var i := Push(off0, off1, FromFp, Sum);
    assert Op0Cell(c.regs, i) == c.regs.fp + off0;
    StepPush(c, i, u, c.regs.fp + off1, v);
    d := AfterPush(c, i, u, v);
  }

  // [ap] = [fp - 3] + immediate; ap++
  lemma PushOffset(c: Config, u: Felt, v: Felt) returns (d: Config)
    requires At(c, Push(-3, 1, FromPc, Sum)) && PushRoom(c)
    requires 3 <= c.regs.fp && Holds(c.mem, c.regs.fp - 3, u) && Holds(c.mem, c.regs.pc + 1, v)
    ensures Reaches(c, 1, d) && d == Pushed(c, 2, Add(u, v))
  {
    var i := Push(-3, 1, FromPc, Sum);
    assert Op0Cell(c.regs, i) == c.regs.fp - 3;
    StepPush(c, i, u, c.regs.pc + 1, v);
    d := AfterPush(c, i, u, v);
  }

  // [ap] = [fp - 3] * [ap - 1]; ap++
  lemma PushProduct(c: Config, u: Felt, v: Felt) returns (d: Config)
    requires At(c, Push(-3, -1, FromAp, Product)) && PushRoom(c)
    requires 3 <= c.regs.fp && Holds(c.mem, c.regs.fp - 3, u)
    requires 1 <= c.regs.ap && Holds(c.mem, c.regs.ap - 1, v)
    ensures Reaches(c, 1, d) && d == Pushed(c, 1, Mul(u, v))
  {
    var i := Push(-3, -1, FromAp, Product);
    assert Op0Cell(c.regs, i) == c.regs.fp - 3;
    StepPush(c, i, u, c.regs.ap - 1, v);
    d := AfterPush(c, i, u, v);
  }

  ghost predicate PushRoom(c: Config) {
    && Writable(c, {c.regs.ap}) && c.regs.ap + 1 < P && c.regs.pc + 2 < P
    && 1 <= c.regs.fp && c.regs.fp - 1 in c.mem
  }

  function Pushed(c: Config, size: nat, v: Felt): Config
    requires c.regs.ap + 1 < P && c.regs.pc + size < P
  {
    Config(Registers(c.regs.pc + size, c.regs.ap + 1, c.regs.fp), c.mem[c.regs.ap := v])
  }

  // ----- chaining -----

  // A run spelled out as the configurations it passes through.
  ghost predicate IsPath(path: seq<Config>, c: Config, k: nat, d: Config) {
    && |path| == k + 1 && path[0] == c && path[k] == d
    && forall j {:trigger Step(path[j])} :: 0 <= j < k ==> Step(path[j]) == Some(path[j + 1])
  }

  ghost predicate Reaches(c: Config, k: nat, d: Config) {
    exists path :: IsPath(path, c, k, d)
  }

  lemma ReachesOne(c: Config, d: Config)
    requires Step(c) == Some(d)
    ensures Reaches(c, 1, d)
  {
    assert IsPath([c, d], c, 1, d);
  }

  lemma ReachesThen(c: Config, j: nat, d: Config, k: nat, e: Config)
    requires Reaches(c, j, d) && Reaches(d, k, e)
    ensures Reaches(c, j + k, e)
  {
    var p :| IsPath(p, c, j, d);
    var q :| IsPath(q, d, k, e);
    var path := p + q[1..];
    forall i {:trigger Step(path[i])} | 0 <= i < j + k
      ensures Step(path[i]) == Some(path[i + 1])
    {
      if i < j { assert Step(p[i]) == Some(p[i + 1]); } else { assert Step(q[i - j]) == Some(q[i - j + 1]); }
    }
    assert IsPath(path, c, j + k, e);
  }

  lemma {:induction false} ReachesRun(c: Config, k: nat, d: Config)
    requires Reaches(c, k, d)
    ensures Run(c, k) == Some(d)
    decreases k
  {
    var path :| IsPath(path, c, k, d);
    if k > 0 {
      assert Step(path[0]) == Some(path[1]);
      var rest := path[1..];
      forall i {:trigger Step(rest[i])} | 0 <= i < k - 1
        ensures Step(rest[i]) == Some(rest[i + 1])
      {
        assert Step(path[i + 1]) == Some(path[i + 2]);
      }
      assert IsPath(rest, path[1], k - 1, d);
      ReachesRun(path[1], k - 1, d);
    }
  }

  /** Executions are the traces that do not fail. */
  lemma {:induction false} ExecutesIsTrace(m: Memory, r: Registers, k: nat, r': Registers)
    requires Executes(m, r, k, r')
    ensures Trace(m, r, k) == Some(r')
    decreases k
  {
    var path :| IsExecution(path, m, r, k, r');
    if k > 0 {
      assert Next(m, path[0]) == Some(path[1]);
      var rest := path[1..];
      forall i {:trigger Next(m, rest[i])} | 0 <= i < k - 1
        ensures Next(m, rest[i]) == Some(rest[i + 1])
      {
        assert Next(m, path[i + 1]) == Some(path[i + 2]);
      }
      assert IsExecution(rest, m, path[1], k - 1, r');
      ExecutesIsTrace(m, path[1], k - 1, r');
    }
  }

  /** Over any memory with the initial cells, an execution as long as the path ends where it ends. */
  lemma ReachesSound(c: Config, k: nat, d: Config, full: Memory, r': Registers)
    requires Reaches(c, k, d) && Extends(c.mem, full) && Executes(full, c.regs, k, r')
    ensures r' == d.regs && Extends(d.mem, full)
  {
    ReachesRun(c, k, d);
    ExecutesIsTrace(full, c.regs, k, r');
    TraceIsRun(c, k, full);
  }

  /** ... and over the memory the path ends with there is such an execution. */
  lemma ReachesComplete(c: Config, k: nat, d: Config)
    requires Reaches(c, k, d)
    ensures Trace(d.mem, c.regs, k) == Some(d.regs)
  {
    ReachesRun(c, k, d);
    RunIsTrace(c, k, d.mem);
  }

  // ----- following an execution over read-only memory -----

  lemma ExecutionEnds(m: Memory, r: Registers, r': Registers)
    requires Executes(m, r, 0, r')
    ensures r' == r
  {
    var path :| IsExecution(path, m, r, 0, r');
  }

  /** Cutting an execution in two. */
  lemma ExecutionSplits(m: Memory, r: Registers, j: nat, k: nat, r': Registers) returns (middle: Registers)
    requires Executes(m, r, j + k, r')
    ensures Executes(m, r, j, middle) && Executes(m, middle, k, r')
  {
    var path :| IsExecution(path, m, r, j + k, r');
    middle := path[j];
    var first, second := path[..j + 1], path[j..];
    forall i {:trigger Next(m, second[i])} | 0 <= i < k
      ensures Next(m, second[i]) == Some(second[i + 1])
    {
      assert Next(m, path[j + i]) == Some(path[j + i + 1]);
    }
    forall i {:trigger Next(m, first[i])} | 0 <= i < j
      ensures Next(m, first[i]) == Some(first[i + 1])
    {
      assert Next(m, path[i]) == Some(path[i + 1]);
    }
    assert IsExecution(first, m, r, j, middle) && IsExecution(second, m, middle, k, r');
  }

  lemma ExecutionStarts(c: Config, k: nat, r': Registers)
    requires k > 0 && Executes(c.mem, c.regs, k, r')
    ensures Proceeds(c)
  {
    var next := ExecutionSplits(c.mem, c.regs, 1, k - 1, r');
  }

  /** Where the machine goes on, a step of the runner is its transition and writes nothing new. */
  lemma Follow(c: Config, d: Config, k: nat, r': Registers)
    requires Reaches(c, 1, d) && Executes(c.mem, c.regs, k + 1, r')
    ensures d.mem == c.mem && Executes(c.mem, d.regs, k, r') && (k > 0 ==> Proceeds(d))
  {
    var path :| IsPath(path, c, 1, d);
    assert Step(path[0]) == Some(path[1]);
    ExecutionStarts(c, k + 1, r');
    ProceedsIsNext(c);
    DeduceForced(c, c.mem);
    StepIsNext(c, c.mem);
    assert Step(c) == Some(d) && Extends(c.mem, d.mem);
    var middle := ExecutionSplits(c.mem, c.regs, 1, k, r');
    var first :| IsExecution(first, c.mem, c.regs, 1, middle);
    assert Next(c.mem, first[0]) == Some(first[1]);
    if k > 0 { ExecutionStarts(d, k, r'); }
  }

  /** A transition of an execution, whatever instruction makes it. */
  lemma {:induction false} FollowNext(c: Config, k: nat, r': Registers) returns (d: Config)
    requires Executes(c.mem, c.regs, k + 1, r')
    ensures Next(c.mem, c.regs) == Some(d.regs) && d.mem == c.mem
    ensures Executes(d.mem, d.regs, k, r') && (k > 0 ==> Proceeds(d))
  {
    var middle := ExecutionSplits(c.mem, c.regs, 1, k, r');
    d := Config(middle, c.mem);
    var first :| IsExecution(first, c.mem, c.regs, 1, middle);
    assert Next(c.mem, first[0]) == Some(first[1]);
    if k > 0 { ExecutionStarts(d, k, r'); }
  }

  // Whatever is loaded stays loaded, because memory is write-once.
  lemma LoadedStays(m: Memory, m': Memory, base: nat, words: seq<Felt>)
    requires base + |words| <= P && Loaded(m, base, words) && Extends(m, m')
    ensures Loaded(m', base, words)
  {
    forall k | 0 <= k < |words|
      ensures Holds(m', base + k, words[k])
    {
      assert Holds(m, base + k, words[k]);
    }
  }

  lemma StepKeepsCode(c: Config, d: Config, base: nat, words: seq<Felt>)
    requires base + |words| <= P && Loaded(c.mem, base, words) && Reaches(c, 1, d)
    ensures Loaded(d.mem, base, words)
  {
    ReachesRun(c, 1, d);
    RunKeepsMemory(c, 1);
    LoadedStays(c.mem, d.mem, base, words);
  }
}
