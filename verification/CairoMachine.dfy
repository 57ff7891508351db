/**
 The state transition of "Cairo - a Turing-complete STARK-friendly CPU architecture", section 4.5,
 and the runner that fills in write-once memory while it follows that transition.
 */
module CairoMachine {

  import opened Options
  import opened Field
  import opened CairoInstruction

  // A partial view of memory; a cell that is present never changes.
  type Memory = map<Felt, Felt>

  datatype Registers = Registers(pc: Felt, ap: Felt, fp: Felt)

  datatype Config = Config(regs: Registers, mem: Memory)

  // ----- operands -----

  function DstCell(r: Registers, i: Instruction): Felt {
    Reduce((if i.dstReg == Ap then r.ap else r.fp) + i.offDst)
  }

  function Op0Cell(r: Registers, i: Instruction): Felt {
    Reduce((if i.op0Reg == Ap then r.ap else r.fp) + i.offOp0)
  }

  function Op1Cell(r: Registers, i: Instruction, op0: Felt): Felt {
    Reduce(i.offOp1 + match i.op1Src
      case FromOp0 => op0
      case FromPc => r.pc
      case FromFp => r.fp
      case FromAp => r.ap)
  }

  function Res(i: Instruction, op0: Felt, op1: Felt): Felt {
    match i.resLogic
    case Op1Alone => op1
    case Sum => Add(op0, op1)
    case Product => Mul(op0, op1)
  }

  // Combinations for which the standard leaves the transition undefined.
  predicate Defined(i: Instruction) {
    && (i.pcUpdate == JumpNotZero ==> i.resLogic == Op1Alone && i.opcode == NoOp && i.apUpdate != AddRes)
    && (i.opcode == Call ==> i.apUpdate == Keep)
  }

  // ----- the transition -----

  function NextPc(r: Registers, i: Instruction, dst: Felt, op1: Felt, res: Felt): Felt {
    match i.pcUpdate
    case Regular => Add(r.pc, i.Size())
    case JumpAbs => res
    case JumpRel => Add(r.pc, res)
    case JumpNotZero => if dst == 0 then Add(r.pc, i.Size()) else Add(r.pc, op1)
  }

  function NextAp(r: Registers, i: Instruction, res: Felt): Felt {
    if i.opcode == Call then Add(r.ap, 2)
    else match i.apUpdate
      case Keep => r.ap
      case AddRes => Add(r.ap, res)
      case AddOne => Add(r.ap, 1)
  }

  function NextFp(r: Registers, i: Instruction, dst: Felt): Felt {
    match i.opcode
    case Call => Add(r.ap, 2)
    case Ret => dst
    case _ => r.fp
  }

  // What an instruction asserts about the cells it reads.
  predicate Assertion(r: Registers, i: Instruction, dst: Felt, op0: Felt, res: Felt) {
    match i.opcode
    case Call => op0 == Add(r.pc, i.Size()) && dst == r.fp
    case AssertEq => res == dst
    case _ => true
  }

  /** One transition over read-only memory: None when a cell is absent or an assertion fails. */
  function Next(m: Memory, r: Registers): Option<Registers> {
    if r.pc !in m || Decode(m[r.pc]) == None then None else Execute(m, r, Decode(m[r.pc]).value)
  }

  function Execute(m: Memory, r: Registers, i: Instruction): Option<Registers> {
    if !Defined(i) || Op0Cell(r, i) !in m || DstCell(r, i) !in m then None else
    var op0, dst := m[Op0Cell(r, i)], m[DstCell(r, i)];
    if Op1Cell(r, i, op0) !in m then None else
    var op1 := m[Op1Cell(r, i, op0)];
    var res := Res(i, op0, op1);
    if !Assertion(r, i, dst, op0, res) then None else
    Some(Registers(NextPc(r, i, dst, op1, res), NextAp(r, i, res), NextFp(r, i, dst)))
  }

  /** k transitions over read-only memory. */
  function Trace(m: Memory, r: Registers, k: nat): Option<Registers>
    decreases k
  {
    if k == 0 then Some(r)
    else match Next(m, r)
      case None => None
      case Some(r') => Trace(m, r', k - 1)
  }

  // ----- the runner -----

  // Write-once store: a cell that is already present keeps its value.
  function Fill(m: Memory, cell: Felt, v: Felt): (m': Memory)
    ensures Extends(m, m')
  {
    if cell in m then m else m[cell := v]
  }

  ghost predicate Extends(m: Memory, m': Memory) {
    forall x :: x in m ==> x in m' && m'[x] == m[x]
  }

  /** The cells the instruction's own assertion determines. */
  function Deduce(m: Memory, r: Registers, i: Instruction): (m': Memory)
    ensures Extends(m, m')
  {
    match i.opcode
    case Call =>
      Fill(Fill(m, DstCell(r, i), r.fp), Op0Cell(r, i), Add(r.pc, i.Size()))
    case AssertEq =>
      if Op0Cell(r, i) in m && Op1Cell(r, i, m[Op0Cell(r, i)]) in m then
        var op0 := m[Op0Cell(r, i)];
        Fill(m, DstCell(r, i), Res(i, op0, m[Op1Cell(r, i, op0)]))
      else m
    case _ => m
  }

  function Step(c: Config): Option<Config> {
    if c.regs.pc !in c.mem || Decode(c.mem[c.regs.pc]) == None then None else
    StepAs(c, Decode(c.mem[c.regs.pc]).value)
  }

  // The step that a fetched instruction makes.
  function StepAs(c: Config, i: Instruction): Option<Config> {
    var m := Deduce(c.mem, c.regs, i);
    match Execute(m, c.regs, i)
    case None => None
    case Some(r) => Some(Config(r, m))
  }

  function Run(c: Config, k: nat): Option<Config>
    decreases k
  {
    if k == 0 then Some(c)
    else match Step(c)
      case None => None
      case Some(c') => Run(c', k - 1)
  }

  // ----- the runner against the standard -----

  lemma NextMonotone(m: Memory, m': Memory, r: Registers)
    requires Extends(m, m') && Next(m, r).Some?
    ensures Next(m', r) == Next(m, r)
  {
  }

  lemma StepKeepsMemory(c: Config)
    requires Step(c).Some?
    ensures Extends(c.mem, Step(c).value.mem)
    ensures Next(Step(c).value.mem, c.regs) == Some(Step(c).value.regs)
  {
  }

  lemma StepIsNext(c: Config, full: Memory)
    requires Step(c).Some? && Extends(Step(c).value.mem, full)
    ensures Next(full, c.regs) == Some(Step(c).value.regs)
  {
    StepKeepsMemory(c);
    NextMonotone(Step(c).value.mem, full, c.regs);
  }

  lemma {:induction false} RunKeepsMemory(c: Config, k: nat)
    requires Run(c, k).Some?
    ensures Extends(c.mem, Run(c, k).value.mem)
    decreases k
  {
    if k > 0 {
      StepKeepsMemory(c);
      RunKeepsMemory(Step(c).value, k - 1);
    }
  }

  /** A run of the runner is a valid trace over the memory it ends with, or over any larger one. */
  lemma {:induction false} RunIsTrace(c: Config, k: nat, full: Memory)
    requires Run(c, k).Some? && Extends(Run(c, k).value.mem, full)
    ensures Trace(full, c.regs, k) == Some(Run(c, k).value.regs)
    decreases k
  {
    if k > 0 {
      var c' := Step(c).value;
      RunKeepsMemory(c', k - 1);
      StepIsNext(c, full);
      RunIsTrace(c', k - 1, full);
      assert Trace(full, c.regs, k) == Trace(full, c'.regs, k - 1);
    }
  }

  lemma DeduceForced(c: Config, full: Memory)
    requires Step(c).Some? && Extends(c.mem, full) && Next(full, c.regs).Some?
    ensures Extends(Step(c).value.mem, full)
  {
    var i := Decode(c.mem[c.regs.pc]).value;
    assert Decode(full[c.regs.pc]) == Some(i);
    assert Op0Cell(c.regs, i) in full && DstCell(c.regs, i) in full;
  }

  /** No other memory works: a trace over any memory that has the runner's initial cells is the
      runner's run, and that memory holds every cell the runner deduced. */
  lemma {:induction false} TraceIsRun(c: Config, k: nat, full: Memory)
    requires Run(c, k).Some? && Extends(c.mem, full) && Trace(full, c.regs, k).Some?
    ensures Trace(full, c.regs, k) == Some(Run(c, k).value.regs)
    ensures Extends(Run(c, k).value.mem, full)
    decreases k
  {
    if k > 0 {
      var c' := Step(c).value;
      DeduceForced(c, full);
      StepIsNext(c, full);
      TraceIsRun(c', k - 1, full);
    }
  }

  // ----- the runner as the machine it is -----

  class Cpu {
    var pc: Felt
    var ap: Felt
    var fp: Felt
    var memory: Memory

    function Configuration(): Config
      reads this
    {
      Config(Registers(pc, ap, fp), memory)
    }

    constructor (start: Config)
      ensures Configuration() == start
    {
      pc, ap, fp, memory := start.regs.pc, start.regs.ap, start.regs.fp, start.mem;
    }

    method Write(cell: Felt, v: Felt)
      modifies this`memory
      ensures memory == Fill(old(memory), cell, v)
    {
      if cell !in memory {
        memory := memory[cell := v];
      }
    }

    /** Fetch, decode, deduce and advance; a stuck machine keeps its registers. */
    method StepOnce() returns (ok: bool)
      modifies this
      ensures ok == Step(old(Configuration())).Some?
      ensures ok ==> Configuration() == Step(old(Configuration())).value
      ensures !ok ==> Configuration().regs == old(Configuration()).regs && Extends(old(memory), memory)
    {
      if pc !in memory {
        return false;
      }
      var decoded := Decode(memory[pc]);
      if decoded == None {
        return false;
      }
      var i := decoded.value;
      var here := Registers(pc, ap, fp);
      var op0Cell, dstCell := Op0Cell(here, i), DstCell(here, i);
      if i.opcode == Call {
        Write(dstCell, fp);
        Write(op0Cell, Add(pc, i.Size()));
      } else if i.opcode == AssertEq && op0Cell in memory {
        var op1Cell := Op1Cell(here, i, memory[op0Cell]);
        if op1Cell in memory {
          Write(dstCell, Res(i, memory[op0Cell], memory[op1Cell]));
        }
      }
      var next := Execute(memory, here, i);
      if next == None {
        return false;
      }
      pc, ap, fp := next.value.pc, next.value.ap, next.value.fp;
      return true;
    }

    /** Runs k steps, stopping early when stuck. */
    method RunSteps(k: nat) returns (ok: bool)
      modifies this
      ensures ok == Run(old(Configuration()), k).Some?
      ensures ok ==> Configuration() == Run(old(Configuration()), k).value
    {
      ghost var start := Configuration();
      var done := 0;
      while done < k
        invariant done <= k
        invariant Run(start, k) == Run(Configuration(), k - done)
      {
        ok := StepOnce();
        if !ok {
          return false;
        }
        done := done + 1;
      }
      return true;
    }
  }
}
