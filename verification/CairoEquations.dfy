/**
 The same transition as equations over the flag bits of the fetched word, in the manner of the polynomial
 constraints of "Cairo - a Turing-complete STARK-friendly CPU architecture", section 9.
 */
module CairoEquations {

  import opened Options
  import opened Field
  import opened CairoInstruction
  import opened CairoMachine

  // The flag of the given weight: 1, 2, 4, ... for the fifteen flags in the order of section 4.4.
  function Flag(word: Felt, weight: nat): (f: int)
    requires weight > 0
    ensures f == 0 || f == 1
  {
    Bits(word / 0x1_0000_0000_0000, weight, 2)
  }

  function Offset(word: Felt, unit: nat): int
    requires unit > 0
  {
    Bits(word, unit, 0x1_0000) - 0x8000
  }

  function Indicator(b: bool): int {
    if b then 1 else 0
  }

  lemma ThreeBits(x: nat)
    ensures x % 8 == x % 2 + 2 * (x / 2 % 2) + 4 * (x / 4 % 2)
  {
    var y := x / 2;
    var z := y / 2;
    assert x == 2 * y + x % 2 && y == 2 * z + y % 2 && z == 2 * (z / 2) + z % 2 && x / 4 == z;
  }

  lemma TwoBits(x: nat)
    ensures x % 4 == x % 2 + 2 * (x / 2 % 2)
  {
  }

  // The nested quotients of the flags.
  lemma Quotients(f: nat)
    ensures f / 8 == f / 4 / 2 && f / 16 == f / 4 / 4
    ensures f / 64 == f / 32 / 2
    ensures f / 256 == f / 128 / 2 && f / 512 == f / 128 / 4
    ensures f / 2048 == f / 1024 / 2
    ensures f / 8192 == f / 4096 / 2 && f / 16384 == f / 4096 / 4
  {
  }

  lemma FieldBits(f: nat)
    ensures Bits(f, 4, 8) == Bits(f, 4, 2) + 2 * Bits(f, 8, 2) + 4 * Bits(f, 16, 2)
    ensures Bits(f, 32, 4) == Bits(f, 32, 2) + 2 * Bits(f, 64, 2)
    ensures Bits(f, 128, 8) == Bits(f, 128, 2) + 2 * Bits(f, 256, 2) + 4 * Bits(f, 512, 2)
    ensures Bits(f, 1024, 4) == Bits(f, 1024, 2) + 2 * Bits(f, 2048, 2)
    ensures Bits(f, 4096, 8) == Bits(f, 4096, 2) + 2 * Bits(f, 8192, 2) + 4 * Bits(f, 16384, 2)
  {
    Quotients(f);
    ThreeBits(f / 4);
    TwoBits(f / 32);
    ThreeBits(f / 128);
    TwoBits(f / 1024);
    ThreeBits(f / 4096);
  }

  /** The flag bits and the offsets of a word, as the integers the equations multiply. */
  datatype Fields = Fields(
    dstFp: int, op0Fp: int, op1Imm: int, op1Fp: int, op1Ap: int, sum: int, product: int,
    jumpAbs: int, jumpRel: int, jumpNotZero: int, addRes: int, addOne: int, call: int, ret: int, assertEq: int,
    offDst: int, offOp0: int, offOp1: int)

  function FieldsOf(word: Felt): Fields {
    Fields(Flag(word, 1), Flag(word, 2), Flag(word, 4), Flag(word, 8), Flag(word, 16), Flag(word, 32), Flag(word, 64),
           Flag(word, 128), Flag(word, 256), Flag(word, 512), Flag(word, 1024), Flag(word, 2048),
           Flag(word, 4096), Flag(word, 8192), Flag(word, 16384),
           Offset(word, 1), Offset(word, 0x1_0000), Offset(word, 0x1_0000_0000))
  }

  // The fields that stand for an instruction.
  function FieldsFor(i: Instruction): Fields {
    Fields(Indicator(i.dstReg == Fp), Indicator(i.op0Reg == Fp),
           Indicator(i.op1Src == FromPc), Indicator(i.op1Src == FromFp), Indicator(i.op1Src == FromAp),
           Indicator(i.resLogic == Sum), Indicator(i.resLogic == Product),
           Indicator(i.pcUpdate == JumpAbs), Indicator(i.pcUpdate == JumpRel), Indicator(i.pcUpdate == JumpNotZero),
           Indicator(i.apUpdate == AddRes), Indicator(i.apUpdate == AddOne),
           Indicator(i.opcode == Call), Indicator(i.opcode == Ret), Indicator(i.opcode == AssertEq),
           i.offDst, i.offOp0, i.offOp1)
  }

  /** Decoding reads every flag at its own bit and every offset in its own sixteen bits. */
  lemma DecodeReadsFields(word: Felt)
    requires Decode(word).Some?
    ensures FieldsOf(word) == FieldsFor(Decode(word).value)
  {
    var f := word / 0x1_0000_0000_0000;
    assert f < 0x8000 && Bits(word, 0x1_0000_0000_0000, 0x8000) == f;
    FieldBits(f);
  }

  // ----- the equations -----

  function Op0Address(g: Fields, r: Registers): Felt {
    Reduce(g.op0Fp * r.fp + (1 - g.op0Fp) * r.ap + g.offOp0)
  }

  function DstAddress(g: Fields, r: Registers): Felt {
    Reduce(g.dstFp * r.fp + (1 - g.dstFp) * r.ap + g.offDst)
  }

  function Op1Address(g: Fields, r: Registers, op0: Felt): Felt {
    Reduce(g.op1Imm * r.pc + g.op1Fp * r.fp + g.op1Ap * r.ap + (1 - g.op1Imm - g.op1Fp - g.op1Ap) * op0 + g.offOp1)
  }

  function ResValue(g: Fields, op0: Felt, op1: Felt): Felt {
    Reduce(g.sum * (op0 + op1) + g.product * (op0 * op1) + (1 - g.sum - g.product) * op1)
  }

  // The word after this instruction: an immediate takes a word of its own.
  function NextWord(g: Fields, r: Registers): Felt {
    Reduce(r.pc + 1 + g.op1Imm)
  }

  // What the assertions of the opcode demand.
  predicate OpcodeHolds(g: Fields, r: Registers, dst: Felt, op0: Felt, res: Felt) {
    g.assertEq * (dst - res) == 0 && g.call * (dst - r.fp) == 0 && g.call * (op0 - NextWord(g, r)) == 0
  }

  predicate PcHolds(g: Fields, r: Registers, dst: Felt, op1: Felt, res: Felt, pc': Felt) {
    if g.jumpNotZero == 1 then
      dst * (pc' - Reduce(r.pc + op1)) == 0 && (dst == 0 ==> pc' == NextWord(g, r))
    else
      pc' == g.jumpAbs * res + g.jumpRel * Reduce(r.pc + res) + (1 - g.jumpAbs - g.jumpRel) * NextWord(g, r)
  }

  predicate ApHolds(g: Fields, r: Registers, res: Felt, ap': Felt) {
    ap' == Reduce(r.ap + g.addRes * res + g.addOne + 2 * g.call)
  }

  predicate FpHolds(g: Fields, r: Registers, dst: Felt, fp': Felt) {
    fp' == g.call * Reduce(r.ap + 2) + g.ret * dst + (1 - g.call - g.ret) * r.fp
  }

  // All equations at once, over the three cells that are read.
  predicate Equations(m: Memory, g: Fields, r: Registers, r': Registers) {
    && Op0Address(g, r) in m && DstAddress(g, r) in m
    && Op1Address(g, r, m[Op0Address(g, r)]) in m
    && var op0, dst := m[Op0Address(g, r)], m[DstAddress(g, r)];
       var op1 := m[Op1Address(g, r, op0)];
       var res := ResValue(g, op0, op1);
       && OpcodeHolds(g, r, dst, op0, res) && PcHolds(g, r, dst, op1, res, r'.pc)
       && ApHolds(g, r, res, r'.ap) && FpHolds(g, r, dst, r'.fp)
  }

  lemma Addresses(i: Instruction, r: Registers)
    ensures Op0Cell(r, i) == Op0Address(FieldsFor(i), r) && DstCell(r, i) == DstAddress(FieldsFor(i), r)
  {
  }

  lemma Op1Is(i: Instruction, r: Registers, op0: Felt)
    ensures Op1Cell(r, i, op0) == Op1Address(FieldsFor(i), r, op0)
  {
  }

  lemma ResIs(i: Instruction, op0: Felt, op1: Felt)
    ensures Res(i, op0, op1) == ResValue(FieldsFor(i), op0, op1)
  {
    match i.resLogic
    case Op1Alone => ReduceSmall(op1);
    case Sum =>
    case Product =>
  }

  lemma NextWordIs(i: Instruction, r: Registers)
    ensures Add(r.pc, i.Size()) == NextWord(FieldsFor(i), r)
  {
  }

  lemma NextPcIs(i: Instruction, r: Registers, dst: Felt, op1: Felt, res: Felt, pc': Felt)
    ensures pc' == NextPc(r, i, dst, op1, res) <==> PcHolds(FieldsFor(i), r, dst, op1, res, pc')
  {
    NextWordIs(i, r);
    if i.pcUpdate == JumpNotZero {
      var gap := pc' - Reduce(r.pc + op1);
      NoZeroDivisors(dst, gap);
      assert PcHolds(FieldsFor(i), r, dst, op1, res, pc') <==>
        dst * gap == 0 && (dst == 0 ==> pc' == NextWord(FieldsFor(i), r));
    } else {
      StraightPc(i, r, dst, op1, res, pc');
    }
  }

  lemma StraightPc(i: Instruction, r: Registers, dst: Felt, op1: Felt, res: Felt, pc': Felt)
    requires i.pcUpdate != JumpNotZero && Add(r.pc, i.Size()) == NextWord(FieldsFor(i), r)
    ensures pc' == NextPc(r, i, dst, op1, res) <==> PcHolds(FieldsFor(i), r, dst, op1, res, pc')
  {
    var next := NextWord(FieldsFor(i), r);
    match i.pcUpdate
    case Regular => assert PcHolds(FieldsFor(i), r, dst, op1, res, pc') <==> pc' == next;
    case JumpAbs => assert PcHolds(FieldsFor(i), r, dst, op1, res, pc') <==> pc' == res;
    case JumpRel => assert PcHolds(FieldsFor(i), r, dst, op1, res, pc') <==> pc' == Reduce(r.pc + res);
  }

  lemma NoZeroDivisors(x: int, y: int)
    ensures x * y == 0 <==> x == 0 || y == 0
  {
  }

  lemma NextApIs(i: Instruction, r: Registers, res: Felt)
    requires Defined(i)
    ensures ApHolds(FieldsFor(i), r, res, NextAp(r, i, res))
  {
    ReduceSmall(r.ap);
  }

  lemma NextFpIs(i: Instruction, r: Registers, dst: Felt)
    ensures FpHolds(FieldsFor(i), r, dst, NextFp(r, i, dst))
  {
  }

  lemma AssertionIs(i: Instruction, r: Registers, dst: Felt, op0: Felt, res: Felt)
    ensures Assertion(r, i, dst, op0, res) <==> OpcodeHolds(FieldsFor(i), r, dst, op0, res)
  {
    NextWordIs(i, r);
  }

  /** The machine makes a transition exactly when the equations hold between the two states. */
  lemma NextIsEquations(m: Memory, r: Registers, r': Registers)
    requires r.pc in m && Decode(m[r.pc]).Some? && Defined(Decode(m[r.pc]).value)
    ensures Next(m, r) == Some(r') <==> Equations(m, FieldsOf(m[r.pc]), r, r')
  {
    DecodeReadsFields(m[r.pc]);
    ExecuteIsEquations(m, r, Decode(m[r.pc]).value, r');
  }

  lemma ExecuteIsEquations(m: Memory, r: Registers, i: Instruction, r': Registers)
    requires Defined(i)
    ensures Execute(m, r, i) == Some(r') <==> Equations(m, FieldsFor(i), r, r')
  {
    Addresses(i, r);
    if Op0Cell(r, i) in m && DstCell(r, i) in m {
      var op0, dst := m[Op0Cell(r, i)], m[DstCell(r, i)];
      Op1Is(i, r, op0);
      if Op1Cell(r, i, op0) in m {
        var op1 := m[Op1Cell(r, i, op0)];
        var res := Res(i, op0, op1);
        ResIs(i, op0, op1);
        AssertionIs(i, r, dst, op0, res);
        NextPcIs(i, r, dst, op1, res, r'.pc);
        NextApIs(i, r, res);
        NextFpIs(i, r, dst);
      }
    }
  }
}
