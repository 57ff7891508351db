/** Instruction words: "Cairo - a Turing-complete STARK-friendly CPU architecture", section 4.4. */
module CairoInstruction {

  import opened Options
  import opened Field
  import opened Arithmetic

  datatype Register = Ap | Fp
  datatype Op1Source = FromOp0 | FromPc | FromFp | FromAp
  datatype ResLogic = Op1Alone | Sum | Product
  datatype PcUpdate = Regular | JumpAbs | JumpRel | JumpNotZero
  datatype ApUpdate = Keep | AddRes | AddOne
  datatype Opcode = NoOp | Call | Ret | AssertEq

  datatype Instruction = Instruction(
    offDst: int, offOp0: int, offOp1: int,
    dstReg: Register, op0Reg: Register, op1Src: Op1Source,
    resLogic: ResLogic, pcUpdate: PcUpdate, apUpdate: ApUpdate, opcode: Opcode)
  {
    // Each offset is stored with a bias of 2^15 in sixteen bits.
    predicate OffsetsInRange() {
      -0x8000 <= offDst < 0x8000 && -0x8000 <= offOp0 < 0x8000 && -0x8000 <= offOp1 < 0x8000
    }

    function Size(): nat {
      if op1Src == FromPc then 2 else 1
    }
  }

  function Bits(word: nat, unit: nat, range: nat): (b: nat)
    requires 0 < unit && 0 < range
    ensures b < range
  {
    (word / unit) % range
  }

  /** The instruction held by a word, or None for a word that encodes no instruction. */
  function Decode(word: Felt): Option<Instruction> {
    if word >= 0x8000_0000_0000_0000 then None else
    var flags := Bits(word, 0x1_0000_0000_0000, 0x8000);
    var op1Bits := Bits(flags, 4, 8);
    var resBits := Bits(flags, 32, 4);
    var pcBits := Bits(flags, 128, 8);
    var apBits := Bits(flags, 1024, 4);
    var opBits := Bits(flags, 4096, 8);
    if op1Bits !in {0, 1, 2, 4} || resBits == 3 || pcBits !in {0, 1, 2, 4} ||
       apBits == 3 || opBits !in {0, 1, 2, 4} then None
    else
      Some(Instruction(
        Bits(word, 1, 0x1_0000) - 0x8000,
        Bits(word, 0x1_0000, 0x1_0000) - 0x8000,
        Bits(word, 0x1_0000_0000, 0x1_0000) - 0x8000,
        if Bits(flags, 1, 2) == 0 then Ap else Fp,
        if Bits(flags, 2, 2) == 0 then Ap else Fp,
        match op1Bits { case 0 => FromOp0 case 1 => FromPc case 2 => FromFp case _ => FromAp },
        match resBits { case 0 => Op1Alone case 1 => Sum case _ => Product },
        match pcBits { case 0 => Regular case 1 => JumpAbs case 2 => JumpRel case _ => JumpNotZero },
        match apBits { case 0 => Keep case 1 => AddRes case _ => AddOne },
        match opBits { case 0 => NoOp case 1 => Call case 2 => Ret case _ => AssertEq }))
  }

  // The field codes of section 4.4.
  function RegisterCode(r: Register): nat {
    match r case Ap => 0 case Fp => 1
  }

  function Op1Code(s: Op1Source): nat {
    match s case FromOp0 => 0 case FromPc => 1 case FromFp => 2 case FromAp => 4
  }

  function ResCode(l: ResLogic): nat {
    match l case Op1Alone => 0 case Sum => 1 case Product => 2
  }

  function PcCode(u: PcUpdate): nat {
    match u case Regular => 0 case JumpAbs => 1 case JumpRel => 2 case JumpNotZero => 4
  }

  function ApCode(u: ApUpdate): nat {
    match u case Keep => 0 case AddRes => 1 case AddOne => 2
  }

  function OpCode(o: Opcode): nat {
    match o case NoOp => 0 case Call => 1 case Ret => 2 case AssertEq => 4
  }

  function EncodeFlags(i: Instruction): (flags: nat)
    ensures flags < 0x8000
  {
    RegisterCode(i.dstReg) + 2 * RegisterCode(i.op0Reg) + 4 * Op1Code(i.op1Src) + 32 * ResCode(i.resLogic)
    + 128 * PcCode(i.pcUpdate) + 1024 * ApCode(i.apUpdate) + 4096 * OpCode(i.opcode)
  }

  function Encode(i: Instruction): Felt
    requires i.OffsetsInRange()
  {
    (i.offDst + 0x8000) + 0x1_0000 * (i.offOp0 + 0x8000) + 0x1_0000_0000 * (i.offOp1 + 0x8000) +
    0x1_0000_0000_0000 * EncodeFlags(i)
  }

  // The digit of weight `unit` in a mixed-radix number.
  lemma DigitAt(low: nat, digit: nat, high: nat, unit: nat, range: nat)
    requires low < unit && digit < range
    ensures Bits(low + unit * (digit + range * high), unit, range) == digit
  {
    var upper := digit + range * high;
    DivideOut(low + unit * upper, unit, upper, low);
    DivideOut(upper, range, high, digit);
  }

  // The seven fields of the flags, least significant first, rebuild the flags.
  lemma FlagFields(f: nat)
    requires f < 0x8000
    ensures f == Bits(f, 1, 2) + 2 * Bits(f, 2, 2) + 4 * Bits(f, 4, 8) + 32 * Bits(f, 32, 4)
                 + 128 * Bits(f, 128, 8) + 1024 * Bits(f, 1024, 4) + 4096 * Bits(f, 4096, 8)
  {
    assert f / 4 == (f / 2) / 2 && f / 32 == (f / 4) / 8 && f / 128 == (f / 32) / 4;
    assert f / 1024 == (f / 128) / 8 && f / 4096 == (f / 1024) / 4;
  }

  lemma WordFields(w: nat)
    ensures w == Bits(w, 1, 0x1_0000) + 0x1_0000 * Bits(w, 0x1_0000, 0x1_0000)
                 + 0x1_0000_0000 * Bits(w, 0x1_0000_0000, 0x1_0000)
                 + 0x1_0000_0000_0000 * (w / 0x1_0000_0000_0000)
  {
    assert w / 0x1_0000_0000 == (w / 0x1_0000) / 0x1_0000;
    assert w / 0x1_0000_0000_0000 == (w / 0x1_0000_0000) / 0x1_0000;
  }

  lemma FlagsOf(i: Instruction)
    ensures var f := EncodeFlags(i);
      && Bits(f, 1, 2) == RegisterCode(i.dstReg) && Bits(f, 2, 2) == RegisterCode(i.op0Reg)
      && Bits(f, 4, 8) == Op1Code(i.op1Src) && Bits(f, 32, 4) == ResCode(i.resLogic)
      && Bits(f, 128, 8) == PcCode(i.pcUpdate) && Bits(f, 1024, 4) == ApCode(i.apUpdate)
      && Bits(f, 4096, 8) == OpCode(i.opcode)
  {
    MixedRadix(RegisterCode(i.dstReg), RegisterCode(i.op0Reg), Op1Code(i.op1Src), ResCode(i.resLogic),
               PcCode(i.pcUpdate), ApCode(i.apUpdate), OpCode(i.opcode));
  }

  lemma MixedRadix(a: nat, b: nat, c: nat, d: nat, e: nat, g: nat, h: nat)
    requires a < 2 && b < 2 && c < 8 && d < 4 && e < 8 && g < 4 && h < 8
    ensures var f := a + 2 * b + 4 * c + 32 * d + 128 * e + 1024 * g + 4096 * h;
      && Bits(f, 1, 2) == a && Bits(f, 2, 2) == b && Bits(f, 4, 8) == c && Bits(f, 32, 4) == d
      && Bits(f, 128, 8) == e && Bits(f, 1024, 4) == g && Bits(f, 4096, 8) == h
  {
    DigitAt(0, a, b + 2 * c + 16 * d + 64 * e + 512 * g + 2048 * h, 1, 2);
    DigitAt(a, b, c + 8 * d + 32 * e + 256 * g + 1024 * h, 2, 2);
    DigitAt(a + 2 * b, c, d + 4 * e + 32 * g + 128 * h, 4, 8);
    DigitAt(a + 2 * b + 4 * c, d, e + 8 * g + 32 * h, 32, 4);
    DigitAt(a + 2 * b + 4 * c + 32 * d, e, g + 4 * h, 128, 8);
    DigitAt(a + 2 * b + 4 * c + 32 * d + 128 * e, g, h, 1024, 4);
    DigitAt(a + 2 * b + 4 * c + 32 * d + 128 * e + 1024 * g, h, 0, 4096, 8);
  }

  /** Every instruction is recovered from its word. */
  lemma DecodeEncode(i: Instruction)
    requires i.OffsetsInRange()
    ensures Decode(Encode(i)) == Some(i)
  {
    var a, b, c, f := i.offDst + 0x8000, i.offOp0 + 0x8000, i.offOp1 + 0x8000, EncodeFlags(i);
    var w := Encode(i);
    DigitAt(0, a, b + 0x1_0000 * c + 0x1_0000_0000 * f, 1, 0x1_0000);
    DigitAt(a, b, c + 0x1_0000 * f, 0x1_0000, 0x1_0000);
    DigitAt(a + 0x1_0000 * b, c, f, 0x1_0000_0000, 0x1_0000);
    DigitAt(a + 0x1_0000 * b + 0x1_0000_0000 * c, f, 0, 0x1_0000_0000_0000, 0x8000);
    FlagsOf(i);
    DecodeFields(w, i);
  }

  // A word whose fields are those of i decodes to i.
  lemma DecodeFields(w: Felt, i: Instruction)
    requires w < 0x8000_0000_0000_0000
    requires Bits(w, 1, 0x1_0000) == i.offDst + 0x8000
    requires Bits(w, 0x1_0000, 0x1_0000) == i.offOp0 + 0x8000
    requires Bits(w, 0x1_0000_0000, 0x1_0000) == i.offOp1 + 0x8000
    requires Bits(w, 0x1_0000_0000_0000, 0x8000) == EncodeFlags(i)
    ensures Decode(w) == Some(i)
  {
    FlagsOf(i);
  }

  lemma FieldCodes(word: Felt)
    requires Decode(word).Some?
    ensures EncodeFlags(Decode(word).value) ==
      var f := Bits(word, 0x1_0000_0000_0000, 0x8000);
      Bits(f, 1, 2) + 2 * Bits(f, 2, 2) + 4 * Bits(f, 4, 8) + 32 * Bits(f, 32, 4)
      + 128 * Bits(f, 128, 8) + 1024 * Bits(f, 1024, 4) + 4096 * Bits(f, 4096, 8)
  {
    var i := Decode(word).value;
    var f := Bits(word, 0x1_0000_0000_0000, 0x8000);
    assert RegisterCode(i.dstReg) == Bits(f, 1, 2) && RegisterCode(i.op0Reg) == Bits(f, 2, 2);
    assert Op1Code(i.op1Src) == Bits(f, 4, 8) && ResCode(i.resLogic) == Bits(f, 32, 4);
    assert PcCode(i.pcUpdate) == Bits(f, 128, 8) && ApCode(i.apUpdate) == Bits(f, 1024, 4);
    assert OpCode(i.opcode) == Bits(f, 4096, 8);
  }

  /** No two words hold the same instruction: decoding loses nothing. */
  lemma EncodeDecode(word: Felt)
    requires Decode(word).Some?
    ensures Decode(word).value.OffsetsInRange() && Encode(Decode(word).value) == word
  {
    var f := Bits(word, 0x1_0000_0000_0000, 0x8000);
    FlagFields(f);
    FieldCodes(word);
    WordFields(word);
    DivideOut(word / 0x1_0000_0000_0000, 0x8000, 0, f);
  }
}
