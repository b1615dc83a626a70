/**
 The instruction words of the stack processor: how the assembler packs them and
 how the fetch stage takes them apart again.
 */
module Assembler {
  import opened Results
  import opened Words

  /** Operations of the arithmetic unit, in the order of their codes. */
  datatype AluOp =
    | ZERO | NEGATE | ADD | SUB | MUL | DIV | REM | AND | OR | NOT | XOR
    | A | B | SHL | SHR | EQ | NEQ | LT | GT | LE | GE

  function AluCode(op: AluOp): nat {
    match op
    case ZERO => 0 case NEGATE => 1 case ADD => 2 case SUB => 3 case MUL => 4 case DIV => 5 case REM => 6
    case AND => 7 case OR => 8 case NOT => 9 case XOR => 10 case A => 11 case B => 12 case SHL => 13
    case SHR => 14 case EQ => 15 case NEQ => 16 case LT => 17 case GT => 18 case LE => 19 case GE => 20
  }

  /** The unit's result table: the eleven unused codes select zero. */
  function AluOfCode(code: nat): AluOp {
    match code
    case 1 => NEGATE case 2 => ADD case 3 => SUB case 4 => MUL case 5 => DIV case 6 => REM
    case 7 => AND case 8 => OR case 9 => NOT case 10 => XOR case 11 => A case 12 => B case 13 => SHL
    case 14 => SHR case 15 => EQ case 16 => NEQ case 17 => LT case 18 => GT case 19 => LE case 20 => GE
    case _ => ZERO
  }

  /** Addressing modes, in the order of their codes. */
  datatype Mode =
    | STACK_STACK_STACK | STACK_IMM_STACK | MEM_IMM_STACK | STACK_IMM_MEM
    | MEM_STACK_STACK | STACK_STACK_MEM | MEM_FPIMM_STACK | STACK_FPIMM_MEM
    | FP_IMM_STACK | STACK_IMM_FP | FP_IMM_FP | IMM_STACK_PC
    | STACK_STACK_PC_Z | STACK_STACK_PC_NZ | PPC_IMM_STACK | IMM_IMM_NOP

  function ModeCode(mode: Mode): nat {
    match mode
    case STACK_STACK_STACK => 0 case STACK_IMM_STACK => 1 case MEM_IMM_STACK => 2 case STACK_IMM_MEM => 3
    case MEM_STACK_STACK => 4 case STACK_STACK_MEM => 5 case MEM_FPIMM_STACK => 6 case STACK_FPIMM_MEM => 7
    case FP_IMM_STACK => 8 case STACK_IMM_FP => 9 case FP_IMM_FP => 10 case IMM_STACK_PC => 11
    case STACK_STACK_PC_Z => 12 case STACK_STACK_PC_NZ => 13 case PPC_IMM_STACK => 14 case IMM_IMM_NOP => 15
  }

  const MIN22 := -0x20_0000
  const MAX22 := 0x1F_FFFF

  predicate FitsImmediate(imm: int) {
    MIN22 <= imm <= MAX22
  }

  predicate FitsConstant(v: int) {
    0 <= v < 0x8000_0000
  }

  /** The packed word; its fields do not overlap, so the source's bitwise or is a sum. */
  function Pack(mode: Mode, op: AluOp, imm: int): Word {
    0x8000_0000 + ModeCode(mode) + 16 * AluCode(op) + 512 * (imm % 0x40_0000)
  }

  function Op(mode: Mode, op: AluOp, imm: int): Result<Word> {
    if FitsImmediate(imm) then Ok(Pack(mode, op, imm)) else Err(ImmediateRange)
  }

  function Const(v: int): Result<Word> {
    if FitsConstant(v) then Ok(v) else Err(ConstantRange)
  }

  // The instructions the code generator uses; those without an immediate cannot fail.
  const LPPC: Word := Pack(PPC_IMM_STACK, A, 0)
  const LMEM: Word := Pack(MEM_STACK_STACK, A, 0)
  const STMEM: Word := Pack(STACK_STACK_MEM, A, 0)
  const AJMP: Word := Pack(IMM_STACK_PC, A, 0)
  const CJMPZ: Word := Pack(STACK_STACK_PC_Z, A, 0)
  const LFP: Word := Pack(STACK_IMM_FP, A, 0)

  function Binary(op: AluOp): Word {
    Pack(STACK_STACK_STACK, op, 0)
  }

  function Unary(op: AluOp): Word {
    Pack(STACK_IMM_STACK, op, 0)
  }

  function Lfpmem(delta: int): Result<Word> {
    Op(MEM_FPIMM_STACK, A, delta)
  }

  function Stfpmem(delta: int): Result<Word> {
    Op(STACK_FPIMM_MEM, A, delta)
  }

  function Addfp(delta: int): Result<Word> {
    Op(FP_IMM_FP, ADD, delta)
  }

  // ----- the fetch stage -----

  datatype OperandSource =
    | OPSRC_IMM | OPSRC_STACK | OPSRC_FP | OPSRC_FP_IMM | OPSRC_PPC | OPSRC_ADDR

  datatype Destination =
    | STDST_NONE | STDST_STACK | STDST_MEM | STDST_FP | STDST_PC | STDST_PC_Z | STDST_PC_NZ

  datatype Insn = Insn(imm: Word, aSrc: OperandSource, bSrc: OperandSource, dst: Destination, op: AluOp)

  function SignExtend22(field: nat): Word
    requires field < 0x40_0000
  {
    if field < 0x20_0000 then field else field + 0xFFC0_0000
  }

  /** The decode stage, bit field by bit field. */
  function Decode(w: Word): Insn {
    if w < 0x8000_0000 then
      Insn(w, OPSRC_IMM, OPSRC_IMM, STDST_STACK, A)
    else
      var imm := SignExtend22((w / 512) % 0x40_0000);
      var op := AluOfCode((w / 16) % 32);
      match w % 16
      case 0 => Insn(imm, OPSRC_STACK, OPSRC_STACK, STDST_STACK, op)
      case 1 => Insn(imm, OPSRC_STACK, OPSRC_IMM, STDST_STACK, op)
      case 2 => Insn(imm, OPSRC_ADDR, OPSRC_IMM, STDST_STACK, op)
      case 3 => Insn(imm, OPSRC_STACK, OPSRC_IMM, STDST_MEM, op)
      case 4 => Insn(imm, OPSRC_ADDR, OPSRC_STACK, STDST_STACK, op)
      case 5 => Insn(imm, OPSRC_STACK, OPSRC_STACK, STDST_MEM, op)
      case 6 => Insn(imm, OPSRC_ADDR, OPSRC_FP_IMM, STDST_STACK, op)
      case 7 => Insn(imm, OPSRC_STACK, OPSRC_FP_IMM, STDST_MEM, op)
      case 8 => Insn(imm, OPSRC_FP, OPSRC_IMM, STDST_STACK, op)
      case 9 => Insn(imm, OPSRC_STACK, OPSRC_IMM, STDST_FP, op)
      case 10 => Insn(imm, OPSRC_FP, OPSRC_IMM, STDST_FP, op)
      case 11 => Insn(imm, OPSRC_IMM, OPSRC_STACK, STDST_PC, op)
      case 12 => Insn(imm, OPSRC_STACK, OPSRC_STACK, STDST_PC_Z, op)
      case 13 => Insn(imm, OPSRC_STACK, OPSRC_STACK, STDST_PC_NZ, op)
      case 14 => Insn(imm, OPSRC_PPC, OPSRC_IMM, STDST_STACK, op)
      case _ => Insn(imm, OPSRC_IMM, OPSRC_IMM, STDST_NONE, op)
  }

  /** What each addressing mode of the assembler is meant to select. */
  function Meaning(mode: Mode): (OperandSource, OperandSource, Destination) {
    match mode
    case STACK_STACK_STACK => (OPSRC_STACK, OPSRC_STACK, STDST_STACK)
    case STACK_IMM_STACK => (OPSRC_STACK, OPSRC_IMM, STDST_STACK)
    case MEM_IMM_STACK => (OPSRC_ADDR, OPSRC_IMM, STDST_STACK)
    case STACK_IMM_MEM => (OPSRC_STACK, OPSRC_IMM, STDST_MEM)
    case MEM_STACK_STACK => (OPSRC_ADDR, OPSRC_STACK, STDST_STACK)
    case STACK_STACK_MEM => (OPSRC_STACK, OPSRC_STACK, STDST_MEM)
    case MEM_FPIMM_STACK => (OPSRC_ADDR, OPSRC_FP_IMM, STDST_STACK)
    case STACK_FPIMM_MEM => (OPSRC_STACK, OPSRC_FP_IMM, STDST_MEM)
    case FP_IMM_STACK => (OPSRC_FP, OPSRC_IMM, STDST_STACK)
    case STACK_IMM_FP => (OPSRC_STACK, OPSRC_IMM, STDST_FP)
    case FP_IMM_FP => (OPSRC_FP, OPSRC_IMM, STDST_FP)
    case IMM_STACK_PC => (OPSRC_IMM, OPSRC_STACK, STDST_PC)
    case STACK_STACK_PC_Z => (OPSRC_STACK, OPSRC_STACK, STDST_PC_Z)
    case STACK_STACK_PC_NZ => (OPSRC_STACK, OPSRC_STACK, STDST_PC_NZ)
    case PPC_IMM_STACK => (OPSRC_PPC, OPSRC_IMM, STDST_STACK)
    case IMM_IMM_NOP => (OPSRC_IMM, OPSRC_IMM, STDST_NONE)
  }

  lemma Fields(m: nat, a: nat, f: nat)
    requires m < 16 && a < 32 && f < 0x40_0000
    ensures var w := 0x8000_0000 + m + 16 * a + 512 * f;
            w % 16 == m && (w / 16) % 32 == a && (w / 512) % 0x40_0000 == f
  {
    var w := 0x8000_0000 + m + 16 * a + 512 * f;
    assert w / 16 == a + 32 * (f + 0x40_0000);
    assert w / 512 == f + 0x40_0000;
  }

  lemma PackFields(mode: Mode, op: AluOp, imm: int)
    ensures Pack(mode, op, imm) >= 0x8000_0000
    ensures Pack(mode, op, imm) % 16 == ModeCode(mode)
    ensures (Pack(mode, op, imm) / 16) % 32 == AluCode(op)
    ensures (Pack(mode, op, imm) / 512) % 0x40_0000 == imm % 0x40_0000
  {
    Fields(ModeCode(mode), AluCode(op), imm % 0x40_0000);
  }

  lemma AluCodeRoundTrip(op: AluOp)
    ensures AluOfCode(AluCode(op)) == op
  {
  }

  /** Decoding undoes packing: the fetch stage sees exactly what the assembler was asked for. */
  lemma DecodePack(mode: Mode, op: AluOp, imm: int)
    requires FitsImmediate(imm)
    ensures var (a, b, d) := Meaning(mode); Decode(Pack(mode, op, imm)) == Insn(Wrap(imm), a, b, d, op)
  {
    PackFields(mode, op, imm);
    AluCodeRoundTrip(op);
    assert SignExtend22(imm % 0x40_0000) == Wrap(imm) by {
      if imm < 0 {
        assert imm % 0x40_0000 == imm + 0x40_0000;
        assert Wrap(imm) == imm + MODULUS;
      }
    }
  }

  /** Words of a compiled program that the repository holds. */
  lemma ListedWords()
    ensures LFP == 0x8000_00b9 && STMEM == 0x8000_00b5 && LMEM == 0x8000_00b4 && LPPC == 0x8000_00be
    ensures AJMP == 0x8000_00bb && CJMPZ == 0x8000_00bc
    ensures Addfp(2) == Ok(0x8000_042a) && Addfp(-2) == Ok(0xffff_fc2a) && Addfp(0) == Ok(0x8000_002a)
    ensures Stfpmem(0) == Ok(0x8000_00b7) && Stfpmem(-1) == Ok(0xffff_feb7)
    ensures Lfpmem(0) == Ok(0x8000_00b6) && Lfpmem(-1) == Ok(0xffff_feb6)
    ensures Unary(NEGATE) == 0x8000_0011 && Binary(ADD) == 0x8000_0020 && Binary(SUB) == 0x8000_0030
    ensures Binary(MUL) == 0x8000_0040 && Binary(DIV) == 0x8000_0050 && Binary(REM) == 0x8000_0060
    ensures Binary(AND) == 0x8000_0070 && Binary(SHR) == 0x8000_00e0 && Binary(EQ) == 0x8000_00f0
    ensures Binary(NEQ) == 0x8000_0100 && Binary(LT) == 0x8000_0110 && Binary(LE) == 0x8000_0130
    ensures Binary(GE) == 0x8000_0140
  {}
}
