/** The assembler of the Calc processor, and what its instructions do. */
module CalcAssembly {
  import opened Results
  import opened Words
  import opened Arithmetic
  import Asm = Assembler
  import I = CalcIsa

  datatype OpSrc = ZERO | FROM_IMM | FROM_STACK | FROM_ADDR

  datatype OpDst = NOP | TO_STACK | TO_ADDR | TO_PC

  datatype OpAlu =
    | AluZERO | NEGATE | ADD | SUB | MUL | DIV | REM | AND | OR | NOT | XOR | A | SHL | SHR | EQ | LE

  function SrcCode(src: OpSrc): (c: nat)
    ensures c < 4
  {
    match src
    case ZERO => 0 case FROM_IMM => 1 case FROM_STACK => 2 case FROM_ADDR => 3
  }

  function DstCode(dst: OpDst): (c: nat)
    ensures c < 4
  {
    match dst
    case NOP => 0 case TO_STACK => 1 case TO_ADDR => 2 case TO_PC => 3
  }

  function AluCode(alu: OpAlu): (c: nat)
    ensures c < 16
  {
    match alu
    case AluZERO => 0 case NEGATE => 1 case ADD => 2 case SUB => 3 case MUL => 4 case DIV => 5 case REM => 6
    case AND => 7 case OR => 8 case NOT => 9 case XOR => 10 case A => 11 case SHL => 12 case SHR => 13
    case EQ => 14 case LE => 15
  }

  /** The packed word; its fields do not overlap, so the bitwise or is a sum. */
  function Op(a: OpSrc, b: OpSrc, alu: OpAlu, dst: OpDst): Word {
    0x8000_0000 + SrcCode(a) + 4 * SrcCode(b) + 16 * DstCode(dst) + 64 * AluCode(alu)
  }

  function Const(v: int): Result<Word> {
    if v < 0 || v > 2147483647 then Err(ConstantRange) else Ok(v)
  }

  const LMEM := Op(FROM_ADDR, FROM_STACK, A, TO_STACK)
  const STMEM := Op(FROM_STACK, FROM_STACK, A, TO_ADDR)
  const POP := Op(ZERO, FROM_STACK, AluZERO, NOP)
  const CJMP := Op(FROM_STACK, FROM_STACK, AluZERO, TO_PC)

  function Binary(alu: OpAlu): Word {
    Op(FROM_STACK, FROM_STACK, alu, TO_STACK)
  }

  function Unary(alu: OpAlu): Word {
    Op(FROM_STACK, ZERO, alu, TO_STACK)
  }

  // ----- decoding -----

  lemma Fields(a: nat, b: nat, dst: nat, alu: nat)
    requires a < 4 && b < 4 && dst < 4 && alu < 16
    ensures I.Decode(0x8000_0000 + a + 4 * b + 16 * dst + 64 * alu) == I.Insn(0, a, b, dst, alu)
  {
    var w := 0x8000_0000 + a + 4 * b + 16 * dst + 64 * alu;
    assert w / 4 == b + 4 * (dst + 4 * alu + 0x800_0000);
    assert w / 16 == dst + 4 * (alu + 0x200_0000);
    assert w / 64 == alu + 16 * 0x20_0000;
  }

  /** Decoding undoes packing. */
  lemma DecodeOp(a: OpSrc, b: OpSrc, alu: OpAlu, dst: OpDst)
    ensures I.Decode(Op(a, b, alu, dst)) == I.Insn(0, SrcCode(a), SrcCode(b), DstCode(dst), AluCode(alu))
  {
    Fields(SrcCode(a), SrcCode(b), DstCode(dst), AluCode(alu));
  }

  /** The example program: it counts to ten in memory and at the output, over and over. */
  const EXAMPLE := [
    Op(ZERO, ZERO, AluZERO, TO_STACK), 31, STMEM,
    31, LMEM, 10, Binary(LE), Unary(NOT), 23, CJMP,
    31, LMEM, 1, Binary(ADD), 31, STMEM,
    31, LMEM, 0x4000_0000, STMEM,
    1, 3, CJMP,
    1, 0, CJMP]

  /** Its words, as the repository's memory image has them. */
  lemma ListedWords()
    ensures EXAMPLE == [
      0x8000_0010, 0x0000_001f, 0x8000_02ea, 0x0000_001f, 0x8000_02db, 0x0000_000a, 0x8000_03da, 0x8000_0252,
      0x0000_0017, 0x8000_003a, 0x0000_001f, 0x8000_02db, 0x0000_0001, 0x8000_009a, 0x0000_001f, 0x8000_02ea,
      0x0000_001f, 0x8000_02db, 0x4000_0000, 0x8000_02ea, 0x0000_0001, 0x0000_0003, 0x8000_003a, 0x0000_0001,
      0x0000_0000, 0x8000_003a]
  {}

  // ----- arithmetic -----

  /** The Calc2 operation of the same name; LE is another, see below. */
  function Operation(alu: OpAlu): Asm.AluOp {
    match alu
    case AluZERO => Asm.ZERO
    case NEGATE => Asm.NEGATE
    case ADD => Asm.ADD
    case SUB => Asm.SUB
    case MUL => Asm.MUL
    case DIV => Asm.DIV
    case REM => Asm.REM
    case AND => Asm.AND
    case OR => Asm.OR
    case NOT => Asm.NOT
    case XOR => Asm.XOR
    case A => Asm.A
    case SHL => Asm.SHL
    case SHR => Asm.SHR
    case EQ => Asm.EQ
    case LE => Asm.LE
  }

  /** LE is the unsigned strict comparison. */
  ghost predicate Computes(alu: OpAlu, a: Word, b: Word, r: Word) {
    if alu == LE then Truth(r, a < b) else Means(Operation(alu), a, b, r)
  }

  /** The Calc arithmetic unit computes each operation, and nothing else. */
  lemma UnitMeans(z: I.ByZero, alu: OpAlu, a: Word, b: Word, r: Word)
    requires b != 0 || (alu != DIV && alu != REM)
    ensures Computes(alu, a, b, r) <==> r == I.Alu(z, AluCode(alu), a, b)
  {
    if alu != LE {
      SameUnit(z, alu, a, b);
      AluMeans(z, Operation(alu), a, b, r);
    }
  }

  lemma SameUnit(z: I.ByZero, alu: OpAlu, a: Word, b: Word)
    requires alu != LE
    ensures I.Alu(z, AluCode(alu), a, b) == M.Alu(z, Operation(alu), a, b)
  {
    hide Wrap, Bitwise, ShiftLeft, ShiftRight, Quotient, Remainder, Signed;
  }

  // ----- instructions -----

  /** The instruction at the program counter is `w`. */
  predicate At(rom: I.Rom, s: I.State, w: Word) {
    s.pc < I.ROM_SIZE && rom[s.pc] == w
  }

  lemma StepOp(rom: I.Rom, z: I.ByZero, s: I.State, a: OpSrc, b: OpSrc, alu: OpAlu, dst: OpDst)
    requires At(rom, s, Op(a, b, alu, dst))
    ensures I.Step(rom, z, s)
         == I.Execute(z, I.Insn(0, SrcCode(a), SrcCode(b), DstCode(dst), AluCode(alu)), s.(pc := s.pc + 1))
  {
    hide Op, I.Execute, I.Decode;
    DecodeOp(a, b, alu, dst);
    assert s.pc % I.ROM_SIZE == s.pc;
  }

  /** A stack operand. */
  lemma Pops(s: I.State, imm: Word, addr: Word)
    requires 1 <= s.sp <= I.RAM_SIZE
    ensures I.Operand(s, 2, imm, addr) == s.ram[s.sp - 1] && I.Popped(s, 2) == s.(sp := s.sp - 1)
  {}

  /** A stack result. */
  lemma Pushes(s: I.State, a: Word, b: Word, r: Word)
    requires s.sp < I.RAM_SIZE
    ensures I.Save(s, 1, a, b, r) == s.(sp := s.sp + 1, ram := s.ram[s.sp := r])
  {}

  /** A constant is pushed. */
  lemma StepConst(rom: I.Rom, z: I.ByZero, s: I.State, v: int)
    requires Const(v).Ok? && At(rom, s, Const(v).value) && s.sp < I.RAM_SIZE
    ensures I.Step(rom, z, s) == s.(pc := s.pc + 1, sp := s.sp + 1, ram := s.ram[s.sp := v])
  {}

  /** B is popped first, then A, and A op B is pushed. */
  lemma StepBinary(rom: I.Rom, z: I.ByZero, s: I.State, alu: OpAlu, r: Word)
    requires At(rom, s, Binary(alu)) && 2 <= s.sp <= I.RAM_SIZE
    requires s.ram[s.sp - 1] != 0 || (alu != DIV && alu != REM)
    ensures Computes(alu, s.ram[s.sp - 2], s.ram[s.sp - 1], r) <==>
              I.Step(rom, z, s) == s.(pc := s.pc + 1, sp := s.sp - 1, ram := s.ram[s.sp - 2 := r])
  {
    hide Op, I.Alu, Computes, I.Step, I.Decode, I.Popped, I.Operand, I.Save;
    var a, b, s1 := s.ram[s.sp - 2], s.ram[s.sp - 1], s.(pc := s.pc + 1);
    var s2, v := s1.(sp := s.sp - 2), I.Alu(z, AluCode(alu), a, b);
    UnitMeans(z, alu, a, b, r);
    StepOp(rom, z, s, FROM_STACK, FROM_STACK, alu, TO_STACK);
    Pops(s1, 0, 0);
    Pops(s1.(sp := s.sp - 1), 0, b);
    Pushes(s2, a, b, v);
    assert s.ram[s.sp - 2 := v][s.sp - 2] == v && s.ram[s.sp - 2 := r][s.sp - 2] == r;
  }

  /** The operand is replaced by the result. */
  lemma StepUnary(rom: I.Rom, z: I.ByZero, s: I.State, alu: OpAlu, r: Word)
    requires At(rom, s, Unary(alu)) && 1 <= s.sp <= I.RAM_SIZE && (alu == NEGATE || alu == NOT)
    ensures Computes(alu, s.ram[s.sp - 1], 0, r) <==>
              I.Step(rom, z, s) == s.(pc := s.pc + 1, ram := s.ram[s.sp - 1 := r])
  {
    hide Op, I.Alu, Computes, I.Step, I.Decode, I.Save;
    var a, s1 := s.ram[s.sp - 1], s.(pc := s.pc + 1);
    var v := I.Alu(z, AluCode(alu), a, 0);
    UnitMeans(z, alu, a, 0, r);
    StepOp(rom, z, s, FROM_STACK, ZERO, alu, TO_STACK);
    Pops(s1, 0, 0);
    Pushes(s1.(sp := s.sp - 1), a, 0, v);
    assert s.ram[s.sp - 1 := v][s.sp - 1] == v && s.ram[s.sp - 1 := r][s.sp - 1] == r;
  }

  /** The address on the stack is replaced by what it holds: a cell, or the output if its bit 30 is set. */
  lemma StepLoad(rom: I.Rom, z: I.ByZero, s: I.State)
    requires At(rom, s, LMEM) && 1 <= s.sp <= I.RAM_SIZE
    ensures var addr := s.ram[s.sp - 1];
            var v := if BitAt(addr, 30) then s.out1 else s.ram[addr % I.RAM_SIZE];
            I.Step(rom, z, s) == s.(pc := s.pc + 1, ram := s.ram[s.sp - 1 := v])
  {
    hide Op, BitAt, I.Step, I.Decode, I.Save, I.IsPort;
    var addr, s1 := s.ram[s.sp - 1], s.(pc := s.pc + 1);
    PortIff(addr);
    StepOp(rom, z, s, FROM_ADDR, FROM_STACK, A, TO_STACK);
    Pops(s1, 0, 0);
    var v := if BitAt(addr, 30) then s.out1 else s.ram[addr % I.RAM_SIZE];
    Pushes(s1.(sp := s.sp - 1), v, addr, v);
  }

  /** The address is popped, then the value, which is stored there. */
  lemma StepStore(rom: I.Rom, z: I.ByZero, s: I.State)
    requires At(rom, s, STMEM) && 2 <= s.sp <= I.RAM_SIZE
    ensures var addr, v := s.ram[s.sp - 1], s.ram[s.sp - 2];
            I.Step(rom, z, s) ==
            if BitAt(addr, 30) then s.(pc := s.pc + 1, sp := s.sp - 2, out1 := v)
            else s.(pc := s.pc + 1, sp := s.sp - 2, ram := s.ram[addr % I.RAM_SIZE := v])
  {
    hide Op, BitAt, I.Step, I.Decode, I.IsPort, I.Popped, I.Operand;
    var addr, s1 := s.ram[s.sp - 1], s.(pc := s.pc + 1);
    PortIff(addr);
    StepOp(rom, z, s, FROM_STACK, FROM_STACK, A, TO_ADDR);
    Pops(s1, 0, 0);
    Pops(s1.(sp := s.sp - 1), 0, addr);
  }

  /** The target is popped, then the condition, whose lowest bit decides. */
  lemma StepJump(rom: I.Rom, z: I.ByZero, s: I.State)
    requires At(rom, s, CJMP) && 2 <= s.sp <= I.RAM_SIZE
    ensures var target, c := s.ram[s.sp - 1], s.ram[s.sp - 2];
            I.Step(rom, z, s) == s.(pc := if BitAt(c, 0) then target else s.pc + 1, sp := s.sp - 2)
  {
    hide Op, I.Step, I.Decode, I.Alu, I.Popped, I.Operand;
    var target, s1 := s.ram[s.sp - 1], s.(pc := s.pc + 1);
    StepOp(rom, z, s, FROM_STACK, FROM_STACK, AluZERO, TO_PC);
    Pops(s1, 0, 0);
    Pops(s1.(sp := s.sp - 1), 0, target);
  }

  lemma StepPop(rom: I.Rom, z: I.ByZero, s: I.State)
    requires At(rom, s, POP) && 1 <= s.sp <= I.RAM_SIZE
    ensures I.Step(rom, z, s) == s.(pc := s.pc + 1, sp := s.sp - 1)
  {
    hide Op, I.Step, I.Decode, I.Alu;
    StepOp(rom, z, s, ZERO, FROM_STACK, AluZERO, NOP);
    Pops(s.(pc := s.pc + 1), 0, 0);
  }
}
