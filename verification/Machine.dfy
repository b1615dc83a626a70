/**
 The stack processor the compiler targets, one instruction per step: fetch, pop or
 select B, pop, select or read A, compute, store. The operand stack is the low part
 of the data memory, and address bit 30 selects the output port instead of memory.
 */
module Machine {
  import opened Words
  import opened Assembler

  const RAM_WORDS := 32768
  const ROM_WORDS := 8192

  type Ram = s: seq<Word> | |s| == RAM_WORDS witness seq(RAM_WORDS, _ => 0)

  /** What division (`true`) and remainder (`false`) by zero yield; the design leaves it open. */
  type ByZero = (bool, Word) -> Word

  /** The arithmetic unit, its operands in the order (A, B). */
  function Alu(z: ByZero, op: AluOp, a: Word, b: Word): Word {
    match op
    case ZERO => 0
    case NEGATE => Wrap(0 - a)
    case ADD => Wrap(a + b)
    case SUB => Wrap(a - b)
    case MUL => Wrap(a * b)
    case DIV => if b == 0 then z(true, a) else Quotient(a, b)
    case REM => if b == 0 then z(false, a) else Remainder(a, b)
    case AND => Bitwise(AndGate, a, b)
    case OR => Bitwise(OrGate, a, b)
    case NOT => MODULUS - 1 - a
    case XOR => Bitwise(XorGate, a, b)
    case A => a
    case B => b
    case SHL => ShiftLeft(a, b)
    case SHR => ShiftRight(a, b)
    case EQ => Flag(a == b)
    case NEQ => Flag(a != b)
    case LT => Flag(Signed(a) < Signed(b))
    case GT => Flag(Signed(a) > Signed(b))
    case LE => Flag(Signed(a) <= Signed(b))
    case GE => Flag(Signed(a) >= Signed(b))
  }

  /** A programmed chip: the contents of its instruction memory and its division by zero. */
  datatype Chip = Chip(rom: seq<Word>, z: ByZero)

  /** Registers, data memory, the output port, and every value the port has been given so far. */
  datatype State = State(pc: Word, ppc: Word, sp: Word, fp: Word, ram: Ram, port: Word, printed: seq<Word>)

  function Reset(ram: Ram): State {
    State(0, 0, 0, 0, ram, 0, [])
  }

  predicate IsPort(addr: Word) {
    (addr / 0x4000_0000) % 2 == 1
  }

  function Read(m: State, addr: Word): Word {
    if IsPort(addr) then m.port else m.ram[addr % RAM_WORDS]
  }

  function Write(m: State, addr: Word, v: Word): State {
    if IsPort(addr) then m.(port := v, printed := m.printed + [v])
    else m.(ram := m.ram[addr % RAM_WORDS := v])
  }

  function FetchWord(c: Chip, pc: Word): Word {
    if pc % ROM_WORDS < |c.rom| then c.rom[pc % ROM_WORDS] else 0
  }

  /** The value of an operand; `b` is the address used by a memory operand. */
  function Operand(m: State, i: Insn, src: OperandSource, b: Word): Word {
    match src
    case OPSRC_IMM => i.imm
    case OPSRC_STACK => Read(m, Wrap(m.sp - 1))
    case OPSRC_FP => m.fp
    case OPSRC_FP_IMM => Wrap(m.fp + i.imm)
    case OPSRC_PPC => m.ppc
    case OPSRC_ADDR => Read(m, b)
  }

  /** A stack operand is removed as it is read. */
  function Pop(m: State, src: OperandSource): State {
    if src == OPSRC_STACK then m.(sp := Wrap(m.sp - 1)) else m
  }

  function Store(m: State, dst: Destination, a: Word, b: Word, r: Word): State {
    match dst
    case STDST_NONE => m
    case STDST_STACK => Write(m, m.sp, r).(sp := Wrap(m.sp + 1))
    case STDST_MEM => Write(m, b, r)
    case STDST_FP => m.(fp := r)
    case STDST_PC => m.(pc := b, ppc := m.pc)
    case STDST_PC_Z => if a == 0 then m.(pc := b, ppc := m.pc) else m
    case STDST_PC_NZ => if a != 0 then m.(pc := b, ppc := m.pc) else m
  }

  function Execute(z: ByZero, i: Insn, m: State): State {
    var b := Operand(m, i, i.bSrc, 0);
    var m1 := Pop(m, i.bSrc);
    var a := Operand(m1, i, i.aSrc, b);
    var m2 := Pop(m1, i.aSrc);
    Store(m2, i.dst, a, b, Alu(z, i.op, a, b))
  }

  /** One instruction. */
  function Step(c: Chip, m: State): State {
    Execute(c.z, Decode(FetchWord(c, m.pc)), m.(pc := Wrap(m.pc + 1)))
  }

  function Run(c: Chip, n: nat, m: State): State {
    if n == 0 then m else Run(c, n - 1, Step(c, m))
  }

  lemma {:induction false} RunAdd(c: Chip, n: nat, k: nat, m: State)
    ensures Run(c, n + k, m) == Run(c, k, Run(c, n, m))
  {
    hide Step;
    if n > 0 {
      RunAdd(c, n - 1, k, Step(c, m));
    }
  }
}
