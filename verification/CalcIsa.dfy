/** The Calc processor as a programmer sees it: one instruction per step. */
module CalcIsa {
  import opened Words

  const ROM_SIZE := 256
  const RAM_SIZE := 256

  type Rom = s: seq<Word> | |s| == ROM_SIZE witness seq(ROM_SIZE, _ => 0)
  type Ram = s: seq<Word> | |s| == RAM_SIZE witness seq(RAM_SIZE, _ => 0)

  /** What division (`true`) and remainder (`false`) by zero yield; the design leaves it open. */
  type ByZero = (bool, Word) -> Word

  /** The sixteen operations, by code. */
  function Alu(z: ByZero, op: nat, a: Word, b: Word): Word {
    match op
    case 0 => 0
    case 1 => Wrap(0 - a)
    case 2 => Wrap(a + b)
    case 3 => Wrap(a - b)
    case 4 => Wrap(a * b)
    case 5 => if b == 0 then z(true, a) else Quotient(a, b)
    case 6 => if b == 0 then z(false, a) else Remainder(a, b)
    case 7 => Bitwise(AndGate, a, b)
    case 8 => Bitwise(OrGate, a, b)
    case 9 => MODULUS - 1 - a
    case 10 => Bitwise(XorGate, a, b)
    case 11 => a
    case 12 => ShiftLeft(a, b)
    case 13 => ShiftRight(a, b)
    case 14 => Flag(a == b)
    case _ => Flag(a < b)
  }

  /** The decoded fields of an instruction. */
  datatype Insn = Insn(imm: Word, aSrc: nat, bSrc: nat, dst: nat, op: nat)

  function Decode(w: Word): Insn {
    if w < 0x8000_0000 then Insn(w, 1, 0, 1, 11)
    else Insn(0, w % 4, (w / 4) % 4, (w / 16) % 4, (w / 64) % 16)
  }

  /** Everything a program can observe. */
  datatype State = State(pc: Word, sp: Word, ram: Ram, out1: Word)

  /** Address bit 30 selects the output register. */
  predicate IsPort(addr: Word) {
    (addr / 0x4000_0000) % 2 == 1
  }

  function Read(s: State, addr: Word): Word {
    if IsPort(addr) then s.out1 else s.ram[addr % RAM_SIZE]
  }

  function Write(s: State, addr: Word, v: Word): State {
    if IsPort(addr) then s.(out1 := v) else s.(ram := s.ram[addr % RAM_SIZE := v])
  }

  /** The value of an operand: zero, the immediate, the top of the stack, or memory at `addr`. */
  function Operand(s: State, src: nat, imm: Word, addr: Word): Word {
    match src
    case 0 => 0
    case 1 => imm
    case 2 => Read(s, Wrap(s.sp - 1))
    case _ => Read(s, addr)
  }

  /** A stack operand is removed. */
  function Popped(s: State, src: nat): State {
    if src == 2 then s.(sp := Wrap(s.sp - 1)) else s
  }

  /** Nothing, push, store at address `b`, or jump to `b` if `a` is odd. */
  function Save(s: State, dst: nat, a: Word, b: Word, r: Word): State {
    match dst
    case 0 => s
    case 1 => Write(s, s.sp, r).(sp := Wrap(s.sp + 1))
    case 2 => Write(s, b, r)
    case _ => if a % 2 == 1 then s.(pc := b) else s
  }

  function Execute(z: ByZero, i: Insn, s: State): State {
    var b := Operand(s, i.bSrc, i.imm, 0);
    var s1 := Popped(s, i.bSrc);
    var a := Operand(s1, i.aSrc, i.imm, b);
    var s2 := Popped(s1, i.aSrc);
    Save(s2, i.dst, a, b, Alu(z, i.op, a, b))
  }

  function Step(rom: Rom, z: ByZero, s: State): State {
    Execute(z, Decode(rom[s.pc % ROM_SIZE]), s.(pc := Wrap(s.pc + 1)))
  }

  function Steps(rom: Rom, z: ByZero, n: nat, s: State): State
    decreases n
  {
    if n == 0 then s else Steps(rom, z, n - 1, Step(rom, z, s))
  }
}
