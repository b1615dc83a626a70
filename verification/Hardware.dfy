/**
 The target processor clock by clock: four phases of two clocks, each a request to the
 instruction or data memory and its acknowledgement, with a halt state between instructions.
 */
module Hardware {
  import opened Words
  import opened Assembler
  import M = Machine

  datatype MainState = S_HALT | S_FETCH | S_LOAD_B | S_LOAD_A | S_STORE

  /** The debugger's inputs on one clock. It does not access memory. */
  datatype Inputs = Inputs(resumeReq: bool, haltReq: bool, debugAddr: Word)

  /**
   Every register of the design. `romQ` and `ramQ` are the memories' read ports, `romWait`
   and `ramAck` the ports' handshake. `log` and `retired` are not hardware: they record what
   was written to the output register and how many instructions were completed.
   */
  datatype Regs = Regs(
    state: MainState,
    romWait: bool, ramAck: bool,
    romQ: Word, ramQ: Word,
    pc: Word, ppc: Word, sp: Word, fp: Word,
    insn: Insn, a: Word, b: Word,
    ram: M.Ram, out1: Word,
    log: seq<Word>, retired: nat)

  // ----- combinational logic -----

  predicate Halted(r: Regs) {
    r.state == S_HALT
  }

  predicate Acknowledged(r: Regs) {
    !Halted(r) && r.ramAck
  }

  predicate RomReq(r: Regs) {
    r.state == S_FETCH && !r.romWait
  }

  predicate RamReq(r: Regs) {
    (r.state == S_LOAD_B || r.state == S_LOAD_A || r.state == S_STORE) && !Acknowledged(r)
  }

  predicate EnableFetch(r: Regs) {
    r.state == S_FETCH && r.romWait
  }

  predicate EnableLoadB(r: Regs) {
    r.state == S_LOAD_B && Acknowledged(r)
  }

  predicate EnableLoadA(r: Regs) {
    r.state == S_LOAD_A && Acknowledged(r)
  }

  predicate EnableStore(r: Regs) {
    r.state == S_STORE && Acknowledged(r)
  }

  function NextState(r: Regs, i: Inputs): MainState {
    match r.state
    case S_HALT => if i.resumeReq then S_FETCH else S_HALT
    case S_FETCH => if r.romWait then S_LOAD_B else S_FETCH
    case S_LOAD_B => if Acknowledged(r) then S_LOAD_A else S_LOAD_B
    case S_LOAD_A => if Acknowledged(r) then S_STORE else S_LOAD_A
    case S_STORE => if Acknowledged(r) then if i.haltReq then S_HALT else S_FETCH else S_STORE
  }

  /** The stack's top, or a memory address. */
  function LoadAddr(src: OperandSource, sp: Word, memAddr: Word): Word {
    match src
    case OPSRC_STACK => Wrap(sp + 0xFFFF_FFFF)
    case OPSRC_ADDR => memAddr
    case _ => 0
  }

  function SaveAddr(dst: Destination, sp: Word, memAddr: Word): Word {
    match dst
    case STDST_STACK => sp
    case STDST_MEM => memAddr
    case _ => 0
  }

  function RamAddr(r: Regs, i: Inputs): Word {
    match r.state
    case S_HALT => i.debugAddr
    case S_FETCH => 0
    case S_LOAD_B => LoadAddr(r.insn.bSrc, r.sp, 0)
    case S_LOAD_A => LoadAddr(r.insn.aSrc, r.sp, r.b)
    case S_STORE => SaveAddr(r.insn.dst, r.sp, r.b)
  }

  /** The data bus: the output register or the memory, by the address now on the bus. */
  function RamData(r: Regs, i: Inputs): Word {
    if M.IsPort(RamAddr(r, i)) then r.out1 else r.ramQ
  }

  function SelectOperand(r: Regs, i: Inputs, src: OperandSource): Word {
    match src
    case OPSRC_IMM => r.insn.imm
    case OPSRC_STACK => RamData(r, i)
    case OPSRC_FP => r.fp
    case OPSRC_FP_IMM => Wrap(r.fp + r.insn.imm)
    case OPSRC_PPC => r.ppc
    case OPSRC_ADDR => RamData(r, i)
  }

  function AluResult(c: M.Chip, r: Regs): Word {
    M.Alu(c.z, r.insn.op, r.a, r.b)
  }

  predicate BranchTaken(r: Regs) {
    match r.insn.dst
    case STDST_PC => true
    case STDST_PC_Z => r.a == 0
    case STDST_PC_NZ => r.a != 0
    case _ => false
  }

  predicate PcWrite(r: Regs) {
    EnableStore(r) && BranchTaken(r)
  }

  predicate SpIncr(r: Regs) {
    EnableStore(r) && r.insn.dst == STDST_STACK
  }

  predicate SpDecr(r: Regs) {
    (EnableLoadB(r) && r.insn.bSrc == OPSRC_STACK) || (EnableLoadA(r) && r.insn.aSrc == OPSRC_STACK)
  }

  predicate FpWrite(r: Regs) {
    EnableStore(r) && r.insn.dst == STDST_FP
  }

  /** A write is requested only in the first clock of the store phase. */
  predicate RamWrite(r: Regs) {
    RamReq(r) && r.state == S_STORE && (r.insn.dst == STDST_STACK || r.insn.dst == STDST_MEM)
  }

  // ----- the clock edge -----

  function NextPc(r: Regs): Word {
    if PcWrite(r) then r.b else if EnableFetch(r) then Wrap(r.pc + 1) else r.pc
  }

  function NextSp(r: Regs): Word {
    if SpIncr(r) && !SpDecr(r) then Wrap(r.sp + 1)
    else if !SpIncr(r) && SpDecr(r) then Wrap(r.sp + 0xFFFF_FFFF)
    else r.sp
  }

  function NextRam(c: M.Chip, r: Regs, i: Inputs): M.Ram {
    if RamWrite(r) && !M.IsPort(RamAddr(r, i)) then r.ram[RamAddr(r, i) % M.RAM_WORDS := AluResult(c, r)] else r.ram
  }

  /** The instruction memory is addressed by the program counter's output, which anticipates a jump. */
  function RomAddr(r: Regs): Word {
    if PcWrite(r) then r.b else r.pc
  }

  /** All registers at once; a read in the cycle of a write to the same address sees the new data. */
  function Clock(c: M.Chip, r: Regs, i: Inputs): Regs {
    var port := RamWrite(r) && M.IsPort(RamAddr(r, i));
    Regs(
      NextState(r, i), RomReq(r), RamReq(r),
      M.FetchWord(c, RomAddr(r)), NextRam(c, r, i)[RamAddr(r, i) % M.RAM_WORDS],
      NextPc(r), if PcWrite(r) then r.pc else r.ppc, NextSp(r), if FpWrite(r) then AluResult(c, r) else r.fp,
      if EnableFetch(r) then Decode(r.romQ) else r.insn,
      if EnableLoadA(r) then SelectOperand(r, i, r.insn.aSrc) else r.a,
      if EnableLoadB(r) then SelectOperand(r, i, r.insn.bSrc) else r.b,
      NextRam(c, r, i), if port then AluResult(c, r) else r.out1,
      if port then r.log + [AluResult(c, r)] else r.log,
      if EnableStore(r) then r.retired + 1 else r.retired)
  }

  /** What happens over the clocks whose inputs are `ins`. */
  function Clocks(c: M.Chip, r: Regs, ins: seq<Inputs>): Regs
    decreases |ins|
  {
    if ins == [] then r else Clocks(c, Clock(c, r, ins[0]), ins[1..])
  }

  /** After reset; the memories and their read ports hold whatever they held. */
  function Reset(ram: M.Ram, romQ: Word, ramQ: Word): Regs {
    Regs(S_HALT, false, false, romQ, ramQ, 0, 0, 0, 0,
         Insn(0, OPSRC_IMM, OPSRC_IMM, STDST_NONE, ZERO), 0, 0, ram, 0, [], 0)
  }

  /** What the programmer sees. */
  function View(r: Regs): M.State {
    M.State(r.pc, r.ppc, r.sp, r.fp, r.ram, r.out1, r.log)
  }
}
