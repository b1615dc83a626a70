/**
 The Calc processor clock by clock: a main state machine that hands off to the fetch,
 load and save stages, over a synchronous ROM, a synchronous RAM and an output register.
 */
module CalcClock {
  import opened Words
  import I = CalcIsa

  datatype MainState = S_RESET | S_FETCH | S_LOADB | S_LOADA | S_STORE

  /** FetchStage: busy while decoding; the decoded fields. */
  datatype Fetch = Fetch(decoding: bool, insn: I.Insn)

  /** LoadStage: busy while loading; the operand. */
  datatype Load = Load(loading: bool, data: Word)

  /** Every register of the design. `romQ` and `ramQ` are the memories' read ports. */
  datatype Regs = Regs(
    state: MainState,
    pc: Word, sp: Word,
    fs: Fetch, lsB: Load, lsA: Load,
    storing: bool,              // SaveStage
    romQ: Word,
    ram: I.Ram, ramQ: Word, out1: Word)

  // ----- combinational logic -----

  /** LoadStage's address: the top of the stack, or the given memory address. */
  function LoadAddr(src: nat, sp: Word, memAddr: Word): Word {
    match src
    case 0 => 0
    case 1 => 0
    case 2 => Wrap(sp - 1)
    case _ => memAddr
  }

  /** LoadStage's next data: held while waiting, selected by the source while loading. */
  function NextData(l: Load, src: nat, imm: Word, memData: Word): Word {
    if !l.loading then l.data
    else
      match src
      case 0 => 0
      case 1 => imm
      case _ => memData
  }

  function SaveAddr(dst: nat, sp: Word, memAddr: Word): Word {
    match dst
    case 1 => sp
    case 2 => memAddr
    case _ => 0
  }

  predicate FsStart(r: Regs) {
    r.state == S_RESET || (r.state == S_STORE && !r.storing && !r.fs.decoding)
  }

  predicate LsBStart(r: Regs) {
    r.state == S_FETCH && !r.fs.decoding && !r.lsB.loading
  }

  predicate LsAStart(r: Regs) {
    r.state == S_LOADB && !r.lsB.loading && !r.lsA.loading
  }

  predicate SsStart(r: Regs) {
    r.state == S_LOADA && !r.lsA.loading && !r.storing
  }

  function NextState(r: Regs): MainState {
    match r.state
    case S_RESET => S_FETCH
    case S_FETCH => if LsBStart(r) then S_LOADB else S_FETCH
    case S_LOADB => if LsAStart(r) then S_LOADA else S_LOADB
    case S_LOADA => if SsStart(r) then S_STORE else S_LOADA
    case S_STORE => if FsStart(r) then S_FETCH else S_STORE
  }

  function RamAddr(r: Regs): Word {
    match NextState(r)
    case S_LOADB => LoadAddr(r.fs.insn.bSrc, r.sp, 0)
    case S_LOADA => LoadAddr(r.fs.insn.aSrc, r.sp, r.lsB.data)
    case S_STORE => SaveAddr(r.fs.insn.dst, r.sp, r.lsB.data)
    case _ => 0
  }

  /** The data bus: the output register or the RAM, by the address now on the bus. */
  function MemData(r: Regs): Word {
    if I.IsPort(RamAddr(r)) then r.out1 else r.ramQ
  }

  function AluResult(z: I.ByZero, r: Regs): Word {
    I.Alu(z, r.fs.insn.op, r.lsA.data, r.lsB.data)
  }

  predicate RamWe(r: Regs) {
    r.storing && (r.fs.insn.dst == 1 || r.fs.insn.dst == 2)
  }

  predicate SpIncr(r: Regs) {
    r.storing && r.fs.insn.dst == 1
  }

  predicate SpDecr(r: Regs) {
    match r.state
    case S_LOADB => r.lsB.loading && r.fs.insn.bSrc == 2
    case S_LOADA => r.lsA.loading && r.fs.insn.aSrc == 2
    case _ => false
  }

  predicate PcIncr(r: Regs) {
    r.fs.decoding
  }

  predicate PcWe(r: Regs) {
    r.storing && r.fs.insn.dst == 3 && r.lsA.data % 2 == 1
  }

  // ----- the clock edge -----

  function NextSp(r: Regs): Word {
    if SpIncr(r) && !SpDecr(r) then Wrap(r.sp + 1)
    else if SpDecr(r) && !SpIncr(r) then Wrap(r.sp + 0xFFFF_FFFF)
    else r.sp
  }

  function NextPc(r: Regs): Word {
    if PcWe(r) then r.lsB.data else if PcIncr(r) then Wrap(r.pc + 1) else r.pc
  }

  function NextFetch(r: Regs): Fetch {
    if r.fs.decoding then Fetch(false, I.Decode(r.romQ)) else Fetch(FsStart(r), r.fs.insn)
  }

  function NextLoadB(r: Regs): Load {
    Load(!r.lsB.loading && LsBStart(r), NextData(r.lsB, r.fs.insn.bSrc, r.fs.insn.imm, MemData(r)))
  }

  function NextLoadA(r: Regs): Load {
    Load(!r.lsA.loading && LsAStart(r), NextData(r.lsA, r.fs.insn.aSrc, r.fs.insn.imm, MemData(r)))
  }

  function NextRam(z: I.ByZero, r: Regs): I.Ram {
    if RamWe(r) && !I.IsPort(RamAddr(r)) then r.ram[RamAddr(r) % I.RAM_SIZE := AluResult(z, r)] else r.ram
  }

  function NextOut1(z: I.ByZero, r: Regs): Word {
    if RamWe(r) && I.IsPort(RamAddr(r)) then AluResult(z, r) else r.out1
  }

  /** All registers at once; a read in the cycle of a write to the same address sees the new data. */
  function Clock(rom: I.Rom, z: I.ByZero, r: Regs): Regs {
    Regs(NextState(r), NextPc(r), NextSp(r), NextFetch(r), NextLoadB(r), NextLoadA(r),
         !r.storing && SsStart(r),
         rom[r.pc % I.ROM_SIZE],
         NextRam(z, r), NextRam(z, r)[RamAddr(r) % I.RAM_SIZE], NextOut1(z, r))
  }

  function Clocks(rom: I.Rom, z: I.ByZero, n: nat, r: Regs): Regs
    decreases n
  {
    if n == 0 then r else Clocks(rom, z, n - 1, Clock(rom, z, r))
  }

  /** After reset; the memories and their read ports hold whatever they held. */
  function Reset(ram: I.Ram, romQ: Word, ramQ: Word): Regs {
    Regs(S_RESET, 0, 0, Fetch(false, I.Insn(0, 0, 0, 0, 0)), Load(false, 0), Load(false, 0), false, romQ, ram, ramQ, 0)
  }

  /** What the programmer sees. */
  function View(r: Regs): I.State {
    I.State(r.pc, r.sp, r.ram, r.out1)
  }
}
