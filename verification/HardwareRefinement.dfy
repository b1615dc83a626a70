/**
 The clocked processor refines the instruction-level machine: on every clock, whatever the
 debugger requests, it is at a definite point within the next instruction.
 */
module HardwareRefinement {
  import opened Words
  import opened Assembler
  import opened Hardware
  import M = Machine

  /** The instruction the machine `m` executes next, with its operands and the states between its phases. */
  function Fetched(c: M.Chip, m: M.State): Insn {
    Decode(M.FetchWord(c, m.pc))
  }

  function Advanced(m: M.State): M.State {
    m.(pc := Wrap(m.pc + 1))
  }

  function OperandB(c: M.Chip, m: M.State): Word {
    M.Operand(Advanced(m), Fetched(c, m), Fetched(c, m).bSrc, 0)
  }

  function PoppedB(c: M.Chip, m: M.State): M.State {
    M.Pop(Advanced(m), Fetched(c, m).bSrc)
  }

  function OperandA(c: M.Chip, m: M.State): Word {
    M.Operand(PoppedB(c, m), Fetched(c, m), Fetched(c, m).aSrc, OperandB(c, m))
  }

  function PoppedA(c: M.Chip, m: M.State): M.State {
    M.Pop(PoppedB(c, m), Fetched(c, m).aSrc)
  }

  function Result(c: M.Chip, m: M.State): Word {
    M.Alu(c.z, Fetched(c, m).op, OperandA(c, m), OperandB(c, m))
  }

  /** After the first clock of the store: memory and output are written, the registers not yet. */
  function Written(c: M.Chip, m: M.State): M.State {
    match Fetched(c, m).dst
    case STDST_STACK => M.Write(PoppedA(c, m), PoppedA(c, m).sp, Result(c, m))
    case STDST_MEM => M.Write(PoppedA(c, m), OperandB(c, m), Result(c, m))
    case _ => PoppedA(c, m)
  }

  lemma StepByPhases(c: M.Chip, m: M.State)
    ensures M.Step(c, m) == M.Store(PoppedA(c, m), Fetched(c, m).dst, OperandA(c, m), OperandB(c, m), Result(c, m))
  {
  }

  /** Where within the instruction that follows `m` the design is. */
  predicate During(c: M.Chip, r: Regs, m: M.State) {
    && (r.ramAck ==> r.state == S_LOAD_B || r.state == S_LOAD_A || r.state == S_STORE)
    && (r.romWait ==> r.state == S_FETCH)
    && match r.state
       case S_HALT => View(r) == m
       case S_FETCH => View(r) == m && (r.romWait ==> r.romQ == M.FetchWord(c, m.pc))
       case S_LOAD_B =>
         && View(r) == Advanced(m) && r.insn == Fetched(c, m)
         && (r.ramAck ==> r.ramQ == r.ram[LoadAddr(r.insn.bSrc, r.sp, 0) % M.RAM_WORDS])
       case S_LOAD_A =>
         && View(r) == PoppedB(c, m) && r.insn == Fetched(c, m) && r.b == OperandB(c, m)
         && (r.ramAck ==> r.ramQ == r.ram[LoadAddr(r.insn.aSrc, r.sp, r.b) % M.RAM_WORDS])
       case S_STORE =>
         && r.insn == Fetched(c, m) && r.b == OperandB(c, m) && r.a == OperandA(c, m)
         && View(r) == if r.ramAck then Written(c, m) else PoppedA(c, m)
  }

  /** What the operand selector yields once the memory has been read. */
  lemma Selected(r: Regs, i: Inputs, src: OperandSource, memAddr: Word)
    requires RamAddr(r, i) == LoadAddr(src, r.sp, memAddr)
    requires r.ramQ == r.ram[LoadAddr(src, r.sp, memAddr) % M.RAM_WORDS]
    ensures SelectOperand(r, i, src) == M.Operand(View(r), r.insn, src, memAddr)
  {
  }

  lemma FetchClock(c: M.Chip, r: Regs, i: Inputs, m: M.State)
    requires During(c, r, m) && (r.state == S_HALT || r.state == S_FETCH)
    ensures During(c, Clock(c, r, i), m) && !EnableStore(r)
  {
    hide M.Alu, Decode, M.FetchWord;
  }

  lemma LoadBClock(c: M.Chip, r: Regs, i: Inputs, m: M.State)
    requires During(c, r, m) && r.state == S_LOAD_B
    ensures During(c, Clock(c, r, i), m) && !EnableStore(r)
  {
    hide M.Alu, Decode, M.FetchWord;
    if r.ramAck {
      Selected(r, i, r.insn.bSrc, 0);
      hide M.Operand, SelectOperand;
    }
  }

  lemma LoadAClock(c: M.Chip, r: Regs, i: Inputs, m: M.State)
    requires During(c, r, m) && r.state == S_LOAD_A
    ensures During(c, Clock(c, r, i), m) && !EnableStore(r)
  {
    hide M.Alu, Decode, M.FetchWord;
    if r.ramAck {
      Selected(r, i, r.insn.aSrc, r.b);
      hide M.Operand, SelectOperand;
    }
  }

  lemma StoreClock(c: M.Chip, r: Regs, i: Inputs, m: M.State)
    requires During(c, r, m) && r.state == S_STORE
    ensures During(c, Clock(c, r, i), if EnableStore(r) then M.Step(c, m) else m)
  {
    hide M.Alu, Decode, M.FetchWord, M.Operand;
    StepByPhases(c, m);
    hide M.Step;
  }

  /** One clock stays within the instruction, or completes it. */
  lemma OneClock(c: M.Chip, r: Regs, i: Inputs, m: M.State)
    requires During(c, r, m)
    ensures During(c, Clock(c, r, i), if EnableStore(r) then M.Step(c, m) else m)
    ensures Clock(c, r, i).retired == if EnableStore(r) then r.retired + 1 else r.retired
  {
    match r.state
    case S_LOAD_B => LoadBClock(c, r, i, m);
    case S_LOAD_A => LoadAClock(c, r, i, m);
    case S_STORE => StoreClock(c, r, i, m);
    case _ => FetchClock(c, r, i, m);
  }

  // ----- whole runs -----

  /** Whatever the debugger requests, the design shows the state after the instructions completed so far. */
  lemma {:induction false} EveryClock(c: M.Chip, r: Regs, ins: seq<Inputs>, m: M.State)
    requires During(c, r, m)
    ensures var r' := Clocks(c, r, ins);
            r'.retired >= r.retired && During(c, r', M.Run(c, r'.retired - r.retired, m))
    decreases |ins|
  {
    hide Clock, During, EnableStore, M.Step;
    if ins == [] {
      assert M.Run(c, 0, m) == m;
    } else {
      OneClock(c, r, ins[0], m);
      var next := if EnableStore(r) then M.Step(c, m) else m;
      EveryClock(c, Clock(c, r, ins[0]), ins[1..], next);
    }
  }

  /** How many clocks of the current instruction have passed. */
  function Phase(r: Regs): nat {
    match r.state
    case S_HALT => 0
    case S_FETCH => if r.romWait then 1 else 0
    case S_LOAD_B => if r.ramAck then 3 else 2
    case S_LOAD_A => if r.ramAck then 5 else 4
    case S_STORE => if r.ramAck then 7 else 6
  }

  /** Neither halted nor about to be. */
  predicate Undisturbed(ins: seq<Inputs>) {
    forall k :: 0 <= k < |ins| ==> !ins[k].haltReq
  }

  lemma OneTick(c: M.Chip, r: Regs, i: Inputs, m: M.State)
    requires During(c, r, m) && r.state != S_HALT && !i.haltReq
    ensures var r' := Clock(c, r, i);
            r'.state != S_HALT && 8 * r'.retired + Phase(r') == 8 * r.retired + Phase(r) + 1
  {
    hide M.Alu, Decode, M.FetchWord, View, NextRam, SelectOperand, RamAddr, NextPc, NextSp, AluResult, FpWrite, PcWrite;
  }

  /** An undisturbed run completes an instruction every eight clocks. */
  lemma {:induction false} EveryEightClocks(c: M.Chip, r: Regs, ins: seq<Inputs>, m: M.State)
    requires During(c, r, m) && r.state != S_HALT && Undisturbed(ins)
    ensures var r' := Clocks(c, r, ins);
            r'.state != S_HALT && 8 * r'.retired + Phase(r') == 8 * r.retired + Phase(r) + |ins|
    decreases |ins|
  {
    hide Clock, During, EnableStore, M.Step, Phase;
    if ins != [] {
      OneTick(c, r, ins[0], m);
      OneClock(c, r, ins[0], m);
      EveryEightClocks(c, Clock(c, r, ins[0]), ins[1..], if EnableStore(r) then M.Step(c, m) else m);
    }
  }

  lemma AfterReset(c: M.Chip, ram: M.Ram, romQ: Word, ramQ: Word)
    ensures During(c, Reset(ram, romQ, ramQ), M.Reset(ram)) && Reset(ram, romQ, ramQ).retired == 0
  {
  }

  lemma AtBoundary(c: M.Chip, r: Regs, m: M.State)
    requires During(c, r, m) && Phase(r) == 0
    ensures View(r) == m
  {
    hide M.Alu, Decode, M.FetchWord, M.Operand;
  }

  lemma Resumed(c: M.Chip, r: Regs, i: Inputs)
    requires r.state == S_HALT && i.resumeReq
    ensures var r' := Clock(c, r, i); r'.state == S_FETCH && Phase(r') == 0 && r'.retired == r.retired
  {
    hide M.Alu, Decode, M.FetchWord, View, NextRam, SelectOperand, RamAddr, NextPc, NextSp, AluResult, FpWrite, PcWrite;
  }

  /**
   The clocked design refines the instruction set: resumed on the first clock after reset and
   not halted again, it shows the state after n instructions on clock 1 + 8n.
   */
  lemma Refinement(c: M.Chip, ram: M.Ram, romQ: Word, ramQ: Word, ins: seq<Inputs>, n: nat)
    requires |ins| == 1 + 8 * n && ins[0].resumeReq && Undisturbed(ins)
    ensures var r := Clocks(c, Reset(ram, romQ, ramQ), ins);
            r.retired == n && View(r) == M.Run(c, n, M.Reset(ram))
  {
    hide During, Clock, M.Run, Phase, View;
    var r0 := Reset(ram, romQ, ramQ);
    AfterReset(c, ram, romQ, ramQ);
    EveryClock(c, r0, ins, M.Reset(ram));
    var r1 := Clock(c, r0, ins[0]);
    Resumed(c, r0, ins[0]);
    OneClock(c, r0, ins[0], M.Reset(ram));
    EveryEightClocks(c, r1, ins[1..], M.Reset(ram));
    PhaseBelow8(Clocks(c, r0, ins));
    AtBoundary(c, Clocks(c, r0, ins), M.Run(c, n, M.Reset(ram)));
  }

  lemma PhaseBelow8(r: Regs)
    ensures Phase(r) < 8
  {}

  /** What has been output is what the completed instructions printed, or that and the current one. */
  lemma LogOf(c: M.Chip, r: Regs, m: M.State)
    requires During(c, r, m)
    ensures r.log == m.printed || r.log == M.Step(c, m).printed
  {
    StepByPhases(c, m);
    hide M.Alu, Decode, M.FetchWord, M.Operand, M.Step;
  }
}
