/** The effect of each instruction the compiler emits, read off the processor's one-step semantics. */
module Instructions {
  import opened Words
  import opened Assembler
  import opened Machine

  /** The instruction at the program counter is `w`. */
  predicate At(c: Chip, m: State, w: Word) {
    |c.rom| <= ROM_WORDS && m.pc < |c.rom| && c.rom[m.pc] == w
  }

  lemma StepAt(c: Chip, m: State, w: Word)
    requires At(c, m, w)
    ensures Step(c, m) == Execute(c.z, Decode(w), m.(pc := m.pc + 1))
  {
    hide Execute, Decode;
    assert m.pc % ROM_WORDS == m.pc;
  }

  /** Executes a decoded instruction whose word was packed by the assembler. */
  lemma StepPack(c: Chip, m: State, mode: Mode, op: AluOp, imm: int)
    requires FitsImmediate(imm) && At(c, m, Pack(mode, op, imm))
    ensures var (a, b, d) := Meaning(mode);
            Step(c, m) == Execute(c.z, Insn(Wrap(imm), a, b, d, op), m.(pc := m.pc + 1))
  {
    hide Execute, Decode, Meaning, Pack;
    StepAt(c, m, Pack(mode, op, imm));
    DecodePack(mode, op, imm);
  }

  // ----- operands, results -----

  lemma StackOperand(m: State, i: Insn, b: Word)
    requires 1 <= m.sp < RAM_WORDS
    ensures Operand(m, i, OPSRC_STACK, b) == m.ram[m.sp - 1]
    ensures Pop(m, OPSRC_STACK) == m.(sp := m.sp - 1)
  {
  }

  lemma OtherOperand(m: State, i: Insn, b: Word)
    ensures Operand(m, i, OPSRC_IMM, b) == i.imm && Pop(m, OPSRC_IMM) == m
    ensures Operand(m, i, OPSRC_FP, b) == m.fp && Pop(m, OPSRC_FP) == m
    ensures Operand(m, i, OPSRC_FP_IMM, b) == Wrap(m.fp + i.imm) && Pop(m, OPSRC_FP_IMM) == m
    ensures Operand(m, i, OPSRC_PPC, b) == m.ppc && Pop(m, OPSRC_PPC) == m
    ensures Pop(m, OPSRC_ADDR) == m
    ensures b < RAM_WORDS ==> Operand(m, i, OPSRC_ADDR, b) == m.ram[b]
  {
  }

  lemma StoreStack(m: State, a: Word, b: Word, r: Word)
    requires m.sp < RAM_WORDS - 1
    ensures Store(m, STDST_STACK, a, b, r) == m.(sp := m.sp + 1, ram := m.ram[m.sp := r])
  {
  }

  lemma StoreMem(m: State, a: Word, b: Word, r: Word)
    requires b < RAM_WORDS
    ensures Store(m, STDST_MEM, a, b, r) == m.(ram := m.ram[b := r])
  {
  }

  /** `Execute`, one phase at a time. */
  lemma Phases(z: ByZero, i: Insn, m: State, b: Word, m1: State, a: Word, m2: State)
    requires b == Operand(m, i, i.bSrc, 0) && m1 == Pop(m, i.bSrc)
    requires a == Operand(m1, i, i.aSrc, b) && m2 == Pop(m1, i.aSrc)
    ensures Execute(z, i, m) == Store(m2, i.dst, a, b, Alu(z, i.op, a, b))
  {
    hide Operand, Pop, Store, Alu;
  }

  lemma PassA(z: ByZero, a: Word, b: Word)
    ensures Alu(z, A, a, b) == a
  {
  }

  // ----- the instructions -----

  lemma StepConst(c: Chip, m: State, v: Word)
    requires At(c, m, v) && FitsConstant(v) && m.sp < RAM_WORDS - 1
    ensures Step(c, m) == m.(pc := m.pc + 1, sp := m.sp + 1, ram := m.ram[m.sp := v])
  {
    hide Execute, Operand, Pop, Store, Alu;
    StepAt(c, m, v);
    var m1, i := m.(pc := m.pc + 1), Insn(v, OPSRC_IMM, OPSRC_IMM, STDST_STACK, A);
    assert Decode(v) == i;
    OtherOperand(m1, i, 0);
    OtherOperand(m1, i, v);
    Phases(c.z, i, m1, v, m1, v, m1);
    PassA(c.z, v, v);
    StoreStack(m1, v, v, v);
  }

  lemma StepLoad(c: Chip, m: State)
    requires At(c, m, LMEM) && 1 <= m.sp < RAM_WORDS && m.ram[m.sp - 1] < RAM_WORDS
    ensures Step(c, m) == m.(pc := m.pc + 1, ram := m.ram[m.sp - 1 := m.ram[m.ram[m.sp - 1]]])
  {
    hide Execute, Operand, Pop, Store, Alu, Decode, Pack, Step;
    StepPack(c, m, MEM_STACK_STACK, A, 0);
    var m1, i := m.(pc := m.pc + 1), Insn(0, OPSRC_ADDR, OPSRC_STACK, STDST_STACK, A);
    var b, m2 := m.ram[m.sp - 1], m1.(sp := m.sp - 1);
    StackOperand(m1, i, 0);
    OtherOperand(m2, i, b);
    Phases(c.z, i, m1, b, m2, m.ram[b], m2);
    PassA(c.z, m.ram[b], b);
    StoreStack(m2, m.ram[b], b, m.ram[b]);
  }

  /** The common part of storing to memory and to the port: both operands are popped. */
  lemma StepStore(c: Chip, m: State)
    requires At(c, m, STMEM) && 2 <= m.sp < RAM_WORDS
    ensures var b, a := m.ram[m.sp - 1], m.ram[m.sp - 2];
            Step(c, m) == Store(m.(pc := m.pc + 1, sp := m.sp - 2), STDST_MEM, a, b, a)
  {
    hide Execute, Operand, Pop, Store, Alu, Decode, Pack, Step;
    StepPack(c, m, STACK_STACK_MEM, A, 0);
    var m1, i := m.(pc := m.pc + 1), Insn(0, OPSRC_STACK, OPSRC_STACK, STDST_MEM, A);
    var b, a, m2 := m.ram[m.sp - 1], m.ram[m.sp - 2], m1.(sp := m.sp - 1);
    StackOperand(m1, i, 0);
    StackOperand(m2, i, b);
    Phases(c.z, i, m1, b, m2, a, m2.(sp := m.sp - 2));
    PassA(c.z, a, b);
  }

  lemma StepSave(c: Chip, m: State)
    requires At(c, m, STMEM) && 2 <= m.sp < RAM_WORDS && m.ram[m.sp - 1] < RAM_WORDS
    ensures Step(c, m) == m.(pc := m.pc + 1, sp := m.sp - 2, ram := m.ram[m.ram[m.sp - 1] := m.ram[m.sp - 2]])
  {
    hide Store, Pack, Step;
    StepStore(c, m);
    var a := m.ram[m.sp - 2];
    StoreMem(m.(pc := m.pc + 1, sp := m.sp - 2), a, m.ram[m.sp - 1], a);
  }

  const PORT: Word := 0x4000_0000

  lemma StepPrint(c: Chip, m: State)
    requires At(c, m, STMEM) && 2 <= m.sp < RAM_WORDS && m.ram[m.sp - 1] == PORT
    ensures Step(c, m) == m.(pc := m.pc + 1, sp := m.sp - 2, port := m.ram[m.sp - 2],
                             printed := m.printed + [m.ram[m.sp - 2]])
  {
    hide Pack, Step;
    StepStore(c, m);
  }

  lemma FrameAddress(fp: Word, slot: nat)
    requires slot <= fp < RAM_WORDS
    ensures Wrap(fp + Wrap(0 - slot)) == fp - slot
  {
  }

  lemma StepStackLoad(c: Chip, m: State, slot: nat)
    requires FitsImmediate(0 - slot) && At(c, m, Pack(MEM_FPIMM_STACK, A, 0 - slot))
    requires m.sp < RAM_WORDS - 1 && slot <= m.fp < RAM_WORDS
    ensures Step(c, m) == m.(pc := m.pc + 1, sp := m.sp + 1, ram := m.ram[m.sp := m.ram[m.fp - slot]])
  {
    hide Execute, Operand, Pop, Store, Alu, Decode, Pack, Step, Wrap;
    StepPack(c, m, MEM_FPIMM_STACK, A, 0 - slot);
    FrameAddress(m.fp, slot);
    var m1, i := m.(pc := m.pc + 1), Insn(Wrap(0 - slot), OPSRC_ADDR, OPSRC_FP_IMM, STDST_STACK, A);
    var b := m.fp - slot;
    OtherOperand(m1, i, 0);
    OtherOperand(m1, i, b);
    Phases(c.z, i, m1, b, m1, m.ram[b], m1);
    PassA(c.z, m.ram[b], b);
    StoreStack(m1, m.ram[b], b, m.ram[b]);
  }

  lemma StepStackSave(c: Chip, m: State, slot: nat)
    requires FitsImmediate(0 - slot) && At(c, m, Pack(STACK_FPIMM_MEM, A, 0 - slot))
    requires 1 <= m.sp < RAM_WORDS && slot <= m.fp < RAM_WORDS
    ensures Step(c, m) == m.(pc := m.pc + 1, sp := m.sp - 1, ram := m.ram[m.fp - slot := m.ram[m.sp - 1]])
  {
    hide Execute, Operand, Pop, Store, Alu, Decode, Pack, Step, Wrap;
    StepPack(c, m, STACK_FPIMM_MEM, A, 0 - slot);
    FrameAddress(m.fp, slot);
    var m1, i := m.(pc := m.pc + 1), Insn(Wrap(0 - slot), OPSRC_STACK, OPSRC_FP_IMM, STDST_MEM, A);
    var b, a := m.fp - slot, m.ram[m.sp - 1];
    OtherOperand(m1, i, 0);
    StackOperand(m1, i, b);
    Phases(c.z, i, m1, b, m1, a, m1.(sp := m.sp - 1));
    PassA(c.z, a, b);
    StoreMem(m1.(sp := m.sp - 1), a, b, a);
  }

  lemma StepBinary(c: Chip, m: State, op: AluOp)
    requires At(c, m, Binary(op)) && 2 <= m.sp < RAM_WORDS
    ensures Step(c, m) == m.(pc := m.pc + 1, sp := m.sp - 1,
                             ram := m.ram[m.sp - 2 := Alu(c.z, op, m.ram[m.sp - 2], m.ram[m.sp - 1])])
  {
    hide Execute, Operand, Pop, Store, Alu, Decode, Pack, Step;
    StepPack(c, m, STACK_STACK_STACK, op, 0);
    var m1, i := m.(pc := m.pc + 1), Insn(0, OPSRC_STACK, OPSRC_STACK, STDST_STACK, op);
    var b, a, m2 := m.ram[m.sp - 1], m.ram[m.sp - 2], m1.(sp := m.sp - 1);
    StackOperand(m1, i, 0);
    StackOperand(m2, i, b);
    var m3 := m2.(sp := m.sp - 2);
    Phases(c.z, i, m1, b, m2, a, m3);
    StoreStack(m3, a, b, Alu(c.z, op, a, b));
  }

  lemma StepUnary(c: Chip, m: State, op: AluOp)
    requires At(c, m, Unary(op)) && 1 <= m.sp < RAM_WORDS
    ensures Step(c, m) == m.(pc := m.pc + 1, ram := m.ram[m.sp - 1 := Alu(c.z, op, m.ram[m.sp - 1], 0)])
  {
    hide Execute, Operand, Pop, Store, Alu, Decode, Pack, Step;
    StepPack(c, m, STACK_IMM_STACK, op, 0);
    var m1, i := m.(pc := m.pc + 1), Insn(0, OPSRC_STACK, OPSRC_IMM, STDST_STACK, op);
    var a, m2 := m.ram[m.sp - 1], m1.(sp := m.sp - 1);
    OtherOperand(m1, i, 0);
    StackOperand(m1, i, 0);
    Phases(c.z, i, m1, 0, m1, a, m2);
    StoreStack(m2, a, 0, Alu(c.z, op, a, 0));
  }

  lemma StepJump(c: Chip, m: State)
    requires At(c, m, AJMP) && 1 <= m.sp < RAM_WORDS
    ensures Step(c, m) == m.(pc := m.ram[m.sp - 1], ppc := m.pc + 1, sp := m.sp - 1)
  {
    hide Execute, Operand, Pop, Alu, Decode, Pack, Step;
    StepPack(c, m, IMM_STACK_PC, A, 0);
    var m1, i := m.(pc := m.pc + 1), Insn(0, OPSRC_IMM, OPSRC_STACK, STDST_PC, A);
    var b, m2 := m.ram[m.sp - 1], m1.(sp := m.sp - 1);
    StackOperand(m1, i, 0);
    OtherOperand(m2, i, b);
    Phases(c.z, i, m1, b, m2, 0, m2);
  }

  lemma StepJumpZero(c: Chip, m: State)
    requires At(c, m, CJMPZ) && 2 <= m.sp < RAM_WORDS
    ensures Step(c, m) == if m.ram[m.sp - 2] == 0
                          then m.(pc := m.ram[m.sp - 1], ppc := m.pc + 1, sp := m.sp - 2)
                          else m.(pc := m.pc + 1, sp := m.sp - 2)
  {
    hide Execute, Operand, Pop, Alu, Decode, Pack, Step;
    StepPack(c, m, STACK_STACK_PC_Z, A, 0);
    var m1, i := m.(pc := m.pc + 1), Insn(0, OPSRC_STACK, OPSRC_STACK, STDST_PC_Z, A);
    var b, a, m2 := m.ram[m.sp - 1], m.ram[m.sp - 2], m1.(sp := m.sp - 1);
    StackOperand(m1, i, 0);
    StackOperand(m2, i, b);
    Phases(c.z, i, m1, b, m2, a, m2.(sp := m.sp - 2));
  }

  lemma StepPushPpc(c: Chip, m: State)
    requires At(c, m, LPPC) && m.sp < RAM_WORDS - 1
    ensures Step(c, m) == m.(pc := m.pc + 1, sp := m.sp + 1, ram := m.ram[m.sp := m.ppc])
  {
    hide Execute, Operand, Pop, Store, Alu, Decode, Pack, Step;
    StepPack(c, m, PPC_IMM_STACK, A, 0);
    var m1, i := m.(pc := m.pc + 1), Insn(0, OPSRC_PPC, OPSRC_IMM, STDST_STACK, A);
    OtherOperand(m1, i, 0);
    Phases(c.z, i, m1, 0, m1, m.ppc, m1);
    PassA(c.z, m.ppc, 0);
    StoreStack(m1, m.ppc, 0, m.ppc);
  }

  lemma AddDelta(z: ByZero, fp: Word, delta: int)
    requires FitsImmediate(delta) && 0 <= fp + delta < RAM_WORDS
    ensures Alu(z, ADD, fp, Wrap(delta)) == fp + delta
  {
  }

  lemma StepAddFp(c: Chip, m: State, delta: int)
    requires FitsImmediate(delta) && At(c, m, Pack(FP_IMM_FP, ADD, delta))
    requires 0 <= m.fp + delta < RAM_WORDS
    ensures Step(c, m) == m.(pc := m.pc + 1, fp := m.fp + delta)
  {
    hide Execute, Operand, Pop, Alu, Decode, Pack, Step, Wrap;
    StepPack(c, m, FP_IMM_FP, ADD, delta);
    var m1, i := m.(pc := m.pc + 1), Insn(Wrap(delta), OPSRC_FP, OPSRC_IMM, STDST_FP, ADD);
    OtherOperand(m1, i, 0);
    OtherOperand(m1, i, Wrap(delta));
    Phases(c.z, i, m1, Wrap(delta), m1, m.fp, m1);
    AddDelta(c.z, m.fp, delta);
  }

  lemma StepLoadFp(c: Chip, m: State)
    requires At(c, m, LFP) && 1 <= m.sp < RAM_WORDS
    ensures Step(c, m) == m.(pc := m.pc + 1, sp := m.sp - 1, fp := m.ram[m.sp - 1])
  {
    hide Execute, Operand, Pop, Alu, Decode, Pack, Step;
    StepPack(c, m, STACK_IMM_FP, A, 0);
    var m1, i := m.(pc := m.pc + 1), Insn(0, OPSRC_STACK, OPSRC_IMM, STDST_FP, A);
    var a := m.ram[m.sp - 1];
    OtherOperand(m1, i, 0);
    StackOperand(m1, i, 0);
    Phases(c.z, i, m1, 0, m1, a, m1.(sp := m.sp - 1));
    PassA(c.z, a, 0);
  }
}
