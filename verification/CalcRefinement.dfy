/** The clocked Calc processor executes one instruction every eight clocks. */
module CalcRefinement {
  import opened Words
  import opened CalcClock
  import I = CalcIsa

  /** Between two instructions: the fetch stage is decoding the word at the program counter. */
  predicate Boundary(rom: I.Rom, r: Regs) {
    && r.state == S_FETCH && r.fs.decoding && !r.lsB.loading && !r.lsA.loading && !r.storing
    && r.romQ == rom[r.pc % I.ROM_SIZE]
  }

  lemma BoundaryParts(rom: I.Rom, r: Regs)
    requires Boundary(rom, r)
    ensures r.state == S_FETCH && r.fs.decoding && r.romQ == rom[r.pc % I.ROM_SIZE]
  {}

  /** Decoding: two clocks to the start of operand B. */
  lemma FetchPhase(rom: I.Rom, z: I.ByZero, r: Regs)
    requires Boundary(rom, r)
    ensures var r' := Clocks(rom, z, 2, r);
            && r'.state == S_LOADB && r'.lsB.loading && !r'.lsA.loading && !r'.storing
            && r'.fs == Fetch(false, I.Decode(rom[r.pc % I.ROM_SIZE]))
            && View(r') == View(r).(pc := Wrap(r.pc + 1))
            && r'.ramQ == r'.ram[LoadAddr(r'.fs.insn.bSrc, r'.sp, 0) % I.RAM_SIZE]
  {
    hide I.Decode, I.Alu;
    var r1 := Clock(rom, z, r);
    assert r1.fs == Fetch(false, I.Decode(rom[r.pc % I.ROM_SIZE]));
    var r2 := Clock(rom, z, r1);
    assert Clocks(rom, z, 2, r) == Clocks(rom, z, 1, r1) == r2;
  }

  /** What the load stage puts on its output is the operand. */
  lemma LoadedData(r: Regs, src: nat, imm: Word, memAddr: Word)
    requires RamAddr(r) == LoadAddr(src, r.sp, memAddr)
    requires r.ramQ == r.ram[LoadAddr(src, r.sp, memAddr) % I.RAM_SIZE]
    requires src < 4
    ensures NextData(Load(true, 0), src, imm, MemData(r)) == I.Operand(View(r), src, imm, memAddr)
  {
  }

  /** Operand B: two clocks to the start of operand A. */
  lemma LoadBPhase(rom: I.Rom, z: I.ByZero, r: Regs)
    requires r.state == S_LOADB && r.lsB.loading && !r.lsA.loading && !r.storing && !r.fs.decoding
    requires r.fs.insn.bSrc < 4 && r.ramQ == r.ram[LoadAddr(r.fs.insn.bSrc, r.sp, 0) % I.RAM_SIZE]
    ensures var r' := Clocks(rom, z, 2, r);
            && r'.state == S_LOADA && !r'.lsB.loading && r'.lsA.loading && !r'.storing && r'.fs == r.fs
            && r'.lsB.data == I.Operand(View(r), r.fs.insn.bSrc, r.fs.insn.imm, 0)
            && View(r') == I.Popped(View(r), r.fs.insn.bSrc)
            && r'.ramQ == r'.ram[LoadAddr(r'.fs.insn.aSrc, r'.sp, r'.lsB.data) % I.RAM_SIZE]
  {
    hide I.Alu;
    LoadedData(r, r.fs.insn.bSrc, r.fs.insn.imm, 0);
    hide I.Operand;
    var r1 := Clock(rom, z, r);
    assert r1.lsB == Load(false, I.Operand(View(r), r.fs.insn.bSrc, r.fs.insn.imm, 0));
    assert r1.sp == I.Popped(View(r), r.fs.insn.bSrc).sp;
    var r2 := Clock(rom, z, r1);
    assert Clocks(rom, z, 2, r) == Clocks(rom, z, 1, r1) == r2;
  }

  /** Operand A: two clocks to the start of the store. */
  lemma LoadAPhase(rom: I.Rom, z: I.ByZero, r: Regs)
    requires r.state == S_LOADA && !r.lsB.loading && r.lsA.loading && !r.storing && !r.fs.decoding
    requires r.fs.insn.aSrc < 4 && r.ramQ == r.ram[LoadAddr(r.fs.insn.aSrc, r.sp, r.lsB.data) % I.RAM_SIZE]
    ensures var r' := Clocks(rom, z, 2, r);
            && r'.state == S_STORE && !r'.lsB.loading && !r'.lsA.loading && r'.storing && r'.fs == r.fs
            && r'.lsB.data == r.lsB.data
            && r'.lsA.data == I.Operand(View(r), r.fs.insn.aSrc, r.fs.insn.imm, r.lsB.data)
            && View(r') == I.Popped(View(r), r.fs.insn.aSrc)
  {
    hide I.Alu;
    LoadedData(r, r.fs.insn.aSrc, r.fs.insn.imm, r.lsB.data);
    hide I.Operand;
    var r1 := Clock(rom, z, r);
    assert r1.lsA == Load(false, I.Operand(View(r), r.fs.insn.aSrc, r.fs.insn.imm, r.lsB.data));
    assert r1.sp == I.Popped(View(r), r.fs.insn.aSrc).sp;
    var r2 := Clock(rom, z, r1);
    assert Clocks(rom, z, 2, r) == Clocks(rom, z, 1, r1) == r2;
  }

  /** The store: two clocks to the next instruction. */
  lemma StorePhase(rom: I.Rom, z: I.ByZero, r: Regs)
    requires r.state == S_STORE && !r.lsB.loading && !r.lsA.loading && r.storing && !r.fs.decoding && r.fs.insn.dst < 4
    ensures var r' := Clocks(rom, z, 2, r);
            && Boundary(rom, r')
            && View(r') == I.Save(View(r), r.fs.insn.dst, r.lsA.data, r.lsB.data,
                                  I.Alu(z, r.fs.insn.op, r.lsA.data, r.lsB.data))
  {
    hide I.Alu;
    var r1 := Clock(rom, z, r);
    assert View(r1) == I.Save(View(r), r.fs.insn.dst, r.lsA.data, r.lsB.data,
                              I.Alu(z, r.fs.insn.op, r.lsA.data, r.lsB.data));
    var r2 := Clock(rom, z, r1);
    assert Clocks(rom, z, 2, r) == Clocks(rom, z, 1, r1) == r2;
  }

  lemma {:induction false} ClocksAdd(rom: I.Rom, z: I.ByZero, m: nat, n: nat, r: Regs)
    ensures Clocks(rom, z, m + n, r) == Clocks(rom, z, n, Clocks(rom, z, m, r))
    decreases m
  {
    hide Clock;
    if m > 0 {
      ClocksAdd(rom, z, m - 1, n, Clock(rom, z, r));
    }
  }

  lemma DecodeFields(w: Word)
    ensures var i := I.Decode(w); i.aSrc < 4 && i.bSrc < 4 && i.dst < 4 && i.op < 16
  {
  }

  /** Eight clocks are one instruction. */
  lemma OneInstruction(rom: I.Rom, z: I.ByZero, r: Regs)
    requires Boundary(rom, r)
    ensures Boundary(rom, Clocks(rom, z, 8, r))
    ensures View(Clocks(rom, z, 8, r)) == I.Step(rom, z, View(r))
  {
    hide I.Decode, I.Alu, I.Operand, I.Popped, I.Save, Clock, Clocks, LoadAddr, Boundary;
    BoundaryParts(rom, r);
    DecodeFields(rom[r.pc % I.ROM_SIZE]);
    FetchPhase(rom, z, r);
    var r2 := Clocks(rom, z, 2, r);
    LoadBPhase(rom, z, r2);
    var r4 := Clocks(rom, z, 2, r2);
    LoadAPhase(rom, z, r4);
    var r6 := Clocks(rom, z, 2, r4);
    StorePhase(rom, z, r6);
    ClocksAdd(rom, z, 2, 2, r);
    ClocksAdd(rom, z, 4, 2, r);
    ClocksAdd(rom, z, 6, 2, r);
  }

  lemma {:induction false} Instructions(rom: I.Rom, z: I.ByZero, n: nat, r: Regs)
    requires Boundary(rom, r)
    ensures Boundary(rom, Clocks(rom, z, 8 * n, r))
    ensures View(Clocks(rom, z, 8 * n, r)) == I.Steps(rom, z, n, View(r))
    decreases n
  {
    hide I.Step, Clock, Boundary;
    if n > 0 {
      hide Clocks;
      OneInstruction(rom, z, r);
      Instructions(rom, z, n - 1, Clocks(rom, z, 8, r));
      ClocksAdd(rom, z, 8, 8 * (n - 1), r);
      assert 8 + 8 * (n - 1) == 8 * n;
    }
  }

  /**
   The clocked design refines the instruction set: 1 + 8n clocks after reset, whatever the
   program and the initial memory, it shows the state after n instructions.
   */
  lemma Refinement(rom: I.Rom, z: I.ByZero, ram: I.Ram, romQ: Word, ramQ: Word, n: nat)
    ensures View(Clocks(rom, z, 1 + 8 * n, Reset(ram, romQ, ramQ))) == I.Steps(rom, z, n, I.State(0, 0, ram, 0))
  {
    var r0 := Reset(ram, romQ, ramQ);
    var r1 := Clock(rom, z, r0);
    assert Boundary(rom, r1) && View(r1) == I.State(0, 0, ram, 0);
    assert Clocks(rom, z, 1, r0) == r1;
    hide Clock, Clocks, I.Steps, Boundary;
    Instructions(rom, z, n, r1);
    ClocksAdd(rom, z, 1, 8 * n, r0);
  }

  // ----- what holds on every clock -----

  /** A stage is busy only while the main state machine names it. */
  predicate OneBusy(r: Regs) {
    && (r.fs.decoding ==> r.state == S_FETCH)
    && (r.lsB.loading ==> r.state == S_LOADB)
    && (r.lsA.loading ==> r.state == S_LOADA)
    && (r.storing ==> r.state == S_STORE)
  }

  lemma ClockOneBusy(rom: I.Rom, z: I.ByZero, r: Regs)
    requires OneBusy(r)
    ensures OneBusy(Clock(rom, z, r))
  {
    hide I.Alu, I.Decode, NextRam, NextOut1, NextSp, NextPc, MemData, RamAddr;
  }

  /**
   Safety on every clock of every run: at most one stage is busy, the stack pointer is never
   moved both ways, and memory, output, and the program counter's jump are written only
   while storing.
   */
  lemma {:induction false} EveryClock(rom: I.Rom, z: I.ByZero, ram: I.Ram, romQ: Word, ramQ: Word, n: nat)
    ensures var r := Clocks(rom, z, n, Reset(ram, romQ, ramQ));
            var r' := Clock(rom, z, r);
            && OneBusy(r)
            && !(SpIncr(r) && SpDecr(r))
            && (RamWe(r) || PcWe(r) ==> r.state == S_STORE)
            && (r.state != S_STORE ==> r'.ram == r.ram && r'.out1 == r.out1)
            && (r'.pc != r.pc ==> r.state == S_FETCH || r.state == S_STORE)
  {
    var r0 := Reset(ram, romQ, ramQ);
    BusyAfter(rom, z, n, r0);
    var r := Clocks(rom, z, n, r0);
    hide I.Alu, I.Decode, Clocks, MemData, RamAddr, NextSp;
  }

  lemma {:induction false} BusyAfter(rom: I.Rom, z: I.ByZero, n: nat, r: Regs)
    requires OneBusy(r)
    ensures OneBusy(Clocks(rom, z, n, r))
    decreases n
  {
    hide Clock, OneBusy;
    if n > 0 {
      ClockOneBusy(rom, z, r);
      BusyAfter(rom, z, n - 1, Clock(rom, z, r));
    }
  }
}
