/** The Calc design as clocked objects: each module's registers, updated together on every clock. */
module CalcDesign {
  import opened Words
  import opened CalcClock
  import I = CalcIsa

  class StackPointer {
    var sp: Word

    constructor ()
      ensures sp == 0
    {
      sp := 0;
    }

    method Tick(increment: bool, decrement: bool)
      modifies this
      ensures sp == if increment && !decrement then Wrap(old(sp) + 1)
                    else if decrement && !increment then Wrap(old(sp) + 0xFFFF_FFFF)
                    else old(sp)
    {
      if increment && !decrement {
        sp := Wrap(sp + 1);
      } else if !increment && decrement {
        sp := Wrap(sp + 0xFFFF_FFFF);
      }
    }
  }

  class ProgramCounter {
    var q: Word

    constructor ()
      ensures q == 0
    {
      q := 0;
    }

    method Tick(writeData: Word, incrEnable: bool, writeEnable: bool)
      modifies this
      ensures q == if writeEnable then writeData else if incrEnable then Wrap(old(q) + 1) else old(q)
    {
      if writeEnable {
        q := writeData;
      } else if incrEnable {
        q := Wrap(q + 1);
      }
    }
  }

  class FetchStage {
    var decoding: bool
    var insn: I.Insn

    constructor ()
      ensures !decoding && insn == I.Insn(0, 0, 0, 0, 0)
    {
      decoding, insn := false, I.Insn(0, 0, 0, 0, 0);
    }

    method Tick(start: bool, pcMemData: Word)
      modifies this
      ensures decoding == (!old(decoding) && start)
      ensures insn == if old(decoding) then I.Decode(pcMemData) else old(insn)
    {
      if decoding {
        insn := I.Decode(pcMemData);
        decoding := false;
      } else {
        decoding := start;
      }
    }
  }

  class LoadStage {
    var loading: bool
    var data: Word

    constructor ()
      ensures !loading && data == 0
    {
      loading, data := false, 0;
    }

    method Tick(start: bool, src: nat, imm: Word, memData: Word)
      modifies this
      ensures loading == (!old(loading) && start)
      ensures data == NextData(Load(old(loading), old(data)), src, imm, memData)
    {
      if loading {
        match src {
          case 0 => data := 0;
          case 1 => data := imm;
          case _ => data := memData;
        }
        loading := false;
      } else {
        loading := start;
      }
    }
  }

  class SaveStage {
    var storing: bool

    constructor ()
      ensures !storing
    {
      storing := false;
    }

    method Tick(start: bool)
      modifies this
      ensures storing == (!old(storing) && start)
    {
      storing := !storing && start;
    }
  }

  /** The data memory and the output register behind one address. */
  class Mmio {
    const ram: array<Word>
    var ramQ: Word
    var out1: Word

    constructor (ram: array<Word>, ramQ: Word)
      ensures this.ram == ram && this.ramQ == ramQ && out1 == 0
    {
      this.ram, this.ramQ, out1 := ram, ramQ, 0;
    }

    method Tick(address: Word, data: Word, wren: bool)
      requires ram.Length == I.RAM_SIZE
      modifies this, ram
      ensures ram[..] == if wren && !I.IsPort(address) then old(ram[..])[address % I.RAM_SIZE := data] else old(ram[..])
      ensures ramQ == ram[address % I.RAM_SIZE]
      ensures out1 == if wren && I.IsPort(address) then data else old(out1)
    {
      if wren && !I.IsPort(address) {
        ram[address % I.RAM_SIZE] := data;
      }
      ramQ := ram[address % I.RAM_SIZE];
      if wren && I.IsPort(address) {
        out1 := data;
      }
    }
  }

  /** The processor wired to its instruction memory and its data memory. */
  class Processor {
    const rom: I.Rom
    const sp: StackPointer
    const pc: ProgramCounter
    const fs: FetchStage
    const lsB: LoadStage
    const lsA: LoadStage
    const ss: SaveStage
    const memory: Mmio
    var state: MainState
    var romQ: Word

    ghost predicate Valid()
      reads this, memory
    {
      lsB != lsA && memory.ram.Length == I.RAM_SIZE
    }

    /** The values of all registers. */
    function Registers(): Regs
      requires Valid()
      reads this, sp, pc, fs, lsB, lsA, ss, memory, memory.ram
    {
      Regs(state, pc.q, sp.sp, Fetch(fs.decoding, fs.insn), Load(lsB.loading, lsB.data), Load(lsA.loading, lsA.data),
           ss.storing, romQ, memory.ram[..], memory.ramQ, memory.out1)
    }

    /** Reset; the data memory keeps what it holds. */
    constructor (rom: I.Rom, ram: array<Word>, romQ: Word, ramQ: Word)
      requires ram.Length == I.RAM_SIZE
      ensures Valid() && this.rom == rom && memory.ram == ram
      ensures fresh(sp) && fresh(pc) && fresh(fs) && fresh(lsB) && fresh(lsA) && fresh(ss) && fresh(memory)
      ensures Registers() == Reset(ram[..], romQ, ramQ)
    {
      this.rom := rom;
      sp := new StackPointer();
      pc := new ProgramCounter();
      fs := new FetchStage();
      lsB := new LoadStage();
      lsA := new LoadStage();
      ss := new SaveStage();
      memory := new Mmio(ram, ramQ);
      state := S_RESET;
      this.romQ := romQ;
    }

    /** One clock edge: every register takes the value its module's logic computed before the edge. */
    method Tick(z: I.ByZero)
      requires Valid()
      modifies this, sp, pc, fs, lsB, lsA, ss, memory, memory.ram
      ensures Valid() && Registers() == Clock(rom, z, old(Registers()))
    {
      hide I.Alu, I.Decode, NextState, RamAddr, FsStart, LsAStart, LsBStart, SsStart, RamWe, SpIncr, SpDecr,
           PcIncr, PcWe,
        NextData, MemData, I.IsPort, LoadAddr, SaveAddr;
      var r := Registers();
      var memData := MemData(r);
      sp.Tick(SpIncr(r), SpDecr(r));
      pc.Tick(r.lsB.data, PcIncr(r), PcWe(r));
      fs.Tick(FsStart(r), r.romQ);
      lsB.Tick(LsBStart(r), r.fs.insn.bSrc, r.fs.insn.imm, memData);
      lsA.Tick(LsAStart(r), r.fs.insn.aSrc, r.fs.insn.imm, memData);
      ss.Tick(SsStart(r));
      memory.Tick(RamAddr(r), AluResult(z, r), RamWe(r));
      romQ := rom[r.pc % I.ROM_SIZE];
      state := NextState(r);
    }

    method Run(z: I.ByZero, n: nat)
      requires Valid()
      modifies this, sp, pc, fs, lsB, lsA, ss, memory, memory.ram
      ensures Valid() && Registers() == Clocks(rom, z, n, old(Registers()))
    {
      hide Clock;
      for k := 0 to n
        invariant Valid() && Clocks(rom, z, n - k, Registers()) == Clocks(rom, z, n, old(Registers()))
      {
        Tick(z);
      }
    }
  }
}
