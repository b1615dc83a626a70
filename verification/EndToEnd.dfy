/** From the source program to the clocked processor: the two correctness results put together. */
module EndToEnd {
  import opened Words
  import opened Syntax
  import A = Allocator
  import Asm = Assembler
  import C = Compiler
  import H = Hardware
  import K = Correctness
  import M = Machine
  import R = HardwareRefinement
  import S = Semantics

  lemma StepPrints(c: M.Chip, m: M.State)
    ensures m.printed <= M.Step(c, m).printed
  {
    hide M.Alu, M.Operand, Asm.Decode, M.FetchWord;
  }

  lemma {:induction false} RunPrints(c: M.Chip, n: nat, m: M.State)
    ensures m.printed <= M.Run(c, n, m).printed
    decreases n
  {
    hide M.Step;
    if n > 0 {
      StepPrints(c, m);
      RunPrints(c, n - 1, M.Step(c, m));
    }
  }

  /** A longer run has printed at least as much. */
  lemma LaterPrints(c: M.Chip, n: nat, n': nat, m: M.State)
    requires n <= n'
    ensures M.Run(c, n, m).printed <= M.Run(c, n', m).printed
  {
    hide M.Run;
    RunPrints(c, n' - n, M.Run(c, n, m));
    M.RunAdd(c, n, n' - n, m);
  }

  lemma OneMore(c: M.Chip, k: nat, m: M.State)
    ensures M.Run(c, k + 1, m) == M.Step(c, M.Run(c, k, m))
  {
    hide M.Step;
    M.RunAdd(c, k, 1, m);
    assert M.Run(c, 1, M.Run(c, k, m)) == M.Step(c, M.Run(c, k, m));
  }

  /** On any clock the output lies between what the completed instructions and the next one have printed. */
  lemma Output(c: M.Chip, ram: M.Ram, romQ: Word, ramQ: Word, ins: seq<H.Inputs>)
    ensures var r := H.Clocks(c, H.Reset(ram, romQ, ramQ), ins);
            || r.log == M.Run(c, r.retired, M.Reset(ram)).printed
            || r.log == M.Run(c, r.retired + 1, M.Reset(ram)).printed
  {
    hide *;
    var r := H.Clocks(c, H.Reset(ram, romQ, ramQ), ins);
    R.AfterReset(c, ram, romQ, ramQ);
    R.EveryClock(c, H.Reset(ram, romQ, ramQ), ins, M.Reset(ram));
    R.LogOf(c, r, M.Run(c, r.retired, M.Reset(ram)));
    OneMore(c, r.retired, M.Reset(ram));
  }

  /** Once the machine has finished, every later state shows the same output and globals. */
  lemma LaterShows(p: Program, order: A.HashOrder, rom: seq<Word>, z: M.ByZero, ram: M.Ram, store: S.Store, n: nat,
                   n': nat)
    requires A.IsHashOrder(order) && C.Compiles(p, order, rom) && |rom| <= M.ROM_WORDS && n <= n'
    requires C.CompileProg(p, order).Ok? && K.Finished(p, order, store, M.Run(M.Chip(rom, z), n, M.Reset(ram)))
    ensures K.Shows(p, order, store, M.Run(M.Chip(rom, z), n', M.Reset(ram)))
    ensures M.Run(M.Chip(rom, z), n', M.Reset(ram)).printed == store.printed
  {
    hide *;
    var c, m := M.Chip(rom, z), M.Reset(ram);
    K.FinishedShows(p, order, rom, z, store, M.Run(c, n, m), n' - n);
    M.RunAdd(c, n, n' - n, m);
    SameOutput(p, order, store, M.Run(c, n', m));
  }

  lemma SameOutput(p: Program, order: A.HashOrder, store: S.Store, m: M.State)
    requires C.CompileProg(p, order).Ok? && K.Shows(p, order, store, m)
    ensures m.printed == store.printed
  {
    hide C.CompileProg, K.StillRunning;
  }

  /**
   Safety, on every clock and whatever the debugger requests: all that the processor has
   output so far is what the source program prints first.
   */
  lemma OutputIsPrefix(p: Program, order: A.HashOrder, rom: seq<Word>, z: M.ByZero, ram: M.Ram, romQ: Word, ramQ: Word,
                       ins: seq<H.Inputs>, depth: nat, need: nat, maxFrame: nat)
    requires A.IsHashOrder(order) && C.Compiles(p, order, rom) && K.Fits(p, order, rom, depth, need, maxFrame)
    ensures var r := H.Clocks(M.Chip(rom, z), H.Reset(ram, romQ, ramQ), ins);
            match S.RunProgram(S.World(p, z, S.Emitted), r.retired + 1, depth)
            case Done(s, _) => r.log <= s.printed
            case Timeout(at, place, calls) => r.log <= at.printed
            case _ => true
  {
    hide *;
    K.CompilesOk(p, order, rom);
    K.FitsFacts(p, order, rom, z, depth, need, maxFrame);
    var c, m := M.Chip(rom, z), M.Reset(ram);
    var r := H.Clocks(c, H.Reset(ram, romQ, ramQ), ins);
    var k := r.retired;
    Output(c, ram, romQ, ramQ, ins);
    LaterPrints(c, k, k + 1, m);
    var n := K.ProgramOutcome(p, order, rom, z, ram, k + 1, depth, need, maxFrame);
    match S.RunProgram(S.World(p, z, S.Emitted), k + 1, depth)
    case Done(s, _) =>
      K.FinishedHalted(p, order, s, M.Run(c, n, m));
      if n <= k + 1 {
        LaterShows(p, order, rom, z, ram, s, n, k + 1);
      } else {
        LaterPrints(c, k + 1, n, m);
      }
    case Timeout(at, place, calls) =>
      K.FitsCompile(p, order, rom, depth, need, maxFrame);
      K.StillGoing(p, order, rom, z, need, maxFrame, at, calls, M.Run(c, n, m));
      LaterPrints(c, k + 1, n, m);
    case _ =>
  }

  /**
   Liveness, whatever the debugger requests: a source program that terminates makes the
   processor output exactly what it prints as soon as a certain number of instructions is
   completed, and forever; and between any two later instructions its globals are in memory.
   */
  lemma ProcessorComputes(p: Program, order: A.HashOrder, rom: seq<Word>, z: M.ByZero, ram: M.Ram, romQ: Word,
                          ramQ: Word, fuel: nat, depth: nat, need: nat, maxFrame: nat) returns (n: nat)
    requires A.IsHashOrder(order) && C.Compiles(p, order, rom) && K.Fits(p, order, rom, depth, need, maxFrame)
    requires S.RunProgram(S.World(p, z, S.Emitted), fuel, depth).Done?
    ensures C.CompileProg(p, order).Ok?
    ensures var s := S.RunProgram(S.World(p, z, S.Emitted), fuel, depth).store;
            forall ins {:trigger H.Clocks(M.Chip(rom, z), H.Reset(ram, romQ, ramQ), ins)} ::
              var r := H.Clocks(M.Chip(rom, z), H.Reset(ram, romQ, ramQ), ins);
              r.retired >= n ==> r.log == s.printed && (R.Phase(r) == 0 ==> K.Shows(p, order, s, H.View(r)))
  {
    hide *;
    K.CompilesOk(p, order, rom);
    K.FitsFacts(p, order, rom, z, depth, need, maxFrame);
    var c, m, r0 := M.Chip(rom, z), M.Reset(ram), H.Reset(ram, romQ, ramQ);
    var s := S.RunProgram(S.World(p, z, S.Emitted), fuel, depth).store;
    n := K.ProgramOutcome(p, order, rom, z, ram, fuel, depth, need, maxFrame);
    forall ins {:trigger H.Clocks(c, r0, ins)} | H.Clocks(c, r0, ins).retired >= n
      ensures H.Clocks(c, r0, ins).log == s.printed
      ensures R.Phase(H.Clocks(c, r0, ins)) == 0 ==> K.Shows(p, order, s, H.View(H.Clocks(c, r0, ins)))
    {
      var r := H.Clocks(c, r0, ins);
      Output(c, ram, romQ, ramQ, ins);
      LaterShows(p, order, rom, z, ram, s, n, r.retired);
      LaterShows(p, order, rom, z, ram, s, n, r.retired + 1);
      if R.Phase(r) == 0 {
        ViewBetween(c, ram, romQ, ramQ, ins);
      }
    }
  }

  /** Between two instructions the processor shows the machine's state. */
  lemma ViewBetween(c: M.Chip, ram: M.Ram, romQ: Word, ramQ: Word, ins: seq<H.Inputs>)
    requires R.Phase(H.Clocks(c, H.Reset(ram, romQ, ramQ), ins)) == 0
    ensures var r := H.Clocks(c, H.Reset(ram, romQ, ramQ), ins); H.View(r) == M.Run(c, r.retired, M.Reset(ram))
  {
    hide *;
    var r := H.Clocks(c, H.Reset(ram, romQ, ramQ), ins);
    R.AfterReset(c, ram, romQ, ramQ);
    R.EveryClock(c, H.Reset(ram, romQ, ramQ), ins, M.Reset(ram));
    R.AtBoundary(c, r, M.Run(c, r.retired, M.Reset(ram)));
  }

  // ----- when the processor keeps going -----

  /** Resumed on the first clock after reset and never halted. */
  predicate Started(ins: seq<H.Inputs>) {
    ins != [] && ins[0].resumeReq && R.Undisturbed(ins)
  }

  /** A processor left alone completes an instruction every eight clocks, so that the output is there after 8n + 1. */
  lemma Completed(c: M.Chip, ram: M.Ram, romQ: Word, ramQ: Word, ins: seq<H.Inputs>, n: nat)
    requires Started(ins) && |ins| > 8 * n
    ensures H.Clocks(c, H.Reset(ram, romQ, ramQ), ins).retired >= n
  {
    hide R.During, H.Clock, R.Phase;
    var r0 := H.Reset(ram, romQ, ramQ);
    R.AfterReset(c, ram, romQ, ramQ);
    R.Resumed(c, r0, ins[0]);
    R.OneClock(c, r0, ins[0], M.Reset(ram));
    R.EveryEightClocks(c, H.Clock(c, r0, ins[0]), ins[1..], M.Reset(ram));
    R.PhaseBelow8(H.Clocks(c, r0, ins));
  }

  /** So its output is there in time. */
  lemma ProcessorComputesInTime(p: Program, order: A.HashOrder, rom: seq<Word>, z: M.ByZero, ram: M.Ram, romQ: Word,
                                ramQ: Word, fuel: nat, depth: nat, need: nat, maxFrame: nat) returns (n: nat)
    requires A.IsHashOrder(order) && C.Compiles(p, order, rom) && K.Fits(p, order, rom, depth, need, maxFrame)
    requires S.RunProgram(S.World(p, z, S.Emitted), fuel, depth).Done?
    ensures var s := S.RunProgram(S.World(p, z, S.Emitted), fuel, depth).store;
            forall ins {:trigger H.Clocks(M.Chip(rom, z), H.Reset(ram, romQ, ramQ), ins)} ::
              Started(ins) && |ins| > 8 * n ==>
                H.Clocks(M.Chip(rom, z), H.Reset(ram, romQ, ramQ), ins).log == s.printed
  {
    hide *;
    n := ProcessorComputes(p, order, rom, z, ram, romQ, ramQ, fuel, depth, need, maxFrame);
    var c, r0 := M.Chip(rom, z), H.Reset(ram, romQ, ramQ);
    forall ins {:trigger H.Clocks(c, r0, ins)} | Started(ins) && |ins| > 8 * n
      ensures H.Clocks(c, r0, ins).log == S.RunProgram(S.World(p, z, S.Emitted), fuel, depth).store.printed
    {
      Completed(c, ram, romQ, ramQ, ins, n);
    }
  }

  /** What the debugger requests from reset on, clock by clock. */
  type Stream = nat -> H.Inputs

  function Prefix(input: Stream, k: nat): (ins: seq<H.Inputs>)
    ensures |ins| == k
  {
    seq(k, i requires 0 <= i < k => input(i))
  }

  function After(c: M.Chip, r0: H.Regs, input: Stream, k: nat): H.Regs {
    H.Clocks(c, r0, Prefix(input, k))
  }

  /**
   However often the debugger halts the processor, it resumes it again: any number of instructions
   is completed at some time.
   */
  ghost predicate Fair(c: M.Chip, r0: H.Regs, input: Stream) {
    forall n: nat :: Completes(c, r0, input, n)
  }

  ghost predicate Completes(c: M.Chip, r0: H.Regs, input: Stream, n: nat) {
    exists k :: After(c, r0, input, k).retired >= n
  }

  /** A processor that is started and then left alone is one such case. */
  lemma StartedIsFair(c: M.Chip, ram: M.Ram, romQ: Word, ramQ: Word, input: Stream)
    requires input(0).resumeReq && forall k :: !input(k).haltReq
    ensures Fair(c, H.Reset(ram, romQ, ramQ), input)
  {
    var r0 := H.Reset(ram, romQ, ramQ);
    forall n: nat ensures Completes(c, r0, input, n) {
      var ins := Prefix(input, 8 * n + 1);
      hide H.Clocks, H.Reset;
      assert ins[0] == input(0);
      Completed(c, ram, romQ, ramQ, ins, n);
      assert After(c, r0, input, 8 * n + 1).retired >= n;
    }
  }

  /** One clock completes at most one instruction, and when it does, the processor is between two instructions. */
  lemma OneRetires(c: M.Chip, ram: M.Ram, romQ: Word, ramQ: Word, input: Stream, k: nat)
    ensures var r, r' := After(c, H.Reset(ram, romQ, ramQ), input, k), After(c, H.Reset(ram, romQ, ramQ), input, k + 1);
            r'.retired == r.retired || (r'.retired == r.retired + 1 && R.Phase(r') == 0)
  {
    hide *;
    var r0 := H.Reset(ram, romQ, ramQ);
    MoreClocks(c, r0, input, k);
    OneClockRetires(c, After(c, r0, input, k), input(k));
  }

  lemma OneClockRetires(c: M.Chip, r: H.Regs, i: H.Inputs)
    ensures var r' := H.Clock(c, r, i); r'.retired == r.retired || (r'.retired == r.retired + 1 && R.Phase(r') == 0)
  {
    hide M.Alu, Asm.Decode, M.FetchWord, H.NextRam, H.SelectOperand, H.RamAddr, H.NextPc, H.NextSp, H.AluResult,
         H.FpWrite, H.PcWrite;
  }

  lemma MoreClocks(c: M.Chip, r0: H.Regs, input: Stream, k: nat)
    ensures After(c, r0, input, k + 1) == H.Clock(c, After(c, r0, input, k), input(k))
  {
    hide H.Clock;
    assert Prefix(input, k + 1) == Prefix(input, k) + [input(k)];
    ClocksAdd(c, r0, Prefix(input, k), [input(k)]);
  }

  lemma {:induction false} ClocksAdd(c: M.Chip, r: H.Regs, ins: seq<H.Inputs>, more: seq<H.Inputs>)
    ensures H.Clocks(c, r, ins + more) == H.Clocks(c, H.Clocks(c, r, ins), more)
    decreases |ins|
  {
    hide H.Clock;
    if ins == [] {
      assert ins + more == more;
    } else {
      assert (ins + more)[0] == ins[0] && (ins + more)[1..] == ins[1..] + more;
      ClocksAdd(c, H.Clock(c, r, ins[0]), ins[1..], more);
    }
  }

  /**
   If at least n instructions are completed at some time, then at some time it is exactly n, and
   none has begun since.
   */
  lemma ExactlyOnce(c: M.Chip, ram: M.Ram, romQ: Word, ramQ: Word, input: Stream, n: nat, last: nat) returns (k: nat)
    requires After(c, H.Reset(ram, romQ, ramQ), input, last).retired >= n
    ensures var r := After(c, H.Reset(ram, romQ, ramQ), input, k); r.retired == n && R.Phase(r) == 0
  {
    var r0 := H.Reset(ram, romQ, ramQ);
    assert After(c, r0, input, 0) == r0;
    hide H.Clock, H.Reset, After, R.Phase;
    assert r0.retired == 0 && R.Phase(r0) == 0 by {
      ResetBetween(ram, romQ, ramQ);
    }
    k := 0;
    while After(c, r0, input, k).retired < n
      invariant k <= last || After(c, r0, input, last).retired < n
      invariant After(c, r0, input, k).retired <= n
      invariant forall j :: 0 <= j < k ==> After(c, r0, input, j).retired < n
      invariant After(c, r0, input, k).retired == n ==> R.Phase(After(c, r0, input, k)) == 0
      decreases last - k
    {
      OneRetires(c, ram, romQ, ramQ, input, k);
      k := k + 1;
    }
  }

  lemma ResetBetween(ram: M.Ram, romQ: Word, ramQ: Word)
    ensures H.Reset(ram, romQ, ramQ).retired == 0 && R.Phase(H.Reset(ram, romQ, ramQ)) == 0
  {}

  /** At some time the processor is at the start of the end loop, between two instructions, with an empty stack. */
  ghost predicate EndsUp(p: Program, order: A.HashOrder, c: M.Chip, r0: H.Regs, input: Stream)
    requires C.CompileProg(p, order).Ok?
  {
    exists k :: R.Phase(After(c, r0, input, k)) == 0 && K.Halted(p, order, H.View(After(c, r0, input, k)))
  }

  /**
   Under any fair debugger the processor ends up in the end loop if and only if the source
   program terminates; and if it does so under any other, the source program terminates.
   */
  lemma ProcessorHaltsIff(p: Program, order: A.HashOrder, rom: seq<Word>, z: M.ByZero, ram: M.Ram, romQ: Word,
                          ramQ: Word, input: Stream, depth: nat, need: nat, maxFrame: nat)
    requires A.IsHashOrder(order) && C.Compiles(p, order, rom) && K.Fits(p, order, rom, depth, need, maxFrame)
    requires K.WellDefined(S.World(p, z, S.Emitted), depth)
    ensures C.CompileProg(p, order).Ok?
    ensures var c, r0 := M.Chip(rom, z), H.Reset(ram, romQ, ramQ);
            var terminates := exists fuel :: S.RunProgram(S.World(p, z, S.Emitted), fuel, depth).Done?;
            && (EndsUp(p, order, c, r0, input) ==> terminates)
            && (Fair(c, r0, input) && terminates ==> EndsUp(p, order, c, r0, input))
  {
    hide *;
    K.CompilesOk(p, order, rom);
    K.HaltsIff(p, order, rom, z, ram, depth, need, maxFrame);
    var c, r0 := M.Chip(rom, z), H.Reset(ram, romQ, ramQ);
    if EndsUp(p, order, c, r0, input) {
      var n := EndMeansHalted(p, order, c, ram, romQ, ramQ, input);
      assert K.Halted(p, order, M.Run(c, n, M.Reset(ram)));
    }
    if n :| K.Halted(p, order, M.Run(c, n, M.Reset(ram))) {
      if Fair(c, r0, input) {
        HaltedMeansEnd(p, order, c, ram, romQ, ramQ, input, n);
      }
    }
  }

  lemma EndMeansHalted(p: Program, order: A.HashOrder, c: M.Chip, ram: M.Ram, romQ: Word, ramQ: Word, input: Stream)
    returns (n: nat)
    requires C.CompileProg(p, order).Ok? && EndsUp(p, order, c, H.Reset(ram, romQ, ramQ), input)
    ensures K.Halted(p, order, M.Run(c, n, M.Reset(ram)))
  {
    hide H.View, H.Clocks, H.Reset, M.Run, K.Halted, C.CompileProg, R.Phase, Prefix;
    var r0 := H.Reset(ram, romQ, ramQ);
    var k :| R.Phase(After(c, r0, input, k)) == 0 && K.Halted(p, order, H.View(After(c, r0, input, k)));
    ViewBetween(c, ram, romQ, ramQ, Prefix(input, k));
    n := After(c, r0, input, k).retired;
  }

  lemma HaltedMeansEnd(p: Program, order: A.HashOrder, c: M.Chip, ram: M.Ram, romQ: Word, ramQ: Word, input: Stream,
                       n: nat)
    requires C.CompileProg(p, order).Ok? && Fair(c, H.Reset(ram, romQ, ramQ), input)
    requires K.Halted(p, order, M.Run(c, n, M.Reset(ram)))
    ensures EndsUp(p, order, c, H.Reset(ram, romQ, ramQ), input)
  {
    hide H.View, H.Clocks, H.Reset, M.Run, K.Halted, C.CompileProg, R.Phase, Prefix;
    var r0 := H.Reset(ram, romQ, ramQ);
    assert Completes(c, r0, input, n);
    var last :| After(c, r0, input, last).retired >= n;
    var k := ExactlyOnce(c, ram, romQ, ramQ, input, n, last);
    ViewBetween(c, ram, romQ, ramQ, Prefix(input, k));
    assert R.Phase(After(c, r0, input, k)) == 0 && K.Halted(p, order, H.View(After(c, r0, input, k)));
  }
}
