/**
 The compiler is correct: the linked program, run from reset on the stack processor,
 halts exactly when the source program does, with the same output and globals.
 */
module Correctness {
  import opened Results
  import opened Words
  import opened Syntax
  import opened Activations
  import opened Agreement
  import opened Bounds
  import opened Expressions
  import opened Statements
  import opened Progress
  import opened Functions
  import opened Simulation
  import opened Instructions
  import Asm = Assembler
  import A = Allocator
  import C = Compiler
  import F = Frames
  import G = CodeGen
  import L = Linking
  import M = Machine
  import S = Semantics

  // ----- the global declarations -----

  /** From `st` to `st'` only globals were declared. */
  ghost predicate GlobalsGrew(st: C.State, st': C.State) {
    && |st.allocs| == 1 && |st'.allocs| == 1 && C.Ready(st') && A.Valid(C.Last(st'))
    && C.Last(st').scope == C.Last(st).scope && C.Last(st').base == C.Last(st).base
    && C.Last(st).firstFree <= C.Last(st').firstFree
    && G.Valid(st'.gen) && L.Extends(st.gen, st'.gen)
  }

  lemma GlobalGrows(st: C.State, x: string, e: Expr)
    requires |st.allocs| == 1 && C.Ready(st) && A.Valid(C.Last(st)) && G.Valid(st.gen)
    requires C.CompileVarDecl(st, x, e).Ok?
    ensures GlobalsGrew(st, C.CompileVarDecl(st, x, e).value)
  {
    hide A.Valid, G.Valid, L.Extends, C.CompileExpr, C.SaveVar, A.Declare;
    L.VarDeclExtends(st, x, e);
    F.DeclareEvolves(st, x);
  }

  lemma {:induction false} GlobalsGrow(st: C.State, p: Program)
    requires |st.allocs| == 1 && C.Ready(st) && A.Valid(C.Last(st)) && G.Valid(st.gen)
    requires C.CompileGlobals(st, p).Ok?
    ensures GlobalsGrew(st, C.CompileGlobals(st, p).value)
    decreases |p|
  {
    hide A.Valid, G.Valid, L.Extends, C.CompileVarDecl;
    if p == [] {
      L.ExtendsRefl(st.gen);
    } else {
      match p[0]
      case Func(_, _) => GlobalsGrow(st, p[1..]);
      case Global(x, e) =>
        var st1 := C.CompileVarDecl(st, x, e).value;
        GlobalGrows(st, x, e);
        GlobalsGrow(st1, p[1..]);
        L.ExtendsTrans(st.gen, st1.gen, C.CompileGlobals(st1, p[1..]).value.gen);
    }
  }

  /** The machine represents the globals and is at the end of `st`'s code, with an empty stack. */
  ghost predicate AtTop(st: C.State, store: S.Store, m: M.State) {
    Represents(st, store, m, 0) && m.sp == 0 && m.fp == C.FRAME_BASE
  }

  lemma SimGlobal(c: M.Chip, lab: map<string, nat>, w: S.World, st: C.State, x: string, e: Expr,
                  store: S.Store, m: M.State) returns (n: nat)
    requires Matches(w, c) && |st.allocs| == 1 && C.Ready(st) && A.Valid(C.Last(st)) && G.Valid(st.gen)
    requires C.CompileVarDecl(st, x, e).Ok?
    requires L.Linked(c.rom, lab, C.CompileVarDecl(st, x, e).value.gen)
        && HasRoom(C.CompileVarDecl(st, x, e).value.allocs, 0)
    requires AtTop(st, store, m) && Need(e) <= C.GLOBAL_BASE && S.Declare(w, x, e, store).Some?
    ensures AtTop(C.CompileVarDecl(st, x, e).value, S.Declare(w, x, e, store).value, M.Run(c, n, m)) && Within(c, n, m)
  {
    hide Within, A.Valid, G.Valid, L.Extends, L.Linked, C.CompileVarDecl, MemAgrees, S.Declare, M.Run, Matches, HasRoom;
    n := SimDeclare(c, lab, w, st, x, e, store, m, 0);
  }

  /** The state after the first declaration of a list. */
  lemma FirstGlobal(rom: seq<Word>, lab: map<string, nat>, st: C.State, p: Program)
    requires |st.allocs| == 1 && C.Ready(st) && A.Valid(C.Last(st)) && G.Valid(st.gen)
    requires C.CompileGlobals(st, p).Ok? && p != [] && p[0].Global?
    requires L.Linked(rom, lab, C.CompileGlobals(st, p).value.gen) && HasRoom(C.CompileGlobals(st, p).value.allocs, 0)
    ensures C.CompileVarDecl(st, p[0].name, p[0].init).Ok?
    ensures var st1 := C.CompileVarDecl(st, p[0].name, p[0].init).value;
            && |st1.allocs| == 1 && C.Ready(st1) && A.Valid(C.Last(st1)) && G.Valid(st1.gen)
            && C.CompileGlobals(st1, p[1..]) == C.CompileGlobals(st, p)
            && L.Linked(rom, lab, st1.gen) && HasRoom(st1.allocs, 0)
  {
    hide A.Valid, G.Valid, L.Extends, L.Linked, C.CompileVarDecl;
    var st1 := C.CompileVarDecl(st, p[0].name, p[0].init).value;
    GlobalGrows(st, p[0].name, p[0].init);
    GlobalsGrow(st1, p[1..]);
    L.LinkedBack(rom, lab, st1.gen, C.CompileGlobals(st1, p[1..]).value.gen);
  }

  lemma GlobalsMeaning(w: S.World, p: Program, store: S.Store)
    requires p != []
    ensures p[0].Func? ==> S.ExecGlobals(w, p, store) == S.ExecGlobals(w, p[1..], store)
    ensures p[0].Global? ==>
              S.ExecGlobals(w, p, store) ==
              if S.Declare(w, p[0].name, p[0].init, store).Some?
              then S.ExecGlobals(w, p[1..], S.Declare(w, p[0].name, p[0].init, store).value)
              else None
  {
    hide S.Declare;
  }

  lemma FitsParts(p: Program, need: nat)
    requires p != [] && ProgramFits(p, need)
    ensures ProgramFits(p[1..], need) && (p[0].Global? ==> Need(p[0].init) <= need)
  {
  }

  lemma NoGlobals(w: S.World, st: C.State, store: S.Store)
    requires C.Ready(st)
    ensures C.CompileGlobals(st, []) == Ok(st) && S.ExecGlobals(w, [], store) == Some(store)
  {
  }

  lemma SkipFunc(st: C.State, p: Program)
    requires C.Ready(st) && p != [] && p[0].Func?
    ensures C.CompileGlobals(st, p[1..]) == C.CompileGlobals(st, p)
  {
  }

  lemma {:induction false} SimGlobals(c: M.Chip, lab: map<string, nat>, w: S.World, st: C.State, p: Program, need: nat,
                                      store: S.Store, m: M.State) returns (n: nat)
    requires Matches(w, c) && |st.allocs| == 1 && C.Ready(st) && A.Valid(C.Last(st)) && G.Valid(st.gen)
    requires C.CompileGlobals(st, p).Ok?
    requires L.Linked(c.rom, lab, C.CompileGlobals(st, p).value.gen) && HasRoom(C.CompileGlobals(st, p).value.allocs, 0)
    requires AtTop(st, store, m) && ProgramFits(p, need) && 2 <= need <= C.GLOBAL_BASE
    ensures S.ExecGlobals(w, p, store).Some? ==>
              AtTop(C.CompileGlobals(st, p).value, S.ExecGlobals(w, p, store).value, M.Run(c, n, m))
    ensures Within(c, n, m)
    decreases |p|
  {
    hide *;
    n := 0;
    TopBounded(c, st, store, m);
    if p == [] {
      NoGlobals(w, st, store);
      RunZero(c, m);
    } else {
      GlobalsMeaning(w, p, store);
      FitsParts(p, need);
      if p[0].Func? {
        SkipFunc(st, p);
        n := SimGlobals(c, lab, w, st, p[1..], need, store, m);
      } else {
        var out := S.Declare(w, p[0].name, p[0].init, store);
        FirstGlobal(c.rom, lab, st, p);
        if out.Some? {
          var st1 := C.CompileVarDecl(st, p[0].name, p[0].init).value;
          n := SimGlobal(c, lab, w, st, p[0].name, p[0].init, store, m);
          var n2 := SimGlobals(c, lab, w, st1, p[1..], need, out.value, M.Run(c, n, m));
          M.RunAdd(c, n, n2, m);
          WithinBoth(c, n, n2, m);
          n := n + n2;
        }
      }
    }
  }

  lemma TopBounded(c: M.Chip, st: C.State, store: S.Store, m: M.State)
    requires AtTop(st, store, m)
    ensures Within(c, 0, m)
  {
    hide MemAgrees, Within;
    WithinNone(c, m);
  }

  // ----- the parts of a program -----

  function Globals(p: Program, order: A.HashOrder): C.State
    requires C.CompileProg(p, order).Ok?
  {
    C.CompileGlobals(C.Preamble(C.INITIAL).value, p).value
  }

  /** The state in which the functions are compiled. */
  function Funcs(p: Program, order: A.HashOrder): C.State
    requires C.CompileProg(p, order).Ok?
  {
    C.CallMain(Globals(p, order)).value
  }

  /** The address of the loop a finished program stays in. */
  function EndLoop(p: Program, order: A.HashOrder): nat
    requires C.CompileProg(p, order).Ok?
  {
    |Globals(p, order).gen.prog| + 2
  }

  /** What the chip must have room for if at most `depth` calls are active at once. */
  predicate Fits(p: Program, order: A.HashOrder, rom: seq<Word>, depth: nat, need: nat, maxFrame: nat)
    requires C.CompileProg(p, order).Ok?
  {
    && |rom| <= M.ROM_WORDS
    && ProgramFits(p, need) && need >= 2
    && HasRoom(Globals(p, order).allocs, 0)
    && C.CompileFuncs(Funcs(p, order), p, order).Ok?
    && FramesFit(Funcs(p, order), p, order, maxFrame)
    && C.FRAME_BASE + depth * maxFrame < M.RAM_WORDS
    && depth + need <= C.GLOBAL_BASE
  }

  ghost function Context(p: Program, order: A.HashOrder, rom: seq<Word>, z: M.ByZero, need: nat, maxFrame: nat): Ctx
    requires C.CompileProg(p, order).Ok? && C.CompileFuncs(Funcs(p, order), p, order).Ok?
  {
    Ctx(S.World(p, z, S.Emitted), M.Chip(rom, z), C.CompileProg(p, order).value.gen.labels, order,
        C.Last(Globals(p, order)), CodeMap(Funcs(p, order), p, order),
        |Funcs(p, order).gen.prog|, maxFrame, need)
  }

  // ----- what linking the whole program settles -----

  lemma InitialTop(ram: M.Ram)
    ensures A.Valid(C.Last(C.INITIAL)) && G.Valid(C.INITIAL.gen)
    ensures GlobalsAgree(C.Last(C.INITIAL), map[], ram)
  {
    A.NewValid(C.GLOBAL_BASE, A.GLOBAL);
  }

  /** The preamble's two words, and the state after them. */
  lemma PreambleState()
    ensures C.Preamble(C.INITIAL).Ok?
    ensures var st1 := C.Preamble(C.INITIAL).value;
            && st1.gen == G.Emit(G.Emit(G.START, C.FRAME_BASE), Asm.LFP) && G.Valid(st1.gen)
            && st1.allocs == C.INITIAL.allocs
            && L.Extends(G.Emit(G.START, C.FRAME_BASE), st1.gen) && G.Valid(G.Emit(G.START, C.FRAME_BASE))
  {
    hide L.Extends, Asm.Pack;
    L.EmitExtends(G.START, C.FRAME_BASE);
    L.EmitExtends(G.Emit(G.START, C.FRAME_BASE), Asm.LFP);
  }

  lemma CallMainState(st: C.State)
    requires G.Valid(st.gen) && C.CallMain(st).Ok?
    ensures var st' := C.CallMain(st).value;
            var gj := G.Jump(st.gen, "main");
            && G.DeclareLabel(gj, C.Label(st.counter)).Ok?
            && var g2 := G.DeclareLabel(gj, C.Label(st.counter)).value;
               && G.Valid(gj) && L.Extends(st.gen, gj) && G.Valid(g2) && L.Extends(gj, g2)
               && st'.gen == G.Jump(g2, C.Label(st.counter)) && G.Valid(st'.gen) && L.Extends(g2, st'.gen)
               && st'.allocs == st.allocs
               && |st'.gen.prog| == |st.gen.prog| + 4 && |gj.prog| == |g2.prog| == |st.gen.prog| + 2
  {
    hide L.Extends, G.Valid, Asm.Pack;
    var gj := G.Jump(st.gen, "main");
    L.JumpExtends(st.gen, "main");
    L.DeclareExtends(gj, C.Label(st.counter));
    L.JumpExtends(G.DeclareLabel(gj, C.Label(st.counter)).value, C.Label(st.counter));
  }

  /** Each part of the program is linked into the final code. */
  lemma PartsLinked(p: Program, order: A.HashOrder, rom: seq<Word>)
    requires A.IsHashOrder(order) && C.Compiles(p, order, rom)
    ensures var lab := C.CompileProg(p, order).value.gen.labels;
            var st1, st2, st3 := C.Preamble(C.INITIAL).value, Globals(p, order), Funcs(p, order);
            && C.CompileGlobals(st1, p) == Ok(st2) && C.CallMain(st2) == Ok(st3)
            && GlobalsGrew(st1, st2) && st3.allocs == st2.allocs && G.Valid(st3.gen)
            && C.CompileFuncs(st3, p, order) == C.CompileProg(p, order)
            && L.Linked(rom, lab, st1.gen) && L.Linked(rom, lab, st2.gen) && L.Linked(rom, lab, st3.gen)
            && L.Linked(rom, lab, C.CompileProg(p, order).value.gen)
  {
    hide L.Extends, L.Linked, G.Valid, A.Valid, Asm.Pack, A.IsHashOrder, G.Resolved, C.CompileGlobals, C.CompileFuncs,
         C.CallMain, C.Preamble;
    var st4 := C.CompileProg(p, order).value;
    var st1, st2, st3 := C.Preamble(C.INITIAL).value, Globals(p, order), Funcs(p, order);
    InitialTop(AnyRam());
    PreambleState();
    GlobalsGrow(st1, p);
    CallMainState(st2);
    var gj := G.Jump(st2.gen, "main");
    var g2 := G.DeclareLabel(gj, C.Label(st2.counter)).value;
    FuncsExtend(st3, p, order);
    L.ResolvedIsLinked(st4.gen, rom);
    L.LinkedBack(rom, st4.gen.labels, st3.gen, st4.gen);
    L.LinkedBack(rom, st4.gen.labels, g2, st3.gen);
    L.LinkedBack(rom, st4.gen.labels, gj, g2);
    L.LinkedBack(rom, st4.gen.labels, st2.gen, gj);
    L.LinkedBack(rom, st4.gen.labels, st1.gen, st2.gen);
  }

  /** The generator is in order when linking starts. */
  lemma FinalValid(p: Program, order: A.HashOrder)
    requires A.IsHashOrder(order) && C.CompileProg(p, order).Ok?
    ensures G.Valid(C.CompileProg(p, order).value.gen)
  {
    hide L.Extends, G.Valid, A.Valid, Asm.Pack, A.IsHashOrder, C.CompileGlobals, C.CompileFuncs, C.CallMain, C.Preamble;
    var st1, st2, st3 := C.Preamble(C.INITIAL).value, Globals(p, order), Funcs(p, order);
    InitialTop(AnyRam());
    PreambleState();
    GlobalsGrow(st1, p);
    CallMainState(st2);
    FuncsExtend(st3, p, order);
  }

  function AnyRam(): M.Ram {
    seq(M.RAM_WORDS, _ => 0)
  }

  lemma ContextGood(p: Program, order: A.HashOrder, rom: seq<Word>, z: M.ByZero, depth: nat, need: nat, maxFrame: nat)
    requires A.IsHashOrder(order) && C.Compiles(p, order, rom) && Fits(p, order, rom, depth, need, maxFrame)
    ensures Good(Context(p, order, rom, z, need, maxFrame))
  {
    var c := Context(p, order, rom, z, need, maxFrame);
    PartsLinked(p, order, rom);
    hide L.Extends, L.Linked, G.Valid, A.Valid, A.IsHashOrder, G.Resolved, C.CompileProg, C.CompileFuncs, FramesFit,
         ProgramFits, CodeOk, CodeMap, Funcs, HasCode, S.FindFunc;
    forall name {:trigger S.FindFunc(p, name)} | S.FindFunc(p, name).Some?
      ensures HasCode(c, name, S.FindFunc(p, name).value)
    {
      AllCode(c, Funcs(p, order), p, name);
    }
  }

  // ----- the run -----

  /** The preamble sets up the frame pointer. */
  lemma StartUp(c: M.Chip, lab: map<string, nat>, ram: M.Ram)
    requires |c.rom| <= M.ROM_WORDS && C.Preamble(C.INITIAL).Ok?
    requires L.Linked(c.rom, lab, C.Preamble(C.INITIAL).value.gen)
    ensures AtTop(C.Preamble(C.INITIAL).value, S.EMPTY, M.Run(c, 2, M.Reset(ram))) && Within(c, 2, M.Reset(ram))
  {
    hide Within;
    PreambleState();
    var g1 := G.Emit(G.START, C.FRAME_BASE);
    hide L.Extends, L.Linked, G.Valid, A.Valid, Asm.Pack, M.Step, GlobalsAgree;
    L.LinkedBack(c.rom, lab, g1, C.Preamble(C.INITIAL).value.gen);
    InitialTop(ram);
    L.EmittedWord(c.rom, lab, G.START, C.FRAME_BASE);
    L.EmittedWord(c.rom, lab, g1, Asm.LFP);
    var m := M.Reset(ram);
    StepConst(c, m, C.FRAME_BASE);
    var m1 := M.Step(c, m);
    StepLoadFp(c, m1);
    assert M.Run(c, 2, m) == M.Run(c, 1, m1) == M.Step(c, m1);
    var m2 := M.Step(c, m1);
    WithinTwo(c, m);
    InitialTop(m2.ram);
  }

  /** The machine has called `main` with the globals set. */
  ghost predicate AtMain(p: Program, order: A.HashOrder, lab: map<string, nat>, store: S.Store, m: M.State)
    requires C.CompileProg(p, order).Ok?
  {
    && MemAgrees(Globals(p, order).allocs, store, m.ram, m.fp, 0) && m.printed == store.printed
    && "main" in lab && m.pc == lab["main"] && m.ppc == EndLoop(p, order)
    && m.sp == 0 && m.fp == C.FRAME_BASE
  }

  lemma CallMain(c: M.Chip, p: Program, order: A.HashOrder, store: S.Store, m: M.State)
    requires A.IsHashOrder(order) && C.Compiles(p, order, c.rom) && |c.rom| <= M.ROM_WORDS
    requires AtTop(Globals(p, order), store, m)
    ensures AtMain(p, order, C.CompileProg(p, order).value.gen.labels, store, M.Run(c, 2, m)) && Within(c, 2, m)
  {
    hide Within;
    var lab := C.CompileProg(p, order).value.gen.labels;
    var st2 := Globals(p, order);
    PartsLinked(p, order, c.rom);
    hide L.Extends, L.Linked, G.Valid, A.Valid, A.IsHashOrder, G.Resolved, C.CompileProg, C.CallMain, MemAgrees,
         M.Run, Asm.Pack, C.CompileGlobals;
    CallMainState(st2);
    var gj := G.Jump(st2.gen, "main");
    var g2 := G.DeclareLabel(gj, C.Label(st2.counter)).value;
    L.LinkedBack(c.rom, lab, g2, Funcs(p, order).gen);
    L.LinkedBack(c.rom, lab, gj, g2);
    SimJump(c, lab, st2.gen, "main", m);
    ScratchAgrees(st2.allocs, store, m.ram, M.Run(c, 2, m).ram, m.fp, 0, m.sp);
  }

  lemma ReachMain(p: Program, order: A.HashOrder, rom: seq<Word>, z: M.ByZero, ram: M.Ram,
                  depth: nat, need: nat, maxFrame: nat) returns (n: nat)
    requires A.IsHashOrder(order) && C.Compiles(p, order, rom) && Fits(p, order, rom, depth, need, maxFrame)
    requires S.ExecGlobals(S.World(p, z, S.Emitted), p, S.EMPTY).Some?
    ensures AtMain(p, order, C.CompileProg(p, order).value.gen.labels,
                   S.ExecGlobals(S.World(p, z, S.Emitted), p, S.EMPTY).value, M.Run(M.Chip(rom, z), n, M.Reset(ram)))
    ensures Within(M.Chip(rom, z), n, M.Reset(ram))
  {
    hide *;
    CompilesOk(p, order, rom);
    var c, w := M.Chip(rom, z), S.World(p, z, S.Emitted);
    var lab := C.CompileProg(p, order).value.gen.labels;
    FitsFacts(p, order, rom, z, depth, need, maxFrame);
    PartsLinked(p, order, rom);
    PreambleTop();
    var st1 := C.Preamble(C.INITIAL).value;
    var m1 := M.Run(c, 2, M.Reset(ram));
    StartUp(c, lab, ram);
    var k := SimGlobals(c, lab, w, st1, p, need, S.EMPTY, m1);
    var m2 := M.Run(c, k, m1);
    CallMain(c, p, order, S.ExecGlobals(w, p, S.EMPTY).value, m2);
    M.RunAdd(c, 2, k, M.Reset(ram));
    M.RunAdd(c, 2 + k, 2, M.Reset(ram));
    WithinBoth(c, 2, k, M.Reset(ram));
    WithinBoth(c, 2 + k, 2, M.Reset(ram));
    n := 2 + k + 2;
  }

  lemma CompilesOk(p: Program, order: A.HashOrder, rom: seq<Word>)
    requires C.Compiles(p, order, rom)
    ensures C.CompileProg(p, order).Ok?
  {
    hide C.CompileProg, G.Resolved;
  }

  lemma FitsCompile(p: Program, order: A.HashOrder, rom: seq<Word>, depth: nat, need: nat, maxFrame: nat)
    requires C.CompileProg(p, order).Ok? && Fits(p, order, rom, depth, need, maxFrame)
    ensures C.CompileFuncs(Funcs(p, order), p, order).Ok?
  {
    hide ProgramFits, FramesFit, Funcs, HasRoom, C.CompileFuncs;
  }

  lemma FitsFacts(p: Program, order: A.HashOrder, rom: seq<Word>, z: M.ByZero, depth: nat, need: nat, maxFrame: nat)
    requires C.CompileProg(p, order).Ok? && Fits(p, order, rom, depth, need, maxFrame)
    ensures Matches(S.World(p, z, S.Emitted), M.Chip(rom, z)) && |rom| <= M.ROM_WORDS
    ensures 2 <= need <= C.GLOBAL_BASE && ProgramFits(p, need) && HasRoom(Globals(p, order).allocs, 0)
  {
    hide ProgramFits, FramesFit, Globals, HasRoom;
  }

  lemma PreambleTop()
    ensures C.Preamble(C.INITIAL).Ok?
    ensures var st1 := C.Preamble(C.INITIAL).value;
            |st1.allocs| == 1 && C.Ready(st1) && A.Valid(C.Last(st1)) && G.Valid(st1.gen)
  {
    hide G.Valid, A.Valid;
    InitialTop(AnyRam());
    PreambleState();
  }

  /** In the end loop with an empty stack. */
  predicate Halted(p: Program, order: A.HashOrder, m: M.State)
    requires C.CompileProg(p, order).Ok?
  {
    m.pc == EndLoop(p, order) && m.sp == 0
  }

  /** The machine is done, and shows the source program's output and globals. */
  ghost predicate Finished(p: Program, order: A.HashOrder, store: S.Store, m: M.State)
    requires C.CompileProg(p, order).Ok?
  {
    Halted(p, order, m) && m.printed == store.printed && GlobalsAgree(C.Last(Globals(p, order)), store.globals, m.ram)
  }

  /** The machine is in the code of some function. */
  predicate StillRunning(p: Program, order: A.HashOrder, m: M.State)
    requires C.CompileProg(p, order).Ok?
  {
    m.pc >= EndLoop(p, order) + 2
  }

  /** The call of `main`, and the state of the compiler there. */
  function MainCall(p: Program, order: A.HashOrder): Point
    requires C.CompileProg(p, order).Ok?
  {
    Point(Globals(p, order), Call("main"))
  }

  /**
   The machine is before the statement at which the source run stands, at `at` and in the calls
   `calls`; the outermost of them is that of `main`, and will return to the end loop.
   */
  ghost predicate Unfinished(p: Program, order: A.HashOrder, rom: seq<Word>, z: M.ByZero, need: nat, maxFrame: nat,
                             at: S.Store, calls: seq<S.Suspended>, m: M.State)
    requires C.CompileProg(p, order).Ok? && C.CompileFuncs(Funcs(p, order), p, order).Ok?
  {
    && m.printed == at.printed && StillRunning(p, order, m)
    && calls != [] && calls[0].callee == "main" && m.ram[0] == EndLoop(p, order)
    && Active(Context(p, order, rom, z, need, maxFrame), MainCall(p, order), at, calls, m, 0, C.FRAME_BASE, 0)
  }

  lemma MainOutcome(p: Program, order: A.HashOrder, rom: seq<Word>, z: M.ByZero,
                    fuel: nat, depth: nat, need: nat, maxFrame: nat, store: S.Store, m: M.State) returns (n: nat)
    requires A.IsHashOrder(order) && C.Compiles(p, order, rom) && Fits(p, order, rom, depth, need, maxFrame)
    requires AtMain(p, order, C.CompileProg(p, order).value.gen.labels, store, m)
    ensures match S.ExecCall(S.World(p, z, S.Emitted), fuel, depth, "main", store)
            case Done(s, _) => Finished(p, order, s, M.Run(M.Chip(rom, z), n, m)) && Within(M.Chip(rom, z), n, m)
            case Timeout(at, place, calls) =>
              && n >= fuel && Within(M.Chip(rom, z), n, m)
              && Unfinished(p, order, rom, z, need, maxFrame, at, calls, M.Run(M.Chip(rom, z), n, m))
            case _ => true
  {
    hide *;
    CompilesOk(p, order, rom);
    FitsCompile(p, order, rom, depth, need, maxFrame);
    var c := Context(p, order, rom, z, need, maxFrame);
    var allocs := Globals(p, order).allocs;
    ContextGood(p, order, rom, z, depth, need, maxFrame);
    MainReady(p, order, rom, z, depth, need, maxFrame, store, m);
    CallMeaning(c.w, fuel, depth, "main", store);
    n := 0;
    var body := S.FindFunc(p, "main");
    if body.Some? && depth > 0 {
      n := SimFunction(c, "main", body.value, allocs, fuel, depth, store, m, 0);
      MainReturned(p, order, rom, z, depth, need, maxFrame, fuel, store, m, n,
                   S.ExecAll(c.w, fuel, depth - 1, body.value, store.(scopes := [map[]])));
    }
  }

  lemma CallMeaning(w: S.World, fuel: nat, depth: nat, callee: string, store: S.Store)
    ensures S.FindFunc(w.prog, callee) == None ==> S.ExecCall(w, fuel, depth, callee, store) == S.Undefined
    ensures S.FindFunc(w.prog, callee).Some? && depth == 0 ==> S.ExecCall(w, fuel, depth, callee, store) == S.TooDeep
    ensures S.FindFunc(w.prog, callee).Some? && depth > 0 ==>
              S.ExecCall(w, fuel, depth, callee, store) ==
              S.AfterCall(callee,
                          S.ExecAll(w, fuel, depth - 1, S.FindFunc(w.prog, callee).value, store.(scopes := [map[]])),
                          store.scopes)
  {
    hide S.ExecAll, S.FindFunc;
  }

  /** What `main`'s call needs. */
  lemma MainReady(p: Program, order: A.HashOrder, rom: seq<Word>, z: M.ByZero, depth: nat, need: nat, maxFrame: nat,
                  store: S.Store, m: M.State)
    requires A.IsHashOrder(order) && C.Compiles(p, order, rom) && Fits(p, order, rom, depth, need, maxFrame)
    requires AtMain(p, order, C.CompileProg(p, order).value.gen.labels, store, m)
    ensures var c := Context(p, order, rom, z, need, maxFrame);
            var allocs := Globals(p, order).allocs;
            && |allocs| == 1 && allocs[0] == c.g && c.w == S.World(p, z, S.Emitted) && c.chip == M.Chip(rom, z)
            && MemAgrees(allocs, store, m.ram, m.fp, 0) && m.printed == store.printed
            && Room(c, m, depth) && m.fp >= C.FRAME_BASE && "main" in c.lab && m.pc == c.lab["main"]
  {
    PartsLinked(p, order, rom);
    hide MemAgrees, G.Resolved, C.CompileProg, C.CompileFuncs, FramesFit, ProgramFits, CodeMap, A.IsHashOrder;
  }

  lemma FuncsStart(p: Program, order: A.HashOrder, rom: seq<Word>)
    requires A.IsHashOrder(order) && C.Compiles(p, order, rom)
    ensures |Funcs(p, order).gen.prog| == EndLoop(p, order) + 2
  {
    PartsLinked(p, order, rom);
    hide L.Extends, L.Linked, G.Valid, A.Valid, G.Resolved, C.CompileProg, C.CompileFuncs, C.CallMain;
    CallMainState(Globals(p, order));
  }

  /** Before the call of `main`, everything is linked, the call included. */
  lemma TopBetween(p: Program, order: A.HashOrder, rom: seq<Word>, z: M.ByZero, need: nat, maxFrame: nat)
    requires A.IsHashOrder(order) && C.Compiles(p, order, rom) && C.CompileFuncs(Funcs(p, order), p, order).Ok?
    ensures var c := Context(p, order, rom, z, need, maxFrame);
      && |Globals(p, order).allocs| == 1 && Globals(p, order).allocs[0] == c.g && G.Valid(Globals(p, order).gen)
      && L.Linked(rom, c.lab, G.Jump(Globals(p, order).gen, "main"))
  {
    hide L.Extends, L.Linked, G.Valid, A.Valid, A.IsHashOrder, G.Resolved, C.CompileProg, C.CallMain, Asm.Pack,
         C.CompileGlobals,
         C.CompileFuncs, CodeMap, Globals, Funcs;
    PartsLinked(p, order, rom);
    var lab := C.CompileProg(p, order).value.gen.labels;
    var st2 := Globals(p, order);
    CallMainState(st2);
    var gj := G.Jump(st2.gen, "main");
    var g2 := G.DeclareLabel(gj, C.Label(st2.counter)).value;
    L.LinkedBack(rom, lab, g2, Funcs(p, order).gen);
    L.LinkedBack(rom, lab, gj, g2);
  }

  lemma MainReturned(p: Program, order: A.HashOrder, rom: seq<Word>, z: M.ByZero, depth: nat, need: nat, maxFrame: nat,
                     fuel: nat, store: S.Store, m: M.State, n: nat, out: S.Outcome)
    requires A.IsHashOrder(order) && C.Compiles(p, order, rom) && Fits(p, order, rom, depth, need, maxFrame)
    requires AtMain(p, order, C.CompileProg(p, order).value.gen.labels, store, m)
    requires Returns(Context(p, order, rom, z, need, maxFrame), "main", out, fuel, m, n)
    ensures match S.AfterCall("main", out, store.scopes)
            case Done(s, _) => Finished(p, order, s, M.Run(M.Chip(rom, z), n, m)) && Within(M.Chip(rom, z), n, m)
            case Timeout(at, place, calls) =>
              && n >= fuel && Within(M.Chip(rom, z), n, m)
              && Unfinished(p, order, rom, z, need, maxFrame, at, calls, M.Run(M.Chip(rom, z), n, m))
            case _ => true
  {
    hide MemAgrees, G.Resolved, C.CompileProg, C.CompileFuncs, CodeMap, A.IsHashOrder, M.Run, GlobalsAgree, Fits,
         Within, Active,
         Kept, Unfinished, Globals, Funcs;
    CompilesOk(p, order, rom);
    FuncsStart(p, order, rom);
    FitsCompile(p, order, rom, depth, need, maxFrame);
    if out.Timeout? {
      MainInterrupted(p, order, rom, z, depth, need, maxFrame, fuel, store, m, n, out.at, out.place, out.calls);
    }
  }

  lemma MainInterrupted(p: Program, order: A.HashOrder, rom: seq<Word>, z: M.ByZero, depth: nat, need: nat,
                        maxFrame: nat, fuel: nat, store: S.Store, m: M.State, n: nat, at: S.Store, place: Place,
                        calls: seq<S.Suspended>)
    requires A.IsHashOrder(order) && C.Compiles(p, order, rom) && Fits(p, order, rom, depth, need, maxFrame)
    requires AtMain(p, order, C.CompileProg(p, order).value.gen.labels, store, m)
    requires Returns(Context(p, order, rom, z, need, maxFrame), "main", S.Timeout(at, place, calls), fuel, m, n)
    ensures Unfinished(p, order, rom, z, need, maxFrame, at, [S.Suspended("main", store.scopes, place)] + calls,
                       M.Run(M.Chip(rom, z), n, m))
  {
    hide MemAgrees, G.Resolved, C.CompileProg, C.CompileFuncs, CodeMap, A.IsHashOrder, M.Run, GlobalsAgree, Fits,
         Within, Active,
         Kept, Globals, Funcs, L.Linked, G.Valid, BodyPoint;
    CompilesOk(p, order, rom);
    FuncsStart(p, order, rom);
    FitsCompile(p, order, rom, depth, need, maxFrame);
    MainReady(p, order, rom, z, depth, need, maxFrame, store, m);
    TopBetween(p, order, rom, z, need, maxFrame);
    var c := Context(p, order, rom, z, need, maxFrame);
    CallActive(c, MainCall(p, order), store, S.Suspended("main", store.scopes, place), at, calls, m.ram,
               M.Run(c.chip, n, m), 0, C.FRAME_BASE, 0);
  }

  // ----- the theorems -----

  /**
   Running a program: a finished source run is matched by a halt, an unfinished one by as long
   a run, after which the machine stands where the source does. No state of either run lets
   the stack or the frames leave their place.
   */
  lemma ProgramOutcome(p: Program, order: A.HashOrder, rom: seq<Word>, z: M.ByZero, ram: M.Ram,
                       fuel: nat, depth: nat, need: nat, maxFrame: nat) returns (n: nat)
    requires A.IsHashOrder(order) && C.Compiles(p, order, rom) && Fits(p, order, rom, depth, need, maxFrame)
    ensures var m := M.Run(M.Chip(rom, z), n, M.Reset(ram));
            match S.RunProgram(S.World(p, z, S.Emitted), fuel, depth)
            case Done(s, _) => Finished(p, order, s, m) && Within(M.Chip(rom, z), n, M.Reset(ram))
            case Timeout(at, place, calls) =>
              && n >= fuel && Within(M.Chip(rom, z), n, M.Reset(ram))
              && Unfinished(p, order, rom, z, need, maxFrame, at, calls, m)
            case _ => true
  {
    hide *;
    CompilesOk(p, order, rom);
    FitsCompile(p, order, rom, depth, need, maxFrame);
    var w, c := S.World(p, z, S.Emitted), M.Chip(rom, z);
    RunMeaning(w, fuel, depth);
    n := 0;
    var globals := S.ExecGlobals(w, p, S.EMPTY);
    if globals.Some? {
      var k := ReachMain(p, order, rom, z, ram, depth, need, maxFrame);
      var m := M.Run(c, k, M.Reset(ram));
      var k2 := MainOutcome(p, order, rom, z, fuel, depth, need, maxFrame, globals.value, m);
      M.RunAdd(c, k, k2, M.Reset(ram));
      if S.RunProgram(w, fuel, depth).Done? || S.RunProgram(w, fuel, depth).Timeout? {
        WithinBoth(c, k, k2, M.Reset(ram));
      }
      n := k + k2;
    }
  }

  /**
   What an unfinished run shows: the stack holds exactly the return addresses, and every frame its
   call's variables.
   */
  lemma StackAndFrames(p: Program, order: A.HashOrder, rom: seq<Word>, z: M.ByZero, need: nat, maxFrame: nat,
                       at: S.Store, calls: seq<S.Suspended>, m: M.State)
    requires C.CompileProg(p, order).Ok? && C.CompileFuncs(Funcs(p, order), p, order).Ok?
    requires Unfinished(p, order, rom, z, need, maxFrame, at, calls, m)
    ensures FramesShow(Context(p, order, rom, z, need, maxFrame), MainCall(p, order), at, calls, m)
  {
    hide Context, Active, FramesShow, StillRunning;
    FramesShown(Context(p, order, rom, z, need, maxFrame), MainCall(p, order), at, calls, m);
  }

  lemma StillGoing(p: Program, order: A.HashOrder, rom: seq<Word>, z: M.ByZero, need: nat, maxFrame: nat,
                   at: S.Store, calls: seq<S.Suspended>, m: M.State)
    requires C.CompileProg(p, order).Ok? && C.CompileFuncs(Funcs(p, order), p, order).Ok?
    requires Unfinished(p, order, rom, z, need, maxFrame, at, calls, m)
    ensures StillRunning(p, order, m) && m.printed == at.printed
  {
    hide Context, Active, StillRunning;
  }

  lemma RunMeaning(w: S.World, fuel: nat, depth: nat)
    ensures var globals := S.ExecGlobals(w, w.prog, S.EMPTY);
            S.RunProgram(w, fuel, depth) ==
            if globals.Some? then S.ExecCall(w, fuel, depth, "main", globals.value) else S.Undefined
  {
    hide S.ExecGlobals, S.ExecCall;
  }

  /** The two words of the end loop: its own address, and a jump. */
  lemma EndLoopWords(p: Program, order: A.HashOrder, rom: seq<Word>)
    requires A.IsHashOrder(order) && C.Compiles(p, order, rom)
    ensures var e := EndLoop(p, order);
            Asm.FitsConstant(e) && e + 1 < |rom| && rom[e] == e && rom[e + 1] == Asm.AJMP
  {
    var lab := C.CompileProg(p, order).value.gen.labels;
    var st2 := Globals(p, order);
    PartsLinked(p, order, rom);
    hide L.Extends, L.Linked, G.Valid, A.Valid, A.IsHashOrder, G.Resolved, C.CompileProg, C.CallMain, Asm.Pack,
         C.CompileGlobals;
    CallMainState(st2);
    var endLoop := C.Label(st2.counter);
    var gj := G.Jump(st2.gen, "main");
    var g2 := G.DeclareLabel(gj, endLoop).value;
    var g3 := G.Ref(g2, endLoop);
    L.RefExtends(g2, endLoop);
    L.EmitExtends(g3, Asm.AJMP);
    L.LinkedBack(rom, lab, g3, Funcs(p, order).gen);
    L.LinkedBack(rom, lab, g2, Funcs(p, order).gen);
    L.EmittedWord(rom, lab, g3, Asm.AJMP);
    L.RefWord(rom, lab, g2, endLoop);
    EndLabel(rom, lab, gj, endLoop);
  }

  lemma EndLabel(rom: seq<Word>, lab: map<string, nat>, g: G.Gen, name: string)
    requires G.DeclareLabel(g, name).Ok? && L.Linked(rom, lab, G.DeclareLabel(g, name).value)
    ensures name in lab && lab[name] == |g.prog|
  {
  }

  /** Only the lowest stack cell may differ, and the frame pointer and the output are the same. */
  predicate Idle(m: M.State, m': M.State) {
    && m'.sp <= 1 && m'.fp == m.fp && m'.printed == m.printed
    && forall a :: 1 <= a < M.RAM_WORDS ==> m'.ram[a] == m.ram[a]
  }

  /** Once around a loop of two words. */
  lemma LoopTurn(c: M.Chip, e: Word, m: M.State)
    requires |c.rom| <= M.ROM_WORDS && Asm.FitsConstant(e) && e + 1 < |c.rom| && c.rom[e] == e
        && c.rom[e + 1] == Asm.AJMP
    requires m.pc == e && m.sp == 0
    ensures M.Run(c, 1, m).pc == e + 1 && Idle(m, M.Run(c, 1, m))
    ensures M.Run(c, 2, m).pc == e && M.Run(c, 2, m).sp == 0 && Idle(m, M.Run(c, 2, m))
  {
    hide M.Step, Asm.Pack;
    StepConst(c, m, e);
    var m1 := M.Step(c, m);
    StepJump(c, m1);
    assert M.Run(c, 1, m) == m1;
    assert M.Run(c, 2, m) == M.Run(c, 1, m1) == M.Step(c, m1);
  }

  /** The machine stays in such a loop. */
  lemma {:induction false} LoopStays(c: M.Chip, e: Word, m: M.State, n: nat)
    requires |c.rom| <= M.ROM_WORDS && Asm.FitsConstant(e) && e + 1 < |c.rom| && c.rom[e] == e
        && c.rom[e + 1] == Asm.AJMP
    requires m.pc == e && m.sp == 0
    ensures e <= M.Run(c, n, m).pc <= e + 1 && Idle(m, M.Run(c, n, m))
    decreases n
  {
    hide M.Run, Asm.Pack;
    if n == 0 {
      RunZero(c, m);
    } else {
      LoopTurn(c, e, m);
      if n >= 2 {
        LoopStays(c, e, M.Run(c, 2, m), n - 2);
        M.RunAdd(c, 2, n - 2, m);
      }
    }
  }

  /** A halted machine prints nothing more, changes no variable, and never leaves the end loop. */
  lemma StaysHalted(p: Program, order: A.HashOrder, rom: seq<Word>, z: M.ByZero, m: M.State, n: nat)
    requires A.IsHashOrder(order) && C.Compiles(p, order, rom) && |rom| <= M.ROM_WORDS && Halted(p, order, m)
    ensures var m' := M.Run(M.Chip(rom, z), n, m);
            !StillRunning(p, order, m') && m'.printed == m.printed && Idle(m, m')
  {
    hide A.IsHashOrder, C.Compiles, EndLoop, M.Run, Asm.Pack;
    CompilesOk(p, order, rom);
    EndLoopWords(p, order, rom);
    LoopStays(M.Chip(rom, z), EndLoop(p, order), m, n);
  }

  /** The machine shows the source program's output and globals, and is out of the functions' code. */
  ghost predicate Shows(p: Program, order: A.HashOrder, store: S.Store, m: M.State)
    requires C.CompileProg(p, order).Ok?
  {
    && !StillRunning(p, order, m) && m.printed == store.printed
    && GlobalsAgree(C.Last(Globals(p, order)), store.globals, m.ram)
  }

  /** A finished machine shows them for ever. */
  lemma FinishedShows(p: Program, order: A.HashOrder, rom: seq<Word>, z: M.ByZero, store: S.Store, m: M.State, n: nat)
    requires A.IsHashOrder(order) && C.Compiles(p, order, rom) && |rom| <= M.ROM_WORDS
    requires C.CompileProg(p, order).Ok? && Finished(p, order, store, m)
    ensures Shows(p, order, store, M.Run(M.Chip(rom, z), n, m))
  {
    hide A.IsHashOrder, C.Compiles, EndLoop, M.Run, GlobalsAgree, StillRunning, C.CompileGlobals;
    StaysHalted(p, order, rom, z, m, n);
    GlobalsFrame(C.Last(Globals(p, order)), store.globals, m.ram, M.Run(M.Chip(rom, z), n, m).ram);
  }

  /** No run of the program, however much fuel it is given, does anything undefined or too deep. */
  ghost predicate WellDefined(w: S.World, depth: nat) {
    forall fuel :: S.RunProgram(w, fuel, depth).Done? || S.RunProgram(w, fuel, depth).Timeout?
  }

  /** A source run that is still going on after `n` units of fuel rules out a halt within `n` steps. */
  lemma NotYetHalted(p: Program, order: A.HashOrder, rom: seq<Word>, z: M.ByZero, m: M.State, n: nat, n': nat)
    requires A.IsHashOrder(order) && C.Compiles(p, order, rom) && |rom| <= M.ROM_WORDS && n <= n'
    requires StillRunning(p, order, M.Run(M.Chip(rom, z), n', m))
    ensures !Halted(p, order, M.Run(M.Chip(rom, z), n, m))
  {
    hide *;
    CompilesOk(p, order, rom);
    var c := M.Chip(rom, z);
    if Halted(p, order, M.Run(c, n, m)) {
      StaysHalted(p, order, rom, z, M.Run(c, n, m), n' - n);
      M.RunAdd(c, n, n' - n, m);
    }
  }

  /**
   One direction for each `n`: a machine that has halted after `n` steps shows a source run that
   fuel `n` finishes.
   */
  lemma HaltedMeansDone(p: Program, order: A.HashOrder, rom: seq<Word>, z: M.ByZero, ram: M.Ram,
                        n: nat, depth: nat, need: nat, maxFrame: nat)
    requires A.IsHashOrder(order) && C.Compiles(p, order, rom) && Fits(p, order, rom, depth, need, maxFrame)
    requires Halted(p, order, M.Run(M.Chip(rom, z), n, M.Reset(ram)))
    ensures !S.RunProgram(S.World(p, z, S.Emitted), n, depth).Timeout?
  {
    hide *;
    CompilesOk(p, order, rom);
    FitsFacts(p, order, rom, z, depth, need, maxFrame);
    var n' := ProgramOutcome(p, order, rom, z, ram, n, depth, need, maxFrame);
    FitsCompile(p, order, rom, depth, need, maxFrame);
    var out := S.RunProgram(S.World(p, z, S.Emitted), n, depth);
    if out.Timeout? {
      StillGoing(p, order, rom, z, need, maxFrame, out.at, out.calls, M.Run(M.Chip(rom, z), n', M.Reset(ram)));
      NotYetHalted(p, order, rom, z, M.Reset(ram), n, n');
    }
  }

  /** The compiled program halts if and only if the source program terminates. */
  lemma HaltsIff(p: Program, order: A.HashOrder, rom: seq<Word>, z: M.ByZero, ram: M.Ram, depth: nat, need: nat,
                 maxFrame: nat)
    requires A.IsHashOrder(order) && C.Compiles(p, order, rom) && Fits(p, order, rom, depth, need, maxFrame)
    requires WellDefined(S.World(p, z, S.Emitted), depth)
    ensures (exists n :: Halted(p, order, M.Run(M.Chip(rom, z), n, M.Reset(ram))))
       <==> (exists fuel :: S.RunProgram(S.World(p, z, S.Emitted), fuel, depth).Done?)
  {
    hide M.Run, S.RunProgram, A.IsHashOrder, C.Compiles, Fits, Halted;
    CompilesOk(p, order, rom);
    var c, w := M.Chip(rom, z), S.World(p, z, S.Emitted);
    if fuel :| S.RunProgram(w, fuel, depth).Done? {
      var n := ProgramOutcome(p, order, rom, z, ram, fuel, depth, need, maxFrame);
      assert Halted(p, order, M.Run(c, n, M.Reset(ram)));
    }
    if n :| Halted(p, order, M.Run(c, n, M.Reset(ram))) {
      HaltedMeansDone(p, order, rom, z, ram, n, depth, need, maxFrame);
      assert S.RunProgram(w, n, depth).Done?;
    }
  }

  /** Whenever it halts, it has printed what the source program prints. */
  lemma HaltedOutput(p: Program, order: A.HashOrder, rom: seq<Word>, z: M.ByZero, ram: M.Ram,
                     n: nat, fuel: nat, depth: nat, need: nat, maxFrame: nat)
    requires A.IsHashOrder(order) && C.Compiles(p, order, rom) && Fits(p, order, rom, depth, need, maxFrame)
    requires Halted(p, order, M.Run(M.Chip(rom, z), n, M.Reset(ram)))
    requires S.RunProgram(S.World(p, z, S.Emitted), fuel, depth).Done?
    ensures M.Run(M.Chip(rom, z), n, M.Reset(ram)).printed
        == S.RunProgram(S.World(p, z, S.Emitted), fuel, depth).store.printed
  {
    hide *;
    CompilesOk(p, order, rom);
    FitsFacts(p, order, rom, z, depth, need, maxFrame);
    var c, m := M.Chip(rom, z), M.Reset(ram);
    var n' := ProgramOutcome(p, order, rom, z, ram, fuel, depth, need, maxFrame);
    FinishedHalted(p, order, S.RunProgram(S.World(p, z, S.Emitted), fuel, depth).store, M.Run(c, n', m));
    if n <= n' {
      StaysHalted(p, order, rom, z, M.Run(c, n, m), n' - n);
      M.RunAdd(c, n, n' - n, m);
    } else {
      StaysHalted(p, order, rom, z, M.Run(c, n', m), n - n');
      M.RunAdd(c, n', n - n', m);
    }
  }

  lemma FinishedHalted(p: Program, order: A.HashOrder, store: S.Store, m: M.State)
    requires C.CompileProg(p, order).Ok? && Finished(p, order, store, m)
    ensures Halted(p, order, m) && m.printed == store.printed
  {
    hide C.CompileProg, GlobalsAgree, EndLoop;
  }

  /**
   In no state of any run of a well-defined program that fits does the stack reach the globals, or
   a frame leave the memory.
   */
  lemma NeverOverflows(p: Program, order: A.HashOrder, rom: seq<Word>, z: M.ByZero, ram: M.Ram,
                       n: nat, depth: nat, need: nat, maxFrame: nat)
    requires A.IsHashOrder(order) && C.Compiles(p, order, rom) && Fits(p, order, rom, depth, need, maxFrame)
    requires WellDefined(S.World(p, z, S.Emitted), depth)
    ensures Bounded(M.Run(M.Chip(rom, z), n, M.Reset(ram)))
  {
    hide M.Run, S.RunProgram, A.IsHashOrder, C.Compiles, Fits, Bounded, Within, Finished, Unfinished, Idle;
    CompilesOk(p, order, rom);
    FitsFacts(p, order, rom, z, depth, need, maxFrame);
    var c, m := M.Chip(rom, z), M.Reset(ram);
    var out := S.RunProgram(S.World(p, z, S.Emitted), n, depth);
    var k := ProgramOutcome(p, order, rom, z, ram, n, depth, need, maxFrame);
    if n <= k {
      WithinEnds(c, k, n, m);
    } else {
      FinishedHalted(p, order, out.store, M.Run(c, k, m));
      StaysHalted(p, order, rom, z, M.Run(c, k, m), n - k);
      M.RunAdd(c, k, n - k, m);
      WithinEnds(c, k, k, m);
      IdleBounded(M.Run(c, k, m), M.Run(c, n, m));
    }
  }

  lemma IdleBounded(m: M.State, m': M.State)
    requires Idle(m, m') && Bounded(m)
    ensures Bounded(m')
  {}
}
