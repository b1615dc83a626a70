/** The code of the simple statements: tests, jumps, declarations, assignments and prints. */
module Statements {
  import opened Results
  import opened Words
  import opened Syntax
  import opened Agreement
  import opened Bounds
  import opened Expressions
  import opened Instructions
  import Asm = Assembler
  import A = Allocator
  import C = Compiler
  import G = CodeGen
  import L = Linking
  import M = Machine
  import S = Semantics

  /** Memory a statement may not touch: the stack below `sp`, and the frames up to `base`. */
  predicate Kept(ram: M.Ram, ram': M.Ram, sp: int, base: int) {
    forall a :: 0 <= a < M.RAM_WORDS && (a < sp || C.FRAME_BASE < a <= base) ==> ram'[a] == ram[a]
  }

  /** A world and a chip that agree on what the source leaves open. */
  ghost predicate Matches(w: S.World, c: M.Chip) {
    w.z == c.z && w.dialect == S.Emitted && |c.rom| <= M.ROM_WORDS
  }

  // ----- control -----

  /** A conditional jump: on zero to the label, otherwise to the next instruction. */
  lemma SimTest(c: M.Chip, lab: map<string, nat>, w: S.World, allocs: seq<A.Alloc>, g: G.Gen, e: Expr, target: string,
                st: S.Store, m: M.State, fs: nat) returns (n: nat)
    requires Matches(w, c) && G.Valid(g) && C.CompileTest(allocs, g, e, target).Ok?
    requires L.Linked(c.rom, lab, C.CompileTest(allocs, g, e, target).value)
    requires MemAgrees(allocs, st, m.ram, m.fp, fs) && S.Eval(w, e, st).Some?
    requires m.pc == |g.prog| && m.sp + Need(e) <= C.GLOBAL_BASE && m.sp + 2 <= C.GLOBAL_BASE
    requires m.fp < M.RAM_WORDS
    ensures target in lab && n >= 1
    ensures var m' := M.Run(c, n, m);
            && m'.pc == (if S.Eval(w, e, st).value == 0 then lab[target]
                         else |C.CompileTest(allocs, g, e, target).value.prog|)
            && m'.sp == m.sp && m'.fp == m.fp && m'.printed == m.printed && Scratch(m.ram, m'.ram, m.sp)
    ensures Within(c, n, m)
  {
    hide Within, MemAgrees, G.Valid, L.Linked, L.Extends, M.Step, Asm.Pack, S.Eval, C.CompileExpr;
    var g1 := C.CompileExpr(allocs, g, e).value;
    var g2 := G.Ref(g1, target);
    L.ExprExtends(allocs, g, e);
    L.RefExtends(g1, target);
    L.EmitExtends(g2, Asm.CJMPZ);
    L.LinkedBack(c.rom, lab, g2, G.Emit(g2, Asm.CJMPZ));
    L.LinkedBack(c.rom, lab, g1, g2);
    L.EmittedWord(c.rom, lab, g2, Asm.CJMPZ);
    L.RefWord(c.rom, lab, g1, target);
    SimExpr(c, lab, w, allocs, g, e, st, m, fs);
    var k := |g1.prog| - |g.prog|;
    var m1 := M.Run(c, k, m);
    StepConst(c, m1, lab[target]);
    var m2 := M.Step(c, m1);
    StepJumpZero(c, m2);
    n := k + 2;
    WithinTwo(c, m1);
    WithinBoth(c, k, 2, m);
    M.RunAdd(c, k, 2, m);
    assert M.Run(c, 2, m1) == M.Run(c, 1, m2) == M.Step(c, m2);
  }

  /** An unconditional jump leaves its own return point in `ppc`. */
  lemma SimJump(c: M.Chip, lab: map<string, nat>, g: G.Gen, target: string, m: M.State)
    requires |c.rom| <= M.ROM_WORDS && G.Valid(g) && L.Linked(c.rom, lab, G.Jump(g, target))
    requires m.pc == |g.prog| && m.sp + 1 <= C.GLOBAL_BASE
    requires m.fp < M.RAM_WORDS
    ensures target in lab
    ensures var m' := M.Run(c, 2, m);
            && m'.pc == lab[target] && m'.ppc == |g.prog| + 2
            && m'.sp == m.sp && m'.fp == m.fp && m'.printed == m.printed && Scratch(m.ram, m'.ram, m.sp)
    ensures Within(c, 2, m)
  {
    hide Within, G.Valid, L.Linked, L.Extends, M.Step, Asm.Pack;
    var g1 := G.Ref(g, target);
    L.RefExtends(g, target);
    L.EmitExtends(g1, Asm.AJMP);
    L.LinkedBack(c.rom, lab, g1, G.Jump(g, target));
    L.EmittedWord(c.rom, lab, g1, Asm.AJMP);
    L.RefWord(c.rom, lab, g, target);
    StepConst(c, m, lab[target]);
    var m1 := M.Step(c, m);
    StepJump(c, m1);
    WithinTwo(c, m);
    assert M.Run(c, 2, m) == M.Run(c, 1, m1) == M.Step(c, m1);
  }

  // ----- variables -----

  /** The cell of a declared name, and the memory effect of giving it a value. */
  function StoreCell(ram: M.Ram, fp: int, addr: nat, scope: A.Scope, v: Word): M.Ram
    requires if scope == A.GLOBAL then addr < M.RAM_WORDS else 0 <= fp - addr < M.RAM_WORDS
  {
    if scope == A.GLOBAL then ram[addr := v] else ram[fp - addr := v]
  }

  /** A name that no local block binds is looked up among the globals. */
  lemma FoundGlobal(allocs: seq<A.Alloc>, x: string)
    requires 1 <= |allocs| <= 2 && |allocs[0].blocks| == 1 && allocs[0].scope == A.GLOBAL
    requires allocs[0].base == C.GLOBAL_BASE && C.Declaration(allocs, x).Some?
    requires |allocs| == 2 ==> A.SlotOf(allocs[1].blocks, x) == None
    ensures x in allocs[0].blocks[0].vars
    ensures C.Declaration(allocs, x).value == (C.GLOBAL_BASE + allocs[0].blocks[0].vars[x], A.GLOBAL)
  {
    var g := allocs[0];
    assert g.blocks[..0] == [];
    assert A.SlotOf(g.blocks, x) == if x in g.blocks[0].vars then Some(g.blocks[0].vars[x]) else None;
    if |allocs| == 2 {
      assert allocs[..1] == [g];
    }
  }

  /** Storing into a local variable. */
  lemma StoreLocal(allocs: seq<A.Alloc>, st: S.Store, ram: M.Ram, fp: int, fs: nat, x: string, slot: nat, v: Word)
    requires MemAgrees(allocs, st, ram, fp, fs) && |allocs| == 2 && A.SlotOf(allocs[1].blocks, x) == Some(slot)
    ensures slot < fs && C.FRAME_BASE + fs <= fp < M.RAM_WORDS
    ensures S.Update(st, x, v).Some? && S.Update(st, x, v).value.printed == st.printed
    ensures MemAgrees(allocs, S.Update(st, x, v).value, ram[fp - slot := v], fp, fs)
  {
    hide A.Valid, A.SlotOf, S.Update, GlobalsAgree;
    var blocks := allocs[1].blocks;
    var i := LocalUpdate(blocks, st, ram, fp, x, v);
    A.BoundIsLive(blocks, i, x);
    LocalStored(blocks, st.scopes, ram, fp, fs, i, x, v);
    GlobalsFrame(allocs[0], st.globals, ram, ram[fp - slot := v]);
  }

  /** Storing into a global variable. */
  lemma StoreGlobal(allocs: seq<A.Alloc>, st: S.Store, ram: M.Ram, fp: int, fs: nat, x: string, v: Word)
    requires MemAgrees(allocs, st, ram, fp, fs) && x in allocs[0].blocks[0].vars
    requires |allocs| == 2 ==> A.SlotOf(allocs[1].blocks, x) == None
    ensures var addr := C.GLOBAL_BASE + allocs[0].blocks[0].vars[x];
            && C.GLOBAL_BASE <= addr < C.FRAME_BASE
            && S.Update(st, x, v).Some? && S.Update(st, x, v).value.printed == st.printed
            && MemAgrees(allocs, S.Update(st, x, v).value, ram[addr := v], fp, fs)
  {
    var g := allocs[0];
    OnlyGlobal(st.(scopes := []), x, v);
    GlobalStored(g, st.globals, ram, x, v);
    if |allocs| == 2 {
      hide A.Valid, A.SlotOf, S.Update;
      var addr := C.GLOBAL_BASE + g.blocks[0].vars[x];
      var _ := LocalUpdate(allocs[1].blocks, st, ram, fp, x, v);
      LocalsFrame(allocs[1].blocks, st.scopes, ram, ram[addr := v], fp, fs);
    } else {
      assert st.(scopes := []) == st;
    }
  }

  /** Assigning a declared name: the memory with the value stored represents the new store. */
  lemma StoreAgrees(allocs: seq<A.Alloc>, st: S.Store, ram: M.Ram, fp: int, fs: nat, x: string, v: Word)
    requires MemAgrees(allocs, st, ram, fp, fs) && C.Declaration(allocs, x).Some?
    ensures var (addr, scope) := C.Declaration(allocs, x).value;
            && (if scope == A.GLOBAL then C.GLOBAL_BASE <= addr < C.FRAME_BASE
                else addr < fs && C.FRAME_BASE + fs <= fp < M.RAM_WORDS)
            && S.Update(st, x, v).Some?
            && S.Update(st, x, v).value.printed == st.printed
            && MemAgrees(allocs, S.Update(st, x, v).value, StoreCell(ram, fp, addr, scope, v), fp, fs)
  {
    if |allocs| == 2 && A.SlotOf(allocs[1].blocks, x).Some? {
      StoreLocal(allocs, st, ram, fp, fs, x, A.SlotOf(allocs[1].blocks, x).value, v);
    } else {
      FoundGlobal(allocs, x);
      StoreGlobal(allocs, st, ram, fp, fs, x, v);
    }
  }

  lemma OnlyGlobal(st: S.Store, x: string, v: Word)
    requires st.scopes == [] && x in st.globals
    ensures S.Update(st, x, v) == Some(st.(globals := st.globals[x := Some(v)]))
  {
  }

  /** From `m`, code up to `pc` left the machine representing the store `st'`. */
  ghost predicate Advanced(allocs: seq<A.Alloc>, st': S.Store, m: M.State, m': M.State, pc: int, fs: nat) {
    && MemAgrees(allocs, st', m'.ram, m'.fp, fs)
    && m'.pc == pc && m'.sp == m.sp && m'.fp == m.fp && m'.printed == st'.printed
    && Kept(m.ram, m'.ram, m.sp, m.fp - fs)
  }

  /** The code that pops a value into memory. */
  lemma SimSave(c: M.Chip, lab: map<string, nat>, g: G.Gen, addr: nat, scope: A.Scope, m: M.State, fs: nat)
    requires |c.rom| <= M.ROM_WORDS && G.Valid(g)
    requires C.SaveVar(g, addr, scope).Ok? && L.Linked(c.rom, lab, C.SaveVar(g, addr, scope).value)
    requires if scope == A.GLOBAL then addr < M.RAM_WORDS else addr <= m.fp < M.RAM_WORDS
    requires m.pc == |g.prog| && 1 <= m.sp < C.GLOBAL_BASE
    requires m.fp < M.RAM_WORDS
    ensures var g' := C.SaveVar(g, addr, scope).value;
            var m' := M.Run(c, |g'.prog| - |g.prog|, m);
            && m'.pc == |g'.prog| && m'.sp == m.sp - 1 && m'.fp == m.fp && m'.printed == m.printed
            && exists ram {:trigger Scratch(m.ram, ram, m.sp)} ::
                 Scratch(m.ram, ram, m.sp) && m'.ram == StoreCell(ram, m.fp, addr, scope, m.ram[m.sp - 1])
    ensures Within(c, |C.SaveVar(g, addr, scope).value.prog| - |g.prog|, m)
  {
    hide Within, G.Valid, L.Linked, L.Extends, M.Step, Asm.Pack;
    if scope == A.GLOBAL {
      var g1 := G.Emit(g, addr);
      L.EmitExtends(g, addr);
      L.EmittedWord(c.rom, lab, g1, Asm.STMEM);
      L.EmitExtends(g1, Asm.STMEM);
      L.LinkedBack(c.rom, lab, g1, G.Emit(g1, Asm.STMEM));
      L.EmittedWord(c.rom, lab, g, addr);
      StepConst(c, m, addr);
      var m1 := M.Step(c, m);
      StepSave(c, m1);
      WithinTwo(c, m);
      assert M.Run(c, 2, m) == M.Run(c, 1, m1) == M.Step(c, m1);
      assert Scratch(m.ram, m1.ram, m.sp);
    } else {
      L.EmittedWord(c.rom, lab, g, Asm.Stfpmem(0 - addr).value);
      StepStackSave(c, m, addr);
      WithinOne(c, m);
      assert M.Run(c, 1, m) == M.Step(c, m);
      assert Scratch(m.ram, m.ram, m.sp);
    }
  }

  /** Pops a value into a declared name. */
  lemma SimStore(c: M.Chip, lab: map<string, nat>, allocs: seq<A.Alloc>, g: G.Gen, x: string, addr: nat, scope: A.Scope,
                 st: S.Store, m: M.State, fs: nat)
    requires |c.rom| <= M.ROM_WORDS && G.Valid(g) && C.Declaration(allocs, x) == Some((addr, scope))
    requires C.SaveVar(g, addr, scope).Ok? && L.Linked(c.rom, lab, C.SaveVar(g, addr, scope).value)
    requires MemAgrees(allocs, st, m.ram, m.fp, fs)
    requires m.pc == |g.prog| && 1 <= m.sp < C.GLOBAL_BASE
    requires m.fp < M.RAM_WORDS
    ensures var g' := C.SaveVar(g, addr, scope).value;
            var m' := M.Run(c, |g'.prog| - |g.prog|, m);
            var v := m.ram[m.sp - 1];
            && S.Update(st, x, v).Some? && S.Update(st, x, v).value.printed == st.printed
            && MemAgrees(allocs, S.Update(st, x, v).value, m'.ram, m'.fp, fs)
            && m'.pc == |g'.prog| && m'.sp == m.sp - 1 && m'.fp == m.fp && m'.printed == m.printed
            && Kept(m.ram, m'.ram, m.sp, m.fp - fs)
    ensures Within(c, |C.SaveVar(g, addr, scope).value.prog| - |g.prog|, m)
  {
    hide Within, MemAgrees, G.Valid, L.Linked, M.Run, C.Declaration, C.SaveVar, S.Update;
    var v := m.ram[m.sp - 1];
    StoreAgrees(allocs, st, m.ram, m.fp, fs, x, v);
    SaveGrows(g, addr, scope);
    SimSave(c, lab, g, addr, scope, m, fs);
    var m' := M.Run(c, |C.SaveVar(g, addr, scope).value.prog| - |g.prog|, m);
    var ram: M.Ram :| Scratch(m.ram, ram, m.sp) && m'.ram == StoreCell(ram, m.fp, addr, scope, v);
    ScratchAgrees(allocs, st, m.ram, ram, m.fp, fs, m.sp);
    StoreAgrees(allocs, st, ram, m.fp, fs, x, v);
  }

  lemma PushedThenKept(allocs: seq<A.Alloc>, st': S.Store, m: M.State, m1: M.State, m2: M.State, pc1: int, v: Word,
                       pc: int, fs: nat)
    requires Pushed(m, m1, pc1, v) && Kept(m1.ram, m2.ram, m1.sp, m1.fp - fs)
    requires m2.pc == pc && m2.sp == m1.sp - 1 && m2.fp == m1.fp && m2.printed == m1.printed && m.printed == st'.printed
    requires MemAgrees(allocs, st', m2.ram, m2.fp, fs)
    ensures Advanced(allocs, st', m, m2, pc, fs)
  {
    hide MemAgrees;
  }

  lemma SetLinked(c: M.Chip, lab: map<string, nat>, allocs: seq<A.Alloc>, g: G.Gen, e: Expr, addr: nat, scope: A.Scope)
    requires G.Valid(g) && C.CompileExpr(allocs, g, e).Ok?
    requires var g1 := C.CompileExpr(allocs, g, e).value;
             C.SaveVar(g1, addr, scope).Ok? && L.Linked(c.rom, lab, C.SaveVar(g1, addr, scope).value)
    ensures var g1 := C.CompileExpr(allocs, g, e).value;
            G.Valid(g1) && L.Linked(c.rom, lab, g1) && |g.prog| <= |g1.prog| < |C.SaveVar(g1, addr, scope).value.prog|
  {
    hide G.Valid, L.Linked, L.Extends, C.CompileExpr, C.SaveVar;
    var g1 := C.CompileExpr(allocs, g, e).value;
    L.ExprExtends(allocs, g, e);
    L.VarExtends(g1, addr, scope);
    L.LinkedBack(c.rom, lab, g1, C.SaveVar(g1, addr, scope).value);
    SaveGrows(g1, addr, scope);
  }

  /** The code that stores a value just computed. */
  lemma StorePushed(c: M.Chip, lab: map<string, nat>, allocs: seq<A.Alloc>, g: G.Gen, x: string, addr: nat,
                    scope: A.Scope, st: S.Store, m: M.State, k: nat, v: Word, fs: nat)
    requires |c.rom| <= M.ROM_WORDS && G.Valid(g) && C.Declaration(allocs, x) == Some((addr, scope))
    requires C.SaveVar(g, addr, scope).Ok? && L.Linked(c.rom, lab, C.SaveVar(g, addr, scope).value)
    requires |g.prog| <= |C.SaveVar(g, addr, scope).value.prog|
    requires MemAgrees(allocs, st, m.ram, m.fp, fs) && m.printed == st.printed
    requires Pushed(m, M.Run(c, k, m), |g.prog|, v) && Within(c, k, m)
    requires m.sp + 2 <= C.GLOBAL_BASE && m.fp < M.RAM_WORDS
    ensures var g' := C.SaveVar(g, addr, scope).value;
            var n := k + |g'.prog| - |g.prog|;
            && S.Update(st, x, v).Some? && Within(c, n, m)
            && Advanced(allocs, S.Update(st, x, v).value, m, M.Run(c, n, m), |g'.prog|, fs)
  {
    hide Within, MemAgrees, G.Valid, L.Linked, M.Run, C.Declaration, C.SaveVar, S.Update, Scratch, Kept, Advanced;
    var g', m1 := C.SaveVar(g, addr, scope).value, M.Run(c, k, m);
    var n := |g'.prog| - |g.prog|;
    AfterPush(allocs, st, m, m1, |g.prog|, v, fs);
    SimStore(c, lab, allocs, g, x, addr, scope, st, m1, fs);
    WithinBoth(c, k, n, m);
    M.RunAdd(c, k, n, m);
    PushedThenKept(allocs, S.Update(st, x, v).value, m, m1, M.Run(c, k + n, m), |g.prog|, v, |g'.prog|, fs);
  }

  /** Evaluate, then store into a declared name. */
  lemma SimSet(c: M.Chip, lab: map<string, nat>, w: S.World, allocs: seq<A.Alloc>, g: G.Gen, x: string, e: Expr,
               addr: nat, scope: A.Scope, st: S.Store, m: M.State, fs: nat)
    requires Matches(w, c) && G.Valid(g) && C.CompileExpr(allocs, g, e).Ok?
        && C.Declaration(allocs, x) == Some((addr, scope))
    requires var g1 := C.CompileExpr(allocs, g, e).value;
             C.SaveVar(g1, addr, scope).Ok? && L.Linked(c.rom, lab, C.SaveVar(g1, addr, scope).value)
    requires MemAgrees(allocs, st, m.ram, m.fp, fs) && S.Eval(w, e, st).Some?
    requires m.pc == |g.prog| && m.sp + Need(e) <= C.GLOBAL_BASE && m.sp + 2 <= C.GLOBAL_BASE
    requires m.printed == st.printed
    requires m.fp < M.RAM_WORDS
    ensures var g1 := C.CompileExpr(allocs, g, e).value;
            var g2 := C.SaveVar(g1, addr, scope).value;
            && S.Update(st, x, S.Eval(w, e, st).value).Some?
            && Advanced(allocs, S.Update(st, x, S.Eval(w, e, st).value).value,
                        m, M.Run(c, |g2.prog| - |g.prog|, m), |g2.prog|, fs)
    ensures |g.prog| < |C.SaveVar(C.CompileExpr(allocs, g, e).value, addr, scope).value.prog|
    ensures Within(c, |C.SaveVar(C.CompileExpr(allocs, g, e).value, addr, scope).value.prog| - |g.prog|, m)
  {
    hide Within, MemAgrees, G.Valid, L.Linked, L.Extends, M.Run, S.Eval, C.CompileExpr, C.Declaration, C.SaveVar,
         S.Update, Need, Pushed, Advanced;
    SetLinked(c, lab, allocs, g, e, addr, scope);
    SimExpr(c, lab, w, allocs, g, e, st, m, fs);
    var g1 := C.CompileExpr(allocs, g, e).value;
    StorePushed(c, lab, allocs, g1, x, addr, scope, st, m, |g1.prog| - |g.prog|, S.Eval(w, e, st).value, fs);
  }

  lemma SaveGrows(g: G.Gen, addr: nat, scope: A.Scope)
    requires C.SaveVar(g, addr, scope).Ok?
    ensures |g.prog| < |C.SaveVar(g, addr, scope).value.prog|
  {
  }

  // ----- the statements -----

  lemma SimAssign(c: M.Chip, lab: map<string, nat>, w: S.World, st: C.State, x: string, e: Expr,
                  s: S.Store, m: M.State, fs: nat) returns (n: nat)
    requires C.Ready(st) && Matches(w, c) && G.Valid(st.gen) && C.CompileAssign(st, x, e).Ok?
    requires L.Linked(c.rom, lab, C.CompileAssign(st, x, e).value.gen)
    requires MemAgrees(st.allocs, s, m.ram, m.fp, fs) && S.Eval(w, e, s).Some?
    requires m.pc == |st.gen.prog| && m.sp + Need(e) <= C.GLOBAL_BASE && m.sp + 2 <= C.GLOBAL_BASE
    requires m.printed == s.printed
    requires m.fp < M.RAM_WORDS
    ensures S.Update(s, x, S.Eval(w, e, s).value).Some?
    ensures Advanced(st.allocs, S.Update(s, x, S.Eval(w, e, s).value).value,
                     m, M.Run(c, n, m), |C.CompileAssign(st, x, e).value.gen.prog|, fs)
    ensures Within(c, n, m) && n >= 1
  {
    hide Within, MemAgrees, G.Valid, L.Linked, S.Eval, C.CompileExpr, C.Declaration, C.SaveVar, S.Update, Advanced,
         M.Run;
    var (addr, scope) := C.Declaration(st.allocs, x).value;
    SimSet(c, lab, w, st.allocs, st.gen, x, e, addr, scope, s, m, fs);
    n := |C.CompileAssign(st, x, e).value.gen.prog| - |st.gen.prog|;
  }

  lemma SimPrint(c: M.Chip, lab: map<string, nat>, w: S.World, st: C.State, e: Expr,
                 s: S.Store, m: M.State, fs: nat) returns (n: nat)
    requires C.Ready(st) && Matches(w, c) && G.Valid(st.gen) && C.CompilePrint(st, e).Ok?
    requires L.Linked(c.rom, lab, C.CompilePrint(st, e).value.gen)
    requires MemAgrees(st.allocs, s, m.ram, m.fp, fs) && S.Eval(w, e, s).Some?
    requires m.pc == |st.gen.prog| && m.sp + Need(e) <= C.GLOBAL_BASE && m.sp + 2 <= C.GLOBAL_BASE
    requires m.printed == s.printed
    requires m.fp < M.RAM_WORDS
    ensures Advanced(st.allocs, s.(printed := s.printed + [S.Eval(w, e, s).value]),
                     m, M.Run(c, n, m), |C.CompilePrint(st, e).value.gen.prog|, fs)
    ensures Within(c, n, m) && n >= 1
  {
    hide Within, MemAgrees, G.Valid, L.Linked, L.Extends, M.Step, Asm.Pack, S.Eval, C.CompileExpr;
    var g1 := C.CompileExpr(st.allocs, st.gen, e).value;
    var g2 := G.Emit(g1, C.PRINT_PORT);
    L.ExprExtends(st.allocs, st.gen, e);
    L.EmitExtends(g1, C.PRINT_PORT);
    L.EmitExtends(g2, Asm.STMEM);
    L.LinkedBack(c.rom, lab, g2, G.Emit(g2, Asm.STMEM));
    L.LinkedBack(c.rom, lab, g1, g2);
    L.EmittedWord(c.rom, lab, g1, C.PRINT_PORT);
    L.EmittedWord(c.rom, lab, g2, Asm.STMEM);
    SimExpr(c, lab, w, st.allocs, st.gen, e, s, m, fs);
    var k := |g1.prog| - |st.gen.prog|;
    var m1 := M.Run(c, k, m);
    StepConst(c, m1, C.PRINT_PORT);
    var m2 := M.Step(c, m1);
    StepPrint(c, m2);
    n := k + 2;
    WithinTwo(c, m1);
    WithinBoth(c, k, 2, m);
    M.RunAdd(c, k, 2, m);
    assert M.Run(c, 2, m1) == M.Run(c, 1, m2) == M.Step(c, m2);
    assert Scratch(m.ram, m2.ram, m.sp);
    ScratchAgrees(st.allocs, s, m.ram, m2.ram, m.fp, fs, m.sp);
    PrintedOnly(st.allocs, s, m2.ram, m.fp, fs, s.printed + [S.Eval(w, e, s).value]);
  }

  lemma PrintedOnly(allocs: seq<A.Alloc>, s: S.Store, ram: M.Ram, fp: int, fs: nat, printed: seq<Word>)
    requires MemAgrees(allocs, s, ram, fp, fs)
    ensures MemAgrees(allocs, s.(printed := printed), ram, fp, fs)
  {
  }

  /** The frame or the global area has room for what has been allocated. */
  predicate HasRoom(allocs: seq<A.Alloc>, fs: nat) {
    && (|allocs| == 1 ==> C.GLOBAL_BASE + allocs[0].firstFree <= C.FRAME_BASE)
    && (|allocs| == 2 ==> allocs[1].firstFree <= fs)
  }

  /** Declaring a name keeps the agreement, and the name is then found at its slot. */
  lemma IntroduceMem(st: C.State, s: S.Store, ram: M.Ram, fp: int, fs: nat, x: string)
    requires C.Ready(st) && MemAgrees(st.allocs, s, ram, fp, fs)
    requires A.Valid(C.Last(st)) && A.Declare(C.Last(st), x).Ok?
    requires HasRoom(C.WithLast(st, A.Declare(C.Last(st), x).value.0).allocs, fs)
    ensures var d := A.Declare(C.Last(st), x).value;
            var allocs' := C.WithLast(st, d.0).allocs;
            && MemAgrees(allocs', S.Introduce(s, x), ram, fp, fs)
            && S.Introduce(s, x).printed == s.printed
            && C.Declaration(allocs', x) == Some((d.0.base + d.1, d.0.scope))
  {
    hide A.Valid, A.Declare, S.Introduce, GlobalsAgree, LocalsAgree, FrameFits;
    var a := C.Last(st);
    A.DeclareShape(a, x);
    DeclaredFound(st, x);
    IntroducedPrinted(s, x);
    if |st.allocs| == 1 {
      IntroduceGlobalAgrees(a, s, ram, x);
    } else {
      IntroduceAgrees(a, s, ram, fp, x);
      DeclaredFits(a, x, fs);
    }
  }

  lemma IntroducedPrinted(s: S.Store, x: string)
    ensures S.Introduce(s, x).printed == s.printed
  {}

  lemma DeclaredFound(st: C.State, x: string)
    requires C.Ready(st) && A.Declare(C.Last(st), x).Ok?
    ensures var d := A.Declare(C.Last(st), x).value;
            C.Declaration(C.WithLast(st, d.0).allocs, x) == Some((d.0.base + d.1, d.0.scope))
  {}

  lemma DeclaredFits(a: A.Alloc, x: string, fs: nat)
    requires A.Valid(a) && A.Declare(a, x).Ok? && A.Declare(a, x).value.0.firstFree <= fs
    ensures FrameFits(A.Declare(a, x).value.0.blocks, fs)
  {
    hide A.Declare;
    A.DeclareValid(a, x);
    var a' := A.Declare(a, x).value.0;
    forall slot | slot in A.Live(a'.blocks) ensures slot < fs {
      assert slot in A.Range(a'.firstFree);
    }
  }

  lemma SimDeclare(c: M.Chip, lab: map<string, nat>, w: S.World, st: C.State, x: string, e: Expr,
                   s: S.Store, m: M.State, fs: nat) returns (n: nat)
    requires C.Ready(st) && Matches(w, c) && G.Valid(st.gen) && C.CompileVarDecl(st, x, e).Ok?
    requires L.Linked(c.rom, lab, C.CompileVarDecl(st, x, e).value.gen)
    requires MemAgrees(st.allocs, s, m.ram, m.fp, fs) && A.Valid(C.Last(st))
    requires HasRoom(C.CompileVarDecl(st, x, e).value.allocs, fs)
    requires S.Declare(w, x, e, s).Some?
    requires m.pc == |st.gen.prog| && m.sp + Need(e) <= C.GLOBAL_BASE && m.sp + 2 <= C.GLOBAL_BASE
    requires m.printed == s.printed
    requires m.fp < M.RAM_WORDS
    ensures Advanced(C.CompileVarDecl(st, x, e).value.allocs, S.Declare(w, x, e, s).value,
                     m, M.Run(c, n, m), |C.CompileVarDecl(st, x, e).value.gen.prog|, fs)
    ensures Within(c, n, m) && n >= 1
  {
    hide Within, MemAgrees, G.Valid, L.Linked, A.Valid, S.Eval, C.CompileExpr, C.Declaration, C.SaveVar, S.Update,
         Advanced, M.Run, S.Introduce;
    var d := A.Declare(C.Last(st), x).value;
    var st1 := C.WithLast(st, d.0);
    IntroduceMem(st, s, m.ram, m.fp, fs, x);
    SimSet(c, lab, w, st1.allocs, st.gen, x, e, d.0.base + d.1, d.0.scope, S.Introduce(s, x), m, fs);
    n := |C.CompileVarDecl(st, x, e).value.gen.prog| - |st.gen.prog|;
  }
}
