/** The code of an expression pushes the expression's value and touches nothing but the stack. */
module Expressions {
  import opened Results
  import opened Words
  import opened Syntax
  import opened Agreement
  import opened Bounds
  import opened Instructions
  import Asm = Assembler
  import A = Allocator
  import C = Compiler
  import G = CodeGen
  import L = Linking
  import M = Machine
  import S = Semantics

  /** The stack cells an expression needs while it is evaluated. */
  function Need(e: Expr): nat {
    match e
    case Number(_) => 1
    case Ident(_) => 1
    case Unary(_, a) => Need(a)
    case Binary(_, l, r) => if Need(l) > 1 + Need(r) then Need(l) else 1 + Need(r)
  }

  lemma NeedPositive(e: Expr)
    ensures Need(e) >= 1
  {
  }

  /** The memory represents the store, at the top level or inside a function with a frame of `fs` cells. */
  ghost predicate MemAgrees(allocs: seq<A.Alloc>, st: S.Store, ram: M.Ram, fp: int, fs: nat) {
    && 1 <= |allocs| <= 2
    && GlobalsAgree(allocs[0], st.globals, ram)
    && (|allocs| == 1 ==> st.scopes == [])
    && (|allocs| == 2 ==>
          && allocs[1].scope == A.STACK && allocs[1].base == 0
          && LocalsAgree(allocs[1].blocks, st.scopes, ram, fp)
          && FrameFits(allocs[1].blocks, fs)
          && C.FRAME_BASE + fs <= fp < M.RAM_WORDS)
  }

  /** Only the unused part of the stack area, from `sp` up, may differ. */
  predicate Scratch(ram: M.Ram, ram': M.Ram, sp: int) {
    forall a :: 0 <= a < M.RAM_WORDS && !(sp <= a < C.GLOBAL_BASE) ==> ram'[a] == ram[a]
  }

  lemma ScratchAgrees(allocs: seq<A.Alloc>, st: S.Store, ram: M.Ram, ram': M.Ram, fp: int, fs: nat, sp: int)
    requires MemAgrees(allocs, st, ram, fp, fs) && Scratch(ram, ram', sp)
    ensures MemAgrees(allocs, st, ram', fp, fs)
  {
    GlobalsFrame(allocs[0], st.globals, ram, ram');
    if |allocs| == 2 {
      LocalsFrame(allocs[1].blocks, st.scopes, ram, ram', fp, fs);
    }
  }

  /** `m'` is `m` after straight-line code up to `pc` that pushed `v`. */
  predicate Pushed(m: M.State, m': M.State, pc: int, v: Word) {
    && m'.pc == pc && m'.sp == m.sp + 1 && m'.fp == m.fp && m'.printed == m.printed
    && m.sp < M.RAM_WORDS && m'.ram[m.sp] == v && Scratch(m.ram, m'.ram, m.sp)
  }

  // ----- variables -----

  lemma VariableCell(allocs: seq<A.Alloc>, st: S.Store, ram: M.Ram, fp: int, fs: nat, x: string)
    requires MemAgrees(allocs, st, ram, fp, fs)
    requires C.Declaration(allocs, x).Some? && S.Lookup(st, x).Some?
    ensures var (addr, scope) := C.Declaration(allocs, x).value;
            var v := S.Lookup(st, x).value;
            if scope == A.GLOBAL then C.GLOBAL_BASE <= addr < C.FRAME_BASE && ram[addr] == v
            else addr <= fp < M.RAM_WORDS && ram[fp - addr] == v
  {
    var g := allocs[0];
    assert g.blocks[..0] == [];
    assert A.SlotOf(g.blocks, x) == if x in g.blocks[0].vars then Some(g.blocks[0].vars[x]) else None;
    if x in g.blocks[0].vars {
      A.BoundIsLive(g.blocks, 0, x);
    }
    hide A.Valid, A.SlotOf;
    if |allocs| == 2 {
      LocalLookup(allocs[1].blocks, st, ram, fp, x);
      assert allocs[..1] == [g];
    }
  }

  lemma SimLoad(c: M.Chip, lab: map<string, nat>, g: G.Gen, addr: nat, m: M.State)
    requires |c.rom| <= M.ROM_WORDS && G.Valid(g) && addr < C.FRAME_BASE
    requires L.Linked(c.rom, lab, G.Load(g, addr).value)
    requires m.pc == |g.prog| && m.sp < C.GLOBAL_BASE
    requires !(m.sp <= addr < C.GLOBAL_BASE)
    requires m.fp < M.RAM_WORDS
    ensures Pushed(m, M.Run(c, 2, m), |g.prog| + 2, m.ram[addr])
    ensures Within(c, 2, m)
  {
    hide M.Step, Within, G.Valid, L.Linked, L.Extends, Asm.Pack;
    var g1 := G.Emit(g, addr);
    L.EmitExtends(g, addr);
    L.EmittedWord(c.rom, lab, g1, Asm.LMEM);
    L.EmitExtends(g1, Asm.LMEM);
    L.LinkedBack(c.rom, lab, g1, G.Emit(g1, Asm.LMEM));
    L.EmittedWord(c.rom, lab, g, addr);
    StepConst(c, m, addr);
    var m1 := M.Step(c, m);
    StepLoad(c, m1);
    WithinTwo(c, m);
    assert M.Run(c, 2, m) == M.Run(c, 1, m1) == M.Step(c, m1);
  }

  lemma SimStackLoad(c: M.Chip, lab: map<string, nat>, g: G.Gen, addr: nat, m: M.State)
    requires |c.rom| <= M.ROM_WORDS && G.Valid(g) && C.LoadVar(g, addr, A.STACK).Ok?
    requires L.Linked(c.rom, lab, C.LoadVar(g, addr, A.STACK).value)
    requires m.pc == |g.prog| && m.sp < C.GLOBAL_BASE && addr <= m.fp < M.RAM_WORDS
    ensures var g' := C.LoadVar(g, addr, A.STACK).value;
            Pushed(m, M.Run(c, |g'.prog| - |g.prog|, m), |g'.prog|, m.ram[m.fp - addr])
    ensures Within(c, |C.LoadVar(g, addr, A.STACK).value.prog| - |g.prog|, m)
  {
    hide M.Step, Within, G.Valid, L.Linked, Asm.Pack;
    L.EmittedWord(c.rom, lab, g, Asm.Lfpmem(0 - addr).value);
    StepStackLoad(c, m, addr);
    WithinOne(c, m);
    assert M.Run(c, 1, m) == M.Step(c, m);
  }

  lemma SimVar(c: M.Chip, lab: map<string, nat>, allocs: seq<A.Alloc>, g: G.Gen, x: string,
               st: S.Store, m: M.State, fs: nat)
    requires |c.rom| <= M.ROM_WORDS && G.Valid(g) && C.Declaration(allocs, x).Some?
    requires var (addr, scope) := C.Declaration(allocs, x).value;
             C.LoadVar(g, addr, scope).Ok? && L.Linked(c.rom, lab, C.LoadVar(g, addr, scope).value)
    requires MemAgrees(allocs, st, m.ram, m.fp, fs) && S.Lookup(st, x).Some?
    requires m.pc == |g.prog| && m.sp < C.GLOBAL_BASE
    requires m.fp < M.RAM_WORDS
    ensures var (addr, scope) := C.Declaration(allocs, x).value;
            var g' := C.LoadVar(g, addr, scope).value;
            Pushed(m, M.Run(c, |g'.prog| - |g.prog|, m), |g'.prog|, S.Lookup(st, x).value)
                && Within(c, |g'.prog| - |g.prog|, m)
  {
    hide MemAgrees, C.Declaration, S.Lookup, M.Step, M.Run, G.Valid, L.Linked, Asm.Pack, Pushed, Within;
    var (addr, scope) := C.Declaration(allocs, x).value;
    VariableCell(allocs, st, m.ram, m.fp, fs, x);
    if scope == A.GLOBAL {
      SimLoad(c, lab, g, addr, m);
    } else {
      SimStackLoad(c, lab, g, addr, m);
    }
  }

  // ----- operators -----

  /** The emitted operation computes the operator's value, `|` and `^` read as AND. */
  lemma AluMatches(w: S.World, op: BinOp, a: Word, b: Word)
    requires w.dialect == S.Emitted
    ensures M.Alu(w.z, C.AluFor(op), a, b) == S.BinaryValue(w, op, a, b)
  {
    hide Bitwise, ShiftLeft, ShiftRight;
  }

  lemma AluMatchesUnary(w: S.World, op: UnOp, a: Word)
    ensures M.Alu(w.z, C.AluForUnary(op), a, 0) == S.UnaryValue(op, a)
  {
  }

  /** The operation at the end of a binary expression's code, after both operands have been pushed. */
  lemma SimBinary(c: M.Chip, lab: map<string, nat>, g: G.Gen, op: BinOp, m: M.State, m1: M.State, m2: M.State,
                  pc1: int, a: Word, b: Word)
    requires |c.rom| <= M.ROM_WORDS && G.Valid(g) && L.Linked(c.rom, lab, G.Emit(g, Asm.Binary(C.AluFor(op))))
    requires Pushed(m, m1, pc1, a) && Pushed(m1, m2, |g.prog|, b) && m.sp + 2 <= C.GLOBAL_BASE
    requires m.fp < M.RAM_WORDS
    ensures Pushed(m, M.Run(c, 1, m2), |g.prog| + 1, M.Alu(c.z, C.AluFor(op), a, b))
    ensures Within(c, 1, m2)
  {
    hide G.Valid, L.Linked, M.Step, M.Alu, Asm.Pack, C.AluFor, Within;
    L.EmittedWord(c.rom, lab, g, Asm.Binary(C.AluFor(op)));
    StepBinary(c, m2, C.AluFor(op));
    WithinOne(c, m2);
    assert M.Run(c, 1, m2) == M.Step(c, m2);
  }

  lemma SimUnary(c: M.Chip, lab: map<string, nat>, g: G.Gen, op: UnOp, m: M.State, m1: M.State, a: Word)
    requires |c.rom| <= M.ROM_WORDS && G.Valid(g) && L.Linked(c.rom, lab, G.Emit(g, Asm.Unary(C.AluForUnary(op))))
    requires Pushed(m, m1, |g.prog|, a) && m.sp + 1 <= C.GLOBAL_BASE
    requires m.fp < M.RAM_WORDS
    ensures Pushed(m, M.Run(c, 1, m1), |g.prog| + 1, M.Alu(c.z, C.AluForUnary(op), a, 0))
    ensures Within(c, 1, m1)
  {
    hide G.Valid, L.Linked, M.Step, M.Alu, Asm.Pack, C.AluForUnary, Within;
    L.EmittedWord(c.rom, lab, g, Asm.Unary(C.AluForUnary(op)));
    StepUnary(c, m1, C.AluForUnary(op));
    WithinOne(c, m1);
    assert M.Run(c, 1, m1) == M.Step(c, m1);
  }

  lemma SimNumber(c: M.Chip, lab: map<string, nat>, g: G.Gen, v: Word, m: M.State)
    requires |c.rom| <= M.ROM_WORDS && G.Valid(g) && Asm.FitsConstant(v) && L.Linked(c.rom, lab, G.Emit(g, v))
    requires m.pc == |g.prog| && m.sp + 1 <= C.GLOBAL_BASE
    requires m.fp < M.RAM_WORDS
    ensures Pushed(m, M.Run(c, 1, m), |g.prog| + 1, v)
    ensures Within(c, 1, m)
  {
    hide G.Valid, L.Linked, M.Step, Asm.Pack, Within;
    L.EmittedWord(c.rom, lab, g, v);
    StepConst(c, m, v);
    WithinOne(c, m);
    assert M.Run(c, 1, m) == M.Step(c, m);
  }

  lemma AfterPush(allocs: seq<A.Alloc>, st: S.Store, m: M.State, m1: M.State, pc: int, v: Word, fs: nat)
    requires MemAgrees(allocs, st, m.ram, m.fp, fs) && Pushed(m, m1, pc, v)
    ensures MemAgrees(allocs, st, m1.ram, m1.fp, fs) && m1.pc == pc && m1.sp == m.sp + 1 && m1.fp == m.fp
  {
    hide MemAgrees;
    ScratchAgrees(allocs, st, m.ram, m1.ram, m.fp, fs, m.sp);
  }

  // ----- expressions -----

  lemma {:induction false} SimExpr(c: M.Chip, lab: map<string, nat>, w: S.World, allocs: seq<A.Alloc>, g: G.Gen,
                                   e: Expr, st: S.Store, m: M.State, fs: nat)
    requires w.z == c.z && w.dialect == S.Emitted && |c.rom| <= M.ROM_WORDS
    requires G.Valid(g) && C.CompileExpr(allocs, g, e).Ok?
    requires L.Linked(c.rom, lab, C.CompileExpr(allocs, g, e).value)
    requires MemAgrees(allocs, st, m.ram, m.fp, fs) && S.Eval(w, e, st).Some?
    requires m.pc == |g.prog| && m.sp + Need(e) <= C.GLOBAL_BASE && m.fp < M.RAM_WORDS
    ensures var g' := C.CompileExpr(allocs, g, e).value;
            Pushed(m, M.Run(c, |g'.prog| - |g.prog|, m), |g'.prog|, S.Eval(w, e, st).value)
    ensures Within(c, |C.CompileExpr(allocs, g, e).value.prog| - |g.prog|, m)
    decreases e
  {
    hide MemAgrees, G.Valid, L.Linked, L.Extends, M.Run, M.Alu, S.BinaryValue, S.UnaryValue, Asm.Pack, S.Lookup,
         C.Declaration, Pushed, Within;
    NeedPositive(e);
    match e
    case Number(v) =>
      SimNumber(c, lab, g, v, m);
    case Ident(x) =>
      SimVar(c, lab, allocs, g, x, st, m, fs);
    case Unary(op, arg) =>
      var g1 := C.CompileExpr(allocs, g, arg).value;
      var i := Asm.Unary(C.AluForUnary(op));
      L.ExprExtends(allocs, g, arg);
      L.EmitExtends(g1, i);
      L.LinkedBack(c.rom, lab, g1, G.Emit(g1, i));
      SimExpr(c, lab, w, allocs, g, arg, st, m, fs);
      var n := |g1.prog| - |g.prog|;
      SimUnary(c, lab, g1, op, m, M.Run(c, n, m), S.Eval(w, arg, st).value);
      AluMatchesUnary(w, op, S.Eval(w, arg, st).value);
      M.RunAdd(c, n, 1, m);
      WithinBoth(c, n, 1, m);
    case Binary(op, l, r) =>
      var g1 := C.CompileExpr(allocs, g, l).value;
      var g2 := C.CompileExpr(allocs, g1, r).value;
      var i := Asm.Binary(C.AluFor(op));
      L.ExprExtends(allocs, g, l);
      L.ExprExtends(allocs, g1, r);
      L.EmitExtends(g2, i);
      L.LinkedBack(c.rom, lab, g2, G.Emit(g2, i));
      L.LinkedBack(c.rom, lab, g1, g2);
      NeedPositive(r);
      SimExpr(c, lab, w, allocs, g, l, st, m, fs);
      var n1, n2 := |g1.prog| - |g.prog|, |g2.prog| - |g1.prog|;
      var m1 := M.Run(c, n1, m);
      AfterPush(allocs, st, m, m1, |g1.prog|, S.Eval(w, l, st).value, fs);
      SimExpr(c, lab, w, allocs, g1, r, st, m1, fs);
      SimBinary(c, lab, g2, op, m, m1, M.Run(c, n2, m1), |g1.prog|, S.Eval(w, l, st).value, S.Eval(w, r, st).value);
      AluMatches(w, op, S.Eval(w, l, st).value, S.Eval(w, r, st).value);
      M.RunAdd(c, n1, n2, m);
      M.RunAdd(c, n1 + n2, 1, m);
      WithinBoth(c, n1, n2, m);
      WithinBoth(c, n1 + n2, 1, m);
  }
}
