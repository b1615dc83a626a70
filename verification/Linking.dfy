/**
 How the code of an intermediate state of the compiler reappears in the linked
 program: emission only extends, so what was emitted early stays where it was put.
 */
module Linking {
  import opened Results
  import opened Words
  import opened Syntax
  import opened CodeGen
  import Asm = Assembler
  import A = Allocator
  import C = Compiler

  /** `g'` was reached from `g` by further emission. */
  ghost predicate Extends(g: Gen, g': Gen) {
    && |g.prog| <= |g'.prog|
    && (forall name :: name in g.labels ==> name in g'.labels && g'.labels[name] == g.labels[name])
    && (forall name :: name in g.refs ==> name in g'.refs)
    && (forall name, p {:trigger p in g.refs[name]} :: name in g.refs && p in g.refs[name] ==> p in g'.refs[name])
    && (forall i: nat :: i < |g.prog| && IsRef(g', i) ==> IsRef(g, i))
    && (forall i: nat :: i < |g.prog| && i !in g.fpAdds ==> i !in g'.fpAdds && g'.prog[i] == g.prog[i])
  }

  /** `rom` and the final label table `lab` agree with everything `g` has settled. */
  ghost predicate Linked(rom: seq<Word>, lab: map<string, nat>, g: Gen) {
    && |g.prog| <= |rom|
    && (forall name :: name in g.labels ==> name in lab && lab[name] == g.labels[name])
    && (forall name, p {:trigger p in g.refs[name]} :: name in g.refs && p in g.refs[name] && p < |rom| ==>
          name in lab && rom[p] == lab[name] && Asm.FitsConstant(lab[name]))
    && (forall i: nat :: i < |g.prog| && !IsRef(g, i) && i !in g.fpAdds ==> rom[i] == g.prog[i])
  }

  lemma ExtendsRefl(g: Gen)
    ensures Extends(g, g)
  {
  }

  lemma ExtendsGrows(g: Gen, g': Gen)
    requires Extends(g, g')
    ensures |g.prog| <= |g'.prog|
  {
  }

  lemma ExtendsTrans(g: Gen, g1: Gen, g2: Gen)
    requires Extends(g, g1) && Extends(g1, g2)
    ensures Extends(g, g2)
  {
    hide IsRef;
  }

  lemma LinkedBack(rom: seq<Word>, lab: map<string, nat>, g: Gen, g': Gen)
    requires Extends(g, g') && Linked(rom, lab, g')
    ensures Linked(rom, lab, g)
  {
    hide IsRef;
  }

  lemma ResolvedIsLinked(g: Gen, rom: seq<Word>)
    requires Resolved(g, rom)
    ensures Linked(rom, g.labels, g)
  {
  }

  // ----- single emissions -----

  lemma EmitExtends(g: Gen, w: Word)
    requires Valid(g)
    ensures Valid(Emit(g, w)) && Extends(g, Emit(g, w))
  {
    assert forall i: nat :: IsRef(Emit(g, w), i) <==> IsRef(g, i);
  }

  lemma RefIsRef(g: Gen, name: string, i: nat)
    requires Valid(g)
    ensures IsRef(Ref(g, name), i) <==> IsRef(g, i) || i == |g.prog|
  {
    var g' := Ref(g, name);
    if IsRef(g, i) {
      var n :| n in g.refs && i in g.refs[n];
      assert n in g'.refs && i in g'.refs[n];
    }
    if i == |g.prog| {
      assert name in g'.refs && i in g'.refs[name];
    }
  }

  lemma RefExtends(g: Gen, name: string)
    requires Valid(g)
    ensures Valid(Ref(g, name)) && Extends(g, Ref(g, name))
  {
    forall i: nat ensures IsRef(Ref(g, name), i) <==> IsRef(g, i) || i == |g.prog| {
      RefIsRef(g, name, i);
    }
    hide IsRef;
  }

  lemma DeclareExtends(g: Gen, name: string)
    requires Valid(g) && name !in g.labels
    ensures Valid(DeclareLabel(g, name).value) && Extends(g, DeclareLabel(g, name).value)
  {
    assert forall i: nat :: IsRef(DeclareLabel(g, name).value, i) <==> IsRef(g, i);
  }

  /** The word emitted last is in the program. */
  lemma EmittedWord(rom: seq<Word>, lab: map<string, nat>, g: Gen, w: Word)
    requires Valid(g) && Linked(rom, lab, Emit(g, w))
    ensures |g.prog| < |rom| && rom[|g.prog|] == w
  {
    assert Emit(g, w).prog[|g.prog|] == w;
    assert !IsRef(Emit(g, w), |g.prog|);
  }

  /** A reference emitted last holds its label's address. */
  lemma RefWord(rom: seq<Word>, lab: map<string, nat>, g: Gen, name: string)
    requires Linked(rom, lab, Ref(g, name))
    ensures |g.prog| < |rom| && name in lab && rom[|g.prog|] == lab[name] && Asm.FitsConstant(lab[name])
  {
    var g' := Ref(g, name);
    assert name in g'.refs && |g.prog| in g'.refs[name];
  }

  // ----- the visits -----

  lemma VarExtends(g: Gen, addr: nat, scope: A.Scope)
    requires Valid(g)
    ensures var r := C.LoadVar(g, addr, scope); r.Ok? ==> Valid(r.value) && Extends(g, r.value)
    ensures var r := C.SaveVar(g, addr, scope); r.Ok? ==> Valid(r.value) && Extends(g, r.value)
  {
    hide Valid, Extends;
    if Asm.FitsConstant(addr) {
      EmitExtends(g, addr);
      var g1 := Emit(g, addr);
      EmitExtends(g1, Asm.LMEM);
      EmitExtends(g1, Asm.STMEM);
      ExtendsTrans(g, g1, Emit(g1, Asm.LMEM));
      ExtendsTrans(g, g1, Emit(g1, Asm.STMEM));
    }
    if Asm.FitsImmediate(0 - addr) {
      EmitExtends(g, Asm.Lfpmem(0 - addr).value);
      EmitExtends(g, Asm.Stfpmem(0 - addr).value);
    }
  }

  lemma {:induction false} ExprExtends(allocs: seq<A.Alloc>, g: Gen, e: Expr)
    requires Valid(g) && C.CompileExpr(allocs, g, e).Ok?
    ensures var g' := C.CompileExpr(allocs, g, e).value; Valid(g') && Extends(g, g')
    decreases e
  {
    hide Valid, Extends;
    match e
    case Number(v) => EmitExtends(g, v);
    case Ident(name) =>
      var (addr, scope) := C.Declaration(allocs, name).value;
      VarExtends(g, addr, scope);
    case Unary(op, arg) =>
      var g1 := C.CompileExpr(allocs, g, arg).value;
      ExprExtends(allocs, g, arg);
      EmitExtends(g1, Asm.Unary(C.AluForUnary(op)));
      ExtendsTrans(g, g1, Emit(g1, Asm.Unary(C.AluForUnary(op))));
    case Binary(op, l, r) =>
      var g1 := C.CompileExpr(allocs, g, l).value;
      var g2 := C.CompileExpr(allocs, g1, r).value;
      ExprExtends(allocs, g, l);
      ExprExtends(allocs, g1, r);
      EmitExtends(g2, Asm.Binary(C.AluFor(op)));
      ExtendsTrans(g, g1, g2);
      ExtendsTrans(g, g2, Emit(g2, Asm.Binary(C.AluFor(op))));
  }

  lemma JumpExtends(g: Gen, name: string)
    requires Valid(g)
    ensures Valid(Jump(g, name)) && Extends(g, Jump(g, name))
  {
    hide Valid, Extends;
    RefExtends(g, name);
    EmitExtends(Ref(g, name), Asm.AJMP);
    ExtendsTrans(g, Ref(g, name), Jump(g, name));
  }

  lemma TestExtends(allocs: seq<A.Alloc>, g: Gen, e: Expr, target: string)
    requires Valid(g) && C.CompileTest(allocs, g, e, target).Ok?
    ensures var g' := C.CompileTest(allocs, g, e, target).value; Valid(g') && Extends(g, g')
  {
    hide Valid, Extends;
    var g1 := C.CompileExpr(allocs, g, e).value;
    ExprExtends(allocs, g, e);
    RefExtends(g1, target);
    EmitExtends(Ref(g1, target), Asm.CJMPZ);
    ExtendsTrans(g, g1, Ref(g1, target));
    ExtendsTrans(g, Ref(g1, target), Emit(Ref(g1, target), Asm.CJMPZ));
  }

  lemma VarDeclExtends(st: C.State, name: string, init: Expr)
    requires C.Ready(st) && Valid(st.gen) && C.CompileVarDecl(st, name, init).Ok?
    ensures var g' := C.CompileVarDecl(st, name, init).value.gen; Valid(g') && Extends(st.gen, g')
  {
    hide Valid, Extends;
    var d := A.Declare(C.Last(st), name).value;
    var st1 := C.WithLast(st, d.0);
    ExprExtends(st1.allocs, st.gen, init);
    var g1 := C.CompileExpr(st1.allocs, st.gen, init).value;
    VarExtends(g1, d.0.base + d.1, d.0.scope);
    ExtendsTrans(st.gen, g1, C.SaveVar(g1, d.0.base + d.1, d.0.scope).value);
  }

  lemma AssignExtends(st: C.State, name: string, e: Expr)
    requires C.Ready(st) && Valid(st.gen) && C.CompileAssign(st, name, e).Ok?
    ensures var g' := C.CompileAssign(st, name, e).value.gen; Valid(g') && Extends(st.gen, g')
  {
    hide Valid, Extends;
    var (addr, scope) := C.Declaration(st.allocs, name).value;
    ExprExtends(st.allocs, st.gen, e);
    var g1 := C.CompileExpr(st.allocs, st.gen, e).value;
    VarExtends(g1, addr, scope);
    ExtendsTrans(st.gen, g1, C.SaveVar(g1, addr, scope).value);
  }

  lemma PrintExtends(st: C.State, e: Expr)
    requires C.Ready(st) && Valid(st.gen) && C.CompilePrint(st, e).Ok?
    ensures var g' := C.CompilePrint(st, e).value.gen; Valid(g') && Extends(st.gen, g')
  {
    hide Valid, Extends;
    ExprExtends(st.allocs, st.gen, e);
    var g1 := C.CompileExpr(st.allocs, st.gen, e).value;
    VarExtends(g1, C.PRINT_PORT, A.GLOBAL);
    ExtendsTrans(st.gen, g1, Save(g1, C.PRINT_PORT).value);
  }

  lemma BeginIfExtends(st: C.State, cond: Expr)
    requires C.Ready(st) && Valid(st.gen) && C.BeginIf(st, cond).Ok?
    ensures var g' := C.BeginIf(st, cond).value.gen; Valid(g') && Extends(st.gen, g')
  {
    hide Valid, Extends;
    TestExtends(C.Open(st).allocs, st.gen, cond, C.Label(st.counter));
  }

  lemma BeginElseExtends(st: C.State, elseBegin: string)
    requires C.Ready(st) && Valid(st.gen) && C.BeginElse(st, elseBegin).Ok?
    ensures var g' := C.BeginElse(st, elseBegin).value.gen; Valid(g') && Extends(st.gen, g')
  {
    hide Valid, Extends;
    var gj := Jump(st.gen, C.Label(st.counter));
    JumpExtends(st.gen, C.Label(st.counter));
    DeclareExtends(gj, elseBegin);
    ExtendsTrans(st.gen, gj, DeclareLabel(gj, elseBegin).value);
  }

  lemma EndIfExtends(st: C.State, target: string, order: A.HashOrder)
    requires C.Ready(st) && Valid(st.gen) && C.EndIf(st, target, order).Ok?
    ensures var g' := C.EndIf(st, target, order).value.gen; Valid(g') && Extends(st.gen, g')
  {
    hide Valid, Extends;
    DeclareExtends(st.gen, target);
  }

  lemma BeginWhileExtends(st: C.State, cond: Expr)
    requires C.Ready(st) && Valid(st.gen) && C.BeginWhile(st, cond).Ok?
    ensures var g' := C.BeginWhile(st, cond).value.gen; Valid(g') && Extends(st.gen, g')
  {
    hide Valid, Extends;
    DeclareExtends(st.gen, C.Label(st.counter));
    var g1 := DeclareLabel(st.gen, C.Label(st.counter)).value;
    TestExtends(C.Open(st).allocs, g1, cond, C.Label(st.counter + 1));
    ExtendsTrans(st.gen, g1, C.CompileTest(C.Open(st).allocs, g1, cond, C.Label(st.counter + 1)).value);
  }

  lemma EndWhileExtends(st: C.State, loop: string, loopEnd: string, order: A.HashOrder)
    requires C.Ready(st) && Valid(st.gen) && C.EndWhile(st, loop, loopEnd, order).Ok?
    ensures var g' := C.EndWhile(st, loop, loopEnd, order).value.gen; Valid(g') && Extends(st.gen, g')
  {
    hide Valid, Extends;
    var gj := Jump(st.gen, loop);
    JumpExtends(st.gen, loop);
    DeclareExtends(gj, loopEnd);
    ExtendsTrans(st.gen, gj, DeclareLabel(gj, loopEnd).value);
  }

  lemma {:induction false} ScopedExtends(st: C.State, s: Stmt, order: A.HashOrder)
    requires C.Ready(st) && Valid(st.gen) && C.CompileScoped(st, s, order).Ok?
    ensures var g' := C.CompileScoped(st, s, order).value.gen; Valid(g') && Extends(st.gen, g')
    decreases s, 3
  {
    hide Valid, Extends;
    StmtExtends(C.Open(st), s, order);
  }

  lemma {:induction false} IfExtends(st: C.State, s: Stmt, order: A.HashOrder)
    requires s.If? && C.Ready(st) && Valid(st.gen) && C.CompileStmt(st, s, order).Ok?
    ensures var g' := C.CompileStmt(st, s, order).value.gen; Valid(g') && Extends(st.gen, g')
    decreases s, 1
  {
    hide Valid, Extends, C.BeginIf, C.EndIf, C.BeginElse, C.CompileScoped;
    var If(cond, thn, els) := s;
    var elseBegin := C.Label(st.counter);
    BeginIfExtends(st, cond);
    var st1 := C.BeginIf(st, cond).value;
    ScopedExtends(st1, thn, order);
    var st2 := C.CompileScoped(st1, thn, order).value;
    ExtendsTrans(st.gen, st1.gen, st2.gen);
    match els {
      case None =>
        EndIfExtends(st2, elseBegin, order);
        ExtendsTrans(st.gen, st2.gen, C.EndIf(st2, elseBegin, order).value.gen);
      case Some(e) =>
        var operatorEnd := C.Label(st2.counter);
        BeginElseExtends(st2, elseBegin);
        var st3 := C.BeginElse(st2, elseBegin).value;
        ScopedExtends(st3, e, order);
        var st4 := C.CompileScoped(st3, e, order).value;
        EndIfExtends(st4, operatorEnd, order);
        ExtendsTrans(st.gen, st2.gen, st3.gen);
        ExtendsTrans(st.gen, st3.gen, st4.gen);
        ExtendsTrans(st.gen, st4.gen, C.EndIf(st4, operatorEnd, order).value.gen);
    }
  }

  lemma {:induction false} WhileExtends(st: C.State, s: Stmt, order: A.HashOrder)
    requires s.While? && C.Ready(st) && Valid(st.gen) && C.CompileStmt(st, s, order).Ok?
    ensures var g' := C.CompileStmt(st, s, order).value.gen; Valid(g') && Extends(st.gen, g')
    decreases s, 1
  {
    hide Valid, Extends, C.BeginWhile, C.EndWhile, C.CompileScoped;
    var While(cond, body) := s;
    var loop, loopEnd := C.Label(st.counter), C.Label(st.counter + 1);
    BeginWhileExtends(st, cond);
    var st1 := C.BeginWhile(st, cond).value;
    ScopedExtends(st1, body, order);
    var st2 := C.CompileScoped(st1, body, order).value;
    EndWhileExtends(st2, loop, loopEnd, order);
    ExtendsTrans(st.gen, st1.gen, st2.gen);
    ExtendsTrans(st.gen, st2.gen, C.EndWhile(st2, loop, loopEnd, order).value.gen);
  }

  lemma {:induction false} StmtExtends(st: C.State, s: Stmt, order: A.HashOrder)
    requires C.Ready(st) && Valid(st.gen) && C.CompileStmt(st, s, order).Ok?
    ensures var g' := C.CompileStmt(st, s, order).value.gen; Valid(g') && Extends(st.gen, g')
    decreases s, 2
  {
    hide Valid, Extends;
    match s
    case If(_, _, _) => IfExtends(st, s, order);
    case While(_, _) => WhileExtends(st, s, order);
    case VarDecl(name, init) => VarDeclExtends(st, name, init);
    case Assign(name, e) => AssignExtends(st, name, e);
    case Print(e) => PrintExtends(st, e);
    case Call(callee) => JumpExtends(st.gen, callee);
    case Block(ss) => StmtsExtends(st, ss, order);
  }

  lemma {:induction false} StmtsExtends(st: C.State, ss: seq<Stmt>, order: A.HashOrder)
    requires C.Ready(st) && Valid(st.gen) && C.CompileStmts(st, ss, order).Ok?
    ensures var g' := C.CompileStmts(st, ss, order).value.gen; Valid(g') && Extends(st.gen, g')
    decreases ss, 0
  {
    hide Valid, Extends, C.CompileStmt;
    if ss == [] {
      assert C.CompileStmts(st, ss, order).value == st;
      ExtendsRefl(st.gen);
    } else {
      StmtExtends(st, ss[0], order);
      var st1 := C.CompileStmt(st, ss[0], order).value;
      StmtsExtends(st1, ss[1..], order);
      ExtendsTrans(st.gen, st1.gen, C.CompileStmts(st1, ss[1..], order).value.gen);
    }
  }
}
