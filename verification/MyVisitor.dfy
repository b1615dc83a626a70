/** The compiler itself: an object that walks the syntax tree and drives its three helpers. */
module Visitors {
  import opened Results
  import opened Words
  import opened Syntax
  import Asm = Assembler
  import A = Allocator
  import Acceptance
  import C = Compiler
  import Cor = Correctness
  import G = CodeGen
  import opened WellFormed
  import opened CodeGenerators
  import opened LabelGenerators
  import opened VariableAllocators

  class MyVisitor {
    var mAllocators: seq<VariableAllocator>
    const mCodeGen: CodeGenerator
    const mLabelGenerator: LabelGenerator
    const mOrder: A.HashOrder

    function Allocs(): seq<A.Alloc>
      reads this, mAllocators
    {
      seq(|mAllocators|, i requires 0 <= i < |mAllocators| reads this, mAllocators => mAllocators[i].View())
    }

    function View(): C.State
      reads this, mAllocators, mCodeGen, mLabelGenerator
    {
      C.State(mCodeGen.View(), mLabelGenerator.counter, Allocs())
    }

    /** The helpers are distinct objects, set up by the constructors. */
    ghost predicate Valid()
      reads this, mAllocators
    {
      && mLabelGenerator.prefix == "L"
      && (forall i, j :: 0 <= i < j < |mAllocators| ==> mAllocators[i] != mAllocators[j])
      && (forall i :: 0 <= i < |mAllocators| ==> mAllocators[i].mOrder == mOrder)
    }

    constructor (order: A.HashOrder)
      ensures Valid() && View() == C.INITIAL && mOrder == order
      ensures fresh(mCodeGen) && fresh(mLabelGenerator) && fresh(mAllocators)
    {
      mOrder := order;
      mCodeGen := new CodeGenerator();
      mLabelGenerator := new LabelGenerator("L");
      var a := new VariableAllocator(C.GLOBAL_BASE, A.GLOBAL, order);
      mAllocators := [a];
    }

    // ----- names -----

    method GetDeclaration(name: string) returns (r: Option<(nat, A.Scope)>)
      ensures r == C.Declaration(Allocs(), name)
    {
      var i := |mAllocators|;
      assert Allocs()[..i] == Allocs();
      while i > 0
        invariant 0 <= i <= |mAllocators|
        invariant C.Declaration(Allocs(), name) == C.Declaration(Allocs()[..i], name)
      {
        var addr := mAllocators[i - 1].GetAddr(name);
        assert Allocs()[..i][..i - 1] == Allocs()[..i - 1];
        assert Allocs()[..i][i - 1] == mAllocators[i - 1].View();
        if addr.Some? {
          return Some((addr.value, mAllocators[i - 1].mScope));
        }
        i := i - 1;
      }
      return None;
    }

    // ----- expressions -----

    method CompileLoadVar(addr: nat, scope: A.Scope) returns (r: Result<()>)
      modifies mCodeGen
      ensures match C.LoadVar(old(mCodeGen.View()), addr, scope)
              case Ok(g) => r == Ok(()) && mCodeGen.View() == g
              case Err(e) => r == Err(e)
    {
      if scope == A.GLOBAL {
        r := mCodeGen.CompileLoad(addr);
      } else {
        r := mCodeGen.CompileStackLoad(addr);
      }
    }

    method CompileSaveVar(addr: nat, scope: A.Scope) returns (r: Result<()>)
      modifies mCodeGen
      ensures match C.SaveVar(old(mCodeGen.View()), addr, scope)
              case Ok(g) => r == Ok(()) && mCodeGen.View() == g
              case Err(e) => r == Err(e)
    {
      if scope == A.GLOBAL {
        r := mCodeGen.CompileSave(addr);
      } else {
        r := mCodeGen.CompileStackSave(addr);
      }
    }

    method VisitExpr(e: Expr) returns (r: Result<()>)
      modifies mCodeGen
      ensures match C.CompileExpr(Allocs(), old(mCodeGen.View()), e)
              case Ok(g) => r == Ok(()) && mCodeGen.View() == g
              case Err(error) => r == Err(error)
      decreases e
    {
      match e
      case Number(v) =>
        r := mCodeGen.CompileConst(v);
      case Ident(name) =>
        var decl := GetDeclaration(name);
        if decl == None {
          return Err(VariableMissing(name));
        }
        r := CompileLoadVar(decl.value.0, decl.value.1);
      case Unary(op, arg) =>
        var _ :- VisitExpr(arg);
        mCodeGen.Emit(Asm.Unary(C.AluForUnary(op)));
        r := Ok(());
      case Binary(op, left, right) =>
        var _ :- VisitExpr(left);
        var _ :- VisitExpr(right);
        mCodeGen.Emit(Asm.Binary(C.AluFor(op)));
        r := Ok(());
    }

    // ----- blocks -----

    method StartBlock()
      requires Valid() && mAllocators != []
      modifies mAllocators
      ensures Valid() && View() == C.Open(old(View()))
    {
      mAllocators[|mAllocators| - 1].StartBlock();
      assert Allocs() == C.Open(old(View())).allocs;
    }

    method EndBlock() returns (r: Result<()>)
      requires Valid() && mAllocators != []
      modifies mAllocators
      ensures Valid()
      ensures match C.Close(old(View()), mOrder)
              case Ok(st) => r == Ok(()) && View() == st
              case Err(error) => r == Err(error)
    {
      assert C.Last(View()) == mAllocators[|mAllocators| - 1].View();
      r := mAllocators[|mAllocators| - 1].EndBlock();
      if r.Ok? {
        assert Allocs() == C.Close(old(View()), mOrder).value.allocs;
      }
    }

    // ----- statements -----

    /** Binds a name in the innermost block of the innermost allocator. */
    method Declare(name: string) returns (r: Result<nat>)
      requires Valid() && C.Ready(View())
      modifies mAllocators
      ensures Valid()
      ensures match A.Declare(C.Last(old(View())), name)
              case Ok((a, slot)) => r == Ok(a.base + slot) && View() == C.WithLast(old(View()), a)
              case Err(error) => r == Err(error)
      ensures r.Ok? ==>
                mAllocators != []
                && mAllocators[|mAllocators| - 1].mScope == A.Declare(C.Last(old(View())), name).value.0.scope
    {
      var last := mAllocators[|mAllocators| - 1];
      assert C.Last(View()) == last.View();
      var addr :- last.Alloc(name);
      assert Allocs() == C.WithLast(old(View()), last.View()).allocs;
      r := Ok(addr);
    }

    /** Code that evaluates an expression and pops it into a variable. */
    method CompileInto(e: Expr, addr: nat, scope: A.Scope) returns (r: Result<()>)
      modifies mCodeGen
      ensures var g1 := C.CompileExpr(Allocs(), old(mCodeGen.View()), e);
              match if g1.Ok? then C.SaveVar(g1.value, addr, scope) else g1
              case Ok(g) => r == Ok(()) && mCodeGen.View() == g
              case Err(error) => r == Err(error)
    {
      hide C.CompileExpr, C.SaveVar;
      var _ :- VisitExpr(e);
      r := CompileSaveVar(addr, scope);
    }

    method VisitVarDecl(name: string, init: Expr) returns (r: Result<()>)
      requires Valid() && C.Ready(View())
      modifies mCodeGen, mAllocators
      ensures Valid()
      ensures match C.CompileVarDecl(old(View()), name, init)
              case Ok(st) => r == Ok(()) && View() == st
              case Err(error) => r == Err(error)
    {
      hide C.CompileExpr, C.SaveVar, A.Declare, Valid, Allocs;
      var addr :- Declare(name);
      r := CompileInto(init, addr, mAllocators[|mAllocators| - 1].mScope);
    }

    method VisitAssign(name: string, e: Expr) returns (r: Result<()>)
      requires Valid() && C.Ready(View())
      modifies mCodeGen
      ensures match C.CompileAssign(old(View()), name, e)
              case Ok(st) => r == Ok(()) && View() == st
              case Err(error) => r == Err(error)
    {
      hide C.CompileExpr, C.SaveVar;
      var decl := GetDeclaration(name);
      if decl == None {
        return Err(VariableMissing(name));
      }
      r := CompileInto(e, decl.value.0, decl.value.1);
    }

    method VisitPrint(e: Expr) returns (r: Result<()>)
      requires Valid() && C.Ready(View())
      modifies mCodeGen
      ensures match C.CompilePrint(old(View()), e)
              case Ok(st) => r == Ok(()) && View() == st
              case Err(error) => r == Err(error)
    {
      var _ :- VisitExpr(e);
      r := mCodeGen.CompileSave(C.PRINT_PORT);
    }

    // The phases of `if` and `while` between their nested visits.

    /** A jump to a label, as for a call. */
    method CompileJump(target: string)
      modifies mCodeGen
      ensures mCodeGen.View() == G.Jump(old(mCodeGen.View()), target)
    {
      mCodeGen.CompileRef(target);
      mCodeGen.Emit(Asm.AJMP);
    }

    method CompileTest(cond: Expr, target: string) returns (r: Result<()>)
      modifies mCodeGen
      ensures match C.CompileTest(Allocs(), old(mCodeGen.View()), cond, target)
              case Ok(g) => r == Ok(()) && mCodeGen.View() == g
              case Err(error) => r == Err(error)
    {
      var _ :- VisitExpr(cond);
      mCodeGen.CompileRef(target);
      mCodeGen.Emit(Asm.CJMPZ);
      r := Ok(());
    }

    method BeginIf(cond: Expr) returns (r: Result<string>)
      requires Valid() && C.Ready(View())
      modifies mCodeGen, mLabelGenerator, mAllocators
      ensures Valid()
      ensures match C.BeginIf(old(View()), cond)
              case Ok(st) => r == Ok(C.Label(old(View()).counter)) && View() == st
              case Err(error) => r == Err(error)
    {
      hide C.CompileTest;
      StartBlock();
      var elseBegin := mLabelGenerator.Next();
      var _ :- CompileTest(cond, elseBegin);
      r := Ok(elseBegin);
    }

    method BeginElse(elseBegin: string) returns (r: Result<string>)
      requires Valid() && C.Ready(View())
      modifies mCodeGen, mLabelGenerator
      ensures match C.BeginElse(old(View()), elseBegin)
              case Ok(st) => r == Ok(C.Label(old(View()).counter)) && View() == st
              case Err(error) => r == Err(error)
    {
      var operatorEnd := mLabelGenerator.Next();
      CompileJump(operatorEnd);
      var _ :- mCodeGen.DeclareLabel(elseBegin);
      r := Ok(operatorEnd);
    }

    method EndIf(target: string) returns (r: Result<()>)
      requires Valid() && C.Ready(View())
      modifies mCodeGen, mAllocators
      ensures Valid()
      ensures match C.EndIf(old(View()), target, mOrder)
              case Ok(st) => r == Ok(()) && View() == st
              case Err(error) => r == Err(error)
    {
      hide C.Close;
      var _ :- mCodeGen.DeclareLabel(target);
      r := EndBlock();
    }

    method StartLoop() returns (r: Result<string>)
      requires Valid() && C.Ready(View())
      modifies mCodeGen, mLabelGenerator, mAllocators
      ensures Valid()
      ensures var st1 := C.Open(old(View())).(counter := old(View()).counter + 1);
              match G.DeclareLabel(st1.gen, C.Label(old(View()).counter))
              case Ok(g) => r == Ok(C.Label(old(View()).counter)) && View() == st1.(gen := g)
              case Err(error) => r == Err(error)
    {
      StartBlock();
      var loop := mLabelGenerator.Next();
      var _ :- mCodeGen.DeclareLabel(loop);
      r := Ok(loop);
    }

    method TestLoop(cond: Expr) returns (r: Result<string>)
      requires Valid() && C.Ready(View())
      modifies mCodeGen, mLabelGenerator
      ensures match C.CompileTest(Allocs(), old(mCodeGen.View()), cond, C.Label(old(mLabelGenerator.counter)))
              case Ok(g) =>
                && r == Ok(C.Label(old(mLabelGenerator.counter)))
                && View() == old(View()).(gen := g, counter := old(View()).counter + 1)
              case Err(error) => r == Err(error)
    {
      hide C.CompileExpr;
      var _ :- VisitExpr(cond);
      var loopEnd := mLabelGenerator.Next();
      mCodeGen.CompileRef(loopEnd);
      mCodeGen.Emit(Asm.CJMPZ);
      r := Ok(loopEnd);
    }

    method BeginWhile(cond: Expr) returns (r: Result<(string, string)>)
      requires Valid() && C.Ready(View())
      modifies mCodeGen, mLabelGenerator, mAllocators
      ensures Valid()
      ensures match C.BeginWhile(old(View()), cond)
              case Ok(st) =>
                r == Ok((C.Label(old(View()).counter), C.Label(old(View()).counter + 1))) && View() == st
              case Err(error) => r == Err(error)
    {
      hide C.CompileTest, C.Label, G.DeclareLabel, C.Open;
      var loop :- StartLoop();
      var loopEnd :- TestLoop(cond);
      r := Ok((loop, loopEnd));
    }

    method EndWhile(loop: string, loopEnd: string) returns (r: Result<()>)
      requires Valid() && C.Ready(View())
      modifies mCodeGen, mAllocators
      ensures Valid()
      ensures match C.EndWhile(old(View()), loop, loopEnd, mOrder)
              case Ok(st) => r == Ok(()) && View() == st
              case Err(error) => r == Err(error)
    {
      hide C.Close;
      CompileJump(loop);
      var _ :- mCodeGen.DeclareLabel(loopEnd);
      r := EndBlock();
    }

    method VisitIf(s: Stmt) returns (r: Result<()>)
      requires s.If? && Valid() && C.Ready(View())
      modifies mCodeGen, mLabelGenerator, mAllocators
      ensures Valid()
      ensures match C.CompileStmt(old(View()), s, mOrder)
              case Ok(st) => r == Ok(()) && View() == st
              case Err(error) => r == Err(error)
      decreases s, 0
    {
      hide C.BeginIf, C.BeginElse, C.EndIf, C.CompileScoped, C.Label, Valid;
      var elseBegin :- BeginIf(s.cond);
      var _ :- VisitScoped(s.thn);
      if s.els.Some? {
        r := VisitElse(s.els.value, elseBegin);
      } else {
        r := EndIf(elseBegin);
      }
    }

    /** The second branch of an `if`, and its end. */
    method VisitElse(els: Stmt, elseBegin: string) returns (r: Result<()>)
      requires Valid() && C.Ready(View())
      modifies mCodeGen, mLabelGenerator, mAllocators
      ensures Valid()
      ensures var r1 := C.BeginElse(old(View()), elseBegin);
              var r2 := if r1.Ok? then C.CompileScoped(r1.value, els, mOrder) else r1;
              match if r2.Ok? then C.EndIf(r2.value, C.Label(old(View()).counter), mOrder) else r2
              case Ok(st) => r == Ok(()) && View() == st
              case Err(error) => r == Err(error)
      decreases els, 3
    {
      hide C.BeginElse, C.EndIf, C.CompileScoped, C.Label, Valid;
      var operatorEnd :- BeginElse(elseBegin);
      var _ :- VisitScoped(els);
      r := EndIf(operatorEnd);
    }

    static lemma WhileCode(st: C.State, s: Stmt, order: A.HashOrder)
      requires s.While? && C.Ready(st)
      ensures C.CompileStmt(st, s, order)
           == match C.BeginWhile(st, s.cond)
              case Err(error) => Err(error)
              case Ok(st1) =>
                match C.CompileScoped(st1, s.body, order)
                case Err(error) => Err(error)
                case Ok(st2) => C.EndWhile(st2, C.Label(st.counter), C.Label(st.counter + 1), order)
    {
      hide C.BeginWhile, C.EndWhile, C.CompileScoped, C.Label;
    }

    method VisitWhile(s: Stmt) returns (r: Result<()>)
      requires s.While? && Valid() && C.Ready(View())
      modifies mCodeGen, mLabelGenerator, mAllocators
      ensures Valid()
      ensures match C.CompileStmt(old(View()), s, mOrder)
              case Ok(st) => r == Ok(()) && View() == st
              case Err(error) => r == Err(error)
      decreases s, 0
    {
      hide C.BeginWhile, C.EndWhile, C.CompileStmt, C.CompileScoped, C.Label, Valid;
      WhileCode(View(), s, mOrder);
      var labels :- BeginWhile(s.cond);
      var _ :- VisitScoped(s.body);
      r := EndWhile(labels.0, labels.1);
    }

    /** A branch or a loop body, in its own block. */
    method VisitScoped(s: Stmt) returns (r: Result<()>)
      requires Valid() && C.Ready(View())
      modifies mCodeGen, mLabelGenerator, mAllocators
      ensures Valid()
      ensures match C.CompileScoped(old(View()), s, mOrder)
              case Ok(st) => r == Ok(()) && View() == st
              case Err(error) => r == Err(error)
      decreases s, 2
    {
      StartBlock();
      var _ :- VisitStmt(s);
      r := EndBlock();
    }

    method VisitStmt(s: Stmt) returns (r: Result<()>)
      requires Valid() && C.Ready(View())
      modifies mCodeGen, mLabelGenerator, mAllocators
      ensures Valid()
      ensures match C.CompileStmt(old(View()), s, mOrder)
              case Ok(st) => r == Ok(()) && View() == st
              case Err(error) => r == Err(error)
      decreases s, 1
    {
      match s
      case If(_, _, _) => r := VisitIf(s);
      case While(_, _) => r := VisitWhile(s);
      case VarDecl(name, init) => r := VisitVarDecl(name, init);
      case Assign(name, e) => r := VisitAssign(name, e);
      case Print(e) => r := VisitPrint(e);
      case Call(callee) =>
        CompileJump(callee);
        r := Ok(());
      case Block(stmts) => r := VisitStmts(stmts);
    }

    method VisitStmts(stmts: seq<Stmt>) returns (r: Result<()>)
      requires Valid() && C.Ready(View())
      modifies mCodeGen, mLabelGenerator, mAllocators
      ensures Valid()
      ensures match C.CompileStmts(old(View()), stmts, mOrder)
              case Ok(st) => r == Ok(()) && View() == st
              case Err(error) => r == Err(error)
      decreases stmts, 0
    {
      for i := 0 to |stmts|
        invariant Valid() && C.Ready(View())
        invariant C.CompileStmts(old(View()), stmts, mOrder) == C.CompileStmts(View(), stmts[i..], mOrder)
      {
        assert stmts[i..][0] == stmts[i] && stmts[i..][1..] == stmts[i + 1..];
        var _ :- VisitStmt(stmts[i]);
      }
      r := Ok(());
    }

    // ----- the program -----

    method EnterFunc(name: string) returns (r: Result<()>)
      requires Valid()
      modifies this, mCodeGen
      ensures Valid()
      ensures match G.DeclareLabel(old(mCodeGen.View()), name)
              case Ok(g) =>
                && r == Ok(()) && View() == C.Enter(old(View()), g) && C.Ready(View())
                && mAllocators == old(mAllocators) + [mAllocators[|old(mAllocators)|]]
                && fresh(mAllocators[|old(mAllocators)|])
              case Err(error) => r == Err(error)
    {
      var _ :- mCodeGen.DeclareLabel(name);
      ghost var g1 := mCodeGen.View();
      var a := new VariableAllocator(0, A.STACK, mOrder);
      mAllocators := mAllocators + [a];
      mCodeGen.CompilePrologue();
      assert Allocs() == old(Allocs()) + [A.New(0, A.STACK)];
      assert C.Last(View()) == A.New(0, A.STACK);
      r := Ok(());
    }

    method LeaveFunc() returns (r: Result<()>)
      requires Valid() && C.Ready(View())
      requires mCodeGen.mFpAdds != [] && mCodeGen.mFpAdds[|mCodeGen.mFpAdds| - 1] < |mCodeGen.mProgram|
      modifies this`mAllocators, mCodeGen
      ensures Valid() && (r.Ok? ==> mAllocators == old(mAllocators)[..|old(mAllocators)| - 1])
      ensures match G.Epilogue(old(mCodeGen.View()), C.Last(old(View())).firstFree)
              case Ok(g) =>
                r == Ok(()) && View() == old(View()).(gen := g, allocs := old(View()).allocs[..|old(mAllocators)| - 1])
              case Err(error) => r == Err(error)
    {
      assert C.Last(View()) == mAllocators[|mAllocators| - 1].View();
      var _ :- mCodeGen.CompileEpilogue(mAllocators[|mAllocators| - 1].mFirstFree);
      mAllocators := mAllocators[..|mAllocators| - 1];
      assert Allocs() == old(View()).allocs[..|old(mAllocators)| - 1];
      r := Ok(());
    }

    /** Declares the function's label, then compiles its body with an allocator of its own. */
    method VisitFuncDecl(name: string, body: seq<Stmt>) returns (r: Result<()>)
      requires Valid()
      modifies this, mCodeGen, mLabelGenerator, mAllocators
      ensures Valid() && (r.Ok? ==> mAllocators == old(mAllocators))
      ensures match C.CompileFunc(old(View()), name, body, mOrder)
              case Ok(st) => r == Ok(()) && View() == st
              case Err(error) => r == Err(error)
    {
      hide C.CompileStmts, C.Ready;
      var _ :- EnterFunc(name);
      var _ :- VisitStmts(body);
      r := LeaveFunc();
    }

    /** The first pass over the top level: the globals. */
    method VisitGlobals(p: Program) returns (r: Result<()>)
      requires Valid() && C.Ready(View())
      modifies mCodeGen, mAllocators
      ensures Valid()
      ensures match C.CompileGlobals(old(View()), p)
              case Ok(st) => r == Ok(()) && View() == st
              case Err(error) => r == Err(error)
    {
      for i := 0 to |p|
        invariant Valid() && C.Ready(View())
        invariant C.CompileGlobals(old(View()), p) == C.CompileGlobals(View(), p[i..])
      {
        assert p[i..][0] == p[i] && p[i..][1..] == p[i + 1..];
        if p[i].Global? {
          var _ :- VisitVarDecl(p[i].name, p[i].init);
        }
      }
      r := Ok(());
    }

    /** The second pass: the functions. */
    method VisitFuncs(p: Program) returns (r: Result<()>)
      requires Valid()
      modifies this, mCodeGen, mLabelGenerator, mAllocators
      ensures Valid() && (r.Ok? ==> mAllocators == old(mAllocators))
      ensures match C.CompileFuncs(old(View()), p, mOrder)
              case Ok(st) => r == Ok(()) && View() == st
              case Err(error) => r == Err(error)
    {
      for i := 0 to |p|
        invariant Valid() && mAllocators == old(mAllocators)
        invariant C.CompileFuncs(old(View()), p, mOrder) == C.CompileFuncs(View(), p[i..], mOrder)
      {
        hide C.CompileFunc;
        assert p[i..][0] == p[i] && p[i..][1..] == p[i + 1..];
        if p[i].Func? {
          var _ :- VisitFuncDecl(p[i].name, p[i].body);
        }
      }
      r := Ok(());
    }

    /** Call main, and the loop it returns to. */
    method CompileCallMain() returns (r: Result<()>)
      modifies mCodeGen, mLabelGenerator
      requires Valid()
      ensures match C.CallMain(old(View()))
              case Ok(st) => r == Ok(()) && View() == st
              case Err(error) => r == Err(error)
    {
      hide G.Jump;
      CompileJump("main");
      var endLoop := mLabelGenerator.Next();
      var _ :- mCodeGen.DeclareLabel(endLoop);
      CompileJump(endLoop);
      r := Ok(());
    }

    method CompilePreamble() returns (r: Result<()>)
      requires Valid()
      modifies mCodeGen
      ensures match C.Preamble(old(View()))
              case Ok(st) => r == Ok(()) && View() == st
              case Err(error) => r == Err(error)
    {
      r := mCodeGen.CompileConst(C.FRAME_BASE);
      if r.Ok? {
        mCodeGen.Emit(Asm.LFP);
      }
    }

    method VisitProg(p: Program) returns (r: Result<()>)
      requires Valid() && View() == C.INITIAL
      modifies this, mCodeGen, mLabelGenerator, mAllocators
      ensures match C.CompileProg(p, mOrder)
              case Ok(st) => r == Ok(()) && View() == st
              case Err(error) => r == Err(error)
    {
      hide C.Preamble, C.CompileGlobals, C.CallMain, C.CompileFuncs;
      var _ :- CompilePreamble();
      var _ :- VisitGlobals(p);
      var _ :- CompileCallMain();
      r := VisitFuncs(p);
    }
  }

  /** What the text says of a compiled and linked program. */
  lemma Accepted(p: Program, order: A.HashOrder)
    requires A.IsHashOrder(order)
    ensures var r := C.CompileProg(p, order);
            && (r.Ok? ==> Compilable(p) && |r.value.gen.prog| == Length(p))
            && (Length(p) < CONSTANTS ==> (r.Ok? && G.Linkable(r.value.gen) <==> Compilable(p) && CallsKnown(p)))
  {
    hide *;
    Acceptance.CompilesIff(p, order);
    if C.CompileProg(p, order).Ok? {
      Acceptance.LengthOfCode(p, order);
    }
    if Length(p) < CONSTANTS {
      Acceptance.AcceptedIff(p, order);
    }
  }

  /** The compiler's entry point: compile, link, and hand over the program. */
  method VisitAll(p: Program, order: A.HashOrder) returns (r: Result<seq<Word>>)
    requires A.IsHashOrder(order)
    ensures r.Ok? ==> C.Compiles(p, order, r.value)
    ensures r.Ok? <==> C.CompileProg(p, order).Ok? && G.Linkable(C.CompileProg(p, order).value.gen)
    ensures r.Ok? ==> Compilable(p) && |r.value| == Length(p)
    ensures Length(p) < CONSTANTS ==> (r.Ok? <==> Compilable(p) && CallsKnown(p))
  {
    Accepted(p, order);
    var v := new MyVisitor(order);
    var _ :- v.VisitProg(p);
    Cor.FinalValid(p, order);
    var _ :- v.mCodeGen.ResolveRefs();
    r := Ok(v.mCodeGen.mProgram);
  }
}
