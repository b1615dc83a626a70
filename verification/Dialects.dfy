/**
 Where the compiler departs from the language as written: `|` and `^` compile to AND.
 Programs without them mean the same either way; each use of them means what is
 written exactly under the condition proved here.
 */
module Dialects {
  import opened Results
  import opened Words
  import opened Syntax
  import A = Allocator
  import Asm = Assembler
  import C = Compiler
  import Ex = Expressions
  import F = Functions
  import G = CodeGen
  import K = Correctness
  import LD = LabelDiscipline
  import M = Machine
  import S = Semantics

  function Written(p: Program, z: M.ByZero): S.World {
    S.World(p, z, S.Written)
  }

  function Emitted(p: Program, z: M.ByZero): S.World {
    S.World(p, z, S.Emitted)
  }

  // ----- runs in which both readings agree -----

  /** What `|` and `^` compile to gives what they mean. */
  predicate ExactOperands(op: BinOp, a: Word, b: Word) {
    (op == BitOr ==> a == b) && (op == BitXor ==> a == 0 && b == 0)
  }

  /** Every `|` and `^` of an expression is evaluated on such operands. */
  predicate ExactExpr(w: S.World, e: Expr, st: S.Store) {
    match e
    case Number(_) => true
    case Ident(_) => true
    case Unary(_, a) => ExactExpr(w, a, st)
    case Binary(op, l, r) =>
      && ExactExpr(w, l, st) && ExactExpr(w, r, st)
      && match (S.Eval(w, l, st), S.Eval(w, r, st))
         case (Some(a), Some(b)) => ExactOperands(op, a, b)
         case _ => true
  }

  predicate ExactScoped(w: S.World, fuel: nat, depth: nat, s: Stmt, st: S.Store)
    decreases fuel, depth, s, 1
  {
    ExactExec(w, fuel, depth, s, S.Push(st))
  }

  /** The same of everything a statement evaluates while it runs. */
  predicate ExactExec(w: S.World, fuel: nat, depth: nat, s: Stmt, st: S.Store)
    decreases fuel, depth, s, 0
  {
    if s.Block? then ExactAll(w, fuel, depth, s.stmts, st)
    else if fuel == 0 then true
    else
      match s
      case If(cond, thn, els) =>
        && ExactExpr(w, cond, S.Push(st))
        && (match S.Eval(w, cond, S.Push(st))
            case None => true
            case Some(v) =>
              (v == 0 && els.None?) || ExactScoped(w, fuel - 1, depth, if v != 0 then thn else els.value, S.Push(st)))
      case While(cond, body) =>
        && ExactExpr(w, cond, S.Push(st))
        && (match S.Eval(w, cond, S.Push(st))
            case None => true
            case Some(v) =>
              v == 0 ||
              (&& ExactScoped(w, fuel - 1, depth, body, S.Push(st))
               && match S.ExecScoped(w, fuel - 1, depth, body, S.Push(st))
                  case Done(st', left) => ExactExec(w, left, depth, s, S.Pop(st'))
                  case _ => true))
      case VarDecl(name, init) => ExactExpr(w, init, S.Introduce(st, name))
      case Assign(_, e) => ExactExpr(w, e, st)
      case Print(e) => ExactExpr(w, e, st)
      case Call(callee) => ExactCall(w, fuel - 1, depth, callee, st)
  }

  predicate ExactCall(w: S.World, fuel: nat, depth: nat, callee: string, st: S.Store)
    decreases fuel, depth
  {
    match S.FindFunc(w.prog, callee)
    case None => true
    case Some(body) => depth == 0 || ExactAll(w, fuel, depth - 1, body, st.(scopes := [map[]]))
  }

  predicate ExactAll(w: S.World, fuel: nat, depth: nat, ss: seq<Stmt>, st: S.Store)
    decreases fuel, depth, ss, 0
  {
    ss == [] ||
    (&& ExactExec(w, fuel, depth, ss[0], st)
     && match S.Exec(w, fuel, depth, ss[0], st)
        case Done(st', left) => ExactAll(w, left, depth, ss[1..], st')
        case _ => true)
  }

  predicate ExactGlobals(w: S.World, p: Program, st: S.Store)
    decreases |p|
  {
    if p == [] then true
    else
      match p[0]
      case Func(_, _) => ExactGlobals(w, p[1..], st)
      case Global(name, init) =>
        && ExactExpr(w, init, S.Introduce(st, name))
        && match S.Declare(w, name, init, st)
           case None => true
           case Some(st') => ExactGlobals(w, p[1..], st')
  }

  /** And of a whole run. */
  predicate ExactRun(w: S.World, fuel: nat, depth: nat) {
    && ExactGlobals(w, w.prog, S.EMPTY)
    && match S.ExecGlobals(w, w.prog, S.EMPTY)
       case None => true
       case Some(st) => ExactCall(w, fuel, depth, "main", st)
  }

  lemma ExactValue(p: Program, z: M.ByZero, op: BinOp, a: Word, b: Word)
    requires ExactOperands(op, a, b)
    ensures S.BinaryValue(Written(p, z), op, a, b) == S.BinaryValue(Emitted(p, z), op, a, b)
  {
    hide Bits;
    OrMeetsAnd(a, b);
    XorMeetsAnd(a, b);
  }

  lemma {:induction false} SameEval(p: Program, z: M.ByZero, e: Expr, st: S.Store)
    requires ExactExpr(Written(p, z), e, st)
    ensures S.Eval(Written(p, z), e, st) == S.Eval(Emitted(p, z), e, st)
  {
    hide S.BinaryValue, ExactOperands;
    match e
    case Number(_) =>
    case Ident(_) =>
    case Unary(_, a) => SameEval(p, z, a, st);
    case Binary(op, l, r) =>
      SameEval(p, z, l, st);
      SameEval(p, z, r, st);
      if S.Eval(Written(p, z), l, st).Some? && S.Eval(Written(p, z), r, st).Some? {
        ExactValue(p, z, op, S.Eval(Written(p, z), l, st).value, S.Eval(Written(p, z), r, st).value);
      }
  }

  lemma {:induction false} SameScoped(p: Program, z: M.ByZero, fuel: nat, depth: nat, s: Stmt, st: S.Store)
    requires ExactScoped(Written(p, z), fuel, depth, s, st)
    ensures S.ExecScoped(Written(p, z), fuel, depth, s, st) == S.ExecScoped(Emitted(p, z), fuel, depth, s, st)
    decreases fuel, depth, s, 1
  {
    hide S.Exec, ExactExec;
    SameExec(p, z, fuel, depth, s, S.Push(st));
  }

  lemma {:induction false} SameExec(p: Program, z: M.ByZero, fuel: nat, depth: nat, s: Stmt, st: S.Store)
    requires ExactExec(Written(p, z), fuel, depth, s, st)
    ensures S.Exec(Written(p, z), fuel, depth, s, st) == S.Exec(Emitted(p, z), fuel, depth, s, st)
    decreases fuel, depth, s, 0
  {
    hide S.ExecScoped, S.ExecCall, S.ExecAll, S.Eval, S.BinaryValue, ExactScoped, ExactCall, ExactAll, ExactExpr;
    var w := Written(p, z);
    if s.Block? {
      SameAll(p, z, fuel, depth, s.stmts, st);
    } else if fuel > 0 {
      match s
      case If(cond, thn, els) =>
        SameEval(p, z, cond, S.Push(st));
        var v := S.Eval(w, cond, S.Push(st));
        if v.Some? && (v.value != 0 || els.Some?) {
          SameScoped(p, z, fuel - 1, depth, if v.value != 0 then thn else els.value, S.Push(st));
        }
      case While(cond, body) =>
        SameEval(p, z, cond, S.Push(st));
        var v := S.Eval(w, cond, S.Push(st));
        if v.Some? && v.value != 0 {
          SameScoped(p, z, fuel - 1, depth, body, S.Push(st));
          var out := S.ExecScoped(w, fuel - 1, depth, body, S.Push(st));
          if out.Done? {
            SameExec(p, z, out.left, depth, s, S.Pop(out.store));
          }
        }
      case VarDecl(name, init) => SameEval(p, z, init, S.Introduce(st, name));
      case Assign(_, e) => SameEval(p, z, e, st);
      case Print(e) => SameEval(p, z, e, st);
      case Call(callee) => SameCall(p, z, fuel - 1, depth, callee, st);
    }
  }

  lemma {:induction false} SameCall(p: Program, z: M.ByZero, fuel: nat, depth: nat, callee: string, st: S.Store)
    requires ExactCall(Written(p, z), fuel, depth, callee, st)
    ensures S.ExecCall(Written(p, z), fuel, depth, callee, st) == S.ExecCall(Emitted(p, z), fuel, depth, callee, st)
    decreases fuel, depth
  {
    var body := S.FindFunc(p, callee);
    if body.Some? && depth > 0 {
      SameAll(p, z, fuel, depth - 1, body.value, st.(scopes := [map[]]));
    }
  }

  lemma {:induction false} SameAll(p: Program, z: M.ByZero, fuel: nat, depth: nat, ss: seq<Stmt>, st: S.Store)
    requires ExactAll(Written(p, z), fuel, depth, ss, st)
    ensures S.ExecAll(Written(p, z), fuel, depth, ss, st) == S.ExecAll(Emitted(p, z), fuel, depth, ss, st)
    decreases fuel, depth, ss, 0
  {
    hide S.Exec, ExactExec;
    if ss != [] {
      SameExec(p, z, fuel, depth, ss[0], st);
      var out := S.Exec(Written(p, z), fuel, depth, ss[0], st);
      if out.Done? {
        SameAll(p, z, out.left, depth, ss[1..], out.store);
      }
    }
  }

  lemma {:induction false} SameGlobals(p: Program, z: M.ByZero, q: Program, st: S.Store)
    requires ExactGlobals(Written(p, z), q, st)
    ensures S.ExecGlobals(Written(p, z), q, st) == S.ExecGlobals(Emitted(p, z), q, st)
    decreases |q|
  {
    hide ExactExpr;
    if q != [] {
      match q[0]
      case Func(_, _) => SameGlobals(p, z, q[1..], st);
      case Global(name, init) =>
        SameEval(p, z, init, S.Introduce(st, name));
        var out := S.Declare(Written(p, z), name, init, st);
        if out.Some? {
          SameGlobals(p, z, q[1..], out.value);
        }
    }
  }

  /**
   A run in which every `|` is evaluated on equal operands and every `^` on two zeros has the same
   outcome as written and as compiled.
   */
  lemma SameRun(p: Program, z: M.ByZero, fuel: nat, depth: nat)
    requires ExactRun(Written(p, z), fuel, depth)
    ensures S.RunProgram(Written(p, z), fuel, depth) == S.RunProgram(Emitted(p, z), fuel, depth)
  {
    hide S.ExecGlobals, S.ExecCall, ExactGlobals, ExactCall;
    SameGlobals(p, z, p, S.EMPTY);
    var out := S.ExecGlobals(Written(p, z), p, S.EMPTY);
    if out.Some? {
      SameCall(p, z, fuel, depth, "main", out.value);
    }
  }

  // ----- programs without the two operators -----

  lemma {:induction false} PlainEval(w: S.World, e: Expr, st: S.Store)
    requires PlainExpr(e)
    ensures ExactExpr(w, e, st)
  {
    match e
    case Number(_) =>
    case Ident(_) =>
    case Unary(_, a) => PlainEval(w, a, st);
    case Binary(_, l, r) =>
      PlainEval(w, l, st);
      PlainEval(w, r, st);
  }

  lemma {:induction false} PlainFunc(p: Program, name: string)
    requires PlainProgram(p) && S.FindFunc(p, name).Some?
    ensures PlainStmts(S.FindFunc(p, name).value)
  {
    if !(p[0].Func? && p[0].name == name) {
      assert forall i :: 0 <= i < |p[1..]| ==> p[1..][i] == p[i + 1];
      PlainFunc(p[1..], name);
    }
  }

  lemma {:induction false} PlainExec(w: S.World, fuel: nat, depth: nat, s: Stmt, st: S.Store)
    requires PlainProgram(w.prog) && PlainStmt(s)
    ensures ExactExec(w, fuel, depth, s, st)
    decreases fuel, depth, s, 0
  {
    hide S.ExecScoped, S.Eval, ExactAll, ExactCall, ExactExpr, PlainProgram;
    if s.Block? {
      PlainAll(w, fuel, depth, s.stmts, st);
    } else if fuel > 0 {
      match s
      case If(cond, thn, els) =>
        PlainEval(w, cond, S.Push(st));
        PlainExec(w, fuel - 1, depth, thn, S.Push(S.Push(st)));
        if els.Some? {
          PlainExec(w, fuel - 1, depth, els.value, S.Push(S.Push(st)));
        }
      case While(cond, body) =>
        PlainEval(w, cond, S.Push(st));
        PlainExec(w, fuel - 1, depth, body, S.Push(S.Push(st)));
        var out := S.ExecScoped(w, fuel - 1, depth, body, S.Push(st));
        if out.Done? {
          PlainExec(w, out.left, depth, s, S.Pop(out.store));
        }
      case VarDecl(name, init) => PlainEval(w, init, S.Introduce(st, name));
      case Assign(_, e) => PlainEval(w, e, st);
      case Print(e) => PlainEval(w, e, st);
      case Call(callee) => PlainCall(w, fuel - 1, depth, callee, st);
    }
  }

  lemma {:induction false} PlainCall(w: S.World, fuel: nat, depth: nat, callee: string, st: S.Store)
    requires PlainProgram(w.prog)
    ensures ExactCall(w, fuel, depth, callee, st)
    decreases fuel, depth
  {
    hide PlainProgram, ExactAll;
    var body := S.FindFunc(w.prog, callee);
    if body.Some? && depth > 0 {
      PlainFunc(w.prog, callee);
      PlainAll(w, fuel, depth - 1, body.value, st.(scopes := [map[]]));
    }
  }

  lemma {:induction false} PlainAll(w: S.World, fuel: nat, depth: nat, ss: seq<Stmt>, st: S.Store)
    requires PlainProgram(w.prog) && PlainStmts(ss)
    ensures ExactAll(w, fuel, depth, ss, st)
    decreases fuel, depth, ss, 0
  {
    hide S.Exec, ExactExec, PlainProgram, PlainStmt;
    if ss != [] {
      PlainExec(w, fuel, depth, ss[0], st);
      var out := S.Exec(w, fuel, depth, ss[0], st);
      if out.Done? {
        PlainAll(w, out.left, depth, ss[1..], out.store);
      }
    }
  }

  lemma {:induction false} PlainGlobals(w: S.World, q: Program, st: S.Store)
    requires PlainProgram(q)
    ensures ExactGlobals(w, q, st)
    decreases |q|
  {
    hide ExactExpr;
    if q != [] {
      assert forall i :: 0 <= i < |q[1..]| ==> q[1..][i] == q[i + 1];
      match q[0]
      case Func(_, _) => PlainGlobals(w, q[1..], st);
      case Global(name, init) =>
        PlainEval(w, init, S.Introduce(st, name));
        var out := S.Declare(w, name, init, st);
        if out.Some? {
          PlainGlobals(w, q[1..], out.value);
        }
    }
  }

  /** Without `|` and `^` the compiler's reading of a program is the written one. */
  lemma PlainRun(p: Program, z: M.ByZero, fuel: nat, depth: nat)
    requires PlainProgram(p)
    ensures S.RunProgram(Written(p, z), fuel, depth) == S.RunProgram(Emitted(p, z), fuel, depth)
  {
    hide S.ExecGlobals, S.RunProgram, ExactGlobals, ExactCall, PlainProgram;
    var w := Written(p, z);
    PlainGlobals(w, p, S.EMPTY);
    var out := S.ExecGlobals(w, p, S.EMPTY);
    if out.Some? {
      PlainCall(w, fuel, depth, "main", out.value);
    }
    SameRun(p, z, fuel, depth);
  }

  // ----- the two operators -----

  /** The instruction emitted for `|` computes it exactly when both operands are equal. */
  lemma OrExact(p: Program, z: M.ByZero, a: Word, b: Word)
    ensures M.Alu(z, C.AluFor(BitOr), a, b) == S.BinaryValue(Written(p, z), BitOr, a, b) <==> a == b
  {
    hide Bits;
    OrMeetsAnd(a, b);
  }

  /** The instruction emitted for `^` computes it exactly when both operands are zero. */
  lemma XorExact(p: Program, z: M.ByZero, a: Word, b: Word)
    ensures M.Alu(z, C.AluFor(BitXor), a, b) == S.BinaryValue(Written(p, z), BitXor, a, b) <==> a == 0 && b == 0
  {
    hide Bits;
    XorMeetsAnd(a, b);
  }

  /** Every other operator's instruction computes it on all operands. */
  lemma OthersExact(p: Program, z: M.ByZero, op: BinOp, a: Word, b: Word)
    requires op != BitOr && op != BitXor
    ensures M.Alu(z, C.AluFor(op), a, b) == S.BinaryValue(Written(p, z), op, a, b)
  {
  }

  /** `func main { print(x | y); }` */
  function PrintOr(x: nat, y: nat): Program {
    [Func("main", PrintOrBody(x, y))]
  }

  function PrintOrBody(x: nat, y: nat): seq<Stmt> {
    [Print(Binary(BitOr, Number(x), Number(y)))]
  }

  /** A one-line program prints what is written exactly when its two operands are equal. */
  lemma PrintOrExact(z: M.ByZero, x: Word, y: Word, fuel: nat, depth: nat)
    requires fuel > 0 && depth > 0
    ensures var p := PrintOr(x, y);
            && S.RunProgram(Written(p, z), fuel, depth).Done? && S.RunProgram(Emitted(p, z), fuel, depth).Done?
    ensures var p := PrintOr(x, y);
            var written := S.RunProgram(Written(p, z), fuel, depth).store.printed;
            var emitted := S.RunProgram(Emitted(p, z), fuel, depth).store.printed;
            written == emitted <==> x == y
  {
    var p := PrintOr(x, y);
    PrintOrRun(Written(p, z), x, y, fuel, depth);
    PrintOrRun(Emitted(p, z), x, y, fuel, depth);
    hide S.RunProgram;
    var v, v' := S.BinaryValue(Written(p, z), BitOr, x, y), S.BinaryValue(Emitted(p, z), BitOr, x, y);
    assert [v] == [v'] <==> v == v';
    OrExact(p, z, x, y);
  }

  lemma PrintOrRun(w: S.World, x: Word, y: Word, fuel: nat, depth: nat)
    requires w.prog == PrintOr(x, y) && fuel > 0 && depth > 0
    ensures S.RunProgram(w, fuel, depth).Done?
    ensures S.RunProgram(w, fuel, depth).store.printed == [S.BinaryValue(w, BitOr, x, y)]
  {
    hide S.BinaryValue;
    var s := Print(Binary(BitOr, Number(x), Number(y)));
    assert w.prog[1..] == [];
    assert S.ExecGlobals(w, w.prog, S.EMPTY) == Some(S.EMPTY);
    assert S.FindFunc(w.prog, "main") == Some([s]);
    var st := S.EMPTY.(scopes := [map[]]);
    var st' := st.(printed := [S.BinaryValue(w, BitOr, x, y)]);
    assert S.Eval(w, Number(x), st) == Some(x) && S.Eval(w, Number(y), st) == Some(y);
    assert S.Eval(w, s.expr, st) == Some(S.BinaryValue(w, BitOr, x, y));
    assert st.printed + [S.BinaryValue(w, BitOr, x, y)] == st'.printed;
    assert S.Exec(w, fuel, depth - 1, s, st) == S.Done(st', fuel - 1);
    assert [s][1..] == [];
    assert S.ExecAll(w, fuel - 1, depth - 1, [s][1..], st') == S.Done(st', fuel - 1);
    assert S.ExecAll(w, fuel, depth - 1, [s], st) == S.Done(st', fuel - 1);
  }

  // ----- the compiled program -----

  /** Its function compiles if its operands are 31-bit constants, to nine words and an empty frame. */
  lemma PrintOrFunc(st: C.State, x: nat, y: nat, order: A.HashOrder)
    requires "main" !in st.gen.labels
    ensures var r := C.CompileFunc(st, "main", PrintOrBody(x, y), order);
      && (r.Ok? <==> Asm.FitsConstant(x) && Asm.FitsConstant(y))
      && (r.Ok? ==>
            && |r.value.gen.prog| == |st.gen.prog| + 9 && F.FuncCodeAt(st, "main", PrintOrBody(x, y), order).frame == 0
            && r.value.gen.labels == st.gen.labels["main" := |st.gen.prog|] && r.value.gen.refs == st.gen.refs)
  {
    hide Asm.Pack, C.CompileExpr;
    var st1 := C.Enter(st, G.DeclareLabel(st.gen, "main").value);
    var s := Print(Binary(BitOr, Number(x), Number(y)));
    PrintOrExpr(st1.allocs, st1.gen, x, y);
    var st2 := C.CompileStmt(st1, s, order);
    if st2.Ok? {
      assert C.CompileStmts(st1, [s], order) == C.CompileStmts(st2.value, [], order) == st2;
    }
  }

  lemma PrintOrExpr(allocs: seq<A.Alloc>, g: G.Gen, x: nat, y: nat)
    ensures var r := C.CompileExpr(allocs, g, Binary(BitOr, Number(x), Number(y)));
      && (r.Ok? <==> Asm.FitsConstant(x) && Asm.FitsConstant(y))
      && (r.Ok? ==> |r.value.prog| == |g.prog| + 3 && r.value.labels == g.labels && r.value.refs == g.refs)
  {
    hide Asm.Pack;
    var g1 := C.CompileExpr(allocs, g, Number(x));
    assert g1 == G.EmitConst(g, x);
    if g1.Ok? {
      assert C.CompileExpr(allocs, g1.value, Number(y)) == G.EmitConst(g1.value, y);
    }
  }

  /**
   The program compiles if and only if its operands are 31-bit constants; it then links, and fits
   every chip of this size.
   */
  lemma PrintOrCompiles(x: nat, y: nat, order: A.HashOrder)
    ensures var r := C.CompileProg(PrintOr(x, y), order);
      && (r.Ok? <==> Asm.FitsConstant(x) && Asm.FitsConstant(y))
      && (r.Ok? ==>
            && G.Linkable(r.value.gen)
            && forall rom: seq<Word> :: |rom| == |r.value.gen.prog| ==> K.Fits(PrintOr(x, y), order, rom, 1, 2, 0))
  {
    hide Asm.Pack, C.CompileFunc, C.Preamble, C.CallMain, F.FuncCodeAt, F.FramesFit, F.ProgramFits;
    var main := Func("main", PrintOrBody(x, y));
    assert PrintOr(x, y) == [main] + [];
    LD.ShortStart();
    var st1 := C.Preamble(C.INITIAL).value;
    var st := C.CallMain(st1).value;
    PrintOrFunc(st, x, y, order);
    LD.OneFunction(st, main, [], order);
    LD.ShortProg([main], order);
    LD.NoGlobals(st1, [main]);
    PrintOrFits(x, y);
    if C.CompileProg([main], order).Ok? {
      assert K.Globals([main], order) == st1 && K.Funcs([main], order) == st;
      SmallFrames(st, main, order);
      K.PreambleState();
    }
  }

  lemma PrintOrFits(x: nat, y: nat)
    ensures F.ProgramFits(PrintOr(x, y), 2)
  {
    var body := PrintOrBody(x, y);
    assert body[1..] == [] && PrintOr(x, y)[1..] == [];
    var e := Binary(BitOr, Number(x), Number(y));
    assert Ex.Need(Number(x)) == Ex.Need(Number(y)) == 1 && Ex.Need(e) == 2;
    assert F.StmtFits(body[0], 2) && F.StmtsFit(body[1..], 2);
  }

  lemma SmallFrames(st: C.State, f: TopLevel, order: A.HashOrder)
    requires f.Func? && C.CompileFuncs(st, [f], order).Ok? && C.CompileFunc(st, f.name, f.body, order).Ok?
    requires F.FuncCodeAt(st, f.name, f.body, order).frame == 0
    ensures F.FramesFit(st, [f], order, 0)
  {
    hide C.CompileFunc, F.FuncCodeAt;
    assert [f][1..] == [];
  }

  /**
   Running the compiled program: it halts, and what it has printed is what is written exactly when
   its two operands are equal.
   */
  lemma PrintOrRuns(order: A.HashOrder, rom: seq<Word>, z: M.ByZero, ram: M.Ram, x: Word, y: Word) returns (n: nat)
    requires A.IsHashOrder(order) && C.Compiles(PrintOr(x, y), order, rom)
    ensures C.CompileProg(PrintOr(x, y), order).Ok?
    ensures var m := M.Run(M.Chip(rom, z), n, M.Reset(ram));
      && K.Halted(PrintOr(x, y), order, m)
      && (m.printed == [S.BinaryValue(Written(PrintOr(x, y), z), BitOr, x, y)] <==> x == y)
  {
    hide A.IsHashOrder, C.CompileProg, K.Fits, K.Finished, K.Halted, S.RunProgram, S.BinaryValue, M.Run, G.Linkable,
         Asm.FitsConstant,
         PrintOr;
    var p := PrintOr(x, y);
    PrintOrCompiles(x, y, order);
    n := K.ProgramOutcome(p, order, rom, z, ram, 1, 1, 2, 0);
    PrintOrExact(z, x, y, 1, 1);
    PrintOrWritten(z, x, y);
    K.FinishedHalted(p, order, S.RunProgram(Emitted(p, z), 1, 1).store, M.Run(M.Chip(rom, z), n, M.Reset(ram)));
  }

  lemma PrintOrWritten(z: M.ByZero, x: Word, y: Word)
    ensures S.RunProgram(Written(PrintOr(x, y), z), 1, 1).Done?
    ensures S.RunProgram(Written(PrintOr(x, y), z), 1, 1).store.printed
        == [S.BinaryValue(Written(PrintOr(x, y), z), BitOr, x, y)]
  {
    hide S.BinaryValue;
    PrintOrRun(Written(PrintOr(x, y), z), x, y, 1, 1);
  }
}
