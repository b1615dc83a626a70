/**
 The compiler as a function on its whole state: what each visit of a syntax node
 does to the code generator, the label counter and the stack of allocators.
 */
module Compiler {
  import opened Results
  import opened Words
  import opened Syntax
  import Asm = Assembler
  import A = Allocator
  import G = CodeGen
  import L = LabelGenerators

  const GLOBAL_BASE := 200
  const FRAME_BASE := 1024
  const PRINT_PORT := 0x4000_0000

  datatype State = State(gen: G.Gen, counter: nat, allocs: seq<A.Alloc>)

  /** The instruction emitted for a binary operator. Both `|` and `^` give AND. */
  function AluFor(op: BinOp): Asm.AluOp {
    match op
    case BitOr => Asm.AND
    case BitXor => Asm.AND
    case BitAnd => Asm.AND
    case Equal => Asm.EQ
    case NotEqual => Asm.NEQ
    case Less => Asm.LT
    case LessEqual => Asm.LE
    case Greater => Asm.GT
    case GreaterEqual => Asm.GE
    case ShiftL => Asm.SHL
    case ShiftR => Asm.SHR
    case Plus => Asm.ADD
    case Minus => Asm.SUB
    case Mult => Asm.MUL
    case Div => Asm.DIV
    case Rem => Asm.REM
  }

  function AluForUnary(op: UnOp): Asm.AluOp {
    match op
    case Negative => Asm.NEGATE
    case BitNot => Asm.NOT
  }

  /** The address and scope of a name: innermost allocator first. */
  function Declaration(allocs: seq<A.Alloc>, name: string): Option<(nat, A.Scope)> {
    if allocs == [] then None
    else
      var last := allocs[|allocs| - 1];
      match A.GetAddr(last, name)
      case Some(addr) => Some((addr, last.scope))
      case None => Declaration(allocs[..|allocs| - 1], name)
  }

  /** Code was only added, and no function was opened or closed. */
  predicate Grew(g: G.Gen, g': G.Gen) {
    g'.fpAdds == g.fpAdds && |g.prog| <= |g'.prog|
  }

  /** Code that pushes a variable. */
  function LoadVar(g: G.Gen, addr: nat, scope: A.Scope): Result<G.Gen> {
    if scope == A.GLOBAL then G.Load(g, addr) else G.StackLoad(g, addr)
  }

  /** Code that pops into a variable. */
  function SaveVar(g: G.Gen, addr: nat, scope: A.Scope): Result<G.Gen> {
    if scope == A.GLOBAL then G.Save(g, addr) else G.StackSave(g, addr)
  }

  function CompileExpr(allocs: seq<A.Alloc>, g: G.Gen, e: Expr): (r: Result<G.Gen>)
    ensures r.Ok? ==> Grew(g, r.value)
    decreases e
  {
    match e
    case Number(v) => G.EmitConst(g, v)
    case Ident(name) =>
      (match Declaration(allocs, name)
       case None => Err(VariableMissing(name))
       case Some((addr, scope)) => LoadVar(g, addr, scope))
    case Unary(op, arg) =>
      var g1 :- CompileExpr(allocs, g, arg);
      Ok(G.Emit(g1, Asm.Unary(AluForUnary(op))))
    case Binary(op, l, r) =>
      var g1 :- CompileExpr(allocs, g, l);
      var g2 :- CompileExpr(allocs, g1, r);
      Ok(G.Emit(g2, Asm.Binary(AluFor(op))))
  }

  /** Code that evaluates a condition and jumps to a label if it is zero. */
  function CompileTest(allocs: seq<A.Alloc>, g: G.Gen, e: Expr, target: string): (r: Result<G.Gen>)
    ensures r.Ok? ==> Grew(g, r.value)
  {
    var g1 :- CompileExpr(allocs, g, e);
    Ok(G.Emit(G.Ref(g1, target), Asm.CJMPZ))
  }

  function Last(st: State): A.Alloc
    requires st.allocs != []
  {
    st.allocs[|st.allocs| - 1]
  }

  function WithLast(st: State, a: A.Alloc): State
    requires st.allocs != []
  {
    st.(allocs := st.allocs[..|st.allocs| - 1] + [a])
  }

  /** The innermost allocator exists and has an open block. */
  predicate Ready(st: State) {
    st.allocs != [] && Last(st).blocks != []
  }

  function Open(st: State): (r: State)
    requires st.allocs != []
    ensures Ready(r)
  {
    WithLast(st, A.StartBlock(Last(st)))
  }

  function Close(st: State, order: A.HashOrder): (r: Result<State>)
    requires st.allocs != []
    ensures r.Ok? ==> Ready(r.value) && r.value.gen == st.gen
  {
    var a :- A.EndBlock(Last(st), order);
    Ok(WithLast(st, a))
  }

  function Label(k: nat): string {
    L.Name("L", k)
  }

  function CompileVarDecl(st: State, name: string, init: Expr): (r: Result<State>)
    requires Ready(st)
    ensures r.Ok? ==> Ready(r.value) && Grew(st.gen, r.value.gen)
  {
    var d :- A.Declare(Last(st), name);
    var st1 := WithLast(st, d.0);
    var g1 :- CompileExpr(st1.allocs, st1.gen, init);
    var g2 :- SaveVar(g1, d.0.base + d.1, d.0.scope);
    Ok(st1.(gen := g2))
  }

  function CompileAssign(st: State, name: string, e: Expr): (r: Result<State>)
    requires Ready(st)
    ensures r.Ok? ==> Ready(r.value) && Grew(st.gen, r.value.gen)
  {
    match Declaration(st.allocs, name)
    case None => Err(VariableMissing(name))
    case Some((addr, scope)) =>
      var g1 :- CompileExpr(st.allocs, st.gen, e);
      var g2 :- SaveVar(g1, addr, scope);
      Ok(st.(gen := g2))
  }

  function CompilePrint(st: State, e: Expr): (r: Result<State>)
    requires Ready(st)
    ensures r.Ok? ==> Ready(r.value) && Grew(st.gen, r.value.gen)
  {
    var g1 :- CompileExpr(st.allocs, st.gen, e);
    match G.Save(g1, PRINT_PORT)
    case Ok(g2) => Ok(st.(gen := g2))
    case Err(error) => Err(error)
  }

  /** The start of an `if`: its block, its first label, its condition. */
  function BeginIf(st: State, cond: Expr): (r: Result<State>)
    requires Ready(st)
    ensures r.Ok? ==> Ready(r.value) && Grew(st.gen, r.value.gen)
  {
    var st1 := Open(st).(counter := st.counter + 1);
    var g :- CompileTest(st1.allocs, st1.gen, cond, Label(st.counter));
    Ok(st1.(gen := g))
  }

  /** Between the branches: jump over the second one, which starts here. */
  function BeginElse(st: State, elseBegin: string): (r: Result<State>)
    requires Ready(st)
    ensures r.Ok? ==> Ready(r.value) && Grew(st.gen, r.value.gen)
  {
    var g :- G.DeclareLabel(G.Jump(st.gen, Label(st.counter)), elseBegin);
    Ok(st.(gen := g, counter := st.counter + 1))
  }

  function EndIf(st: State, target: string, order: A.HashOrder): (r: Result<State>)
    requires Ready(st)
    ensures r.Ok? ==> Ready(r.value) && Grew(st.gen, r.value.gen)
  {
    var g :- G.DeclareLabel(st.gen, target);
    Close(st.(gen := g), order)
  }

  /** The start of a `while`: its block, the loop label, its condition. */
  function BeginWhile(st: State, cond: Expr): (r: Result<State>)
    requires Ready(st)
    ensures r.Ok? ==> Ready(r.value) && Grew(st.gen, r.value.gen)
  {
    var st1 := Open(st).(counter := st.counter + 2);
    var g1 :- G.DeclareLabel(st1.gen, Label(st.counter));
    var g2 :- CompileTest(st1.allocs, g1, cond, Label(st.counter + 1));
    Ok(st1.(gen := g2))
  }

  function EndWhile(st: State, loop: string, loopEnd: string, order: A.HashOrder): (r: Result<State>)
    requires Ready(st)
    ensures r.Ok? ==> Ready(r.value) && Grew(st.gen, r.value.gen)
  {
    var g :- G.DeclareLabel(G.Jump(st.gen, loop), loopEnd);
    Close(st.(gen := g), order)
  }

  /** A statement in a block of its own. */
  function CompileScoped(st: State, s: Stmt, order: A.HashOrder): (r: Result<State>)
    requires Ready(st)
    ensures r.Ok? ==> Ready(r.value) && Grew(st.gen, r.value.gen)
    decreases s, 1
  {
    var st1 :- CompileStmt(Open(st), s, order);
    Close(st1, order)
  }

  function CompileStmt(st: State, s: Stmt, order: A.HashOrder): (r: Result<State>)
    requires Ready(st)
    ensures r.Ok? ==> Ready(r.value) && Grew(st.gen, r.value.gen)
    decreases s, 0
  {
    match s
    case If(cond, thn, els) =>
      var elseBegin := Label(st.counter);
      var st1 :- BeginIf(st, cond);
      var st2 :- CompileScoped(st1, thn, order);
      (match els
       case None => EndIf(st2, elseBegin, order)
       case Some(e) =>
         var operatorEnd := Label(st2.counter);
         var st3 :- BeginElse(st2, elseBegin);
         var st4 :- CompileScoped(st3, e, order);
         EndIf(st4, operatorEnd, order))
    case While(cond, body) =>
      var st1 :- BeginWhile(st, cond);
      var st2 :- CompileScoped(st1, body, order);
      EndWhile(st2, Label(st.counter), Label(st.counter + 1), order)
    case VarDecl(name, init) => CompileVarDecl(st, name, init)
    case Assign(name, e) => CompileAssign(st, name, e)
    case Print(e) => CompilePrint(st, e)
    case Call(callee) => Ok(st.(gen := G.Jump(st.gen, callee)))
    case Block(stmts) => CompileStmts(st, stmts, order)
  }

  function CompileStmts(st: State, ss: seq<Stmt>, order: A.HashOrder): (r: Result<State>)
    requires Ready(st)
    ensures r.Ok? ==> Ready(r.value) && Grew(st.gen, r.value.gen)
    decreases ss, 0
  {
    if ss == [] then Ok(st)
    else
      var st1 :- CompileStmt(st, ss[0], order);
      CompileStmts(st1, ss[1..], order)
  }

  // ----- the program -----

  /** The state in which a function's body is compiled. */
  function Enter(st: State, g: G.Gen): State {
    st.(gen := G.Prologue(g), allocs := st.allocs + [A.New(0, A.STACK)])
  }

  function CompileFunc(st: State, name: string, body: seq<Stmt>, order: A.HashOrder): Result<State> {
    var g1 :- G.DeclareLabel(st.gen, name);
    var st2 :- CompileStmts(Enter(st, g1), body, order);
    var g3 :- G.Epilogue(st2.gen, Last(st2).firstFree);
    Ok(st2.(gen := g3, allocs := st2.allocs[..|st2.allocs| - 1]))
  }

  function CompileGlobals(st: State, p: Program): (r: Result<State>)
    requires Ready(st)
    ensures r.Ok? ==> Ready(r.value)
    decreases |p|
  {
    if p == [] then Ok(st)
    else
      match p[0]
      case Global(name, init) =>
        var st1 :- CompileVarDecl(st, name, init);
        CompileGlobals(st1, p[1..])
      case Func(_, _) => CompileGlobals(st, p[1..])
  }

  function CompileFuncs(st: State, p: Program, order: A.HashOrder): Result<State>
    decreases |p|
  {
    if p == [] then Ok(st)
    else
      match p[0]
      case Global(_, _) => CompileFuncs(st, p[1..], order)
      case Func(name, body) =>
        var st1 :- CompileFunc(st, name, body, order);
        CompileFuncs(st1, p[1..], order)
  }

  const INITIAL := State(G.START, 0, [A.New(GLOBAL_BASE, A.GLOBAL)])

  /** The code before the first global: the frame pointer is set up. */
  function Preamble(st: State): (r: Result<State>)
    ensures r.Ok? ==> r.value.allocs == st.allocs
  {
    match G.EmitConst(st.gen, FRAME_BASE)
    case Ok(g) => Ok(st.(gen := G.Emit(g, Asm.LFP)))
    case Err(error) => Err(error)
  }

  /** Call main; when it returns, loop for ever. */
  function CallMain(st: State): Result<State> {
    var endLoop := Label(st.counter);
    var g :- G.DeclareLabel(G.Jump(st.gen, "main"), endLoop);
    Ok(st.(gen := G.Jump(g, endLoop), counter := st.counter + 1))
  }

  /** The whole program, before its references are resolved. */
  function CompileProg(p: Program, order: A.HashOrder): Result<State> {
    var st1 :- Preamble(INITIAL);
    var st2 :- CompileGlobals(st1, p);
    var st3 :- CallMain(st2);
    CompileFuncs(st3, p, order)
  }

  /** `rom` is the compiler's output for `p`. */
  ghost predicate Compiles(p: Program, order: A.HashOrder, rom: seq<Word>) {
    CompileProg(p, order).Ok? && G.Resolved(CompileProg(p, order).value.gen, rom)
  }
}
