/** The abstract syntax of MyLanguage, one constructor per grammar alternative that emits code. */
module Syntax {
  import opened Results

  datatype BinOp =
    | BitOr | BitXor | BitAnd
    | Equal | NotEqual
    | Less | LessEqual | Greater | GreaterEqual
    | ShiftL | ShiftR
    | Plus | Minus
    | Mult | Div | Rem

  datatype UnOp = Negative | BitNot

  datatype Expr =
    | Number(value: nat)
    | Ident(name: string)
    | Unary(uop: UnOp, arg: Expr)
    | Binary(op: BinOp, left: Expr, right: Expr)

  datatype Stmt =
    | If(cond: Expr, thn: Stmt, els: Option<Stmt>)
    | While(cond: Expr, body: Stmt)
    | VarDecl(name: string, init: Expr)
    | Assign(name: string, expr: Expr)
    | Print(expr: Expr)
    | Call(callee: string)
    | Block(stmts: seq<Stmt>)

  /**
   From a statement one step inwards: a branch, a loop's body, a block's first statement, or what
   follows that in the block.
   */
  datatype Step = IntoThen | IntoElse | IntoBody | IntoFirst | IntoRest

  /** A place in a statement, step by step; a function's body counts as a block. */
  datatype Place = Here | Inside(step: Step, place: Place)

  datatype TopLevel =
    | Func(name: string, body: seq<Stmt>)
    | Global(name: string, init: Expr)

  type Program = seq<TopLevel>

  /** No use of `|` or `^`, the two operators for which the compiler emits AND. */
  predicate PlainExpr(e: Expr) {
    match e
    case Number(_) => true
    case Ident(_) => true
    case Unary(_, a) => PlainExpr(a)
    case Binary(op, l, r) => op != BitOr && op != BitXor && PlainExpr(l) && PlainExpr(r)
  }

  predicate PlainStmt(s: Stmt) {
    match s
    case If(c, t, e) => PlainExpr(c) && PlainStmt(t) && (e.Some? ==> PlainStmt(e.value))
    case While(c, b) => PlainExpr(c) && PlainStmt(b)
    case VarDecl(_, e) => PlainExpr(e)
    case Assign(_, e) => PlainExpr(e)
    case Print(e) => PlainExpr(e)
    case Call(_) => true
    case Block(ss) => PlainStmts(ss)
  }

  predicate PlainStmts(ss: seq<Stmt>) {
    ss == [] || (PlainStmt(ss[0]) && PlainStmts(ss[1..]))
  }

  predicate PlainProgram(p: Program) {
    forall i :: 0 <= i < |p| ==>
      match p[i]
      case Func(_, body) => PlainStmts(body)
      case Global(_, init) => PlainExpr(init)
  }
}
