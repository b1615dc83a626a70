/** Which programs can be compiled and how long their code is, from the text alone. */
module WellFormed {
  import opened Results
  import opened Syntax
  import AR = AllocatorRuns
  import D = LabelDiscipline

  // The numbers that limit a program, and the words that surround its parts.
  const CONSTANTS := 0x8000_0000  // a constant has 31 bits
  const GLOBAL_START := 200       // the address of the first global
  const LARGEST_FRAME := 0x1F_FFFF // a frame's size is a signed immediate of 22 bits

  // ----- names -----

  /** The names of the globals, of a function's open blocks, and of the innermost of these. */
  datatype Names = Names(globals: set<string>, locals: set<string>, inner: set<string>) {
    function Visible(): set<string> {
      globals + locals
    }

    function Inside(): Names {
      this.(inner := {})
    }

    function With(more: set<string>): Names {
      this.(locals := locals + more, inner := inner + more)
    }
  }

  /** Every number is a constant, and every name is visible. */
  predicate ExprOk(e: Expr, visible: set<string>) {
    match e
    case Number(v) => v < CONSTANTS
    case Ident(x) => x in visible
    case Unary(_, arg) => ExprOk(arg, visible)
    case Binary(_, l, r) => ExprOk(l, visible) && ExprOk(r, visible)
  }

  /** What a statement declares in the block around it; only a list of statements has no block of its own. */
  function Declared(s: Stmt): set<string> {
    match s
    case VarDecl(x, _) => {x}
    case Block(ss) => DeclaredAll(ss)
    case _ => {}
  }

  function DeclaredAll(ss: seq<Stmt>): set<string> {
    if ss == [] then {} else Declared(ss[0]) + DeclaredAll(ss[1..])
  }

  /** Names are declared before they are used, and once in a block; an initial value may use the new name. */
  predicate StmtOk(s: Stmt, n: Names) {
    match s
    case If(cond, thn, els) =>
      && ExprOk(cond, n.Visible()) && StmtOk(thn, n.Inside())
      && (els.Some? ==> StmtOk(els.value, n.Inside()))
    case While(cond, body) => ExprOk(cond, n.Visible()) && StmtOk(body, n.Inside())
    case VarDecl(x, init) => x !in n.inner && ExprOk(init, n.Visible() + {x})
    case Assign(x, e) => x in n.Visible() && ExprOk(e, n.Visible())
    case Print(e) => ExprOk(e, n.Visible())
    case Call(_) => true
    case Block(ss) => StmtsOk(ss, n)
  }

  predicate StmtsOk(ss: seq<Stmt>, n: Names) {
    ss == [] || (StmtOk(ss[0], n) && StmtsOk(ss[1..], n.With(Declared(ss[0]))))
  }

  // ----- frames -----

  /** How many variables a statement adds to the block around it. */
  function Added(s: Stmt): nat {
    match s
    case VarDecl(_, _) => 1
    case Block(ss) => AddedAll(ss)
    case _ => 0
  }

  function AddedAll(ss: seq<Stmt>): nat {
    if ss == [] then 0 else Added(ss[0]) + AddedAll(ss[1..])
  }

  /** The largest number of a statement's own variables that are in scope at once. */
  function Width(s: Stmt): nat {
    match s
    case If(_, thn, els) => AR.Max(Width(thn), if els.Some? then Width(els.value) else 0)
    case While(_, body) => Width(body)
    case VarDecl(_, _) => 1
    case Block(ss) => WidthAll(ss)
    case _ => 0
  }

  function WidthAll(ss: seq<Stmt>): nat {
    if ss == [] then 0 else AR.Max(Width(ss[0]), Added(ss[0]) + WidthAll(ss[1..]))
  }

  // ----- lengths -----

  /** How many words it takes to compute a value: a global is addressed, a local is an offset. */
  function ExprLength(e: Expr, locals: set<string>): nat {
    match e
    case Number(_) => 1
    case Ident(x) => if x in locals then 1 else 2
    case Unary(_, arg) => ExprLength(arg, locals) + 1
    case Binary(_, l, r) => ExprLength(l, locals) + ExprLength(r, locals) + 1
  }

  /** Every jump takes two words. */
  function StmtLength(s: Stmt, locals: set<string>): nat {
    match s
    case If(cond, thn, els) =>
      ExprLength(cond, locals) + 2 + StmtLength(thn, locals)
      + (if els.Some? then 2 + StmtLength(els.value, locals) else 0)
    case While(cond, body) => ExprLength(cond, locals) + 2 + StmtLength(body, locals) + 2
    case VarDecl(x, init) => ExprLength(init, locals + {x}) + 1
    case Assign(x, e) => ExprLength(e, locals) + if x in locals then 1 else 2
    case Print(e) => ExprLength(e, locals) + 2
    case Call(_) => 2
    case Block(ss) => StmtsLength(ss, locals)
  }

  function StmtsLength(ss: seq<Stmt>, locals: set<string>): nat {
    if ss == [] then 0
    else StmtLength(ss[0], locals) + StmtsLength(ss[1..], locals + Declared(ss[0]))
  }

  // ----- programs -----

  function GlobalNames(p: Program): set<string> {
    if p == [] then {} else (if p[0].Global? then {p[0].name} else {}) + GlobalNames(p[1..])
  }

  function CountGlobals(p: Program): nat {
    if p == [] then 0 else (if p[0].Global? then 1 else 0) + CountGlobals(p[1..])
  }

  /** Globals are declared before one another's initial values use them, and once. */
  predicate GlobalsOk(p: Program, declared: set<string>) {
    p == []
    || (if p[0].Global? then
          && p[0].name !in declared && ExprOk(p[0].init, declared + {p[0].name})
          && GlobalsOk(p[1..], declared + {p[0].name})
        else GlobalsOk(p[1..], declared))
  }

  function GlobalsLength(p: Program): nat {
    if p == [] then 0 else (if p[0].Global? then ExprLength(p[0].init, {}) + 2 else 0) + GlobalsLength(p[1..])
  }

  /** Every function sees all globals; its frame holds all its variables that are in scope at once. */
  predicate FuncsOk(p: Program, globals: set<string>) {
    p == []
    || (&& (p[0].Func? ==> StmtsOk(p[0].body, Names(globals, {}, {})) && WidthAll(p[0].body) <= LARGEST_FRAME)
        && FuncsOk(p[1..], globals))
  }

  /** Two words before a function's body and two behind it. */
  function FuncsLength(p: Program): nat {
    if p == [] then 0 else (if p[0].Func? then StmtsLength(p[0].body, {}) + 4 else 0) + FuncsLength(p[1..])
  }

  /** Two words that set up the frames, the globals, two jumps, and the functions. */
  function Length(p: Program): nat {
    2 + GlobalsLength(p) + 4 + FuncsLength(p)
  }

  /** A program that compiles. */
  predicate Compilable(p: Program) {
    && GlobalsOk(p, {}) && GLOBAL_START + CountGlobals(p) <= CONSTANTS
    && FuncsOk(p, GlobalNames(p))
    && D.NamedOnce(p) && D.FuncNames(p) !! D.MadeUp(p)
  }

  /** No function has more than `k` variables in scope at once. */
  predicate FramesWithin(p: Program, k: nat) {
    p == [] || ((p[0].Func? ==> WidthAll(p[0].body) <= k) && FramesWithin(p[1..], k))
  }

  /** Everything that is called exists, if only as a label. */
  predicate CallsKnown(p: Program) {
    {"main"} + D.CallsProgram(p) <= D.FuncNames(p) + D.MadeUp(p)
  }
}
