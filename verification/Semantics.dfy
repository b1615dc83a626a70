/**
 What MyLanguage programs mean, with no reference to how they are compiled: a store
 of named variables in nested scopes, and a list of printed values.

 `fuel` is spent one unit for every statement and every turn of a loop, in the order in which
 they start, so that a run can be stopped before each of them; `depth` bounds the calls that
 may be active at once.
 */
module Semantics {
  import opened Results
  import opened Words
  import opened Syntax
  import M = Machine

  /**
   Two readings of the operators. They differ on `|` and `^`, which mean what they
   are written to mean, or the AND that the compiler emits for them.
   */
  datatype Dialect = Written | Emitted

  datatype World = World(prog: Program, z: M.ByZero, dialect: Dialect)

  /** A variable that has been declared but not yet given a value is `None`. */
  type Scope = map<string, Option<Word>>

  datatype Store = Store(globals: Scope, scopes: seq<Scope>, printed: seq<Word>)

  /** A call that has not returned: the function called, the scopes of its caller, and the place in its body. */
  datatype Suspended = Suspended(callee: string, scopes: seq<Scope>, place: Place)

  datatype Outcome =
      // the unspent fuel
    | Done(store: Store, left: nat)
      // fuel ran out: the store, the place of the statement that did not start, or that waits for the
      // first of the active calls, and these calls, outermost first
    | Timeout(at: Store, place: Place, calls: seq<Suspended>)
      // an unset or unknown variable was read, or an unknown function called
    | Undefined
      // more than `depth` calls were active
    | TooDeep

  function BinaryValue(w: World, op: BinOp, a: Word, b: Word): Word {
    match op
    case BitOr => Bitwise(if w.dialect == Written then OrGate else AndGate, a, b)
    case BitXor => Bitwise(if w.dialect == Written then XorGate else AndGate, a, b)
    case BitAnd => Bitwise(AndGate, a, b)
    case Equal => Flag(a == b)
    case NotEqual => Flag(a != b)
    case Less => Flag(Signed(a) < Signed(b))
    case LessEqual => Flag(Signed(a) <= Signed(b))
    case Greater => Flag(Signed(a) > Signed(b))
    case GreaterEqual => Flag(Signed(a) >= Signed(b))
    case ShiftL => ShiftLeft(a, b)
    case ShiftR => ShiftRight(a, b)
    case Plus => Wrap(a + b)
    case Minus => Wrap(a - b)
    case Mult => Wrap(a * b)
    case Div => if b == 0 then w.z(true, a) else Quotient(a, b)
    case Rem => if b == 0 then w.z(false, a) else Remainder(a, b)
  }

  function UnaryValue(op: UnOp, a: Word): Word {
    match op
    case Negative => Wrap(0 - a)
    case BitNot => MODULUS - 1 - a
  }

  /** The value of a name: innermost scope first, then the globals. */
  function Lookup(st: Store, name: string): Option<Word>
    decreases |st.scopes|
  {
    if st.scopes == [] then
      if name in st.globals then st.globals[name] else None
    else
      var n := |st.scopes| - 1;
      if name in st.scopes[n] then st.scopes[n][name]
      else Lookup(st.(scopes := st.scopes[..n]), name)
  }

  /** Give a value to the innermost variable of that name. */
  function Update(st: Store, name: string, v: Word): Option<Store>
    decreases |st.scopes|
  {
    if st.scopes == [] then
      if name in st.globals then Some(st.(globals := st.globals[name := Some(v)])) else None
    else
      var n := |st.scopes| - 1;
      if name in st.scopes[n] then Some(st.(scopes := st.scopes[n := st.scopes[n][name := Some(v)]]))
      else
        match Update(st.(scopes := st.scopes[..n]), name, v)
        case None => None
        case Some(st') => Some(st'.(scopes := st'.scopes + [st.scopes[n]]))
  }

  function Eval(w: World, e: Expr, st: Store): Option<Word> {
    match e
    case Number(v) => Some(Wrap(v))
    case Ident(name) => Lookup(st, name)
    case Unary(op, arg) =>
      (match Eval(w, arg, st)
       case None => None
       case Some(a) => Some(UnaryValue(op, a)))
    case Binary(op, l, r) =>
      match (Eval(w, l, st), Eval(w, r, st))
      case (Some(a), Some(b)) => Some(BinaryValue(w, op, a, b))
      case _ => None
  }

  function Push(st: Store): Store {
    st.(scopes := st.scopes + [map[]])
  }

  function Pop(st: Store): Store {
    if st.scopes == [] then st else st.(scopes := st.scopes[..|st.scopes| - 1])
  }

  /** A new variable in the innermost scope, not yet set. */
  function Introduce(st: Store, name: string): Store {
    if st.scopes == [] then st.(globals := st.globals[name := None])
    else
      var n := |st.scopes| - 1;
      st.(scopes := st.scopes[n := st.scopes[n][name := None]])
  }

  /** The declared name is already in scope, unset, while its initial value is computed. */
  function Declare(w: World, name: string, init: Expr, st: Store): Option<Store> {
    var st1 := Introduce(st, name);
    match Eval(w, init, st1)
    case None => None
    case Some(v) => Update(st1, name, v)
  }

  function FindFunc(p: Program, name: string): Option<seq<Stmt>> {
    if p == [] then None
    else
      match p[0]
      case Func(f, body) => if f == name then Some(body) else FindFunc(p[1..], name)
      case Global(_, _) => FindFunc(p[1..], name)
  }

  /** The place of an unfinished statement, seen from the statement around it. */
  function Deeper(step: Step, out: Outcome): (r: Outcome)
    ensures r.Done? <==> out.Done?
    ensures r.Done? ==> r == out
  {
    match out
    case Timeout(at, place, calls) => Timeout(at, Inside(step, place), calls)
    case other => other
  }

  function ExecScoped(w: World, fuel: nat, depth: nat, s: Stmt, st: Store): (r: Outcome)
    ensures r.Done? ==> r.left <= fuel
    decreases fuel, depth, s, 1
  {
    match Exec(w, fuel, depth, s, Push(st))
    case Done(st', left) => Done(Pop(st'), left)
    case other => other
  }

  /**
   Every statement but a block, and every turn of a loop, takes one unit of fuel before it
   starts. `if` and `while` open a scope, and their branches one more each.
   */
  function Exec(w: World, fuel: nat, depth: nat, s: Stmt, st: Store): (r: Outcome)
    ensures r.Done? ==> r.left <= fuel
    decreases fuel, depth, s, 0
  {
    if s.Block? then ExecAll(w, fuel, depth, s.stmts, st)
    else if fuel == 0 then Timeout(st, Here, [])
    else
      match s
      case If(cond, thn, els) =>
        (match Eval(w, cond, Push(st))
         case None => Undefined
         case Some(v) =>
           if v == 0 && els.None? then Done(st, fuel - 1)
           else
             match ExecScoped(w, fuel - 1, depth, if v != 0 then thn else els.value, Push(st))
             case Done(st', left) => Done(Pop(st'), left)
             case other => Deeper(if v != 0 then IntoThen else IntoElse, other))
      case While(cond, body) =>
        (match Eval(w, cond, Push(st))
         case None => Undefined
         case Some(v) =>
           if v == 0 then Done(st, fuel - 1)
           else
             match ExecScoped(w, fuel - 1, depth, body, Push(st))
             case Done(st', left) => Exec(w, left, depth, s, Pop(st'))
             case other => Deeper(IntoBody, other))
      case VarDecl(name, init) =>
        (match Declare(w, name, init, st)
         case None => Undefined
         case Some(st') => Done(st', fuel - 1))
      case Assign(name, e) =>
        (match Eval(w, e, st)
         case None => Undefined
         case Some(v) =>
           match Update(st, name, v)
           case None => Undefined
           case Some(st') => Done(st', fuel - 1))
      case Print(e) =>
        (match Eval(w, e, st)
         case None => Undefined
         case Some(v) => Done(st.(printed := st.printed + [v]), fuel - 1))
      case Call(callee) => ExecCall(w, fuel - 1, depth, callee, st)
  }

  /** A call runs the body on the globals and an empty scope of its own. */
  function ExecCall(w: World, fuel: nat, depth: nat, callee: string, st: Store): (r: Outcome)
    ensures r.Done? ==> r.left <= fuel
    decreases fuel, depth
  {
    match FindFunc(w.prog, callee)
    case None => Undefined
    case Some(body) =>
      if depth == 0 then TooDeep
      else AfterCall(callee, ExecAll(w, fuel, depth - 1, body, st.(scopes := [map[]])), st.scopes)
  }

  /** What a call makes of its body's outcome; `scopes` are its caller's. */
  function AfterCall(callee: string, out: Outcome, scopes: seq<Scope>): Outcome {
    match out
    case Done(st, left) => Done(st.(scopes := scopes), left)
    case Timeout(at, place, calls) => Timeout(at, Here, [Suspended(callee, scopes, place)] + calls)
    case other => other
  }

  function ExecAll(w: World, fuel: nat, depth: nat, ss: seq<Stmt>, st: Store): (r: Outcome)
    ensures r.Done? ==> r.left <= fuel
    decreases fuel, depth, ss, 0
  {
    if ss == [] then Done(st, fuel)
    else
      match Exec(w, fuel, depth, ss[0], st)
      case Done(st', left) => Deeper(IntoRest, ExecAll(w, left, depth, ss[1..], st'))
      case other => Deeper(IntoFirst, other)
  }

  /** The global declarations, in order of appearance. */
  function ExecGlobals(w: World, p: Program, st: Store): Option<Store>
    decreases |p|
  {
    if p == [] then Some(st)
    else
      match p[0]
      case Func(_, _) => ExecGlobals(w, p[1..], st)
      case Global(name, init) =>
        match Declare(w, name, init, st)
        case None => None
        case Some(st') => ExecGlobals(w, p[1..], st')
  }

  const EMPTY := Store(map[], [], [])

  /** The whole program: the globals are set, then `main` is called. */
  function RunProgram(w: World, fuel: nat, depth: nat): Outcome {
    match ExecGlobals(w, w.prog, EMPTY)
    case None => Undefined
    case Some(st) => ExecCall(w, fuel, depth, "main", st)
  }
}
