/** Which labels a program declares and refers to, and so when it can be linked. */
module LabelDiscipline {
  import opened Results
  import opened Syntax
  import Asm = Assembler
  import A = Allocator
  import C = Compiler
  import G = CodeGen
  import K = Correctness
  import L = LabelGenerators

  /** The labels with numbers from `lo` up to `hi`. */
  function Labels(lo: nat, hi: nat): set<string> {
    set k: nat | lo <= k < hi :: C.Label(k)
  }

  lemma LabelsSplit(lo: nat, mid: nat, hi: nat)
    requires lo <= mid <= hi
    ensures Labels(lo, mid) + Labels(mid, hi) == Labels(lo, hi)
    ensures Labels(lo, mid) !! Labels(mid, hi)
  {
    hide C.Label;
    forall j: nat, k: nat | j < mid <= k ensures C.Label(j) != C.Label(k) {
      LabelsDiffer(j, k);
    }
    forall x | x in Labels(lo, hi) ensures x in Labels(lo, mid) + Labels(mid, hi) {
      var k: nat :| lo <= k < hi && x == C.Label(k);
      assert x in if k < mid then Labels(lo, mid) else Labels(mid, hi);
    }
  }

  lemma LabelsDiffer(j: nat, k: nat)
    requires j != k
    ensures C.Label(j) != C.Label(k)
  {
    L.NamesDistinct("L", j, k);
  }

  lemma OneLabel(k: nat)
    ensures Labels(k, k) == {} && Labels(k, k + 1) == {C.Label(k)}
  {
    hide C.Label;
    assert C.Label(k) in Labels(k, k + 1);
  }

  /** The names a generator has declared, and those it has referred to. */
  datatype Table = Table(declared: set<string>, referred: set<string>)

  function TableOf(g: G.Gen): Table {
    Table(g.labels.Keys, g.refs.Keys)
  }

  /**
   From `t` to `t'` exactly the names `added` were declared, none of them declared before, and
   `calls` were referred to, beside names among `added`.
   */
  predicate Adds(t: Table, t': Table, added: set<string>, calls: set<string>) {
    && added !! t.declared && t'.declared == t.declared + added
    && t.referred + calls <= t'.referred <= t.referred + calls + added
  }

  lemma AddsTransitive(t: Table, t1: Table, t2: Table, added1: set<string>, added2: set<string>, calls1: set<string>,
                       calls2: set<string>)
    requires Adds(t, t1, added1, calls1) && Adds(t1, t2, added2, calls2)
    ensures Adds(t, t2, added1 + added2, calls1 + calls2)
  {}

  /** References to what has been declared need not be counted, and sets may be written differently. */
  lemma AddsSettled(t: Table, t': Table, added: set<string>, calls: set<string>, same: set<string>, fewer: set<string>)
    requires Adds(t, t', added, calls) && added == same && fewer <= calls <= fewer + added
    ensures Adds(t, t', same, fewer)
  {}

  // ----- statements -----

  /** The functions a statement calls. */
  function Calls(s: Stmt): set<string> {
    match s
    case If(_, thn, els) => Calls(thn) + (if els.Some? then Calls(els.value) else {})
    case While(_, body) => Calls(body)
    case Call(callee) => {callee}
    case Block(ss) => CallsAll(ss)
    case _ => {}
  }

  function CallsAll(ss: seq<Stmt>): set<string> {
    if ss == [] then {} else Calls(ss[0]) + CallsAll(ss[1..])
  }

  /** How many labels the compiler makes up for a statement. */
  function Count(s: Stmt): nat {
    match s
    case If(_, thn, els) => 1 + Count(thn) + if els.Some? then 1 + Count(els.value) else 0
    case While(_, body) => 2 + Count(body)
    case Block(ss) => CountAll(ss)
    case _ => 0
  }

  function CountAll(ss: seq<Stmt>): nat {
    if ss == [] then 0 else Count(ss[0]) + CountAll(ss[1..])
  }

  /**
   A visit that makes up `n` labels: if it ends well it has declared exactly those, and if a
   label stops it, one of those was declared before.
   */
  predicate Named(st: C.State, r: Result<C.State>, n: nat, calls: set<string>) {
    match r
    case Ok(st') =>
      st'.counter == st.counter + n && Adds(TableOf(st.gen), TableOf(st'.gen), Labels(st.counter, st.counter + n),
                                            calls)
    case Err(e) => e.LabelDeclared? ==> !(Labels(st.counter, st.counter + n) !! st.gen.labels.Keys)
  }

  /** Neither labels nor references were touched. */
  predicate SameNames(g: G.Gen, r: Result<G.Gen>) {
    match r
    case Ok(g') => g'.labels == g.labels && g'.refs == g.refs
    case Err(e) => !e.LabelDeclared?
  }

  lemma {:induction false} ExprNames(allocs: seq<A.Alloc>, g: G.Gen, e: Expr)
    ensures SameNames(g, C.CompileExpr(allocs, g, e))
    decreases e
  {
    hide C.Declaration, Asm.Pack;
    match e
    case Number(_) =>
    case Ident(_) =>
    case Unary(_, a) => ExprNames(allocs, g, a);
    case Binary(_, l, r) =>
      ExprNames(allocs, g, l);
      if C.CompileExpr(allocs, g, l).Ok? {
        ExprNames(allocs, C.CompileExpr(allocs, g, l).value, r);
      }
  }

  lemma SaveNames(g: G.Gen, addr: nat, scope: A.Scope)
    ensures SameNames(g, C.SaveVar(g, addr, scope))
  {
    hide Asm.Pack;
  }

  /** A visit that neither makes up labels nor refers to any. */
  lemma Unnamed(st: C.State, r: Result<C.State>)
    requires r.Err? ==> !r.error.LabelDeclared?
    requires r.Ok? ==> r.value.counter == st.counter && TableOf(r.value.gen) == TableOf(st.gen)
    ensures Named(st, r, 0, {})
  {
    OneLabel(st.counter);
  }

  lemma VarDeclNames(st: C.State, x: string, e: Expr)
    requires C.Ready(st)
    ensures Named(st, C.CompileVarDecl(st, x, e), 0, {})
  {
    hide C.CompileExpr, C.SaveVar, Named;
    var d := A.Declare(C.Last(st), x);
    DeclareError(C.Last(st), x);
    if d.Ok? {
      var st1 := C.WithLast(st, d.value.0);
      ExprNames(st1.allocs, st1.gen, e);
      var g1 := C.CompileExpr(st1.allocs, st1.gen, e);
      if g1.Ok? {
        SaveNames(g1.value, d.value.0.base + d.value.1, d.value.0.scope);
      }
    }
    Unnamed(st, C.CompileVarDecl(st, x, e));
  }

  lemma DeclareError(a: A.Alloc, x: string)
    requires a.blocks != []
    ensures A.Declare(a, x).Err? ==> A.Declare(a, x).error == VariableDeclared(x)
  {}

  lemma AssignNames(st: C.State, x: string, e: Expr)
    requires C.Ready(st)
    ensures Named(st, C.CompileAssign(st, x, e), 0, {})
  {
    hide C.CompileExpr, C.SaveVar, C.Declaration, Named;
    var d := C.Declaration(st.allocs, x);
    if d.Some? {
      ExprNames(st.allocs, st.gen, e);
      var g1 := C.CompileExpr(st.allocs, st.gen, e);
      if g1.Ok? {
        SaveNames(g1.value, d.value.0, d.value.1);
      }
    }
    Unnamed(st, C.CompileAssign(st, x, e));
  }

  lemma PrintNames(st: C.State, e: Expr)
    requires C.Ready(st)
    ensures Named(st, C.CompilePrint(st, e), 0, {})
  {
    hide C.CompileExpr, Named, Asm.Pack;
    ExprNames(st.allocs, st.gen, e);
    Unnamed(st, C.CompilePrint(st, e));
  }

  lemma JumpNames(g: G.Gen, target: string)
    ensures Adds(TableOf(g), TableOf(G.Jump(g, target)), {}, {target})
  {}

  lemma CallNames(st: C.State, callee: string)
    ensures Named(st, Ok(st.(gen := G.Jump(st.gen, callee))), 0, {callee})
  {
    JumpNames(st.gen, callee);
    OneLabel(st.counter);
  }

  // ----- the parts of `if` and `while` -----

  /** A test refers to a label, and does nothing else. */
  lemma TestNames(allocs: seq<A.Alloc>, g: G.Gen, e: Expr, target: string)
    ensures var r := C.CompileTest(allocs, g, e, target);
            if r.Ok? then Adds(TableOf(g), TableOf(r.value), {}, {target}) else !r.error.LabelDeclared?
  {
    hide C.CompileExpr;
    ExprNames(allocs, g, e);
  }

  /** Declaring a label fails exactly if it is declared. */
  lemma DeclareNames(g: G.Gen, name: string)
    ensures var r := G.DeclareLabel(g, name);
            if r.Ok? then Adds(TableOf(g), TableOf(r.value), {name}, {}) else name in g.labels && r.error.LabelDeclared?
  {}

  lemma CloseNames(st: C.State, order: A.HashOrder)
    requires st.allocs != []
    ensures var r := C.Close(st, order);
            if r.Ok? then r.value.gen == st.gen && r.value.counter == st.counter else !r.error.LabelDeclared?
  {
    hide A.StartBlock;
  }

  lemma {:induction false} ScopedNames(st: C.State, s: Stmt, order: A.HashOrder)
    requires C.Ready(st)
    ensures Named(st, C.CompileScoped(st, s, order), Count(s), Calls(s))
    decreases s, 3
  {
    hide C.CompileStmt, C.Close, Count, Calls, Labels;
    StmtNames(C.Open(st), s, order);
    var st1 := C.CompileStmt(C.Open(st), s, order);
    if st1.Ok? {
      CloseNames(st1.value, order);
    }
  }

  lemma {:induction false} StmtNames(st: C.State, s: Stmt, order: A.HashOrder)
    requires C.Ready(st)
    ensures Named(st, C.CompileStmt(st, s, order), Count(s), Calls(s))
    decreases s, 2
  {
    hide Named;
    match s
    case If(_, _, _) => IfNames(st, s, order);
    case While(_, _) => WhileNames(st, s, order);
    case VarDecl(x, e) => VarDeclNames(st, x, e);
    case Assign(x, e) => AssignNames(st, x, e);
    case Print(e) => PrintNames(st, e);
    case Call(callee) => CallNames(st, callee);
    case Block(ss) => StmtsNames(st, ss, order);
  }

  lemma {:induction false} StmtsNames(st: C.State, ss: seq<Stmt>, order: A.HashOrder)
    requires C.Ready(st)
    ensures Named(st, C.CompileStmts(st, ss, order), CountAll(ss), CallsAll(ss))
    decreases ss, 0
  {
    hide C.CompileStmt, Named, Count, Calls;
    if ss == [] {
      Unnamed(st, Ok(st));
    } else {
      StmtNames(st, ss[0], order);
      var st1 := C.CompileStmt(st, ss[0], order);
      if st1.Ok? {
        StmtsNames(st1.value, ss[1..], order);
        var r := C.CompileStmts(st1.value, ss[1..], order);
        NamedTransitive(st, st1.value, r, Count(ss[0]), CountAll(ss[1..]), Calls(ss[0]), CallsAll(ss[1..]));
      } else {
        NamedError(st, st1, C.CompileStmts(st, ss, order), Count(ss[0]), CountAll(ss), Calls(ss[0]), CallsAll(ss));
      }
    }
  }

  /** One visit after another. */
  lemma NamedTransitive(st: C.State, st1: C.State, r: Result<C.State>, n1: nat, n2: nat, calls1: set<string>,
                        calls2: set<string>)
    requires Named(st, Ok(st1), n1, calls1) && Named(st1, r, n2, calls2)
    ensures Named(st, r, n1 + n2, calls1 + calls2)
  {
    hide Labels, Adds;
    var lo, mid, hi := st.counter, st1.counter, st1.counter + n2;
    LabelsSplit(lo, mid, hi);
    if r.Ok? {
      AddsTransitive(TableOf(st.gen), TableOf(st1.gen), TableOf(r.value.gen), Labels(lo, mid), Labels(mid, hi),
                     calls1, calls2);
    } else {
      AddsDeclared(TableOf(st.gen), TableOf(st1.gen), Labels(lo, mid), calls1);
    }
  }

  lemma AddsDeclared(t: Table, t': Table, added: set<string>, calls: set<string>)
    requires Adds(t, t', added, calls)
    ensures added !! t.declared && t'.declared == t.declared + added
  {}

  lemma NamedError(st: C.State, r: Result<C.State>, r': Result<C.State>, n: nat, n': nat, calls: set<string>,
                   calls': set<string>)
    requires Named(st, r, n, calls) && r.Err? && r'.Err? && r'.error == r.error && n <= n'
    ensures Named(st, r', n', calls')
  {
    hide Labels;
    LabelsSplit(st.counter, st.counter + n, st.counter + n');
  }

  /**
   Within an `if` or `while` from `st`: label `k` has been made up and referred to, but is still
   to be declared; all other labels from `st`'s on are.
   */
  predicate Pending(st: C.State, st1: C.State, k: nat, calls: set<string>) {
    && st.counter <= k < st1.counter
    && Adds(TableOf(st.gen), TableOf(st1.gen), Labels(st.counter, st1.counter) - {C.Label(k)}, calls + {C.Label(k)})
  }

  /** A visit while label `k` is pending. */
  lemma PendingTransitive(st: C.State, st1: C.State, r: Result<C.State>, k: nat, n: nat, calls1: set<string>,
                          calls2: set<string>)
    requires Pending(st, st1, k, calls1) && Named(st1, r, n, calls2)
    ensures match r
            case Ok(st2) => st2.counter == st1.counter + n && Pending(st, st2, k, calls1 + calls2)
            case Err(e) => e.LabelDeclared? ==> !(Labels(st.counter, st1.counter + n) !! st.gen.labels.Keys)
  {
    hide Labels, C.Label, Adds;
    var lo, mid, hi := st.counter, st1.counter, st1.counter + n;
    var l, before, after := {C.Label(k)}, Labels(lo, mid), Labels(mid, hi);
    LabelsSplit(lo, mid, hi);
    LabelInRange(k, lo, mid);
    PendingSets(before, after, l, calls1, calls2);
    if r.Ok? {
      AddsTransitive(TableOf(st.gen), TableOf(st1.gen), TableOf(r.value.gen), before - l, after, calls1 + l, calls2);
      AddsSettled(TableOf(st.gen), TableOf(r.value.gen), before - l + after, calls1 + l + calls2,
                  Labels(lo, hi) - l, calls1 + calls2 + l);
    } else {
      AddsDeclared(TableOf(st.gen), TableOf(st1.gen), before - l, calls1 + l);
    }
  }

  lemma LabelInRange(k: nat, lo: nat, hi: nat)
    requires lo <= k < hi
    ensures C.Label(k) in Labels(lo, hi)
  {}

  lemma PendingSets(before: set<string>, after: set<string>, l: set<string>, calls1: set<string>, calls2: set<string>)
    requires before !! after && l <= before
    ensures before - l + after == before + after - l && calls1 + l + calls2 == calls1 + calls2 + l
  {}

  /** The pending label is declared. */
  lemma DeclarePending(st: C.State, st1: C.State, k: nat, calls: set<string>)
    requires Pending(st, st1, k, calls)
    ensures var r := G.DeclareLabel(st1.gen, C.Label(k));
            if r.Ok? then Adds(TableOf(st.gen), TableOf(r.value), Labels(st.counter, st1.counter), calls)
            else !(Labels(st.counter, st1.counter) !! st.gen.labels.Keys) && r.error.LabelDeclared?
  {
    var l := {C.Label(k)};
    var all := Labels(st.counter, st1.counter);
    assert C.Label(k) in all;
    DeclareNames(st1.gen, C.Label(k));
    hide Labels, C.Label, Adds, G.DeclareLabel;
    AddsDeclared(TableOf(st.gen), TableOf(st1.gen), all - l, calls + l);
    var r := G.DeclareLabel(st1.gen, C.Label(k));
    if r.Ok? {
      AddsTransitive(TableOf(st.gen), TableOf(st1.gen), TableOf(r.value), all - l, l, calls + l, {});
      AddsSettled(TableOf(st.gen), TableOf(r.value), all - l + l, calls + l + {}, all, calls);
    }
  }

  /** The end of an `if` or `while`: its pending label is declared and its block closed. */
  lemma EndNames(st: C.State, st1: C.State, k: nat, order: A.HashOrder, calls: set<string>)
    requires C.Ready(st1) && Pending(st, st1, k, calls)
    ensures Named(st, C.EndIf(st1, C.Label(k), order), st1.counter - st.counter, calls)
  {
    hide C.Close, C.Label, Adds, Labels;
    DeclarePending(st, st1, k, calls);
    var g := G.DeclareLabel(st1.gen, C.Label(k));
    if g.Ok? {
      CloseNames(st1.(gen := g.value), order);
    }
  }

  /** An `if` starts with a pending label. */
  lemma BeginIfNames(st: C.State, cond: Expr)
    requires C.Ready(st)
    ensures var r := C.BeginIf(st, cond);
            if r.Ok? then r.value.counter == st.counter + 1 && Pending(st, r.value, st.counter, {})
            else !r.error.LabelDeclared?
  {
    hide C.CompileTest, C.Label, Labels;
    OneLabel(st.counter);
    TestNames(C.Open(st).allocs, st.gen, cond, C.Label(st.counter));
    assert Labels(st.counter, st.counter + 1) - {C.Label(st.counter)} == {};
  }

  lemma {:induction false} IfNames(st: C.State, s: Stmt, order: A.HashOrder)
    requires s.If? && C.Ready(st)
    ensures Named(st, C.CompileStmt(st, s, order), Count(s), Calls(s))
    decreases s, 1
  {
    hide C.BeginIf, C.BeginElse, C.EndIf, C.CompileScoped, C.Label, Pending, Labels, Adds;
    var If(cond, thn, els) := s;
    var c, n := st.counter, Count(thn);
    BeginIfNames(st, cond);
    var st1 := C.BeginIf(st, cond);
    if st1.Ok? {
      ScopedNames(st1.value, thn, order);
      var st2 := C.CompileScoped(st1.value, thn, order);
      PendingTransitive(st, st1.value, st2, c, n, {}, Calls(thn));
      assert {} + Calls(thn) == Calls(thn);
      LabelsSplit(c, c + 1 + n, c + Count(s));
      if st2.Ok? {
        if els.None? {
          assert Calls(s) == Calls(thn) && st2.value.counter - c == Count(s);
          EndNames(st, st2.value, c, order, Calls(thn));
        } else {
          ElseNames(st, st2.value, s, order);
        }
      }
    }
  }

  /** The second branch, after the first: its pending label takes over from the first. */
  lemma {:induction false} ElseNames(st: C.State, st2: C.State, s: Stmt, order: A.HashOrder)
    requires s.If? && s.els.Some? && C.Ready(st) && C.Ready(st2) && Pending(st, st2, st.counter, Calls(s.thn))
    requires st2.counter == st.counter + 1 + Count(s.thn)
    ensures var r3 := C.BeginElse(st2, C.Label(st.counter));
            var r4 := if r3.Ok? then C.CompileScoped(r3.value, s.els.value, order) else r3;
            var r := if r4.Ok? then C.EndIf(r4.value, C.Label(st2.counter), order) else r4;
            Named(st, r, Count(s), Calls(s))
    decreases s, 0
  {
    hide C.BeginElse, C.EndIf, C.CompileScoped, C.Label, Pending, Labels, Adds;
    var els := s.els.value;
    BeginElseNames(st, st2, st.counter, Calls(s.thn));
    LabelsSplit(st.counter, st2.counter, st.counter + Count(s));
    var r3 := C.BeginElse(st2, C.Label(st.counter));
    if r3.Ok? {
      var st3 := r3.value;
      ScopedNames(st3, els, order);
      var r4 := C.CompileScoped(st3, els, order);
      PendingTransitive(st, st3, r4, st2.counter, Count(els), Calls(s.thn), Calls(els));
      if r4.Ok? {
        EndNames(st, r4.value, st2.counter, order, Calls(s));
      }
    }
  }

  /** Between the branches: the first pending label is declared, and a second one is pending. */
  lemma BeginElseNames(st: C.State, st2: C.State, k: nat, calls: set<string>)
    requires C.Ready(st2) && Pending(st, st2, k, calls)
    ensures var r := C.BeginElse(st2, C.Label(k));
            if r.Ok? then r.value.counter == st2.counter + 1 && Pending(st, r.value, st2.counter, calls)
            else r.error.LabelDeclared? && !(Labels(st.counter, st2.counter) !! st.gen.labels.Keys)
  {
    hide C.Label, Labels, Adds, G.DeclareLabel;
    var c2 := st2.counter;
    DeclarePending(st, st2, k, calls);
    var g := G.DeclareLabel(st2.gen, C.Label(k));
    JumpThenDeclare(st2.gen, C.Label(c2), C.Label(k));
    if g.Ok? {
      LabelsSplit(st.counter, c2, c2 + 1);
      OneLabel(c2);
      AddsReferred(TableOf(st.gen), TableOf(g.value), Labels(st.counter, c2), calls, {C.Label(c2)});
      assert Labels(st.counter, c2 + 1) - {C.Label(c2)} == Labels(st.counter, c2);
    }
  }

  /** The jump does not matter to a declaration behind it. */
  lemma JumpThenDeclare(g: G.Gen, target: string, name: string)
    ensures var r, r' := G.DeclareLabel(g, name), G.DeclareLabel(G.Jump(g, target), name);
            if r.Ok? then
              r'.Ok? && TableOf(r'.value) == TableOf(r.value).(referred := TableOf(r.value).referred + {target})
            else r' == r
  {}

  lemma AddsReferred(t: Table, t': Table, added: set<string>, calls: set<string>, more: set<string>)
    requires Adds(t, t', added, calls)
    ensures Adds(t, t'.(referred := t'.referred + more), added, calls + more)
  {}

  /** The start of a loop: its first label is declared, its second pending. */
  lemma BeginWhileNames(st: C.State, cond: Expr)
    requires C.Ready(st)
    ensures var r := C.BeginWhile(st, cond);
            if r.Ok? then r.value.counter == st.counter + 2 && Pending(st, r.value, st.counter + 1, {})
            else r.error.LabelDeclared? ==> C.Label(st.counter) in st.gen.labels
    ensures C.Label(st.counter) in Labels(st.counter, st.counter + 2)
  {
    hide C.CompileTest, C.Label, Labels, G.DeclareLabel, Adds;
    var c := st.counter;
    LabelInRange(c, c, c + 2);
    DeclareNames(st.gen, C.Label(c));
    var g1 := G.DeclareLabel(st.gen, C.Label(c));
    if g1.Ok? {
      var target := C.Label(c + 1);
      TestNames(C.Open(st).allocs, g1.value, cond, target);
      LoopLabels(c);
      var g2 := C.CompileTest(C.Open(st).allocs, g1.value, cond, target);
      if g2.Ok? {
        AddsTransitive(TableOf(st.gen), TableOf(g1.value), TableOf(g2.value), {C.Label(c)}, {}, {}, {target});
      }
    }
  }

  lemma LoopLabels(c: nat)
    ensures Labels(c, c + 2) - {C.Label(c + 1)} == {C.Label(c)} + {}
  {
    hide C.Label, Labels;
    OneLabel(c);
    OneLabel(c + 1);
    LabelsSplit(c, c + 1, c + 2);
  }

  lemma {:induction false} WhileNames(st: C.State, s: Stmt, order: A.HashOrder)
    requires s.While? && C.Ready(st)
    ensures Named(st, C.CompileStmt(st, s, order), Count(s), Calls(s))
    decreases s, 1
  {
    hide C.CompileScoped, C.Close, Pending, Labels, G.DeclareLabel, G.Jump, C.Label, C.BeginWhile, Adds;
    var While(cond, body) := s;
    var c := st.counter;
    BeginWhileNames(st, cond);
    LabelsSplit(c, c + 2, c + Count(s));
    var st1 := C.BeginWhile(st, cond);
    if st1.Ok? {
      ScopedNames(st1.value, body, order);
      var st2 := C.CompileScoped(st1.value, body, order);
      PendingTransitive(st, st1.value, st2, c + 1, Count(body), {}, Calls(body));
      assert {} + Calls(body) == Calls(body);
      if st2.Ok? {
        BackNames(st, st2.value, Calls(body));
        EndNames(st, st2.value.(gen := G.Jump(st2.value.gen, C.Label(c))), c + 1, order, Calls(body));
      }
    }
  }

  /** The jump back refers to a label that is declared. */
  lemma BackNames(st: C.State, st2: C.State, calls: set<string>)
    requires Pending(st, st2, st.counter + 1, calls)
    ensures Pending(st, st2.(gen := G.Jump(st2.gen, C.Label(st.counter))), st.counter + 1, calls)
  {
    assert C.Label(st.counter) in Labels(st.counter, st2.counter);
    LabelsDiffer(st.counter, st.counter + 1);
    JumpNames(st2.gen, C.Label(st.counter));
    hide Labels;
  }

  // ----- programs -----

  function FuncNames(p: Program): set<string> {
    if p == [] then {} else FuncNames(p[1..]) + (if p[0].Func? then {p[0].name} else {})
  }

  /** The functions that the program's functions call. */
  function CallsProgram(p: Program): set<string> {
    if p == [] then {} else CallsProgram(p[1..]) + (if p[0].Func? then CallsAll(p[0].body) else {})
  }

  /** No two functions have the same name. */
  predicate NamedOnce(p: Program) {
    p == [] || (NamedOnce(p[1..]) && (p[0].Func? ==> p[0].name !in FuncNames(p[1..])))
  }

  /** How many labels the compiler makes up for the functions. */
  function CountFuncs(p: Program): nat {
    if p == [] then 0 else (if p[0].Func? then CountAll(p[0].body) else 0) + CountFuncs(p[1..])
  }

  /** The labels the compiler makes up for a program, the end loop's included. */
  function MadeUp(p: Program): set<string> {
    Labels(0, 1 + CountFuncs(p))
  }

  /** The functions `p` have different names, none of which is made up when `p` is compiled from counter `c` on. */
  predicate Unclashing(p: Program, c: nat) {
    NamedOnce(p) && FuncNames(p) !! Labels(c, c + CountFuncs(p))
  }

  /** One function: its name and its own labels are declared, unless one of them is already. */
  lemma FuncNamed(st: C.State, name: string, body: seq<Stmt>, order: A.HashOrder)
    ensures var r := C.CompileFunc(st, name, body, order);
            var made := Labels(st.counter, st.counter + CountAll(body));
            match r
            case Ok(st') =>
              && st'.counter == st.counter + CountAll(body) && name !in made
              && Adds(TableOf(st.gen), TableOf(st'.gen), {name} + made, CallsAll(body))
            case Err(e) => e.LabelDeclared? ==> name in made || !({name} + made !! st.gen.labels.Keys)
  {
    hide C.CompileStmts, Labels, Adds, G.Epilogue, CountAll, CallsAll, Asm.Pack;
    DeclareNames(st.gen, name);
    var g1 := G.DeclareLabel(st.gen, name);
    if g1.Ok? {
      AddsDeclared(TableOf(st.gen), TableOf(g1.value), {name}, {});
      var st1 := C.Enter(st, g1.value);
      assert TableOf(st1.gen) == TableOf(g1.value);
      StmtsNames(st1, body, order);
      var st2 := C.CompileStmts(st1, body, order);
      if st2.Ok? {
        var made := Labels(st.counter, st2.value.counter);
        AddsDeclared(TableOf(st1.gen), TableOf(st2.value.gen), made, CallsAll(body));
        AddsTransitive(TableOf(st.gen), TableOf(st1.gen), TableOf(st2.value.gen), {name}, made, {}, CallsAll(body));
        assert {} + CallsAll(body) == CallsAll(body);
        EpilogueNames(st2.value.gen, C.Last(st2.value).firstFree);
      }
    }
  }

  lemma EpilogueNames(g: G.Gen, size: nat)
    requires g.fpAdds != [] && g.fpAdds[|g.fpAdds| - 1] < |g.prog|
    ensures SameNames(g, G.Epilogue(g, size))
  {
    hide Asm.Pack;
  }

  /** All functions. */
  lemma {:induction false} FuncsNamed(st: C.State, p: Program, order: A.HashOrder)
    ensures var r := C.CompileFuncs(st, p, order);
            var added := FuncNames(p) + Labels(st.counter, st.counter + CountFuncs(p));
            match r
            case Ok(st') =>
              Unclashing(p, st.counter) && Adds(TableOf(st.gen), TableOf(st'.gen), added, CallsProgram(p))
            case Err(e) => e.LabelDeclared? ==> !Unclashing(p, st.counter) || !(added !! st.gen.labels.Keys)
    decreases |p|
  {
    hide C.CompileFunc, Labels, Adds, CountAll, CallsAll;
    if p == [] {
      OneLabel(st.counter);
      NothingAdded(TableOf(st.gen));
      assert FuncNames(p) + Labels(st.counter, st.counter + 0) == {};
    } else if p[0].Global? {
      assert FuncNames(p) == FuncNames(p[1..]) && CallsProgram(p) == CallsProgram(p[1..]);
      FuncsNamed(st, p[1..], order);
    } else {
      var name, body := p[0].name, p[0].body;
      FuncNamed(st, name, body, order);
      var c, c1, c2 := st.counter, st.counter + CountAll(body), st.counter + CountFuncs(p);
      LabelsSplit(c, c1, c2);
      var st1 := C.CompileFunc(st, name, body, order);
      if st1.Ok? {
        var made := {name} + Labels(c, c1);
        var rest := FuncNames(p[1..]) + Labels(c1, c2);
        FuncsNamed(st1.value, p[1..], order);
        AddsDeclared(TableOf(st.gen), TableOf(st1.value.gen), made, CallsAll(body));
        var r := C.CompileFuncs(st1.value, p[1..], order);
        if r.Ok? {
          AddsDeclared(TableOf(st1.value.gen), TableOf(r.value.gen), rest, CallsProgram(p[1..]));
          AddsTransitive(TableOf(st.gen), TableOf(st1.value.gen), TableOf(r.value.gen), made, rest, CallsAll(body),
                         CallsProgram(p[1..]));
          AddsSettled(TableOf(st.gen), TableOf(r.value.gen), made + rest, CallsAll(body) + CallsProgram(p[1..]),
                      FuncNames(p) + Labels(c, c2), CallsProgram(p));
        }
      }
    }
  }

  lemma NothingAdded(t: Table)
    ensures Adds(t, t, {}, {})
  {}

  lemma {:induction false} GlobalsNames(st: C.State, p: Program)
    requires C.Ready(st)
    ensures Named(st, C.CompileGlobals(st, p), 0, {})
    decreases |p|
  {
    hide Named, C.CompileVarDecl;
    if p == [] {
      Unnamed(st, Ok(st));
    } else if p[0].Global? {
      VarDeclNames(st, p[0].name, p[0].init);
      var st1 := C.CompileVarDecl(st, p[0].name, p[0].init);
      if st1.Ok? {
        GlobalsNames(st1.value, p[1..]);
        NamedTransitive(st, st1.value, C.CompileGlobals(st1.value, p[1..]), 0, 0, {}, {});
        var none: set<string> := {};
        assert none + none == none;
      } else {
        NamedError(st, st1, C.CompileGlobals(st, p), 0, 0, {}, {});
      }
    } else {
      GlobalsNames(st, p[1..]);
    }
  }

  /** The call of main and the end loop behind it. */
  lemma CallMainNames(st: C.State)
    ensures Named(st, C.CallMain(st), 1, {"main"})
  {
    OneLabel(st.counter);
    hide C.Label, Labels;
  }

  /** Everything before the functions: nothing is declared but the end loop. */
  lemma StartNames(p: Program)
    ensures var st1 := C.Preamble(C.INITIAL); st1.Ok? && C.Ready(st1.value)
    ensures match C.CompileGlobals(C.Preamble(C.INITIAL).value, p)
            case Err(e) => !e.LabelDeclared?
            case Ok(st2) =>
              var r := C.CallMain(st2);
              && r.Ok? && r.value.counter == 1
              && Adds(TableOf(G.START), TableOf(r.value.gen), Labels(0, 1), {"main"})
  {
    var st1 := C.Preamble(C.INITIAL).value;
    assert TableOf(st1.gen) == TableOf(G.START) && st1.counter == 0;
    hide C.Preamble, C.CompileGlobals, C.CallMain, Labels, Adds;
    GlobalsNames(st1, p);
    OneLabel(0);
    var st2 := C.CompileGlobals(st1, p);
    if st2.Ok? {
      CallMainNames(st2.value);
      NamedTransitive(st1, st2.value, C.CallMain(st2.value), 0, 1, {}, {"main"});
      assert {} + {"main"} == {"main"};
    }
  }

  /** What a compiled program has declared and referred to. */
  lemma ProgramNames(p: Program, order: A.HashOrder)
    ensures match C.CompileProg(p, order)
            case Ok(st) =>
              && NamedOnce(p) && FuncNames(p) !! MadeUp(p)
              && Adds(TableOf(G.START), TableOf(st.gen), FuncNames(p) + MadeUp(p), {"main"} + CallsProgram(p))
            case Err(e) => e.LabelDeclared? ==> !(NamedOnce(p) && FuncNames(p) !! MadeUp(p))
  {
    hide C.Preamble, C.CompileGlobals, C.CallMain, C.CompileFuncs, Labels, Adds, FuncNames, CallsProgram, CountFuncs,
         NamedOnce;
    StartNames(p);
    var first, made := Labels(0, 1), Labels(1, 1 + CountFuncs(p));
    LabelsSplit(0, 1, 1 + CountFuncs(p));
    var st2 := C.CompileGlobals(C.Preamble(C.INITIAL).value, p);
    if st2.Ok? {
      var st3 := C.CallMain(st2.value).value;
      FuncsNamed(st3, p, order);
      AddsDeclared(TableOf(G.START), TableOf(st3.gen), first, {"main"});
      assert TableOf(st3.gen).declared == first;
      var r := C.CompileFuncs(st3, p, order);
      if r.Ok? {
        AddsDeclared(TableOf(st3.gen), TableOf(r.value.gen), FuncNames(p) + made, CallsProgram(p));
        AddsTransitive(TableOf(G.START), TableOf(st3.gen), TableOf(r.value.gen), first, FuncNames(p) + made, {"main"},
                       CallsProgram(p));
        AllNames(first, made, MadeUp(p), FuncNames(p));
      } else if r.error.LabelDeclared? && NamedOnce(p) {
        Clash(first, made, MadeUp(p), FuncNames(p));
      }
    }
  }

  lemma AllNames(first: set<string>, made: set<string>, all: set<string>, names: set<string>)
    requires first + made == all
    ensures first + (names + made) == names + all
    ensures names !! made && names + made !! first ==> names !! all
  {}

  lemma Clash(first: set<string>, made: set<string>, all: set<string>, names: set<string>)
    requires first + made == all && first !! made
    requires !(names !! made) || !(names + made !! first)
    ensures !(names !! all)
  {}

  /**
   A program is never rejected because of a label if its functions have different names, none
   of which is made up for it, and is always rejected otherwise.
   */
  lemma NeverClashes(p: Program, order: A.HashOrder)
    ensures NamedOnce(p) && FuncNames(p) !! MadeUp(p) ==>
              C.CompileProg(p, order).Ok? || !C.CompileProg(p, order).error.LabelDeclared?
    ensures !(NamedOnce(p) && FuncNames(p) !! MadeUp(p)) ==> C.CompileProg(p, order).Err?
  {
    hide *;
    ProgramNames(p, order);
  }

  /**
   A compiled program can be linked exactly when main and every function called are functions
   or labels made up for the program, and every label it refers to lies below 2^31.
   */
  lemma LinksIff(p: Program, order: A.HashOrder)
    requires C.CompileProg(p, order).Ok?
    ensures var g := C.CompileProg(p, order).value.gen;
      G.Linkable(g) <==>
        && {"main"} + CallsProgram(p) <= FuncNames(p) + MadeUp(p)
        && forall x :: x in g.refs && x in g.labels ==> Asm.FitsConstant(g.labels[x])
  {
    hide *;
    ProgramNames(p, order);
    LinkableIff(C.CompileProg(p, order).value.gen, FuncNames(p) + MadeUp(p), {"main"} + CallsProgram(p));
  }

  /** For a program of fewer than 2^31 words the addresses are no condition. */
  lemma LinksIffNamed(p: Program, order: A.HashOrder)
    requires A.IsHashOrder(order)
    requires C.CompileProg(p, order).Ok? && |C.CompileProg(p, order).value.gen.prog| < 0x8000_0000
    ensures G.Linkable(C.CompileProg(p, order).value.gen) <==> {"main"} + CallsProgram(p) <= FuncNames(p) + MadeUp(p)
  {
    hide *;
    LinksIff(p, order);
    K.FinalValid(p, order);
    SmallAddresses(C.CompileProg(p, order).value.gen);
  }

  lemma SmallAddresses(g: G.Gen)
    requires G.Valid(g) && |g.prog| < 0x8000_0000
    ensures forall x :: x in g.labels ==> Asm.FitsConstant(g.labels[x])
  {}

  lemma LinkableIff(g: G.Gen, added: set<string>, calls: set<string>)
    requires Adds(TableOf(G.START), TableOf(g), added, calls)
    ensures G.Linkable(g) <==>
            calls <= added && forall x :: x in g.refs && x in g.labels ==> Asm.FitsConstant(g.labels[x])
  {
    hide Asm.FitsConstant;
    assert TableOf(g).declared == added;
    if G.Linkable(g) {
      forall x | x in calls ensures x in added {
        assert x in TableOf(g).referred && x in g.refs;
      }
    }
    if calls <= added {
      forall x | x in g.refs ensures x in g.labels {
        assert x in TableOf(g).referred;
      }
    }
  }

  // ----- undefined functions that link -----

  /** The start of every program without globals. */
  lemma ShortStart()
    ensures C.Preamble(C.INITIAL).Ok? && C.CallMain(C.Preamble(C.INITIAL).value).Ok?
    ensures var st := C.CallMain(C.Preamble(C.INITIAL).value).value;
      && |st.gen.prog| == 6 && st.counter == 1
      && st.gen.labels == map["L0" := 4] && st.gen.refs == map["main" := [2], "L0" := [4]]
  {
    FirstLabels();
    hide Asm.Pack, C.Label;
    var g := C.Preamble(C.INITIAL).value.gen;
    assert |g.prog| == 2 && G.RefsTo(g, "main") == [];
    var g1 := G.Jump(g, "main");
    assert [] + [2] == [2] && [] + [4] == [4];
    assert g1.refs == map["main" := [2]] && G.RefsTo(g1, "L0") == [];
  }

  /** A function that consists of a call. */
  lemma CallingFunc(st: C.State, name: string, callee: string, order: A.HashOrder)
    requires name !in st.gen.labels
    ensures var r := C.CompileFunc(st, name, [Call(callee)], order);
      && r.Ok? && |r.value.gen.prog| == |st.gen.prog| + 6 && r.value.counter == st.counter
      && r.value.gen.labels == st.gen.labels[name := |st.gen.prog|]
      && r.value.gen.refs == st.gen.refs[callee := G.RefsTo(st.gen, callee) + [|st.gen.prog| + 2]]
  {
    hide Asm.Pack, C.Label;
    var st1 := C.Enter(st, G.DeclareLabel(st.gen, name).value);
    var s := Call(callee);
    var st2 := C.CompileStmt(st1, s, order);
    assert C.CompileStmts(st1, [s], order) == C.CompileStmts(st2.value, [], order) == st2;
  }

  /** `func main { call L0; }` compiles and links, though it defines no function L0: the call goes to the end loop. */
  lemma EndLoopCallable(order: A.HashOrder)
    ensures var p := [Func("main", [Call("L0")])];
      && "L0" !in FuncNames(p) && C.CompileProg(p, order).Ok?
      && var g := C.CompileProg(p, order).value.gen;
         G.Linkable(g) && g.refs == map["main" := [2], "L0" := [4, 8]] && g.labels == map["L0" := 4, "main" := 6]
  {
    hide Asm.Pack, C.CompileFunc, C.Preamble, C.CallMain;
    ShortStart();
    var st := C.CallMain(C.Preamble(C.INITIAL).value).value;
    CallingFunc(st, "main", "L0", order);
    var main := Func("main", [Call("L0")]);
    assert [main] == [main] + [];
    OneFunction(st, main, [], order);
    ShortProg([main], order);
    var g := C.CompileProg([main], order).value.gen;
    assert [4] + [8] == [4, 8];
    assert g.refs == map["main" := [2], "L0" := [4, 8]] && g.labels == map["L0" := 4, "main" := 6];
  }

  lemma OneFunction(st: C.State, f: TopLevel, p: Program, order: A.HashOrder)
    requires f.Func?
    ensures FuncNames([f] + p) == FuncNames(p) + {f.name}
    ensures C.CompileFuncs(st, [f] + p, order) ==
      var r := C.CompileFunc(st, f.name, f.body, order);
      if r.Ok? then C.CompileFuncs(r.value, p, order) else r
  {
    assert ([f] + p)[1..] == p;
    hide C.CompileFunc;
  }

  const LOOP := While(Number(0), Block([]))

  /** A block in which nothing is declared leaves no trace. */
  lemma EmptyBlock(st: C.State, g: G.Gen, counter: nat, order: A.HashOrder)
    requires C.Ready(st) && A.IsHashOrder(order)
    ensures C.Open(st).gen == st.gen && C.Open(st).counter == st.counter
    ensures C.Close(C.Open(st).(gen := g, counter := counter), order) == Ok(st.(gen := g, counter := counter))
  {
    var a := C.Last(st);
    assert multiset(order([])) == multiset([]) && order([]) == [];
    var inner := A.StartBlock(a);
    assert inner.blocks[..|a.blocks|] == a.blocks && a.free + A.Slots(map[], order([])) == a.free;
    assert A.EndBlock(inner, order) == Ok(a);
    assert st.allocs[..|st.allocs| - 1] + [a] == st.allocs;
    var entered := C.Open(st);
    assert entered.allocs[..|st.allocs| - 1] == st.allocs[..|st.allocs| - 1];
  }

  lemma LoopBegins(st: C.State, order: A.HashOrder)
    requires C.Ready(st) && A.IsHashOrder(order) && st.counter == 1 && "L1" !in st.gen.labels
    ensures var r := C.BeginWhile(st, Number(0));
      && r.Ok? && C.Ready(r.value) && r.value == C.Open(st).(gen := r.value.gen, counter := 3)
      && |r.value.gen.prog| == |st.gen.prog| + 3
      && r.value.gen.labels == st.gen.labels["L1" := |st.gen.prog|]
      && r.value.gen.refs == st.gen.refs["L2" := G.RefsTo(st.gen, "L2") + [|st.gen.prog| + 1]]
  {
    hide Asm.Pack, C.Label, C.Open, C.Close, A.IsHashOrder;
    FirstLabels();
    EmptyBlock(st, st.gen, st.counter, order);
    LoopTest(C.Open(st).allocs, G.DeclareLabel(st.gen, "L1").value);
  }

  lemma LoopTest(allocs: seq<A.Alloc>, g: G.Gen)
    ensures var r := C.CompileTest(allocs, g, Number(0), "L2");
      && r.Ok? && |r.value.prog| == |g.prog| + 3 && r.value.labels == g.labels
      && r.value.refs == g.refs["L2" := G.RefsTo(g, "L2") + [|g.prog| + 1]]
  {
    hide Asm.Pack;
    assert C.CompileExpr(allocs, g, Number(0)) == G.EmitConst(g, 0);
  }

  lemma LoopTurns(st: C.State, order: A.HashOrder)
    requires C.Ready(st) && A.IsHashOrder(order)
    ensures C.CompileScoped(st, Block([]), order) == Ok(st)
  {
    hide C.Open, C.Close, C.CompileStmt, A.IsHashOrder;
    EmptyBlock(st, st.gen, st.counter, order);
    NothingCompiled(C.Open(st), order);
  }

  lemma NothingCompiled(st: C.State, order: A.HashOrder)
    requires C.Ready(st)
    ensures C.CompileStmt(st, Block([]), order) == Ok(st)
  {
    hide C.Ready;
  }

  lemma LoopEnds(st: C.State, g: G.Gen, order: A.HashOrder)
    requires C.Ready(st) && A.IsHashOrder(order) && "L2" !in g.labels
    ensures var r := C.EndWhile(C.Open(st).(gen := g, counter := 3), "L1", "L2", order);
      && r.Ok? && r.value.allocs == st.allocs && |r.value.gen.prog| == |g.prog| + 2
      && r.value.gen.labels == g.labels["L2" := |g.prog| + 2]
      && r.value.gen.refs == g.refs["L1" := G.RefsTo(g, "L1") + [|g.prog|]]
  {
    hide Asm.Pack, C.Open, C.Close, A.IsHashOrder;
    EmptyBlock(st, G.DeclareLabel(G.Jump(g, "L1"), "L2").value, 3, order);
    assert C.Ready(C.Open(st));
  }

  lemma EmptyLoop(st: C.State, order: A.HashOrder)
    requires C.Ready(st) && A.IsHashOrder(order) && st.counter == 1
    requires "L1" !in st.gen.labels && "L2" !in st.gen.labels
    ensures var r := C.CompileStmt(st, LOOP, order);
      var n := |st.gen.prog|;
      && r.Ok? && |r.value.gen.prog| == n + 5 && r.value.allocs == st.allocs
      && r.value.gen.labels == st.gen.labels["L1" := n]["L2" := n + 5]
      && r.value.gen.refs
         == st.gen.refs["L2" := G.RefsTo(st.gen, "L2") + [n + 1]]["L1" := G.RefsTo(st.gen, "L1") + [n + 3]]
  {
    hide C.Label, C.Open, C.BeginWhile, C.CompileScoped, C.EndWhile, C.Ready, A.IsHashOrder;
    FirstLabels();
    LoopBegins(st, order);
    var st1 := C.BeginWhile(st, Number(0)).value;
    LoopTurns(st1, order);
    LoopEnds(st, st1.gen, order);
  }

  /** A function that consists of an empty loop. */
  lemma LoopingFunc(st: C.State, name: string, order: A.HashOrder)
    requires A.IsHashOrder(order) && st.counter == 1 && name !in st.gen.labels && "L1" !in st.gen.labels
        && "L2" !in st.gen.labels
    requires name != "L1" && name != "L2"
    ensures var r := C.CompileFunc(st, name, [LOOP], order);
      var n := |st.gen.prog|;
      && r.Ok? && |r.value.gen.prog| == n + 9
      && r.value.gen.labels == st.gen.labels[name := n]["L1" := n + 2]["L2" := n + 7]
      && r.value.gen.refs
         == st.gen.refs["L2" := G.RefsTo(st.gen, "L2") + [n + 3]]["L1" := G.RefsTo(st.gen, "L1") + [n + 5]]
  {
    hide Asm.Pack, C.CompileStmt;
    var st1 := C.Enter(st, G.DeclareLabel(st.gen, name).value);
    EmptyLoop(st1, order);
    var st2 := C.CompileStmt(st1, LOOP, order);
    assert C.CompileStmts(st1, [LOOP], order) == C.CompileStmts(st2.value, [], order) == st2;
  }

  /** `func main { call L2; } func f { while (0) { } }` links too: the call goes into the middle of f. */
  lemma LoopEndCallable(order: A.HashOrder)
    requires A.IsHashOrder(order)
    ensures var p := [Func("main", [Call("L2")]), Func("f", [LOOP])];
      && "L2" !in FuncNames(p) && C.CompileProg(p, order).Ok?
      && var g := C.CompileProg(p, order).value.gen;
         && G.Linkable(g) && g.refs == map["main" := [2], "L0" := [4], "L2" := [8, 15], "L1" := [17]]
         && g.labels == map["L0" := 4, "main" := 6, "f" := 12, "L1" := 14, "L2" := 19] && |g.prog| == 21
  {
    hide Asm.Pack, C.CompileFunc, C.Preamble, C.CallMain, A.IsHashOrder;
    var main, f := Func("main", [Call("L2")]), Func("f", [LOOP]);
    ShortStart();
    var st := C.CallMain(C.Preamble(C.INITIAL).value).value;
    CallingL2(st, order);
    var st1 := C.CompileFunc(st, "main", main.body, order).value;
    LoopingF(st1, order);
    ShortProg([main, f], order);
    assert [main, f] == [main] + [f] && [f] == [f] + [];
    OneFunction(st, main, [f], order);
    OneFunction(st1, f, [], order);
  }

  lemma CallingL2(st: C.State, order: A.HashOrder)
    requires |st.gen.prog| == 6 && st.counter == 1
    requires st.gen.labels == map["L0" := 4] && st.gen.refs == map["main" := [2], "L0" := [4]]
    ensures var r := C.CompileFunc(st, "main", [Call("L2")], order);
      && r.Ok? && |r.value.gen.prog| == 12 && r.value.counter == 1
      && r.value.gen.labels == map["L0" := 4, "main" := 6]
      && r.value.gen.refs == map["main" := [2], "L0" := [4], "L2" := [8]]
  {
    hide C.CompileFunc;
    CallingFunc(st, "main", "L2", order);
    assert [] + [8] == [8];
  }

  lemma LoopingF(st: C.State, order: A.HashOrder)
    requires A.IsHashOrder(order) && |st.gen.prog| == 12 && st.counter == 1
    requires st.gen.labels == map["L0" := 4, "main" := 6] && st.gen.refs == map["main" := [2], "L0" := [4], "L2" := [8]]
    ensures var r := C.CompileFunc(st, "f", [LOOP], order);
      && r.Ok? && |r.value.gen.prog| == 21
      && r.value.gen.labels == map["L0" := 4, "main" := 6, "f" := 12, "L1" := 14, "L2" := 19]
      && r.value.gen.refs == map["main" := [2], "L0" := [4], "L2" := [8, 15], "L1" := [17]]
      && G.Linkable(r.value.gen)
  {
    hide C.CompileFunc, A.IsHashOrder;
    LoopingFunc(st, "f", order);
    assert [8] + [15] == [8, 15] && [] + [17] == [17];
  }

  /** A program without globals, after its start. */
  lemma {:induction false} ShortProg(p: Program, order: A.HashOrder)
    requires forall i :: 0 <= i < |p| ==> p[i].Func?
    ensures C.Preamble(C.INITIAL).Ok? && C.CallMain(C.Preamble(C.INITIAL).value).Ok?
    ensures C.CompileProg(p, order) == C.CompileFuncs(C.CallMain(C.Preamble(C.INITIAL).value).value, p, order)
  {
    hide C.CompileFuncs, C.Preamble, C.CallMain;
    ShortStart();
    assert C.Ready(C.Preamble(C.INITIAL).value);
    NoGlobals(C.Preamble(C.INITIAL).value, p);
  }

  lemma {:induction false} NoGlobals(st: C.State, p: Program)
    requires C.Ready(st) && forall i :: 0 <= i < |p| ==> p[i].Func?
    ensures C.CompileGlobals(st, p) == Ok(st)
  {
    if p != [] {
      NoGlobals(st, p[1..]);
    }
  }

  lemma FirstLabels()
    ensures C.Label(0) == "L0" && C.Label(1) == "L1" && C.Label(2) == "L2"
  {
    assert L.Decimal(0) == "0" && L.Decimal(1) == "1" && L.Decimal(2) == "2";
  }
}
