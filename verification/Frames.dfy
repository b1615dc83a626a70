/** What compiling a statement does to the allocators. */
module Frames {
  import opened Results
  import opened Syntax
  import A = Allocator
  import C = Compiler

  /** From `a` to `a'`: only the innermost block has new bindings, and no slot is forgotten. */
  ghost predicate Evolves(a: A.Alloc, a': A.Alloc) {
    && a'.scope == a.scope && a'.base == a.base
    && a.firstFree <= a'.firstFree
    && |a'.blocks| == |a.blocks| > 0
    && a'.blocks[..|a.blocks| - 1] == a.blocks[..|a.blocks| - 1]
  }

  /** The innermost allocator has evolved; the others are unchanged. */
  ghost predicate StateEvolves(st: C.State, st': C.State) {
    && C.Ready(st) && C.Ready(st')
    && |st'.allocs| == |st.allocs|
    && st'.allocs[..|st.allocs| - 1] == st.allocs[..|st.allocs| - 1]
    && Evolves(C.Last(st), C.Last(st'))
    && A.Valid(C.Last(st'))
  }

  lemma StateEvolvesTrans(st: C.State, st1: C.State, st2: C.State)
    requires StateEvolves(st, st1) && StateEvolves(st1, st2)
    ensures StateEvolves(st, st2)
  {
    hide A.Valid;
  }

  lemma DeclareEvolves(st: C.State, name: string)
    requires C.Ready(st) && A.Valid(C.Last(st)) && A.Declare(C.Last(st), name).Ok?
    ensures StateEvolves(st, C.WithLast(st, A.Declare(C.Last(st), name).value.0))
  {
    hide A.Valid, A.Declare;
    A.DeclareValid(C.Last(st), name);
    A.DeclareShape(C.Last(st), name);
  }

  /** Opening a block, compiling inside it and closing it leaves every binding as it was. */
  ghost predicate BlocksKept(st: C.State, st': C.State) {
    StateEvolves(st, st') && C.Last(st').blocks == C.Last(st).blocks
  }

  lemma OpenClose(st: C.State, st1: C.State, order: A.HashOrder)
    requires C.Ready(st) && A.Valid(C.Last(st)) && A.IsHashOrder(order)
    requires StateEvolves(C.Open(st), st1)
    ensures C.Close(st1, order).Ok? && BlocksKept(st, C.Close(st1, order).value)
  {
    var a, a1 := C.Last(st), C.Last(st1);
    assert C.Last(C.Open(st)) == A.StartBlock(a);
    A.EndBlockValid(a1, order);
    hide A.Valid;
    assert a1.blocks[..|a.blocks|] == a.blocks;
    var st2 := C.Close(st1, order).value;
    assert C.Last(st2).blocks == a.blocks;
  }

  lemma OpenValid(st: C.State)
    requires C.Ready(st) && A.Valid(C.Last(st))
    ensures A.Valid(C.Last(C.Open(st)))
  {
    A.StartBlockValid(C.Last(st));
  }

  lemma {:induction false} ScopedKeeps(st: C.State, s: Stmt, order: A.HashOrder)
    requires C.Ready(st) && A.Valid(C.Last(st)) && A.IsHashOrder(order) && C.CompileScoped(st, s, order).Ok?
    ensures BlocksKept(st, C.CompileScoped(st, s, order).value)
    decreases s, 3
  {
    hide A.Valid, A.IsHashOrder, StateEvolves;
    OpenValid(st);
    StmtEvolves(C.Open(st), s, order);
    OpenClose(st, C.CompileStmt(C.Open(st), s, order).value, order);
  }

  /** Everything between the start and the end of an `if` or `while`. */
  lemma InnerKept(st: C.State, st1: C.State, st2: C.State, st3: C.State, order: A.HashOrder)
    requires C.Ready(st) && A.Valid(C.Last(st)) && A.IsHashOrder(order)
    requires st1.allocs == C.Open(st).allocs && BlocksKept(st1, st2) && st3.allocs == st2.allocs
    ensures C.Close(st3, order).Ok? && BlocksKept(st, C.Close(st3, order).value)
  {
    OpenValid(st);
    hide A.Valid;
    OpenClose(st, st3, order);
  }

  lemma KeptTrans(st: C.State, st1: C.State, st2: C.State, st3: C.State)
    requires BlocksKept(st, st1) && st2.allocs == st1.allocs && BlocksKept(st2, st3)
    ensures BlocksKept(st, st3)
  {
    hide A.Valid;
  }

  lemma {:induction false} IfKeeps(st: C.State, s: Stmt, order: A.HashOrder)
    requires s.If? && C.Ready(st) && A.Valid(C.Last(st)) && A.IsHashOrder(order) && C.CompileStmt(st, s, order).Ok?
    ensures BlocksKept(st, C.CompileStmt(st, s, order).value)
    decreases s, 1
  {
    hide A.Valid, A.IsHashOrder, C.CompileTest, StateEvolves, C.Close, C.CompileScoped;
    var If(cond, thn, els) := s;
    var elseBegin := C.Label(st.counter);
    OpenValid(st);
    var st1 := C.BeginIf(st, cond).value;
    ScopedKeeps(st1, thn, order);
    var st2 := C.CompileScoped(st1, thn, order).value;
    match els {
      case None =>
        InnerKept(st, st1, st2, st2.(gen := C.G.DeclareLabel(st2.gen, elseBegin).value), order);
      case Some(e) =>
        var st3 := C.BeginElse(st2, elseBegin).value;
        assert A.Valid(C.Last(st3)) by {
          hide C.BeginElse;
          KeptValid(st1, st2);
        }
        ScopedKeeps(st3, e, order);
        var st4 := C.CompileScoped(st3, e, order).value;
        KeptTrans(st1, st2, st3, st4);
        InnerKept(st, st1, st4, st4.(gen := C.G.DeclareLabel(st4.gen, C.Label(st2.counter)).value), order);
    }
  }

  lemma KeptValid(st: C.State, st1: C.State)
    requires BlocksKept(st, st1)
    ensures C.Ready(st1) && A.Valid(C.Last(st1))
  {
  }

  lemma {:induction false} WhileKeeps(st: C.State, s: Stmt, order: A.HashOrder)
    requires s.While? && C.Ready(st) && A.Valid(C.Last(st)) && A.IsHashOrder(order) && C.CompileStmt(st, s, order).Ok?
    ensures BlocksKept(st, C.CompileStmt(st, s, order).value)
    decreases s, 1
  {
    hide A.Valid, A.IsHashOrder, C.CompileTest, StateEvolves, C.Close, C.CompileScoped;
    var While(cond, body) := s;
    var loop, loopEnd := C.Label(st.counter), C.Label(st.counter + 1);
    OpenValid(st);
    var st1 := C.BeginWhile(st, cond).value;
    ScopedKeeps(st1, body, order);
    var st2 := C.CompileScoped(st1, body, order).value;
    InnerKept(st, st1, st2, st2.(gen := C.G.DeclareLabel(C.G.Jump(st2.gen, loop), loopEnd).value), order);
  }

  lemma SameAllocs(st: C.State, st': C.State)
    requires C.Ready(st) && A.Valid(C.Last(st)) && st'.allocs == st.allocs
    ensures StateEvolves(st, st')
  {
    hide A.Valid;
  }

  lemma EvolvesValid(st: C.State, st': C.State)
    requires StateEvolves(st, st')
    ensures C.Ready(st') && A.Valid(C.Last(st'))
  {}

  lemma KeptEvolves(st: C.State, st': C.State)
    requires BlocksKept(st, st')
    ensures StateEvolves(st, st')
  {}

  lemma {:induction false} StmtEvolves(st: C.State, s: Stmt, order: A.HashOrder)
    requires C.Ready(st) && A.Valid(C.Last(st)) && A.IsHashOrder(order) && C.CompileStmt(st, s, order).Ok?
    ensures StateEvolves(st, C.CompileStmt(st, s, order).value)
    decreases s, 2
  {
    hide StateEvolves, A.Valid, A.IsHashOrder, A.Declare, C.CompileTest, C.CompileExpr, C.Close;
    match s
    case If(_, _, _) =>
      IfKeeps(st, s, order);
      KeptEvolves(st, C.CompileStmt(st, s, order).value);
    case While(_, _) =>
      WhileKeeps(st, s, order);
      KeptEvolves(st, C.CompileStmt(st, s, order).value);
    case VarDecl(name, init) =>
      DeclareEvolves(st, name);
      EvolvesValid(st, C.WithLast(st, A.Declare(C.Last(st), name).value.0));
      SameAllocs(C.WithLast(st, A.Declare(C.Last(st), name).value.0), C.CompileStmt(st, s, order).value);
      StateEvolvesTrans(st, C.WithLast(st, A.Declare(C.Last(st), name).value.0), C.CompileStmt(st, s, order).value);
    case Assign(_, _) => SameAllocs(st, C.CompileStmt(st, s, order).value);
    case Print(_) => SameAllocs(st, C.CompileStmt(st, s, order).value);
    case Call(_) => SameAllocs(st, C.CompileStmt(st, s, order).value);
    case Block(ss) => StmtsEvolve(st, ss, order);
  }

  lemma {:induction false} StmtsEvolve(st: C.State, ss: seq<Stmt>, order: A.HashOrder)
    requires C.Ready(st) && A.Valid(C.Last(st)) && A.IsHashOrder(order) && C.CompileStmts(st, ss, order).Ok?
    ensures StateEvolves(st, C.CompileStmts(st, ss, order).value)
    decreases ss, 0
  {
    if ss != [] {
      StmtEvolves(st, ss[0], order);
      hide A.Valid, A.IsHashOrder, C.CompileStmt;
      var st1 := C.CompileStmt(st, ss[0], order).value;
      StmtsEvolve(st1, ss[1..], order);
      StateEvolvesTrans(st, st1, C.CompileStmts(st1, ss[1..], order).value);
    }
  }
}
