/** The compiler accepts exactly the programs that are well formed, and its code is as long as their text says. */
module Acceptance {
  import opened Results
  import opened Syntax
  import opened Words
  import opened WellFormed
  import Asm = Assembler
  import A = Allocator
  import AR = AllocatorRuns
  import C = Compiler
  import D = LabelDiscipline
  import F = Frames
  import Fn = Functions
  import G = CodeGen
  import K = Correctness
  import M = Machine

  // ----- expressions -----

  /** The compiler finds exactly the visible names, and the locals among them in a frame. */
  ghost predicate Knows(allocs: seq<A.Alloc>, visible: set<string>, locals: set<string>) {
    forall x ::
      && (C.Declaration(allocs, x).Some? <==> x in visible)
      && (C.Declaration(allocs, x).Some? ==> (C.Declaration(allocs, x).value.1 == A.STACK <==> x in locals))
  }

  /** The address fits the instruction that uses it. */
  predicate Reachable(addr: nat, scope: A.Scope) {
    if scope == A.GLOBAL then addr < CONSTANTS else addr <= LARGEST_FRAME + 1
  }

  ghost predicate Roomy(allocs: seq<A.Alloc>) {
    forall x :: C.Declaration(allocs, x).Some? ==>
      Reachable(C.Declaration(allocs, x).value.0, C.Declaration(allocs, x).value.1)
  }

  lemma LoadIff(g: G.Gen, addr: nat, scope: A.Scope)
    ensures C.LoadVar(g, addr, scope).Ok? <==> Reachable(addr, scope)
    ensures C.LoadVar(g, addr, scope).Ok? ==>
              |C.LoadVar(g, addr, scope).value.prog| == |g.prog| + if scope == A.STACK then 1 else 2
  {
    hide Asm.Pack;
  }

  lemma SaveIff(g: G.Gen, addr: nat, scope: A.Scope)
    ensures C.SaveVar(g, addr, scope).Ok? <==> Reachable(addr, scope)
    ensures C.SaveVar(g, addr, scope).Ok? ==>
              |C.SaveVar(g, addr, scope).value.prog| == |g.prog| + if scope == A.STACK then 1 else 2
  {
    hide Asm.Pack;
  }

  /** An expression is accepted if its numbers and names are in order, and its code has the length foretold. */
  predicate Judges(g: G.Gen, r: Result<G.Gen>, ok: bool, roomy: bool, length: nat) {
    match r
    case Ok(g') => ok && |g'.prog| == |g.prog| + length
    case Err(e) => !e.LabelDeclared? && !(ok && roomy)
  }

  lemma {:induction false} ExprJudged(allocs: seq<A.Alloc>, g: G.Gen, e: Expr, visible: set<string>,
                                      locals: set<string>)
    requires Knows(allocs, visible, locals)
    ensures Judges(g, C.CompileExpr(allocs, g, e), ExprOk(e, visible), Roomy(allocs), ExprLength(e, locals))
    decreases e
  {
    hide C.Declaration, C.LoadVar, Asm.Pack;
    match e
    case Number(_) =>
    case Ident(x) =>
      hide Reachable;
      if C.Declaration(allocs, x).Some? {
        LoadNames(g, C.Declaration(allocs, x).value.0, C.Declaration(allocs, x).value.1);
        LoadIff(g, C.Declaration(allocs, x).value.0, C.Declaration(allocs, x).value.1);
      }
    case Unary(_, arg) =>
      hide Knows, Roomy;
      ExprJudged(allocs, g, arg, visible, locals);
    case Binary(_, l, r) =>
      hide Knows, Roomy;
      ExprJudged(allocs, g, l, visible, locals);
      var g1 := C.CompileExpr(allocs, g, l);
      if g1.Ok? {
        ExprJudged(allocs, g1.value, r, visible, locals);
      }
  }

  lemma LoadNames(g: G.Gen, addr: nat, scope: A.Scope)
    ensures C.LoadVar(g, addr, scope).Err? ==> !C.LoadVar(g, addr, scope).error.LabelDeclared?
  {
    hide Asm.Pack;
  }

  // ----- what the allocators know -----

  ghost function NamesIn(blocks: seq<A.Block>): set<string> {
    if blocks == [] then {} else NamesIn(blocks[..|blocks| - 1]) + blocks[|blocks| - 1].vars.Keys
  }

  lemma {:induction false} SlotFound(blocks: seq<A.Block>, x: string)
    ensures A.SlotOf(blocks, x).Some? <==> x in NamesIn(blocks)
    ensures A.SlotOf(blocks, x).Some? ==> A.SlotOf(blocks, x).value in A.Live(blocks)
  {
    if blocks != [] {
      SlotFound(blocks[..|blocks| - 1], x);
      var vars := blocks[|blocks| - 1].vars;
      assert x in vars ==> vars[x] in vars.Values;
    }
  }

  /** Every variable of an allocator has a slot below its high-water mark. */
  lemma SlotBelow(a: A.Alloc, x: string)
    requires A.Valid(a)
    ensures A.GetAddr(a, x).Some? <==> x in NamesIn(a.blocks)
    ensures A.GetAddr(a, x).Some? ==> A.GetAddr(a, x).value < a.base + a.firstFree
  {
    SlotFound(a.blocks, x);
  }

  /** The globals are all declared, and their addresses are constants. */
  ghost predicate GlobalsIn(g: A.Alloc, globals: set<string>) {
    && A.Valid(g) && g.scope == A.GLOBAL && g.base == GLOBAL_START && g.base + g.firstFree <= CONSTANTS
    && NamesIn(g.blocks) == globals
  }

  /** A function's allocator: its names, how many of them are in scope, and how many cells they took. */
  ghost predicate Frame(a: A.Alloc, n: Names, live: nat, top: nat) {
    && A.Valid(a) && a.scope == A.STACK && a.base == 0 && a.firstFree == top && a.blocks != []
    && NamesIn(a.blocks) == n.locals && a.blocks[|a.blocks| - 1].vars.Keys == n.inner
    && A.LiveCount(a.blocks) == live
  }

  /** Inside a function. */
  ghost predicate Sees(st: C.State, g: A.Alloc, n: Names, live: nat, top: nat) {
    |st.allocs| == 2 && st.allocs[0] == g && GlobalsIn(g, n.globals) && Frame(st.allocs[1], n, live, top)
  }

  lemma DeclarationOfTwo(g: A.Alloc, a: A.Alloc, x: string)
    ensures C.Declaration([g, a], x)
         == match A.GetAddr(a, x)
            case Some(addr) => Some((addr, a.scope))
            case None => DeclarationOfOne(g, x)
  {
    hide A.GetAddr;
    assert [g, a][..1] == [g] && [g][..0] == [];
    assert C.Declaration([g], x) == DeclarationOfOne(g, x);
  }

  function DeclarationOfOne(g: A.Alloc, x: string): Option<(nat, A.Scope)> {
    match A.GetAddr(g, x)
    case Some(addr) => Some((addr, g.scope))
    case None => None
  }

  lemma SeesName(g: A.Alloc, a: A.Alloc, n: Names, live: nat, top: nat, x: string)
    requires GlobalsIn(g, n.globals) && Frame(a, n, live, top)
    ensures var d := C.Declaration([g, a], x);
            && (d.Some? <==> x in n.Visible())
            && (d.Some? ==> (d.value.1 == A.STACK <==> x in n.locals))
            && (d.Some? && top <= LARGEST_FRAME ==> Reachable(d.value.0, d.value.1))
  {
    hide A.Valid, C.Declaration, A.GetAddr, NamesIn, A.LiveCount;
    DeclarationOfTwo(g, a, x);
    SlotBelow(a, x);
    SlotBelow(g, x);
  }

  lemma SeesKnows(st: C.State, g: A.Alloc, n: Names, live: nat, top: nat)
    requires Sees(st, g, n, live, top)
    ensures Knows(st.allocs, n.Visible(), n.locals)
    ensures top <= LARGEST_FRAME ==> Roomy(st.allocs)
  {
    hide GlobalsIn, Frame, C.Declaration, Reachable;
    assert st.allocs == [g, st.allocs[1]];
    forall x
      ensures var d := C.Declaration(st.allocs, x);
              && (d.Some? <==> x in n.Visible())
              && (d.Some? ==> (d.value.1 == A.STACK <==> x in n.locals))
              && (d.Some? && top <= LARGEST_FRAME ==> Reachable(d.value.0, d.value.1))
    {
      SeesName(g, st.allocs[1], n, live, top, x);
    }
  }

  // ----- statements -----

  /**
   A visit inside a function is accepted if the text is in order; what is then visible, in scope
   and used up, and how much code there is, are what the text says. If it is not accepted, then
   because of the text, of the frame, or of a label.
   */
  ghost predicate Judged(st: C.State, g: A.Alloc, r: Result<C.State>, ok: bool, n: Names, live: nat, top: nat,
                         length: nat)
  {
    match r
    case Ok(st') => ok && Sees(st', g, n, live, top) && |st'.gen.prog| == |st.gen.prog| + length
    case Err(e) => ok && top <= LARGEST_FRAME ==> e.LabelDeclared?
  }

  /** A declaration: one more variable, in a slot that was used before if there is one. */
  lemma DeclareFrame(a: A.Alloc, x: string, order: A.HashOrder, n: Names, live: nat, top: nat)
    requires Frame(a, n, live, top) && A.IsHashOrder(order)
    ensures A.Declare(a, x).Ok? <==> x !in n.inner
    ensures A.Declare(a, x).Err? ==> !A.Declare(a, x).error.LabelDeclared?
    ensures A.Declare(a, x).Ok? ==>
              var (a', slot) := A.Declare(a, x).value;
              slot < AR.Max(top, live + 1) && Frame(a', n.With({x}), live + 1, AR.Max(top, live + 1))
  {
    hide A.Valid, A.Declare, A.IsHashOrder, A.LiveCount, A.Live, NamesIn;
    DeclareIff(a, x);
    if A.Declare(a, x).Ok? {
      A.DeclareShape(a, x);
      OneMore(a, x);
      OneMoreSlot(a, x, order);
    }
  }

  lemma OneMoreSlot(a: A.Alloc, x: string, order: A.HashOrder)
    requires A.Valid(a) && A.IsHashOrder(order) && A.Declare(a, x).Ok?
    ensures var (a', slot) := A.Declare(a, x).value;
            A.Valid(a') && slot < a'.firstFree == AR.Max(a.firstFree, A.LiveCount(a'.blocks))
  {
    hide A.Valid, A.Declare, A.IsHashOrder, A.LiveCount, A.Live;
    A.DeclareValid(a, x);
    AR.ApplyPeak(a, AR.Bind(x), order);
  }

  lemma DeclareIff(a: A.Alloc, x: string)
    requires a.blocks != []
    ensures A.Declare(a, x).Ok? <==> x !in a.blocks[|a.blocks| - 1].vars
    ensures A.Declare(a, x).Err? ==> !A.Declare(a, x).error.LabelDeclared?
  {}

  lemma OneMore(a: A.Alloc, x: string)
    requires a.blocks != [] && A.Declare(a, x).Ok?
    ensures var (a', slot) := A.Declare(a, x).value;
            && A.LiveCount(a'.blocks) == A.LiveCount(a.blocks) + 1
            && NamesIn(a'.blocks) == NamesIn(a.blocks) + {x}
  {
    hide A.Declare;
    DeclareIff(a, x);
    A.DeclareShape(a, x);
  }

  lemma VarDeclJudged(st: C.State, g: A.Alloc, x: string, init: Expr, order: A.HashOrder, n: Names, live: nat, top: nat)
    requires C.Ready(st) && Sees(st, g, n, live, top) && A.IsHashOrder(order)
    ensures Judged(st, g, C.CompileVarDecl(st, x, init), StmtOk(VarDecl(x, init), n), n.With({x}), live + 1,
                   AR.Max(top, live + 1), StmtLength(VarDecl(x, init), n.locals))
  {
    hide Frame, GlobalsIn, A.Declare, A.IsHashOrder, C.CompileExpr, C.SaveVar, Knows, Roomy, ExprOk, ExprLength;
    var a := st.allocs[1];
    var d := A.Declare(a, x);
    DeclareFrame(a, x, order, n, live, top);
    if d.Ok? {
      var (a', slot) := d.value;
      var st1 := C.WithLast(st, a');
      var n1, top1 := n.With({x}), AR.Max(top, live + 1);
      FrameStarts(a', n1, live + 1, top1);
      SeesKnows(st1, g, n1, live + 1, top1);
      ExprJudged(st1.allocs, st1.gen, init, n1.Visible(), n1.locals);
      assert n1.Visible() == n.Visible() + {x};
      var g1 := C.CompileExpr(st1.allocs, st1.gen, init);
      if g1.Ok? {
        SaveIff(g1.value, slot, A.STACK);
        SaveNames(g1.value, slot, A.STACK);
      }
    }
  }

  lemma SaveNames(g: G.Gen, addr: nat, scope: A.Scope)
    ensures C.SaveVar(g, addr, scope).Err? ==> !C.SaveVar(g, addr, scope).error.LabelDeclared?
  {
    hide Asm.Pack;
  }

  lemma FrameStarts(a: A.Alloc, n: Names, live: nat, top: nat)
    requires Frame(a, n, live, top)
    ensures a.scope == A.STACK && a.base == 0
  {}

  lemma AssignJudged(st: C.State, g: A.Alloc, x: string, e: Expr, n: Names, live: nat, top: nat)
    requires C.Ready(st) && Sees(st, g, n, live, top)
    ensures Judged(st, g, C.CompileAssign(st, x, e), StmtOk(Assign(x, e), n), n, live, top,
                   StmtLength(Assign(x, e), n.locals))
  {
    hide Frame, GlobalsIn, C.CompileExpr, C.SaveVar, ExprOk, ExprLength, C.Declaration, Reachable;
    SeesKnows(st, g, n, live, top);
    ExprJudged(st.allocs, st.gen, e, n.Visible(), n.locals);
    var d := C.Declaration(st.allocs, x);
    var g1 := C.CompileExpr(st.allocs, st.gen, e);
    if d.Some? && g1.Ok? {
      SaveIff(g1.value, d.value.0, d.value.1);
      SaveNames(g1.value, d.value.0, d.value.1);
    }
  }

  lemma PrintJudged(st: C.State, g: A.Alloc, e: Expr, n: Names, live: nat, top: nat)
    requires C.Ready(st) && Sees(st, g, n, live, top)
    ensures Judged(st, g, C.CompilePrint(st, e), StmtOk(Print(e), n), n, live, top, StmtLength(Print(e), n.locals))
  {
    hide Frame, GlobalsIn, C.CompileExpr, ExprOk, ExprLength, Knows, Roomy, Asm.Pack;
    SeesKnows(st, g, n, live, top);
    ExprJudged(st.allocs, st.gen, e, n.Visible(), n.locals);
  }

  lemma CallJudged(st: C.State, g: A.Alloc, callee: string, n: Names, live: nat, top: nat)
    requires Sees(st, g, n, live, top)
    ensures Judged(st, g, Ok(st.(gen := G.Jump(st.gen, callee))), true, n, live, top, 2)
  {
    hide Frame, GlobalsIn, Asm.Pack;
  }

  // ----- one visit after another -----

  lemma JudgedThen(st: C.State, g: A.Alloc, r1: Result<C.State>, r: Result<C.State>, ok1: bool, n1: Names, live1: nat,
                   top1: nat, length1: nat, ok2: bool, n2: Names, live2: nat, top2: nat, length2: nat)
    requires Judged(st, g, r1, ok1, n1, live1, top1, length1) && top1 <= top2
    requires match r1
             case Ok(st1) => Judged(st1, g, r, ok2, n2, live2, top2, length2)
             case Err(e) => r == Err(e)
    ensures Judged(st, g, r, ok1 && ok2, n2, live2, top2, length1 + length2)
  {
    hide Sees;
  }

  // ----- blocks -----

  lemma OpenSees(st: C.State, g: A.Alloc, n: Names, live: nat, top: nat)
    requires Sees(st, g, n, live, top)
    ensures C.Ready(st) && A.Valid(C.Last(st)) && C.Ready(C.Open(st)) && A.Valid(C.Last(C.Open(st)))
    ensures Sees(C.Open(st), g, n.Inside(), live, top) && C.Last(st).firstFree == top
  {
    hide Frame, GlobalsIn, A.Valid, A.StartBlock;
    OpenFrame(st.allocs[1], n, live, top);
    assert C.Open(st).allocs == [g, A.StartBlock(st.allocs[1])];
  }

  lemma OpenFrame(a: A.Alloc, n: Names, live: nat, top: nat)
    requires Frame(a, n, live, top)
    ensures Frame(A.StartBlock(a), n.Inside(), live, top)
    ensures A.Valid(a) && A.Valid(A.StartBlock(a)) && a.firstFree == top
    ensures a.blocks != [] && A.StartBlock(a).blocks != []
  {
    hide A.Valid, A.Live;
    A.StartBlockValid(a);
    assert (a.blocks + [A.EMPTY])[..|a.blocks|] == a.blocks;
  }

  /** After a block, everything is as before it, except that more cells may have been used. */
  lemma BackInBlock(st: C.State, st': C.State, g: A.Alloc, n: Names, live: nat, top: nat)
    requires Sees(st, g, n, live, top) && F.BlocksKept(st, st')
    ensures Sees(st', g, n, live, C.Last(st').firstFree)
  {
    hide A.Valid;
    assert st'.allocs[..1] == st.allocs[..1];
    assert st'.allocs[0] == st'.allocs[..1][0] && st.allocs[0] == st.allocs[..1][0];
  }

  lemma CloseTop(st: C.State, order: A.HashOrder)
    requires st.allocs != [] && C.Close(st, order).Ok?
    ensures C.Last(C.Close(st, order).value).firstFree == C.Last(st).firstFree
  {
    hide A.Slots;
  }

  lemma SeesTop(st: C.State, g: A.Alloc, n: Names, live: nat, top: nat)
    requires Sees(st, g, n, live, top)
    ensures C.Ready(st) && A.Valid(C.Last(st)) && C.Last(st).firstFree == top
  {}

  lemma {:induction false} ScopedJudged(st: C.State, g: A.Alloc, s: Stmt, order: A.HashOrder, n: Names, live: nat,
                                        top: nat)
    requires C.Ready(st) && Sees(st, g, n, live, top) && A.IsHashOrder(order)
    ensures Judged(st, g, C.CompileScoped(st, s, order), StmtOk(s, n.Inside()), n, live, AR.Max(top, live + Width(s)),
                   StmtLength(s, n.locals))
    decreases s, 3
  {
    hide Sees, A.Valid, A.IsHashOrder, C.CompileStmt, C.Close, C.Open, StmtOk, StmtLength, Width, F.StateEvolves;
    OpenSees(st, g, n, live, top);
    StmtJudged(C.Open(st), g, s, order, n.Inside(), live, top);
    var st1 := C.CompileStmt(C.Open(st), s, order);
    if st1.Ok? {
      F.StmtEvolves(C.Open(st), s, order);
      F.OpenClose(st, st1.value, order);
      CloseTop(st1.value, order);
      SeesTop(st1.value, g, n.Inside().With(Declared(s)), live + Added(s), AR.Max(top, live + Width(s)));
      BackInBlock(st, C.Close(st1.value, order).value, g, n, live, top);
      OpenGen(st);
    }
  }

  lemma OpenGen(st: C.State)
    requires st.allocs != []
    ensures C.Open(st).gen == st.gen
  {}

  lemma {:induction false} StmtJudged(st: C.State, g: A.Alloc, s: Stmt, order: A.HashOrder, n: Names, live: nat,
                                      top: nat)
    requires C.Ready(st) && Sees(st, g, n, live, top) && A.IsHashOrder(order)
    ensures Judged(st, g, C.CompileStmt(st, s, order), StmtOk(s, n), n.With(Declared(s)), live + Added(s),
                   AR.Max(top, live + Width(s)), StmtLength(s, n.locals))
    decreases s, 2
  {
    hide Judged, Sees, A.IsHashOrder;
    LiveBelowTop(st, g, n, live, top);
    assert n.With({}) == n;
    match s
    case If(_, _, _) => IfJudged(st, g, s, order, n, live, top);
    case While(_, _) => WhileJudged(st, g, s, order, n, live, top);
    case VarDecl(x, e) => VarDeclJudged(st, g, x, e, order, n, live, top);
    case Assign(x, e) => AssignJudged(st, g, x, e, n, live, top);
    case Print(e) => PrintJudged(st, g, e, n, live, top);
    case Call(callee) => CallJudged(st, g, callee, n, live, top);
    case Block(ss) => StmtsJudged(st, g, ss, order, n, live, top);
  }

  lemma LiveBelowTop(st: C.State, g: A.Alloc, n: Names, live: nat, top: nat)
    requires Sees(st, g, n, live, top)
    ensures live <= top
  {
    AR.SlotsAddUp(st.allocs[1]);
  }

  lemma {:induction false} StmtsJudged(st: C.State, g: A.Alloc, ss: seq<Stmt>, order: A.HashOrder, n: Names, live: nat,
                                       top: nat)
    requires C.Ready(st) && Sees(st, g, n, live, top) && A.IsHashOrder(order)
    ensures Judged(st, g, C.CompileStmts(st, ss, order), StmtsOk(ss, n), n.With(DeclaredAll(ss)), live + AddedAll(ss),
                   AR.Max(top, live + WidthAll(ss)), StmtsLength(ss, n.locals))
    decreases ss, 0
  {
    hide Judged, Sees, A.IsHashOrder, C.CompileStmt, StmtOk, StmtLength, Width, Added, Declared;
    LiveBelowTop(st, g, n, live, top);
    if ss == [] {
      assert n.With({}) == n;
      NothingJudged(st, g, n, live, top);
    } else {
      var s, rest := ss[0], ss[1..];
      StmtJudged(st, g, s, order, n, live, top);
      var n1, live1, top1 := n.With(Declared(s)), live + Added(s), AR.Max(top, live + Width(s));
      var n2, live2, top2 := n.With(DeclaredAll(ss)), live + AddedAll(ss), AR.Max(top, live + WidthAll(ss));
      var st1 := C.CompileStmt(st, s, order);
      if st1.Ok? {
        JudgedSees(st, g, st1.value, StmtOk(s, n), n1, live1, top1, StmtLength(s, n.locals));
        StmtsJudged(st1.value, g, rest, order, n1, live1, top1);
        assert n1.With(DeclaredAll(rest)) == n2;
      }
      JudgedThen(st, g, st1, C.CompileStmts(st, ss, order), StmtOk(s, n), n1, live1, top1, StmtLength(s, n.locals),
                 StmtsOk(rest, n1), n2, live2, top2, StmtsLength(rest, n1.locals));
    }
  }

  lemma NothingJudged(st: C.State, g: A.Alloc, n: Names, live: nat, top: nat)
    requires Sees(st, g, n, live, top)
    ensures Judged(st, g, Ok(st), true, n, live, top, 0)
  {}

  lemma JudgedSees(st: C.State, g: A.Alloc, st': C.State, ok: bool, n: Names, live: nat, top: nat, length: nat)
    requires Judged(st, g, Ok(st'), ok, n, live, top, length)
    ensures Sees(st', g, n, live, top)
  {}

  // ----- `if` and `while` -----

  /** The start of an `if`: a block, and its condition. */
  lemma BeginIfJudged(st: C.State, g: A.Alloc, cond: Expr, n: Names, live: nat, top: nat)
    requires C.Ready(st) && Sees(st, g, n, live, top)
    ensures Judged(st, g, C.BeginIf(st, cond), ExprOk(cond, n.Visible()), n.Inside(), live, top,
                   ExprLength(cond, n.locals) + 2)
    ensures C.BeginIf(st, cond).Ok? ==> C.BeginIf(st, cond).value.allocs == C.Open(st).allocs
  {
    hide Frame, GlobalsIn, C.CompileExpr, ExprOk, ExprLength, Knows, Roomy, Asm.Pack;
    OpenSees(st, g, n, live, top);
    var st1 := C.Open(st);
    SeesKnows(st1, g, n.Inside(), live, top);
    ExprJudged(st1.allocs, st1.gen, cond, n.Visible(), n.locals);
  }

  /** The start of a `while`: a block, a label, and its condition. */
  lemma BeginWhileJudged(st: C.State, g: A.Alloc, cond: Expr, n: Names, live: nat, top: nat)
    requires C.Ready(st) && Sees(st, g, n, live, top)
    ensures Judged(st, g, C.BeginWhile(st, cond), ExprOk(cond, n.Visible()), n.Inside(), live, top,
                   ExprLength(cond, n.locals) + 2)
    ensures C.BeginWhile(st, cond).Ok? ==> C.BeginWhile(st, cond).value.allocs == C.Open(st).allocs
  {
    hide Frame, GlobalsIn, C.CompileExpr, ExprOk, ExprLength, Knows, Roomy, Asm.Pack, C.Label;
    OpenSees(st, g, n, live, top);
    var st1 := C.Open(st);
    SeesKnows(st1, g, n.Inside(), live, top);
    var g1 := G.DeclareLabel(st1.gen, C.Label(st.counter));
    if g1.Ok? {
      ExprJudged(st1.allocs, g1.value, cond, n.Visible(), n.locals);
    }
  }

  lemma BeginElseJudged(st: C.State, g: A.Alloc, elseBegin: string, n: Names, live: nat, top: nat)
    requires C.Ready(st) && Sees(st, g, n, live, top)
    ensures Judged(st, g, C.BeginElse(st, elseBegin), true, n, live, top, 2)
    ensures C.BeginElse(st, elseBegin).Ok? ==> C.BeginElse(st, elseBegin).value.allocs == st.allocs
  {
    hide Frame, GlobalsIn, Asm.Pack, C.Label;
  }

  /** The end of a block that was opened from `st` to `st1`: only a label can stop it. */
  lemma EndIfJudged(st: C.State, st1: C.State, st2: C.State, g: A.Alloc, target: string, order: A.HashOrder, n: Names,
                    live: nat, top0: nat, top: nat)
    requires C.Ready(st) && Sees(st, g, n, live, top0) && A.IsHashOrder(order)
    requires st1.allocs == C.Open(st).allocs && F.BlocksKept(st1, st2) && Sees(st2, g, n.Inside(), live, top)
    ensures C.Ready(st2) && Judged(st2, g, C.EndIf(st2, target, order), true, n, live, top, 0)
  {
    hide Sees, A.Valid, A.IsHashOrder, C.Close, C.Open, F.StateEvolves;
    SeesTop(st, g, n, live, top0);
    SeesTop(st2, g, n.Inside(), live, top);
    var g1 := G.DeclareLabel(st2.gen, target);
    if g1.Ok? {
      var st3 := st2.(gen := g1.value);
      F.InnerKept(st, st1, st2, st3, order);
      CloseTop(st3, order);
      BackInBlock(st, C.Close(st3, order).value, g, n, live, top0);
    }
  }

  /** A block of an `if` or `while`, inside the statement's own. */
  lemma {:induction false} BranchJudged(st1: C.State, g: A.Alloc, s: Stmt, order: A.HashOrder, n: Names, live: nat,
                                        top: nat)
    requires C.Ready(st1) && Sees(st1, g, n.Inside(), live, top) && A.IsHashOrder(order)
    ensures var r := C.CompileScoped(st1, s, order);
            && Judged(st1, g, r, StmtOk(s, n.Inside()), n.Inside(), live, AR.Max(top, live + Width(s)),
                      StmtLength(s, n.locals))
            && (r.Ok? ==> F.BlocksKept(st1, r.value)
                          && Sees(r.value, g, n.Inside(), live, AR.Max(top, live + Width(s))))
    decreases s, 4
  {
    hide Sees, A.IsHashOrder, C.CompileScoped, StmtOk, StmtLength, Width, A.Valid, F.BlocksKept;
    SeesTop(st1, g, n.Inside(), live, top);
    ScopedJudged(st1, g, s, order, n.Inside(), live, top);
    if C.CompileScoped(st1, s, order).Ok? {
      F.ScopedKeeps(st1, s, order);
    }
  }

  lemma {:induction false} IfJudged(st: C.State, g: A.Alloc, s: Stmt, order: A.HashOrder, n: Names, live: nat,
                                    top: nat)
    requires s.If? && C.Ready(st) && Sees(st, g, n, live, top) && A.IsHashOrder(order)
    ensures Judged(st, g, C.CompileStmt(st, s, order), StmtOk(s, n), n, live, AR.Max(top, live + Width(s)),
                   StmtLength(s, n.locals))
    decreases s, 1
  {
    hide Judged, Sees, A.IsHashOrder, C.BeginIf, C.BeginElse, C.EndIf, C.CompileScoped, C.Open, C.Label, F.BlocksKept,
         ExprOk, ExprLength;
    LiveBelowTop(st, g, n, live, top);
    var If(cond, thn, els) := s;
    var m, top2 := n.Inside(), AR.Max(top, live + Width(thn));
    var st1, r := C.BeginIf(st, cond), C.CompileStmt(st, s, order);
    var ok1, length1 := ExprOk(cond, n.Visible()), ExprLength(cond, n.locals) + 2;
    BeginIfJudged(st, g, cond, n, live, top);
    var top3 := AR.Max(top, live + Width(s));
    var rest := if els.Some? then 2 + StmtLength(els.value, n.locals) else 0;
    var ok2 := els.Some? ==> StmtOk(els.value, m);
    if st1.Ok? {
      JudgedSees(st, g, st1.value, ok1, m, live, top, length1);
      BranchJudged(st1.value, g, thn, order, n, live, top);
      var st2 := C.CompileScoped(st1.value, thn, order);
      if st2.Ok? {
        if els.None? {
          EndIfJudged(st, st1.value, st2.value, g, C.Label(st.counter), order, n, live, top, top2);
        } else {
          ElseJudged(st, st1.value, st2.value, g, s, order, n, live, top, top2);
        }
      }
      JudgedThen(st1.value, g, st2, r, StmtOk(thn, m), m, live, top2, StmtLength(thn, n.locals), ok2, n, live, top3,
                 rest);
    }
    JudgedThen(st, g, st1, r, ok1, m, live, top, length1, StmtOk(thn, m) && ok2, n, live, top3,
               StmtLength(thn, n.locals) + rest);
  }

  /** From the first branch's end: the jump between the branches, the second one, and the end. */
  lemma {:induction false} ElseJudged(st: C.State, st1: C.State, st2: C.State, g: A.Alloc, s: Stmt, order: A.HashOrder,
                                      n: Names, live: nat, top0: nat, top: nat)
    requires s.If? && s.els.Some? && C.Ready(st) && Sees(st, g, n, live, top0) && A.IsHashOrder(order)
    requires C.Ready(st1) && st1.allocs == C.Open(st).allocs && F.BlocksKept(st1, st2)
    requires C.Ready(st2) && Sees(st2, g, n.Inside(), live, top)
    ensures var els := s.els.value;
            var r3 := C.BeginElse(st2, C.Label(st.counter));
            var r4 := if r3.Ok? then C.CompileScoped(r3.value, els, order) else r3;
            var r := if r4.Ok? then C.EndIf(r4.value, C.Label(st2.counter), order) else r4;
            Judged(st2, g, r, StmtOk(els, n.Inside()), n, live, AR.Max(top, live + Width(els)),
                   2 + StmtLength(els, n.locals))
    decreases s, 0
  {
    hide Judged, Sees, A.IsHashOrder, C.BeginElse, C.EndIf, C.CompileScoped, C.Open, C.Label, F.BlocksKept;
    var els, m, end := s.els.value, n.Inside(), C.Label(st2.counter);
    var top', ok, length := AR.Max(top, live + Width(els)), StmtOk(els, m), StmtLength(els, n.locals);
    var r3 := C.BeginElse(st2, C.Label(st.counter));
    BeginElseJudged(st2, g, C.Label(st.counter), m, live, top);
    var r4 := if r3.Ok? then C.CompileScoped(r3.value, els, order) else r3;
    var r := if r4.Ok? then C.EndIf(r4.value, end, order) else r4;
    if r3.Ok? {
      JudgedSees(st2, g, r3.value, true, m, live, top, 2);
      BranchJudged(r3.value, g, els, order, n, live, top);
      if r4.Ok? {
        F.KeptTrans(st1, st2, r3.value, r4.value);
        EndIfJudged(st, st1, r4.value, g, end, order, n, live, top0, top');
      }
      JudgedThen(r3.value, g, r4, r, ok, m, live, top', length, true, n, live, top', 0);
    }
    JudgedThen(st2, g, r3, r, true, m, live, top, 2, ok, n, live, top', length);
  }

  lemma {:induction false} WhileJudged(st: C.State, g: A.Alloc, s: Stmt, order: A.HashOrder, n: Names, live: nat,
                                       top: nat)
    requires s.While? && C.Ready(st) && Sees(st, g, n, live, top) && A.IsHashOrder(order)
    ensures Judged(st, g, C.CompileStmt(st, s, order), StmtOk(s, n), n, live, AR.Max(top, live + Width(s)),
                   StmtLength(s, n.locals))
    decreases s, 1
  {
    hide Judged, Sees, A.IsHashOrder, C.BeginWhile, C.EndIf, C.Close, C.CompileScoped, C.Open, C.Label, F.BlocksKept,
         ExprOk, ExprLength, G.DeclareLabel, G.Jump;
    LiveBelowTop(st, g, n, live, top);
    var While(cond, body) := s;
    var loop, loopEnd := C.Label(st.counter), C.Label(st.counter + 1);
    var m, top2, length2 := n.Inside(), AR.Max(top, live + Width(body)), StmtLength(body, n.locals);
    var st1, r := C.BeginWhile(st, cond), C.CompileStmt(st, s, order);
    var ok1, length1 := ExprOk(cond, n.Visible()), ExprLength(cond, n.locals) + 2;
    BeginWhileJudged(st, g, cond, n, live, top);
    if st1.Ok? {
      JudgedSees(st, g, st1.value, ok1, m, live, top, length1);
      BranchJudged(st1.value, g, body, order, n, live, top);
      var st2 := C.CompileScoped(st1.value, body, order);
      if st2.Ok? {
        BackJudged(st, st1.value, st2.value, g, loop, loopEnd, order, n, live, top, top2);
      }
      JudgedThen(st1.value, g, st2, r, StmtOk(body, m), m, live, top2, length2, true, n, live, top2, 2);
    }
    JudgedThen(st, g, st1, r, ok1, m, live, top, length1, StmtOk(body, m), n, live, top2, length2 + 2);
  }

  /** The jump back, and the end of the loop. */
  lemma BackJudged(st: C.State, st1: C.State, st2: C.State, g: A.Alloc, loop: string, loopEnd: string,
                   order: A.HashOrder, n: Names, live: nat, top0: nat, top: nat)
    requires C.Ready(st) && Sees(st, g, n, live, top0) && A.IsHashOrder(order)
    requires C.Ready(st1) && st1.allocs == C.Open(st).allocs && F.BlocksKept(st1, st2)
    requires C.Ready(st2) && Sees(st2, g, n.Inside(), live, top)
    ensures Judged(st2, g, C.EndWhile(st2, loop, loopEnd, order), true, n, live, top, 2)
  {
    hide Judged, A.IsHashOrder, C.EndIf, F.StateEvolves, Frame, GlobalsIn, C.Close, C.Open, G.DeclareLabel, G.Jump;
    var st3 := st2.(gen := G.Jump(st2.gen, loop));
    CallJudged(st2, g, loop, n.Inside(), live, top);
    KeptSame(st1, st2, st3);
    EndIfJudged(st, st1, st3, g, loopEnd, order, n, live, top0, top);
    EndWhileIsEndIf(st2, loop, loopEnd, order);
    JudgedThen(st2, g, Ok(st3), C.EndWhile(st2, loop, loopEnd, order), true, n.Inside(), live, top, 2, true, n, live,
               top, 0);
  }

  lemma KeptSame(st1: C.State, st2: C.State, st3: C.State)
    requires F.BlocksKept(st1, st2) && st3.allocs == st2.allocs
    ensures F.BlocksKept(st1, st3)
  {
    hide A.Valid;
  }

  lemma EndWhileIsEndIf(st: C.State, loop: string, loopEnd: string, order: A.HashOrder)
    requires C.Ready(st)
    ensures C.EndWhile(st, loop, loopEnd, order) == C.EndIf(st.(gen := G.Jump(st.gen, loop)), loopEnd, order)
  {
    hide C.Close, G.Jump, G.DeclareLabel;
  }

  // ----- functions -----

  /** Between the functions only the globals are allocated. */
  ghost predicate Outside(st: C.State, g: A.Alloc, globals: set<string>) {
    st.allocs == [g] && GlobalsIn(g, globals)
  }

  lemma EnterSees(st: C.State, g: A.Alloc, globals: set<string>, gen: G.Gen)
    requires Outside(st, g, globals)
    ensures Sees(C.Enter(st, gen), g, Names(globals, {}, {}), 0, 0) && C.Ready(C.Enter(st, gen))
    ensures |C.Enter(st, gen).gen.prog| == |gen.prog| + 2
    ensures var fpAdds := C.Enter(st, gen).gen.fpAdds;
            fpAdds != [] && fpAdds[|fpAdds| - 1] < |gen.prog| + 2
  {
    hide GlobalsIn, Asm.Pack, A.Valid;
    A.NewValid(0, A.STACK);
    assert [A.EMPTY][..0] == [] && NamesIn([A.EMPTY]) == {} && A.LiveCount([A.EMPTY]) == 0;
  }

  /** A frame is released if its size is an immediate. */
  lemma EpilogueIff(g: G.Gen, size: nat)
    requires g.fpAdds != [] && g.fpAdds[|g.fpAdds| - 1] < |g.prog|
    ensures G.Epilogue(g, size).Ok? <==> size <= LARGEST_FRAME
    ensures G.Epilogue(g, size).Ok? ==> |G.Epilogue(g, size).value.prog| == |g.prog| + 2
    ensures G.Epilogue(g, size).Err? ==> !G.Epilogue(g, size).error.LabelDeclared?
  {
    hide Asm.Pack;
  }

  predicate FuncOk(body: seq<Stmt>, globals: set<string>) {
    StmtsOk(body, Names(globals, {}, {})) && WidthAll(body) <= LARGEST_FRAME
  }

  lemma FuncJudged(st: C.State, g: A.Alloc, globals: set<string>, name: string, body: seq<Stmt>, order: A.HashOrder)
    requires Outside(st, g, globals) && A.IsHashOrder(order)
    ensures match C.CompileFunc(st, name, body, order)
            case Ok(st') =>
              && FuncOk(body, globals) && Outside(st', g, globals)
              && |st'.gen.prog| == |st.gen.prog| + StmtsLength(body, {}) + 4
            case Err(e) => FuncOk(body, globals) ==> e.LabelDeclared?
  {
    hide Sees, GlobalsIn, A.IsHashOrder, C.CompileStmts, StmtsOk, StmtsLength, WidthAll, C.Enter, G.Epilogue;
    var g1 := G.DeclareLabel(st.gen, name);
    if g1.Ok? {
      var st1, n := C.Enter(st, g1.value), Names(globals, {}, {});
      EnterSees(st, g, globals, g1.value);
      StmtsJudged(st1, g, body, order, n, 0, 0);
      var st2 := C.CompileStmts(st1, body, order);
      if st2.Ok? {
        SeesTop(st2.value, g, n.With(DeclaredAll(body)), 0 + AddedAll(body), AR.Max(0, 0 + WidthAll(body)));
        SeesGlobals(st2.value, g, n.With(DeclaredAll(body)), 0 + AddedAll(body), AR.Max(0, 0 + WidthAll(body)));
        EpilogueIff(st2.value.gen, C.Last(st2.value).firstFree);
      }
    }
  }

  lemma SeesGlobals(st: C.State, g: A.Alloc, n: Names, live: nat, top: nat)
    requires Sees(st, g, n, live, top)
    ensures |st.allocs| == 2 && st.allocs[..1] == [g]
  {
    hide GlobalsIn, Frame;
  }

  lemma {:induction false} FuncsJudged(st: C.State, g: A.Alloc, globals: set<string>, p: Program, order: A.HashOrder)
    requires Outside(st, g, globals) && A.IsHashOrder(order)
    ensures match C.CompileFuncs(st, p, order)
            case Ok(st') => FuncsOk(p, globals) && |st'.gen.prog| == |st.gen.prog| + FuncsLength(p)
            case Err(e) => FuncsOk(p, globals) ==> e.LabelDeclared?
    decreases |p|
  {
    hide Outside, A.IsHashOrder, C.CompileFunc, StmtsOk, StmtsLength, WidthAll;
    if p != [] {
      if p[0].Global? {
        FuncsJudged(st, g, globals, p[1..], order);
      } else {
        FuncJudged(st, g, globals, p[0].name, p[0].body, order);
        var st1 := C.CompileFunc(st, p[0].name, p[0].body, order);
        if st1.Ok? {
          FuncsJudged(st1.value, g, globals, p[1..], order);
        }
      }
    }
  }

  // ----- globals -----

  /** While the globals are declared: `k` of them, in the first `k` slots. */
  ghost predicate Declares(st: C.State, declared: set<string>, k: nat) {
    && |st.allocs| == 1 && GlobalsIn(st.allocs[0], declared) && st.allocs[0].free == [] && st.allocs[0].firstFree == k
    && |st.allocs[0].blocks| == 1
  }

  /** One more global: it takes the next slot. */
  lemma GlobalSlot(a: A.Alloc, x: string)
    requires A.Valid(a) && a.free == [] && |a.blocks| == 1
    ensures A.Declare(a, x).Ok? <==> x !in NamesIn(a.blocks)
    ensures A.Declare(a, x).Ok? ==>
              var (a', slot) := A.Declare(a, x).value;
              && A.Valid(a') && a'.free == [] && a'.scope == a.scope && a'.base == a.base && |a'.blocks| == 1
              && slot == a.firstFree && a'.firstFree == slot + 1 && NamesIn(a'.blocks) == NamesIn(a.blocks) + {x}
  {
    hide A.Valid, A.Live;
    assert a.blocks[..0] == [];
    DeclareIff(a, x);
    if A.Declare(a, x).Ok? {
      A.DeclareValid(a, x);
      OneMore(a, x);
    }
  }

  lemma OneKnows(st: C.State, a: A.Alloc, declared: set<string>)
    requires st.allocs == [a] && A.Valid(a) && a.scope == A.GLOBAL && a.base == GLOBAL_START
    requires NamesIn(a.blocks) == declared
    ensures Knows(st.allocs, declared, {})
    ensures a.base + a.firstFree <= CONSTANTS ==> Roomy(st.allocs)
  {
    hide A.Valid, A.GetAddr, NamesIn;
    forall x
      ensures C.Declaration([a], x) == DeclarationOfOne(a, x)
      ensures DeclarationOfOne(a, x).Some? <==> x in declared
      ensures DeclarationOfOne(a, x).Some? ==> DeclarationOfOne(a, x).value.0 < a.base + a.firstFree
    {
      assert [a][..0] == [];
      SlotBelow(a, x);
    }
  }

  lemma GlobalJudged(st: C.State, x: string, init: Expr, declared: set<string>, k: nat)
    requires C.Ready(st) && Declares(st, declared, k)
    ensures var ok := x !in declared && ExprOk(init, declared + {x}) && GLOBAL_START + k + 1 <= CONSTANTS;
            match C.CompileVarDecl(st, x, init)
            case Ok(st') =>
              && ok && Declares(st', declared + {x}, k + 1)
              && |st'.gen.prog| == |st.gen.prog| + ExprLength(init, {}) + 2
            case Err(e) => !ok
  {
    hide A.Valid, A.Declare, C.CompileExpr, C.SaveVar, Knows, Roomy, ExprOk, ExprLength, NamesIn;
    var a := st.allocs[0];
    GlobalSlot(a, x);
    var d := A.Declare(a, x);
    if d.Ok? {
      var (a', slot) := d.value;
      var st1 := C.WithLast(st, a');
      assert st1.allocs == [a'];
      OneKnows(st1, a', declared + {x});
      ExprJudged(st1.allocs, st1.gen, init, declared + {x}, {});
      var g1 := C.CompileExpr(st1.allocs, st1.gen, init);
      if g1.Ok? {
        SaveIff(g1.value, a'.base + slot, A.GLOBAL);
      }
    }
  }

  lemma {:induction false} GlobalsJudged(st: C.State, p: Program, declared: set<string>, k: nat)
    requires C.Ready(st) && Declares(st, declared, k)
    ensures var ok := GlobalsOk(p, declared) && GLOBAL_START + k + CountGlobals(p) <= CONSTANTS;
            match C.CompileGlobals(st, p)
            case Ok(st') =>
              && ok && Declares(st', declared + GlobalNames(p), k + CountGlobals(p))
              && |st'.gen.prog| == |st.gen.prog| + GlobalsLength(p)
            case Err(e) => !ok
    decreases |p|
  {
    hide C.CompileVarDecl, ExprOk, ExprLength, GlobalsIn;
    if p == [] {
      assert declared + {} == declared;
      hide Declares;
      DeclaresFit(st, declared, k);
    } else if p[0].Func? {
      hide Declares;
      GlobalsJudged(st, p[1..], declared, k);
      assert declared + GlobalNames(p) == declared + GlobalNames(p[1..]);
    } else {
      hide Declares;
      var x := p[0].name;
      GlobalJudged(st, x, p[0].init, declared, k);
      var st1 := C.CompileVarDecl(st, x, p[0].init);
      if st1.Ok? {
        GlobalsJudged(st1.value, p[1..], declared + {x}, k + 1);
        assert declared + {x} + GlobalNames(p[1..]) == declared + GlobalNames(p);
      }
    }
  }

  lemma DeclaresFit(st: C.State, declared: set<string>, k: nat)
    requires Declares(st, declared, k)
    ensures GLOBAL_START + k <= CONSTANTS
  {}

  // ----- programs -----

  /** Before the functions: the frame pointer, the globals, and the call of main. */
  lemma StartJudged(p: Program)
    ensures var st1 := C.Preamble(C.INITIAL); st1.Ok? && C.Ready(st1.value)
    ensures var ok := GlobalsOk(p, {}) && GLOBAL_START + CountGlobals(p) <= CONSTANTS;
            match C.CompileGlobals(C.Preamble(C.INITIAL).value, p)
            case Err(_) => !ok
            case Ok(st2) =>
              ok && Declares(st2, GlobalNames(p), CountGlobals(p)) && |st2.gen.prog| == 2 + GlobalsLength(p)
  {
    hide Asm.Pack, C.CompileGlobals, Asm.LFP, A.Valid;
    A.NewValid(GLOBAL_START, A.GLOBAL);
    assert [A.EMPTY][..0] == [] && NamesIn([A.EMPTY]) == {};
    var st1 := C.Preamble(C.INITIAL).value;
    GlobalsJudged(st1, p, {}, 0);
    assert {} + GlobalNames(p) == GlobalNames(p);
  }

  lemma CallMainJudged(st: C.State, declared: set<string>, k: nat)
    requires Declares(st, declared, k)
    ensures match C.CallMain(st)
            case Ok(st') => Outside(st', st.allocs[0], declared) && |st'.gen.prog| == |st.gen.prog| + 4
            case Err(e) => e.LabelDeclared?
  {
    hide Asm.Pack, C.Label, GlobalsIn;
  }

  /** What the text says about a program apart from labels. */
  predicate TextOk(p: Program) {
    GlobalsOk(p, {}) && GLOBAL_START + CountGlobals(p) <= CONSTANTS && FuncsOk(p, GlobalNames(p))
  }

  lemma ProgramJudged(p: Program, order: A.HashOrder)
    requires A.IsHashOrder(order)
    ensures match C.CompileProg(p, order)
            case Ok(st) => TextOk(p) && |st.gen.prog| == Length(p)
            case Err(e) => TextOk(p) ==> e.LabelDeclared?
  {
    hide A.IsHashOrder, C.Preamble, C.CompileGlobals, C.CallMain, C.CompileFuncs, GlobalsOk, FuncsOk, Declares, Outside,
         GlobalsLength, FuncsLength;
    StartJudged(p);
    var st2 := C.CompileGlobals(C.Preamble(C.INITIAL).value, p);
    if st2.Ok? {
      CallMainJudged(st2.value, GlobalNames(p), CountGlobals(p));
      var st3 := C.CallMain(st2.value);
      if st3.Ok? {
        DeclaresOne(st2.value, GlobalNames(p), CountGlobals(p));
        FuncsJudged(st3.value, st2.value.allocs[0], GlobalNames(p), p, order);
      }
    }
  }

  lemma DeclaresOne(st: C.State, declared: set<string>, k: nat)
    requires Declares(st, declared, k)
    ensures |st.allocs| == 1
  {}

  /** The compiler accepts a program if and only if it is well formed. */
  lemma CompilesIff(p: Program, order: A.HashOrder)
    requires A.IsHashOrder(order)
    ensures C.CompileProg(p, order).Ok? <==> Compilable(p)
  {
    hide C.CompileProg, A.IsHashOrder, GlobalsOk, FuncsOk, D.MadeUp, D.NamedOnce, D.FuncNames;
    ProgramJudged(p, order);
    D.NeverClashes(p, order);
  }

  /** Its code is as long as the text says. */
  lemma LengthOfCode(p: Program, order: A.HashOrder)
    requires A.IsHashOrder(order) && C.CompileProg(p, order).Ok?
    ensures |C.CompileProg(p, order).value.gen.prog| == Length(p)
  {
    hide *;
    ProgramJudged(p, order);
  }

  /** If the code is shorter than 2^31 words, it can be linked if and only if everything that is called is known. */
  lemma AcceptedIff(p: Program, order: A.HashOrder)
    requires A.IsHashOrder(order) && Length(p) < CONSTANTS
    ensures C.CompileProg(p, order).Ok? && G.Linkable(C.CompileProg(p, order).value.gen) <==>
              Compilable(p) && CallsKnown(p)
  {
    hide Length, Compilable, C.CompileProg, G.Linkable, A.IsHashOrder, D.MadeUp, D.FuncNames, D.CallsProgram;
    CompilesIff(p, order);
    if C.CompileProg(p, order).Ok? {
      LengthOfCode(p, order);
      D.LinksIffNamed(p, order);
    }
  }

  // ----- what a program needs -----

  /** A function's frame has as many cells as it has variables in scope at once. */
  lemma FrameIsWidth(st: C.State, g: A.Alloc, globals: set<string>, name: string, body: seq<Stmt>, order: A.HashOrder)
    requires Outside(st, g, globals) && A.IsHashOrder(order) && C.CompileFunc(st, name, body, order).Ok?
    ensures Fn.FuncCodeAt(st, name, body, order).frame == WidthAll(body)
  {
    hide Sees, GlobalsIn, A.IsHashOrder, C.CompileStmts, StmtsOk, StmtsLength, WidthAll, C.Enter, G.Epilogue;
    var g1, n := G.DeclareLabel(st.gen, name).value, Names(globals, {}, {});
    var st1 := C.Enter(st, g1);
    EnterSees(st, g, globals, g1);
    StmtsJudged(st1, g, body, order, n, 0, 0);
    SeesTop(C.CompileStmts(st1, body, order).value, g, n.With(DeclaredAll(body)), 0 + AddedAll(body),
            AR.Max(0, 0 + WidthAll(body)));
  }

  lemma {:induction false} FramesFitIff(st: C.State, g: A.Alloc, globals: set<string>, p: Program, order: A.HashOrder,
                                        k: nat)
    requires Outside(st, g, globals) && A.IsHashOrder(order) && C.CompileFuncs(st, p, order).Ok?
    ensures Fn.FramesFit(st, p, order, k) <==> FramesWithin(p, k)
    decreases |p|
  {
    hide Outside, A.IsHashOrder, C.CompileFunc, WidthAll, Fn.FuncCodeAt, FuncOk;
    if p != [] {
      if p[0].Global? {
        FramesFitIff(st, g, globals, p[1..], order, k);
      } else {
        FuncJudged(st, g, globals, p[0].name, p[0].body, order);
        FrameIsWidth(st, g, globals, p[0].name, p[0].body, order);
        FramesFitIff(C.CompileFunc(st, p[0].name, p[0].body, order).value, g, globals, p[1..], order, k);
      }
    }
  }

  /** Whether a compiled program fits the chip can be read from its text. */
  lemma FitsIff(p: Program, order: A.HashOrder, rom: seq<Word>, depth: nat, need: nat, maxFrame: nat)
    requires A.IsHashOrder(order) && C.Compiles(p, order, rom)
    ensures K.Fits(p, order, rom, depth, need, maxFrame) <==>
              && Length(p) <= M.ROM_WORDS && GLOBAL_START + CountGlobals(p) <= C.FRAME_BASE && FramesWithin(p, maxFrame)
              && Fn.ProgramFits(p, need) && need >= 2
              && C.FRAME_BASE + depth * maxFrame < M.RAM_WORDS && depth + need <= GLOBAL_START
  {
    hide A.IsHashOrder, C.Preamble, C.CompileGlobals, C.CallMain, C.CompileFuncs, GlobalsOk, FuncsOk, Declares, Outside,
         Length, FramesWithin, Fn.FramesFit, Fn.ProgramFits;
    LengthOfCode(p, order);
    StartJudged(p);
    var st2 := K.Globals(p, order);
    CallMainJudged(st2, GlobalNames(p), CountGlobals(p));
    DeclaresCount(st2, GlobalNames(p), CountGlobals(p));
    FramesFitIff(K.Funcs(p, order), st2.allocs[0], GlobalNames(p), p, order, maxFrame);
  }

  lemma DeclaresCount(st: C.State, declared: set<string>, k: nat)
    requires Declares(st, declared, k)
    ensures |st.allocs| == 1 && st.allocs[0].firstFree == k
  {}
}
