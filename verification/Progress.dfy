/**
 The compiler's states inside one function, and how each phase of a visit moves from
 one to the next: what is linked and has room at the end was linked and had room before.
 */
module Progress {
  import opened Results
  import opened Syntax
  import opened Statements
  import A = Allocator
  import C = Compiler
  import F = Frames
  import G = CodeGen
  import L = Linking
  import M = Machine
  import S = Semantics

  /** The compiler's states before and after a function's body, and the size of its frame. */
  datatype Code = Code(begin: C.State, end: C.State, frame: nat)

  /** What stays fixed while the program runs. */
  datatype Ctx = Ctx(
    w: S.World, chip: M.Chip,
    lab: map<string, nat>,    // the final label table
    order: A.HashOrder,
    g: A.Alloc,               // the allocator of the globals
    code: map<string, Code>,  // the functions
    start: nat,               // where the functions' code begins
    maxFrame: nat,            // no function's frame is larger
    need: nat)                // no expression needs more stack

  /** A state while a function's body is being compiled. */
  ghost predicate InFunction(c: Ctx, st: C.State) {
    && |st.allocs| == 2 && st.allocs[0] == c.g && C.Ready(st)
    && C.Last(st).scope == A.STACK && C.Last(st).base == 0
    && A.Valid(C.Last(st)) && G.Valid(st.gen)
    && c.start <= |st.gen.prog|
  }

  ghost predicate Reaches(c: Ctx, st: C.State, st': C.State) {
    && InFunction(c, st) && InFunction(c, st')
    && L.Extends(st.gen, st'.gen)
    && C.Last(st).firstFree <= C.Last(st').firstFree
  }

  ghost predicate SameBlocks(st: C.State, st': C.State) {
    C.Ready(st) && C.Ready(st') && C.Last(st').blocks == C.Last(st).blocks
  }

  /** The final code contains what `st` emitted, and the frame of `fs` cells has room for it. */
  ghost predicate Settled(c: Ctx, st: C.State, fs: nat) {
    L.Linked(c.chip.rom, c.lab, st.gen) && HasRoom(st.allocs, fs)
  }

  lemma Trans(c: Ctx, st: C.State, st1: C.State, st2: C.State)
    requires Reaches(c, st, st1) && Reaches(c, st1, st2)
    ensures Reaches(c, st, st2)
  {
    hide L.Extends;
    L.ExtendsTrans(st.gen, st1.gen, st2.gen);
  }

  lemma SettledBack(c: Ctx, st: C.State, st': C.State, fs: nat)
    requires Reaches(c, st, st') && Settled(c, st', fs)
    ensures Settled(c, st, fs)
  {
    hide L.Extends, L.Linked;
    L.LinkedBack(c.chip.rom, c.lab, st.gen, st'.gen);
  }

  /** A phase that only emits code. */
  lemma EmitProgress(c: Ctx, st: C.State, st': C.State)
    requires InFunction(c, st) && st'.allocs == st.allocs && G.Valid(st'.gen) && L.Extends(st.gen, st'.gen)
    ensures Reaches(c, st, st') && SameBlocks(st, st')
  {
  }

  lemma OpenProgress(c: Ctx, st: C.State, st': C.State)
    requires InFunction(c, st) && st'.allocs == C.Open(st).allocs && G.Valid(st'.gen) && L.Extends(st.gen, st'.gen)
    ensures Reaches(c, st, st')
  {
    F.OpenValid(st);
    hide A.Valid;
  }

  lemma EvolvesProgress(c: Ctx, st: C.State, st': C.State)
    requires InFunction(c, st) && F.StateEvolves(st, st') && G.Valid(st'.gen) && L.Extends(st.gen, st'.gen)
    ensures Reaches(c, st, st')
  {
    hide A.Valid;
    assert st'.allocs[..1] == st.allocs[..1];
    assert st'.allocs[0] == st'.allocs[..1][0] == st.allocs[..1][0];
  }

  lemma ScopedProgress(c: Ctx, st: C.State, s: Stmt)
    requires InFunction(c, st) && A.IsHashOrder(c.order) && C.CompileScoped(st, s, c.order).Ok?
    ensures var st' := C.CompileScoped(st, s, c.order).value; Reaches(c, st, st') && SameBlocks(st, st')
  {
    L.ScopedExtends(st, s, c.order);
    F.ScopedKeeps(st, s, c.order);
    hide A.Valid, G.Valid, L.Extends, C.CompileScoped, F.StateEvolves;
    EvolvesProgress(c, st, C.CompileScoped(st, s, c.order).value);
  }

  lemma StmtProgress(c: Ctx, st: C.State, s: Stmt)
    requires InFunction(c, st) && A.IsHashOrder(c.order) && C.CompileStmt(st, s, c.order).Ok?
    ensures Reaches(c, st, C.CompileStmt(st, s, c.order).value)
  {
    L.StmtExtends(st, s, c.order);
    F.StmtEvolves(st, s, c.order);
    hide A.Valid, G.Valid, L.Extends, C.CompileStmt, F.StateEvolves;
    EvolvesProgress(c, st, C.CompileStmt(st, s, c.order).value);
  }

  lemma StmtsProgress(c: Ctx, st: C.State, ss: seq<Stmt>)
    requires InFunction(c, st) && A.IsHashOrder(c.order) && C.CompileStmts(st, ss, c.order).Ok?
    ensures Reaches(c, st, C.CompileStmts(st, ss, c.order).value)
  {
    L.StmtsExtends(st, ss, c.order);
    F.StmtsEvolve(st, ss, c.order);
    hide A.Valid, G.Valid, L.Extends, C.CompileStmts, F.StateEvolves;
    EvolvesProgress(c, st, C.CompileStmts(st, ss, c.order).value);
  }

  /** The block of an `if` or `while` is closed again. */
  lemma CloseProgress(c: Ctx, st: C.State, st1: C.State, st2: C.State, st3: C.State)
    requires InFunction(c, st) && A.IsHashOrder(c.order) && st1.allocs == C.Open(st).allocs
    requires Reaches(c, st, st1) && Reaches(c, st1, st2) && SameBlocks(st1, st2)
    requires st3.allocs == st2.allocs && C.Close(st3, c.order).Ok?
    requires G.Valid(st3.gen) && L.Extends(st2.gen, st3.gen)
    ensures Reaches(c, st2, C.Close(st3, c.order).value) && SameBlocks(st, C.Close(st3, c.order).value)
  {
    L.ExtendsGrows(st2.gen, st3.gen);
    hide G.Valid, L.Extends, A.IsHashOrder, A.Valid;
    A.EndBlockValid(C.Last(st2), c.order);
    assert C.Last(st2).blocks[..|C.Last(st).blocks|] == C.Last(st).blocks;
  }

  /** The states an `if` passes through. */
  datatype IfStates = IfStates(begin: C.State, afterThen: C.State, elseStart: C.State, afterElse: C.State)

  function StatesOfIf(st: C.State, s: Stmt, order: A.HashOrder): IfStates
    requires s.If? && C.Ready(st) && C.CompileStmt(st, s, order).Ok?
  {
    var st1 := C.BeginIf(st, s.cond).value;
    var st2 := C.CompileScoped(st1, s.thn, order).value;
    match s.els
    case None => IfStates(st1, st2, st2, st2)
    case Some(e) =>
      var st3 := C.BeginElse(st2, C.Label(st.counter)).value;
      IfStates(st1, st2, st3, C.CompileScoped(st3, e, order).value)
  }

  lemma IfProgress(c: Ctx, st: C.State, s: Stmt)
    requires s.If? && InFunction(c, st) && A.IsHashOrder(c.order) && C.CompileStmt(st, s, c.order).Ok?
    ensures var i := StatesOfIf(st, s, c.order);
            var st' := C.CompileStmt(st, s, c.order).value;
            && i.begin.allocs == C.Open(st).allocs
            && Reaches(c, st, i.begin) && Reaches(c, i.begin, i.afterThen) && SameBlocks(i.begin, i.afterThen)
            && Reaches(c, i.afterThen, i.elseStart) && SameBlocks(i.begin, i.elseStart)
            && Reaches(c, i.elseStart, i.afterElse) && SameBlocks(i.begin, i.afterElse)
            && Reaches(c, i.afterElse, st') && SameBlocks(st, st')
  {
    hide A.Valid, A.IsHashOrder, G.Valid, L.Extends, C.CompileScoped, C.CompileTest, G.Jump, C.Close;
    var IfStates(st1, st2, st3, st4) := StatesOfIf(st, s, c.order);
    L.BeginIfExtends(st, s.cond);
    OpenProgress(c, st, st1);
    ScopedProgress(c, st1, s.thn);
    match s.els {
      case None =>
        L.EndIfExtends(st2, C.Label(st.counter), c.order);
        var st5 := st2.(gen := G.DeclareLabel(st2.gen, C.Label(st.counter)).value);
        EmitRefl(c, st2);
        CloseProgress(c, st, st1, st2, st5);
      case Some(e) =>
        L.BeginElseExtends(st2, C.Label(st.counter));
        EmitProgress(c, st2, st3);
        ScopedProgress(c, st3, e);
        L.EndIfExtends(st4, C.Label(st2.counter), c.order);
        var st5 := st4.(gen := G.DeclareLabel(st4.gen, C.Label(st2.counter)).value);
        Trans(c, st1, st2, st3);
        Trans(c, st1, st3, st4);
        CloseProgress(c, st, st1, st4, st5);
    }
  }

  lemma EmitRefl(c: Ctx, st: C.State)
    requires InFunction(c, st)
    ensures Reaches(c, st, st)
  {
    L.ExtendsRefl(st.gen);
  }

  lemma WhileProgress(c: Ctx, st: C.State, s: Stmt)
    requires s.While? && InFunction(c, st) && A.IsHashOrder(c.order) && C.CompileStmt(st, s, c.order).Ok?
    ensures var st1 := C.BeginWhile(st, s.cond).value;
            var st2 := C.CompileScoped(st1, s.body, c.order).value;
            var st' := C.CompileStmt(st, s, c.order).value;
            && st1.allocs == C.Open(st).allocs
            && Reaches(c, st, st1) && Reaches(c, st1, st2) && SameBlocks(st1, st2)
            && Reaches(c, st2, st') && SameBlocks(st, st')
  {
    hide A.Valid, A.IsHashOrder, G.Valid, L.Extends, C.CompileScoped, C.CompileTest, G.Jump, C.Close;
    var st1 := C.BeginWhile(st, s.cond).value;
    var st2 := C.CompileScoped(st1, s.body, c.order).value;
    var loop, loopEnd := C.Label(st.counter), C.Label(st.counter + 1);
    L.BeginWhileExtends(st, s.cond);
    OpenProgress(c, st, st1);
    ScopedProgress(c, st1, s.body);
    L.EndWhileExtends(st2, loop, loopEnd, c.order);
    CloseProgress(c, st, st1, st2, st2.(gen := G.DeclareLabel(G.Jump(st2.gen, loop), loopEnd).value));
  }
}
