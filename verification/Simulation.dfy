/**
 Statement by statement, the linked machine code does what the source semantics says:
 loops, branches, scopes whose slots are used again, and calls to any depth.
 */
module Simulation {
  import opened Results
  import opened Syntax
  import opened Activations
  import opened Agreement
  import opened Bounds
  import opened Expressions
  import opened Statements
  import opened Progress
  import opened Functions
  import opened Instructions
  import Asm = Assembler
  import A = Allocator
  import C = Compiler
  import G = CodeGen
  import L = Linking
  import M = Machine
  import S = Semantics

  ghost predicate Good(c: Ctx) {
    && Matches(c.w, c.chip) && A.IsHashOrder(c.order) && c.need >= 2
    && (forall name {:trigger S.FindFunc(c.w.prog, name)} :: S.FindFunc(c.w.prog, name).Some? ==>
          HasCode(c, name, S.FindFunc(c.w.prog, name).value))
  }

  /** Memory for `depth` more frames, stack for `depth` more return addresses and an expression. */
  predicate Room(c: Ctx, m: M.State, depth: nat) {
    m.fp + depth * c.maxFrame < M.RAM_WORDS && m.sp + depth + c.need <= C.GLOBAL_BASE
  }

  /** The machine is at the end of `st`'s code and represents the store. */
  ghost predicate Represents(st: C.State, s: S.Store, m: M.State, fs: nat) {
    MemAgrees(st.allocs, s, m.ram, m.fp, fs) && m.pc == |st.gen.prog| && m.printed == s.printed
  }

  /**
   `n` steps from `m` do what the source does: reach the end `st'` of the statement's code in
   an agreeing state, or, if the fuel ran out before some statement, stand before that statement's
   code with the same output, call by call and variable by variable. They are at least as many as
   the units of fuel spent. `pt` is the point of the statement that has not started, or that waits
   for a call.
   */
  ghost predicate Simulates(c: Ctx, pt: Option<Point>, st': C.State, out: S.Outcome, fuel: nat, m: M.State, n: nat,
                            fs: nat) {
    var m' := M.Run(c.chip, n, m);
    match out
    case Done(s', left) => n + left >= fuel && Advanced(st'.allocs, s', m, m', |st'.gen.prog|, fs)
        && Within(c.chip, n, m)
    case Timeout(at, place, calls) =>
      && n >= fuel && m'.printed == at.printed && c.start <= m'.pc && Within(c.chip, n, m)
      && Kept(m.ram, m'.ram, m.sp, m.fp - fs) && pt.Some? && Active(c, pt.value, at, calls, m', m.sp, m.fp, fs)
    case Undefined => true
    case TooDeep => true
  }

  /** Code that changes neither the stack nor the protected memory can go first. */
  lemma Then(c: Ctx, pt: Option<Point>, st': C.State, out: S.Outcome, fuel: nat, fuel': nat, m: M.State, n: nat,
             n': nat, fs: nat)
    requires var m1 := M.Run(c.chip, n, m);
             && m1.sp == m.sp && m1.fp == m.fp && Kept(m.ram, m1.ram, m.sp, m.fp - fs)
             && Simulates(c, pt, st', out, fuel', m1, n', fs)
    requires fuel <= n + fuel' && Within(c.chip, n, m)
    ensures Simulates(c, pt, st', out, fuel, m, n + n', fs)
  {
    hide MemAgrees, M.Run, Within, Active;
    M.RunAdd(c.chip, n, n', m);
    if out.Done? || out.Timeout? {
      WithinBoth(c.chip, n, n', m);
    }
  }

  lemma ScratchKeeps(ram: M.Ram, ram': M.Ram, sp: int, base: int)
    requires Scratch(ram, ram', sp)
    ensures Kept(ram, ram', sp, base)
  {
  }

  // ----- scopes -----

  lemma PushMem(st: C.State, s: S.Store, ram: M.Ram, fp: int, fs: nat)
    requires C.Ready(st) && |st.allocs| == 2 && MemAgrees(st.allocs, s, ram, fp, fs)
    ensures MemAgrees(C.Open(st).allocs, S.Push(s), ram, fp, fs)
  {
    hide GlobalsAgree, LocalsAgree, FrameFits;
    PushAgrees(C.Last(st).blocks, s.scopes, ram, fp, fs);
  }

  lemma PopMem(st: C.State, st': C.State, s: S.Store, ram: M.Ram, fp: int, fs: nat)
    requires C.Ready(st) && C.Ready(st') && |st.allocs| == |st'.allocs| == 2 && MemAgrees(st.allocs, s, ram, fp, fs)
    requires st'.allocs[0] == st.allocs[0] && C.Last(st').scope == A.STACK && C.Last(st').base == 0
    requires C.Last(st').blocks == C.Last(st).blocks[..|C.Last(st).blocks| - 1]
    ensures MemAgrees(st'.allocs, S.Pop(s), ram, fp, fs)
  {
    assert |s.scopes| == |C.Last(st).blocks|;
    hide GlobalsAgree, LocalsAgree, FrameFits;
    PopAgrees(C.Last(st).blocks, s.scopes, ram, fp, fs);
  }

  /** Agreement depends on the bindings only. */
  lemma SameMem(c: Ctx, st: C.State, st': C.State, s: S.Store, ram: M.Ram, fp: int, fs: nat)
    requires InFunction(c, st) && InFunction(c, st') && SameBlocks(st, st') && MemAgrees(st.allocs, s, ram, fp, fs)
    ensures MemAgrees(st'.allocs, s, ram, fp, fs)
  {
    hide GlobalsAgree, LocalsAgree, FrameFits, A.Valid, G.Valid;
  }

  // ----- the compound statements -----

  lemma OpenInFunction(c: Ctx, st: C.State)
    requires Good(c) && InFunction(c, st)
    ensures InFunction(c, C.Open(st)) && A.IsHashOrder(c.order)
  {
    L.ExtendsRefl(st.gen);
    OpenProgress(c, st, C.Open(st));
  }

  lemma {:induction false} SimScoped(c: Ctx, st: C.State, s: Stmt, fuel: nat, depth: nat, store: S.Store, m: M.State,
                                     fs: nat)
    returns (n: nat)
    requires Good(c) && InFunction(c, st) && C.CompileScoped(st, s, c.order).Ok? && StmtFits(s, c.need)
    requires Settled(c, C.CompileScoped(st, s, c.order).value, fs)
    requires Represents(st, store, m, fs) && Room(c, m, depth)
    ensures var out := S.ExecScoped(c.w, fuel, depth, s, store);
            Simulates(c, Scoped(st, s, out, c.order), C.CompileScoped(st, s, c.order).value, out, fuel, m, n, fs)
    decreases fuel, s, 3
  {
    hide MemAgrees, G.Valid, A.Valid, L.Linked, L.Extends, Room, Good, M.Run, C.CompileStmt, StmtFits, S.Exec;
    var st1 := C.Open(st);
    var st2 := C.CompileStmt(st1, s, c.order).value;
    var st3 := C.Close(st2, c.order).value;
    OpenInFunction(c, st);
    StmtProgress(c, st1, s);
    PushMem(st, store, m.ram, m.fp, fs);
    n := SimStmt(c, st1, s, fuel, depth, S.Push(store), m, fs);
    match S.Exec(c.w, fuel, depth, s, S.Push(store)) {
      case Done(s2, left) =>
        var m' := M.Run(c.chip, n, m);
        PopMem(st2, st3, s2, m'.ram, m'.fp, fs);
      case _ =>
    }
  }

  lemma {:induction false} SimStmt(c: Ctx, st: C.State, s: Stmt, fuel: nat, depth: nat, store: S.Store, m: M.State,
                                   fs: nat)
    returns (n: nat)
    requires Good(c) && InFunction(c, st) && C.CompileStmt(st, s, c.order).Ok? && StmtFits(s, c.need)
    requires Settled(c, C.CompileStmt(st, s, c.order).value, fs)
    requires Represents(st, store, m, fs) && Room(c, m, depth)
    ensures var out := S.Exec(c.w, fuel, depth, s, store);
            Simulates(c, Located(st, s, out, c.order), C.CompileStmt(st, s, c.order).value, out, fuel, m, n, fs)
    decreases fuel, s, 2
  {
    if fuel == 0 && !s.Block? {
      GoodOrder(c);
      RoomBounds(c, m, depth);
      SettledBefore(c, st, s, fs);
      NotStarted(c, st, s, C.CompileStmt(st, s, c.order).value, store, m, fs);
      return 0;
    }
    match s
    case If(_, _, _) => n := SimIf(c, st, s, fuel, depth, store, m, fs);
    case While(_, _) => n := SimWhile(c, st, s, fuel, depth, store, m, fs);
    case VarDecl(x, e) => n := SimVarDecl(c, st, s, fuel, depth, store, m, fs);
    case Assign(x, e) => n := SimAssignment(c, st, s, fuel, depth, store, m, fs);
    case Print(e) => n := SimPrinting(c, st, s, fuel, depth, store, m, fs);
    case Call(f) => n := SimCall(c, st, s, fuel, depth, store, m, fs);
    case Block(ss) => n := SimStmts(c, st, ss, fuel, depth, store, m, fs);
  }

  lemma SimVarDecl(c: Ctx, st: C.State, s: Stmt, fuel: nat, depth: nat, store: S.Store, m: M.State, fs: nat)
    returns (n: nat)
    requires s.VarDecl? && fuel > 0
    requires Good(c) && InFunction(c, st) && C.CompileStmt(st, s, c.order).Ok? && StmtFits(s, c.need)
    requires Settled(c, C.CompileStmt(st, s, c.order).value, fs)
    requires Represents(st, store, m, fs) && Room(c, m, depth)
    ensures var out := S.Exec(c.w, fuel, depth, s, store);
            Simulates(c, Located(st, s, out, c.order), C.CompileStmt(st, s, c.order).value, out, fuel, m, n, fs)
  {
    hide MemAgrees, G.Valid, A.Valid, L.Linked, L.Extends, M.Run, S.Eval, C.CompileVarDecl, Advanced, S.Update,
         S.Introduce;
    n := 0;
    if S.Declare(c.w, s.name, s.init, store).Some? {
      n := SimDeclare(c.chip, c.lab, c.w, st, s.name, s.init, store, m, fs);
    }
  }

  lemma SimAssignment(c: Ctx, st: C.State, s: Stmt, fuel: nat, depth: nat, store: S.Store, m: M.State, fs: nat)
    returns (n: nat)
    requires s.Assign? && fuel > 0
    requires Good(c) && InFunction(c, st) && C.CompileStmt(st, s, c.order).Ok? && StmtFits(s, c.need)
    requires Settled(c, C.CompileStmt(st, s, c.order).value, fs)
    requires Represents(st, store, m, fs) && Room(c, m, depth)
    ensures var out := S.Exec(c.w, fuel, depth, s, store);
            Simulates(c, Located(st, s, out, c.order), C.CompileStmt(st, s, c.order).value, out, fuel, m, n, fs)
  {
    hide MemAgrees, G.Valid, A.Valid, L.Linked, L.Extends, M.Run, S.Eval, Advanced, S.Update, C.SaveVar, C.CompileExpr;
    n := 0;
    if S.Eval(c.w, s.expr, store).Some? {
      n := SimAssign(c.chip, c.lab, c.w, st, s.name, s.expr, store, m, fs);
    }
  }

  lemma SimPrinting(c: Ctx, st: C.State, s: Stmt, fuel: nat, depth: nat, store: S.Store, m: M.State, fs: nat)
    returns (n: nat)
    requires s.Print? && fuel > 0
    requires Good(c) && InFunction(c, st) && C.CompileStmt(st, s, c.order).Ok? && StmtFits(s, c.need)
    requires Settled(c, C.CompileStmt(st, s, c.order).value, fs)
    requires Represents(st, store, m, fs) && Room(c, m, depth)
    ensures var out := S.Exec(c.w, fuel, depth, s, store);
            Simulates(c, Located(st, s, out, c.order), C.CompileStmt(st, s, c.order).value, out, fuel, m, n, fs)
  {
    hide MemAgrees, G.Valid, A.Valid, L.Linked, L.Extends, M.Run, S.Eval, Advanced, C.CompilePrint;
    n := 0;
    if S.Eval(c.w, s.expr, store).Some? {
      n := SimPrint(c.chip, c.lab, c.w, st, s.expr, store, m, fs);
      assert C.CompileStmt(st, s, c.order).value.allocs == st.allocs by {
        PrintAllocs(st, s.expr);
      }
    }
  }

  lemma PrintAllocs(st: C.State, e: Expr)
    requires C.Ready(st) && C.CompilePrint(st, e).Ok?
    ensures C.CompilePrint(st, e).value.allocs == st.allocs
  {
  }

  lemma {:induction false} SimStmts(c: Ctx, st: C.State, ss: seq<Stmt>, fuel: nat, depth: nat, store: S.Store,
                                    m: M.State, fs: nat)
    returns (n: nat)
    requires Good(c) && InFunction(c, st) && C.CompileStmts(st, ss, c.order).Ok? && StmtsFit(ss, c.need)
    requires Settled(c, C.CompileStmts(st, ss, c.order).value, fs)
    requires Represents(st, store, m, fs) && Room(c, m, depth)
    ensures var out := S.ExecAll(c.w, fuel, depth, ss, store);
            Simulates(c, Located(st, Block(ss), out, c.order), C.CompileStmts(st, ss, c.order).value, out, fuel, m, n,
                      fs)
    decreases fuel, ss, 0
  {
    hide *;
    GoodOrder(c);
    AllMeaning(c.w, fuel, depth, ss, store);
    StmtsParts(c, st, ss, fs);
    if ss == [] {
      n := 0;
      RoomBounds(c, m, depth);
      NothingToDo(c, Located(st, Block(ss), S.Done(store, fuel), c.order), st, store, fuel, m, fs);
    } else {
      var st1 := C.CompileStmt(st, ss[0], c.order).value;
      var st2 := C.CompileStmts(st1, ss[1..], c.order).value;
      var first := S.Exec(c.w, fuel, depth, ss[0], store);
      var out := S.ExecAll(c.w, fuel, depth, ss, store);
      var pt := Located(st, Block(ss), out, c.order);
      n := SimStmt(c, st, ss[0], fuel, depth, store, m, fs);
      if first.Done? {
        var m1 := M.Run(c.chip, n, m);
        Arrived(c, Located(st, ss[0], first, c.order), st1, first.store, first.left, fuel, m, n, fs);
        RoomMoves(c, m, m1, depth, fs);
        var n2 := SimStmts(c, st1, ss[1..], first.left, depth, first.store, m1, fs);
        var rest := S.ExecAll(c.w, first.left, depth, ss[1..], first.store);
        LocatedRest(st, ss, rest, c.order);
        Surrounded(c, pt, st2, IntoRest, rest, first.left, m1, n2, fs);
        Follow(c, pt, st2, out, fuel, first.left, m, n, n2, fs);
        n := n + n2;
      } else {
        LocatedFirst(st, ss, first, c.order);
        Interrupted(c, pt, st1, st2, IntoFirst, first, fuel, m, n, fs);
      }
    }
  }

  lemma NothingToDo(c: Ctx, pt: Option<Point>, st: C.State, store: S.Store, fuel: nat, m: M.State, fs: nat)
    requires InFunction(c, st) && Represents(st, store, m, fs) && m.sp <= C.GLOBAL_BASE && m.fp < M.RAM_WORDS
    ensures Simulates(c, pt, st, S.Done(store, fuel), fuel, m, 0, fs)
  {
    hide MemAgrees, Within, G.Valid, A.Valid;
    RunZero(c.chip, m);
    WithinNone(c.chip, m);
  }

  lemma AllMeaning(w: S.World, fuel: nat, depth: nat, ss: seq<Stmt>, store: S.Store)
    ensures ss == [] ==> S.ExecAll(w, fuel, depth, ss, store) == S.Done(store, fuel)
    ensures ss != [] ==>
              var first := S.Exec(w, fuel, depth, ss[0], store);
              && (first.Done? ==> first.left <= fuel)
              && S.ExecAll(w, fuel, depth, ss, store) ==
                 if first.Done? then S.Deeper(IntoRest, S.ExecAll(w, first.left, depth, ss[1..], first.store))
                 else S.Deeper(IntoFirst, first)
  {
    hide S.Exec;
  }

  /** The first statement of a list, and the rest. */
  lemma StmtsParts(c: Ctx, st: C.State, ss: seq<Stmt>, fs: nat)
    requires InFunction(c, st) && A.IsHashOrder(c.order) && C.CompileStmts(st, ss, c.order).Ok? && StmtsFit(ss, c.need)
    requires Settled(c, C.CompileStmts(st, ss, c.order).value, fs)
    ensures C.Ready(st)
    ensures ss == [] ==> C.CompileStmts(st, ss, c.order) == Ok(st)
    ensures ss != [] ==>
              && C.CompileStmt(st, ss[0], c.order).Ok? && StmtFits(ss[0], c.need) && StmtsFit(ss[1..], c.need)
              && var st1 := C.CompileStmt(st, ss[0], c.order).value;
                 && InFunction(c, st1) && C.Ready(st1) && Settled(c, st1, fs)
                 && C.CompileStmts(st1, ss[1..], c.order) == C.CompileStmts(st, ss, c.order)
  {
    hide G.Valid, A.Valid, L.Linked, L.Extends, C.CompileStmt, StmtFits;
    if ss != [] {
      var st1 := C.CompileStmt(st, ss[0], c.order).value;
      StmtProgress(c, st, ss[0]);
      StmtsProgress(c, st1, ss[1..]);
      SettledBack(c, st1, C.CompileStmts(st1, ss[1..], c.order).value, fs);
    }
  }

  lemma GoodOrder(c: Ctx)
    requires Good(c)
    ensures A.IsHashOrder(c.order) && Matches(c.w, c.chip) && c.need >= 2 && |c.chip.rom| <= M.ROM_WORDS
  {
  }

  // ----- branches -----

  lemma IfMeaning(w: S.World, fuel: nat, depth: nat, s: Stmt, store: S.Store)
    requires s.If? && fuel > 0
    ensures match S.Eval(w, s.cond, S.Push(store))
            case None => S.Exec(w, fuel, depth, s, store) == S.Undefined
            case Some(v) =>
              if v == 0 && s.els.None? then S.Exec(w, fuel, depth, s, store) == S.Done(store, fuel - 1)
              else
                var out := S.ExecScoped(w, fuel - 1, depth, if v != 0 then s.thn else s.els.value, S.Push(store));
                S.Exec(w, fuel, depth, s, store) ==
                if out.Done? then S.Done(S.Pop(out.store), out.left)
                    else S.Deeper(if v != 0 then IntoThen else IntoElse, out)
  {
    hide S.Eval, S.ExecScoped, S.Push, S.Pop;
  }

  /** What the branches need to know. */
  lemma IfParts(c: Ctx, st: C.State, s: Stmt, fs: nat)
    requires s.If? && InFunction(c, st) && A.IsHashOrder(c.order) && C.CompileStmt(st, s, c.order).Ok?
    requires Settled(c, C.CompileStmt(st, s, c.order).value, fs) && StmtFits(s, c.need)
    ensures C.Ready(st)
    ensures var IfStates(st1, st2, st3, st4) := StatesOfIf(st, s, c.order);
            && InFunction(c, st1) && C.Ready(st1) && C.CompileScoped(st1, s.thn, c.order) == Ok(st2)
            && Settled(c, st2, fs) && StmtFits(s.thn, c.need)
            && (s.els.Some? ==>
                  && InFunction(c, st3) && C.Ready(st3) && C.CompileScoped(st3, s.els.value, c.order) == Ok(st4)
                  && Settled(c, st4, fs) && StmtFits(s.els.value, c.need))
  {
    hide G.Valid, A.Valid, L.Linked, L.Extends, C.CompileScoped, HasRoom;
    IfProgress(c, st, s);
    var IfStates(st1, st2, st3, st4) := StatesOfIf(st, s, c.order);
    SettledBack(c, st4, C.CompileStmt(st, s, c.order).value, fs);
    SettledBack(c, st3, st4, fs);
    SettledBack(c, st2, st3, fs);
  }

  /** The condition of an `if`: start a branch, or go past it all. */
  lemma IfTest(c: Ctx, st: C.State, s: Stmt, depth: nat, store: S.Store, m: M.State, fs: nat) returns (k: nat)
    requires s.If?
    requires Good(c) && InFunction(c, st) && C.CompileStmt(st, s, c.order).Ok? && StmtFits(s, c.need)
    requires Settled(c, C.CompileStmt(st, s, c.order).value, fs)
    requires Represents(st, store, m, fs) && Room(c, m, depth) && S.Eval(c.w, s.cond, S.Push(store)).Some?
    ensures k >= 1 && Within(c.chip, k, m) && C.Ready(st)
    ensures var m1 := M.Run(c.chip, k, m);
            var i := StatesOfIf(st, s, c.order);
            && Moved(m, m1, fs)
            && (if S.Eval(c.w, s.cond, S.Push(store)).value != 0 then Represents(i.begin, S.Push(store), m1, fs)
                else if s.els.None? then Represents(C.CompileStmt(st, s, c.order).value, store, m1, fs)
                else Represents(i.elseStart, S.Push(store), m1, fs))
  {
    hide Within, MemAgrees, G.Valid, A.Valid, L.Linked, L.Extends, Good, M.Run, C.CompileScoped, S.Eval, C.CompileTest;
    GoodOrder(c);
    IfProgress(c, st, s);
    var IfStates(st1, st2, st3, st4) := StatesOfIf(st, s, c.order);
    var st' := C.CompileStmt(st, s, c.order).value;
    SettledBack(c, st4, st', fs);
    SettledBack(c, st3, st4, fs);
    SettledBack(c, st2, st3, fs);
    SettledBack(c, st1, st2, fs);
    PushMem(st, store, m.ram, m.fp, fs);
    k := SimTest(c.chip, c.lab, c.w, st1.allocs, st.gen, s.cond, C.Label(st.counter), S.Push(store), m, fs);
    var m1 := M.Run(c.chip, k, m);
    ScratchKeeps(m.ram, m1.ram, m.sp, m.fp - fs);
    if S.Eval(c.w, s.cond, S.Push(store)).value == 0 && s.els.None? {
      LabelWord(c, st2.gen, C.Label(st.counter));
      ScratchAgrees(st.allocs, store, m.ram, m1.ram, m.fp, fs, m.sp);
      SameMem(c, st, st', store, m1.ram, m.fp, fs);
    } else {
      ScratchAgrees(st1.allocs, S.Push(store), m.ram, m1.ram, m.fp, fs, m.sp);
      if S.Eval(c.w, s.cond, S.Push(store)).value == 0 {
        LabelWord(c, G.Jump(st2.gen, C.Label(st2.counter)), C.Label(st.counter));
        SameMem(c, st1, st3, S.Push(store), m1.ram, m.fp, fs);
      }
    }
  }

  lemma {:induction false} SimIf(c: Ctx, st: C.State, s: Stmt, fuel: nat, depth: nat, store: S.Store, m: M.State,
                                 fs: nat)
    returns (n: nat)
    requires s.If? && fuel > 0
    requires Good(c) && InFunction(c, st) && C.CompileStmt(st, s, c.order).Ok? && StmtFits(s, c.need)
    requires Settled(c, C.CompileStmt(st, s, c.order).value, fs)
    requires Represents(st, store, m, fs) && Room(c, m, depth)
    ensures var out := S.Exec(c.w, fuel, depth, s, store);
            Simulates(c, Located(st, s, out, c.order), C.CompileStmt(st, s, c.order).value, out, fuel, m, n, fs)
    decreases fuel, s, 1
  {
    hide *;
    GoodOrder(c);
    IfParts(c, st, s, fs);
    IfMeaning(c.w, fuel, depth, s, store);
    var i := StatesOfIf(st, s, c.order);
    var st' := C.CompileStmt(st, s, c.order).value;
    var out := S.Exec(c.w, fuel, depth, s, store);
    var pt := Located(st, s, out, c.order);
    n := 0;
    if S.Eval(c.w, s.cond, S.Push(store)) == None {
      AnyUndefined(c, pt, st', fuel, m, n, fs);
    } else {
      var k := IfTest(c, st, s, depth, store, m, fs);
      var m1 := M.Run(c.chip, k, m);
      RoomMoves(c, m, m1, depth, fs);
      if S.Eval(c.w, s.cond, S.Push(store)).value != 0 {
        n := SimScoped(c, i.begin, s.thn, fuel - 1, depth, S.Push(store), m1, fs);
        RoomBounds(c, m1, depth);
        var inner := S.ExecScoped(c.w, fuel - 1, depth, s.thn, S.Push(store));
        var pt2 := Scoped(i.begin, s.thn, inner, c.order);
        if !inner.Done? {
          LocatedThen(st, s, inner, c.order);
          Interrupted(c, pt, i.afterThen, st', IntoThen, inner, fuel - 1, m1, n, fs);
        } else if s.els.Some? {
          OverElse(c, pt2, pt, st, s, inner.store, inner.left, fuel - 1, m1, n, fs);
          n := n + 2;
        } else {
          OneBranch(st, s, c.order);
          FromIf(c, pt2, pt, st, s, inner.store, inner.left, fuel - 1, m1, n, fs);
        }
        Follow(c, pt, st', out, fuel, fuel - 1, m, k, n, fs);
        n := k + n;
      } else if s.els.None? {
        Arrive(c, pt, st', store, fuel - 1, fuel, m, k, fs);
        n := k;
      } else {
        n := SimScoped(c, i.elseStart, s.els.value, fuel - 1, depth, S.Push(store), m1, fs);
        var inner := S.ExecScoped(c.w, fuel - 1, depth, s.els.value, S.Push(store));
        if inner.Done? {
          FromIf(c, Scoped(i.elseStart, s.els.value, inner, c.order), pt, st, s, inner.store, inner.left, fuel - 1,
                 m1, n, fs);
        } else {
          LocatedElse(st, s, inner, c.order);
          Interrupted(c, pt, i.afterElse, st', IntoElse, inner, fuel - 1, m1, n, fs);
        }
        Follow(c, pt, st', out, fuel, fuel - 1, m, k, n, fs);
        n := k + n;
      }
    }
  }

  /** After the second branch, or the only one, nothing but the block of the `if` is left. */
  lemma FromIf(c: Ctx, pt: Option<Point>, pt': Option<Point>, st: C.State, s: Stmt, s2: S.Store, left: nat,
               fuel: nat, m1: M.State, n: nat, fs: nat)
    requires s.If? && Good(c) && InFunction(c, st) && C.CompileStmt(st, s, c.order).Ok?
    requires Simulates(c, pt, StatesOfIf(st, s, c.order).afterElse, S.Done(s2, left), fuel, m1, n, fs)
    ensures Simulates(c, pt', C.CompileStmt(st, s, c.order).value, S.Done(S.Pop(s2), left), fuel, m1, n, fs)
  {
    hide Within, MemAgrees, G.Valid, A.Valid, L.Linked, L.Extends, Good, M.Run, C.CompileScoped, C.CompileTest;
    GoodOrder(c);
    IfProgress(c, st, s);
    var i := StatesOfIf(st, s, c.order);
    var m2 := M.Run(c.chip, n, m1);
    LeaveMem(c, st, i.begin, i.afterElse, C.CompileStmt(st, s, c.order).value, s2, m2.ram, m2.fp, fs);
  }

  /** Leaving the block of an `if` or `while`. */
  lemma LeaveMem(c: Ctx, st: C.State, st1: C.State, st2: C.State, st': C.State, s: S.Store, ram: M.Ram, fp: int,
                 fs: nat)
    requires InFunction(c, st) && InFunction(c, st2) && InFunction(c, st')
    requires st1.allocs == C.Open(st).allocs && SameBlocks(st1, st2) && SameBlocks(st, st')
    requires MemAgrees(st2.allocs, s, ram, fp, fs)
    ensures MemAgrees(st'.allocs, S.Pop(s), ram, fp, fs)
  {
    hide MemAgrees, G.Valid, A.Valid;
    PopMem(st2, st', s, ram, fp, fs);
  }

  lemma OneBranch(st: C.State, s: Stmt, order: A.HashOrder)
    requires s.If? && s.els.None? && C.Ready(st) && C.CompileStmt(st, s, order).Ok?
    ensures StatesOfIf(st, s, order).afterElse == StatesOfIf(st, s, order).afterThen
  {
    hide C.BeginIf, C.CompileScoped, C.EndIf;
  }

  /** The jump between two branches leads to the end of the `if`. */
  lemma ElseSkipped(c: Ctx, st: C.State, s: Stmt, fs: nat)
    requires s.If? && s.els.Some? && Good(c) && InFunction(c, st) && C.CompileStmt(st, s, c.order).Ok?
    requires Settled(c, C.CompileStmt(st, s, c.order).value, fs)
    ensures var g := StatesOfIf(st, s, c.order).afterThen.gen;
            var operatorEnd := C.Label(StatesOfIf(st, s, c.order).afterThen.counter);
            && L.Linked(c.chip.rom, c.lab, G.Jump(g, operatorEnd)) && operatorEnd in c.lab
            && c.lab[operatorEnd] == |C.CompileStmt(st, s, c.order).value.gen.prog|
  {
    hide G.Valid, A.Valid, L.Linked, L.Extends, Good, C.CompileScoped, C.CompileTest;
    GoodOrder(c);
    IfProgress(c, st, s);
    var IfStates(st1, st2, st3, st4) := StatesOfIf(st, s, c.order);
    SettledBack(c, st4, C.CompileStmt(st, s, c.order).value, fs);
    SettledBack(c, st3, st4, fs);
    var operatorEnd := C.Label(st2.counter);
    L.JumpExtends(st2.gen, operatorEnd);
    L.DeclareExtends(G.Jump(st2.gen, operatorEnd), C.Label(st.counter));
    L.LinkedBack(c.chip.rom, c.lab, G.Jump(st2.gen, operatorEnd), st3.gen);
    LabelWord(c, st4.gen, operatorEnd);
  }

  /** After the first branch of two: jump over the second one. */
  lemma OverElse(c: Ctx, pt: Option<Point>, pt': Option<Point>, st: C.State, s: Stmt, s2: S.Store, left: nat,
                 fuel: nat, m1: M.State, k: nat, fs: nat)
    requires s.If? && s.els.Some? && Good(c) && InFunction(c, st) && C.CompileStmt(st, s, c.order).Ok?
    requires Settled(c, C.CompileStmt(st, s, c.order).value, fs) && m1.sp + 1 <= C.GLOBAL_BASE
    requires Simulates(c, pt, StatesOfIf(st, s, c.order).afterThen, S.Done(s2, left), fuel, m1, k, fs)
    ensures Simulates(c, pt', C.CompileStmt(st, s, c.order).value, S.Done(S.Pop(s2), left), fuel, m1, k + 2, fs)
  {
    hide Within, MemAgrees, G.Valid, A.Valid, L.Linked, L.Extends, Good, M.Run, C.CompileStmt, StatesOfIf,
         Settled;
    GoodOrder(c);
    IfProgress(c, st, s);
    ElseSkipped(c, st, s, fs);
    var i, st' := StatesOfIf(st, s, c.order), C.CompileStmt(st, s, c.order).value;
    var m2 := M.Run(c.chip, k, m1);
    MemFp(i.afterThen, s2, m2.ram, m2.fp, fs);
    SimJump(c.chip, c.lab, i.afterThen.gen, C.Label(i.afterThen.counter), m2);
    var m3 := M.Run(c.chip, 2, m2);
    ScratchAgrees(i.afterThen.allocs, s2, m2.ram, m3.ram, m2.fp, fs, m2.sp);
    LeaveMem(c, st, i.begin, i.afterThen, st', s2, m3.ram, m3.fp, fs);
    M.RunAdd(c.chip, k, 2, m1);
    WithinBoth(c.chip, k, 2, m1);
  }

  // ----- loops -----

  /** The stack pointer, the frame pointer and the protected memory are as they were. */
  ghost predicate Moved(m: M.State, m1: M.State, fs: nat) {
    m1.sp == m.sp && m1.fp == m.fp && Kept(m.ram, m1.ram, m.sp, m.fp - fs)
  }

  lemma Arrive(c: Ctx, pt: Option<Point>, st': C.State, s': S.Store, left: nat, fuel: nat, m: M.State, n: nat, fs: nat)
    requires Moved(m, M.Run(c.chip, n, m), fs) && Represents(st', s', M.Run(c.chip, n, m), fs) && Within(c.chip, n, m)
    requires n + left >= fuel
    ensures Simulates(c, pt, st', S.Done(s', left), fuel, m, n, fs)
  {
    hide MemAgrees, Kept, M.Run, Within;
  }

  lemma Follow(c: Ctx, pt: Option<Point>, st': C.State, out: S.Outcome, fuel: nat, fuel': nat, m: M.State, n: nat,
               n': nat, fs: nat)
    requires Moved(m, M.Run(c.chip, n, m), fs) && Simulates(c, pt, st', out, fuel', M.Run(c.chip, n, m), n', fs)
    requires fuel <= n + fuel' && Within(c.chip, n, m)
    ensures Simulates(c, pt, st', out, fuel, m, n + n', fs)
  {
    hide Simulates, M.Run, Kept, Within;
    Then(c, pt, st', out, fuel, fuel', m, n, n', fs);
  }

  lemma RoomMoves(c: Ctx, m: M.State, m1: M.State, depth: nat, fs: nat)
    requires Room(c, m, depth) && Moved(m, m1, fs)
    ensures Room(c, m1, depth)
  {
  }

  /** A finished statement: where the machine is. */
  lemma Arrived(c: Ctx, pt: Option<Point>, st': C.State, s': S.Store, left: nat, fuel: nat, m: M.State, n: nat, fs: nat)
    requires Simulates(c, pt, st', S.Done(s', left), fuel, m, n, fs)
    ensures Moved(m, M.Run(c.chip, n, m), fs) && Represents(st', s', M.Run(c.chip, n, m), fs) && Within(c.chip, n, m)
    ensures n + left >= fuel
  {
    hide MemAgrees, Kept, M.Run, Within;
  }

  /** What an unfinished statement has shown so far also holds of the statement around it. */
  lemma Interrupted(c: Ctx, pt: Option<Point>, st1: C.State, st': C.State, step: Step, out: S.Outcome, fuel: nat,
                    m: M.State, n: nat, fs: nat)
    requires Simulates(c, pt, st1, out, fuel, m, n, fs) && !out.Done?
    ensures Simulates(c, pt, st', S.Deeper(step, out), fuel, m, n, fs)
  {
    hide MemAgrees, Kept, M.Run, Within, Active;
  }

  /** Where an outcome is looked at from makes no difference to the machine. */
  lemma Surrounded(c: Ctx, pt: Option<Point>, st': C.State, step: Step, out: S.Outcome, fuel: nat, m: M.State, n: nat,
                   fs: nat)
    requires Simulates(c, pt, st', out, fuel, m, n, fs)
    ensures Simulates(c, pt, st', S.Deeper(step, out), fuel, m, n, fs)
  {
    hide MemAgrees, Kept, M.Run, Within, Active;
  }

  lemma LocatedFirst(st: C.State, ss: seq<Stmt>, out: S.Outcome, order: A.HashOrder)
    requires C.Ready(st) && ss != []
    ensures Located(st, Block(ss), S.Deeper(IntoFirst, out), order) == Located(st, ss[0], out, order)
  {
    hide C.CompileStmt;
  }

  lemma LocatedRest(st: C.State, ss: seq<Stmt>, out: S.Outcome, order: A.HashOrder)
    requires C.Ready(st) && ss != [] && C.CompileStmt(st, ss[0], order).Ok?
    ensures Located(st, Block(ss), S.Deeper(IntoRest, out), order)
         == Located(C.CompileStmt(st, ss[0], order).value, Block(ss[1..]), out, order)
  {
    hide C.CompileStmt;
  }

  lemma LocatedThen(st: C.State, s: Stmt, out: S.Outcome, order: A.HashOrder)
    requires s.If? && C.Ready(st) && C.CompileStmt(st, s, order).Ok?
    ensures C.Ready(StatesOfIf(st, s, order).begin)
    ensures Located(st, s, S.Deeper(IntoThen, out), order) == Scoped(StatesOfIf(st, s, order).begin, s.thn, out, order)
  {
    hide C.BeginIf, C.BeginElse, C.EndIf, C.CompileScoped, C.Open;
  }

  lemma LocatedElse(st: C.State, s: Stmt, out: S.Outcome, order: A.HashOrder)
    requires s.If? && s.els.Some? && C.Ready(st) && C.CompileStmt(st, s, order).Ok?
    ensures C.Ready(StatesOfIf(st, s, order).elseStart)
    ensures Located(st, s, S.Deeper(IntoElse, out), order)
        == Scoped(StatesOfIf(st, s, order).elseStart, s.els.value, out, order)
  {
    hide C.BeginIf, C.BeginElse, C.EndIf, C.CompileScoped, C.Open;
  }

  lemma LocatedBody(st: C.State, s: Stmt, out: S.Outcome, order: A.HashOrder)
    requires s.While? && C.Ready(st) && C.BeginWhile(st, s.cond).Ok?
    ensures Located(st, s, S.Deeper(IntoBody, out), order)
         == Scoped(C.BeginWhile(st, s.cond).value, s.body, out, order)
  {
    hide C.BeginWhile, C.Open;
  }

  lemma WhileMeaning(w: S.World, fuel: nat, depth: nat, s: Stmt, store: S.Store)
    requires s.While?
    ensures fuel == 0 ==> S.Exec(w, fuel, depth, s, store) == S.Timeout(store, Here, [])
    ensures fuel > 0 ==>
            match S.Eval(w, s.cond, S.Push(store))
            case None => S.Exec(w, fuel, depth, s, store) == S.Undefined
            case Some(v) =>
              && (v == 0 ==> S.Exec(w, fuel, depth, s, store) == S.Done(store, fuel - 1))
              && (v != 0 ==>
                    var out := S.ExecScoped(w, fuel - 1, depth, s.body, S.Push(store));
                    && (out.Done? ==> out.left < fuel)
                    && S.Exec(w, fuel, depth, s, store) ==
                       if out.Done? then S.Exec(w, out.left, depth, s, S.Pop(out.store)) else S.Deeper(IntoBody, out))
  {
    hide S.Eval, S.ExecScoped, S.Push, S.Pop;
  }

  /** The loop's condition: leave the loop, or start its body. */
  lemma WhileTest(c: Ctx, st: C.State, s: Stmt, depth: nat, store: S.Store, m: M.State, fs: nat) returns (k: nat)
    requires s.While?
    requires Good(c) && InFunction(c, st) && C.CompileStmt(st, s, c.order).Ok? && StmtFits(s, c.need)
    requires Settled(c, C.CompileStmt(st, s, c.order).value, fs)
    requires Represents(st, store, m, fs) && Room(c, m, depth) && S.Eval(c.w, s.cond, S.Push(store)).Some?
    ensures k >= 1 && Within(c.chip, k, m)
    ensures var m1 := M.Run(c.chip, k, m);
            && Moved(m, m1, fs)
            && if S.Eval(c.w, s.cond, S.Push(store)).value == 0
               then Represents(C.CompileStmt(st, s, c.order).value, store, m1, fs)
               else Represents(C.BeginWhile(st, s.cond).value, S.Push(store), m1, fs)
  {
    hide Within, Active, MemAgrees, G.Valid, A.Valid, L.Linked, L.Extends, Good, M.Run, C.CompileScoped, S.Eval,
         C.CompileTest;
    GoodOrder(c);
    WhileProgress(c, st, s);
    var st1 := C.BeginWhile(st, s.cond).value;
    var st2 := C.CompileScoped(st1, s.body, c.order).value;
    var st' := C.CompileStmt(st, s, c.order).value;
    var loop, loopEnd := C.Label(st.counter), C.Label(st.counter + 1);
    SettledBack(c, st2, st', fs);
    SettledBack(c, st1, st2, fs);
    var g1 := G.DeclareLabel(st.gen, loop).value;
    L.DeclareExtends(st.gen, loop);
    PushMem(st, store, m.ram, m.fp, fs);
    k := SimTest(c.chip, c.lab, c.w, st1.allocs, g1, s.cond, loopEnd, S.Push(store), m, fs);
    var m1 := M.Run(c.chip, k, m);
    ScratchKeeps(m.ram, m1.ram, m.sp, m.fp - fs);
    if S.Eval(c.w, s.cond, S.Push(store)).value == 0 {
      LabelWord(c, G.Jump(st2.gen, loop), loopEnd);
      ScratchAgrees(st.allocs, store, m.ram, m1.ram, m.fp, fs, m.sp);
      SameMem(c, st, st', store, m1.ram, m.fp, fs);
    } else {
      ScratchAgrees(st1.allocs, S.Push(store), m.ram, m1.ram, m.fp, fs, m.sp);
    }
  }

  /** What the body of a loop needs to know. */
  lemma WhileBody(c: Ctx, st: C.State, s: Stmt, fs: nat)
    requires s.While? && InFunction(c, st) && A.IsHashOrder(c.order) && C.CompileStmt(st, s, c.order).Ok?
    requires Settled(c, C.CompileStmt(st, s, c.order).value, fs) && StmtFits(s, c.need)
    ensures C.Ready(st) && C.BeginWhile(st, s.cond).Ok?
    ensures var st1 := C.BeginWhile(st, s.cond).value;
            && InFunction(c, st1) && C.Ready(st1) && C.CompileScoped(st1, s.body, c.order).Ok?
            && Settled(c, C.CompileScoped(st1, s.body, c.order).value, fs) && StmtFits(s.body, c.need)
  {
    hide G.Valid, A.Valid, L.Linked, L.Extends, C.CompileScoped;
    WhileProgress(c, st, s);
    var st1 := C.BeginWhile(st, s.cond).value;
    SettledBack(c, C.CompileScoped(st1, s.body, c.order).value, C.CompileStmt(st, s, c.order).value, fs);
  }

  /** Before the first step, the machine has run for no time and printed what the store says. */
  lemma NotStarted(c: Ctx, st: C.State, s: Stmt, st': C.State, store: S.Store, m: M.State, fs: nat)
    requires InFunction(c, st) && Settled(c, st, fs) && Represents(st, store, m, fs) && m.sp <= C.GLOBAL_BASE
    requires !s.Block?
    ensures Simulates(c, Located(st, s, S.Timeout(store, Here, []), c.order), st', S.Timeout(store, Here, []), 0, m,
                      0, fs)
  {
    hide MemAgrees, Active, Within, G.Valid, A.Valid, L.Linked;
    MemFp(st, store, m.ram, m.fp, fs);
    RunZero(c.chip, m);
    NoneActive(c, Point(st, s), store, m, fs);
    WithinNone(c.chip, m);
  }

  lemma SettledBefore(c: Ctx, st: C.State, s: Stmt, fs: nat)
    requires InFunction(c, st) && A.IsHashOrder(c.order) && C.CompileStmt(st, s, c.order).Ok?
    requires Settled(c, C.CompileStmt(st, s, c.order).value, fs)
    ensures Settled(c, st, fs)
  {
    hide A.Valid, G.Valid, L.Linked, L.Extends, C.CompileStmt, HasRoom;
    StmtProgress(c, st, s);
    SettledBack(c, st, C.CompileStmt(st, s, c.order).value, fs);
  }

  lemma MemFp(st: C.State, s: S.Store, ram: M.Ram, fp: int, fs: nat)
    requires |st.allocs| == 2 && MemAgrees(st.allocs, s, ram, fp, fs)
    ensures C.FRAME_BASE + fs <= fp < M.RAM_WORDS
  {}

  lemma {:induction false} SimWhile(c: Ctx, st: C.State, s: Stmt, fuel: nat, depth: nat, store: S.Store, m: M.State,
                                    fs: nat)
    returns (n: nat)
    requires s.While?
    requires Good(c) && InFunction(c, st) && C.CompileStmt(st, s, c.order).Ok? && StmtFits(s, c.need)
    requires Settled(c, C.CompileStmt(st, s, c.order).value, fs)
    requires Represents(st, store, m, fs) && Room(c, m, depth)
    ensures var out := S.Exec(c.w, fuel, depth, s, store);
            Simulates(c, Located(st, s, out, c.order), C.CompileStmt(st, s, c.order).value, out, fuel, m, n, fs)
    decreases fuel, s, 1
  {
    hide *;
    GoodOrder(c);
    WhileBody(c, st, s, fs);
    WhileMeaning(c.w, fuel, depth, s, store);
    var st' := C.CompileStmt(st, s, c.order).value;
    var out := S.Exec(c.w, fuel, depth, s, store);
    var pt := Located(st, s, out, c.order);
    n := 0;
    if fuel == 0 {
      RoomBounds(c, m, depth);
      SettledBefore(c, st, s, fs);
      NotStarted(c, st, s, st', store, m, fs);
    } else if S.Eval(c.w, s.cond, S.Push(store)) == None {
      AnyUndefined(c, pt, st', fuel, m, n, fs);
    } else {
      var k := WhileTest(c, st, s, depth, store, m, fs);
      var m1 := M.Run(c.chip, k, m);
      if S.Eval(c.w, s.cond, S.Push(store)).value == 0 {
        Arrive(c, pt, st', store, fuel - 1, fuel, m, k, fs);
        n := k;
      } else {
        RoomMoves(c, m, m1, depth, fs);
        var st1 := C.BeginWhile(st, s.cond).value;
        var k2 := SimScoped(c, st1, s.body, fuel - 1, depth, S.Push(store), m1, fs);
        var inner := S.ExecScoped(c.w, fuel - 1, depth, s.body, S.Push(store));
        if inner.Done? {
          var st2 := C.CompileScoped(st1, s.body, c.order).value;
          var m2 := M.Run(c.chip, k2, m1);
          Arrived(c, Scoped(st1, s.body, inner, c.order), st2, inner.store, inner.left, fuel - 1, m1, k2, fs);
          RoomMoves(c, m1, m2, depth, fs);
          JumpBack(c, st, s, inner.store, m2, depth, fs);
          var m3 := M.Run(c.chip, 2, m2);
          RoomMoves(c, m2, m3, depth, fs);
          var k3 := SimWhile(c, st, s, inner.left, depth, S.Pop(inner.store), m3, fs);
          Follow(c, pt, st', out, inner.left, inner.left, m2, 2, k3, fs);
          Follow(c, pt, st', out, fuel - 1, inner.left, m1, k2, 2 + k3, fs);
          n := k2 + (2 + k3);
        } else {
          LocatedBody(st, s, inner, c.order);
          Interrupted(c, pt, C.CompileScoped(st1, s.body, c.order).value, st', IntoBody, inner, fuel - 1, m1, k2, fs);
          n := k2;
        }
        Follow(c, pt, st', out, fuel, fuel - 1, m, k, n, fs);
        n := k + n;
      }
    }
  }

  lemma AnyUndefined(c: Ctx, pt: Option<Point>, st': C.State, fuel: nat, m: M.State, n: nat, fs: nat)
    ensures Simulates(c, pt, st', S.Undefined, fuel, m, n, fs)
  {
  }

  lemma RunZero(chip: M.Chip, m: M.State)
    ensures M.Run(chip, 0, m) == m
  {
  }

  /** The jump at the end of a loop's body is linked to the loop's start. */
  lemma LoopLinked(c: Ctx, st: C.State, s: Stmt, fs: nat)
    requires s.While? && Good(c) && InFunction(c, st) && C.CompileStmt(st, s, c.order).Ok?
    requires Settled(c, C.CompileStmt(st, s, c.order).value, fs)
    ensures var loop := C.Label(st.counter);
            var st2 := C.CompileScoped(C.BeginWhile(st, s.cond).value, s.body, c.order).value;
            && G.Valid(st2.gen) && L.Linked(c.chip.rom, c.lab, G.Jump(st2.gen, loop))
            && loop in c.lab && c.lab[loop] == |st.gen.prog|
  {
    hide MemAgrees, G.Valid, A.Valid, L.Linked, L.Extends, Good, C.CompileScoped, C.CompileTest;
    GoodOrder(c);
    WhileProgress(c, st, s);
    var st1 := C.BeginWhile(st, s.cond).value;
    var st2 := C.CompileScoped(st1, s.body, c.order).value;
    var st' := C.CompileStmt(st, s, c.order).value;
    var loop, loopEnd := C.Label(st.counter), C.Label(st.counter + 1);
    var gj := G.Jump(st2.gen, loop);
    L.JumpExtends(st2.gen, loop);
    L.DeclareExtends(gj, loopEnd);
    L.LinkedBack(c.chip.rom, c.lab, gj, st'.gen);
    var g1 := G.DeclareLabel(st.gen, loop).value;
    L.DeclareExtends(st.gen, loop);
    L.TestExtends(st1.allocs, g1, s.cond, loopEnd);
    SettledBack(c, st2, st', fs);
    SettledBack(c, st1, st2, fs);
    L.LinkedBack(c.chip.rom, c.lab, g1, st1.gen);
    LabelWord(c, st.gen, loop);
  }

  /** From the end of a loop's body back to its condition. */
  lemma JumpBack(c: Ctx, st: C.State, s: Stmt, s2: S.Store, m2: M.State, depth: nat, fs: nat)
    requires s.While? && Good(c) && InFunction(c, st) && C.CompileStmt(st, s, c.order).Ok?
    requires Settled(c, C.CompileStmt(st, s, c.order).value, fs) && Room(c, m2, depth)
    requires Represents(C.CompileScoped(C.BeginWhile(st, s.cond).value, s.body, c.order).value, s2, m2, fs)
    ensures Represents(st, S.Pop(s2), M.Run(c.chip, 2, m2), fs) && Moved(m2, M.Run(c.chip, 2, m2), fs)
    ensures Within(c.chip, 2, m2)
  {
    hide MemAgrees, G.Valid, A.Valid, L.Linked, L.Extends, Good, M.Run, C.CompileScoped, C.CompileTest, Within,
         G.Jump, C.Label, Settled, SameBlocks, Kept, Scratch, Room;
    GoodOrder(c);
    RoomBounds(c, m2, depth);
    WhileProgress(c, st, s);
    LoopLinked(c, st, s, fs);
    var st1 := C.BeginWhile(st, s.cond).value;
    var st2 := C.CompileScoped(st1, s.body, c.order).value;
    SimJump(c.chip, c.lab, st2.gen, C.Label(st.counter), m2);
    var m3 := M.Run(c.chip, 2, m2);
    ScratchKeeps(m2.ram, m3.ram, m2.sp, m2.fp - fs);
    ScratchAgrees(st2.allocs, s2, m2.ram, m3.ram, m2.fp, fs, m2.sp);
    SameBlocksRefl(c, st);
    ReachesInFunction(c, st, st1);
    ReachesInFunction(c, st1, st2);
    LeaveMem(c, st, st1, st2, st, s2, m3.ram, m3.fp, fs);
  }

  lemma ReachesInFunction(c: Ctx, st: C.State, st': C.State)
    requires Reaches(c, st, st')
    ensures InFunction(c, st')
  {}

  lemma SameBlocksRefl(c: Ctx, st: C.State)
    requires InFunction(c, st)
    ensures SameBlocks(st, st)
  {
  }

  // ----- calls -----

  /** Entering a function: the return address is pushed, then the frame is allocated. */
  lemma EnterFunction(c: Ctx, name: string, e: nat, fs: nat, m: M.State)
    requires |c.chip.rom| <= M.ROM_WORDS && Linkage(c, name, e, fs)
    requires m.pc == c.lab[name] && m.sp < C.GLOBAL_BASE && m.fp + fs < M.RAM_WORDS
    ensures M.Run(c.chip, 2, m) == m.(pc := m.pc + 2, sp := m.sp + 1, fp := m.fp + fs, ram := m.ram[m.sp := m.ppc])
    ensures Within(c.chip, 2, m)
  {
    hide M.Step, Asm.Pack, Within;
    StepPushPpc(c.chip, m);
    var m1 := M.Step(c.chip, m);
    StepAddFp(c.chip, m1, fs);
    WithinTwo(c.chip, m);
    assert M.Run(c.chip, 2, m) == M.Run(c.chip, 1, m1) == M.Step(c.chip, m1);
  }

  /** Leaving it: the frame is released, and the saved address is jumped to. */
  lemma LeaveFunction(c: Ctx, name: string, e: nat, fs: nat, m: M.State)
    requires |c.chip.rom| <= M.ROM_WORDS && Linkage(c, name, e, fs)
    requires m.pc == e && fs <= m.fp < M.RAM_WORDS && 1 <= m.sp < C.GLOBAL_BASE
    ensures M.Run(c.chip, 2, m) == m.(pc := m.ram[m.sp - 1], ppc := m.pc + 2, sp := m.sp - 1, fp := m.fp - fs)
    ensures Within(c.chip, 2, m)
  {
    hide M.Step, Asm.Pack, Within;
    StepAddFp(c.chip, m, 0 - fs);
    var m1 := M.Step(c.chip, m);
    StepJump(c.chip, m1);
    WithinTwo(c.chip, m);
    assert M.Run(c.chip, 2, m) == M.Run(c.chip, 1, m1) == M.Step(c.chip, m1);
  }

  /** A fresh frame represents the empty scope. */
  lemma EmptyFrame(c: Ctx, allocs: seq<A.Alloc>, store: S.Store, ram: M.Ram, ram': M.Ram, fp: int, fs: nat, fs': nat)
    requires 1 <= |allocs| <= 2 && allocs[0] == c.g && MemAgrees(allocs, store, ram, fp, fs)
    requires forall a :: C.GLOBAL_BASE <= a < C.FRAME_BASE ==> ram'[a] == ram[a]
    requires C.FRAME_BASE <= fp && fp + fs' < M.RAM_WORDS
    ensures MemAgrees([c.g, A.New(0, A.STACK)], store.(scopes := [map[]]), ram', fp + fs', fs')
  {
    GlobalsFrame(c.g, store.globals, ram, ram');
    hide GlobalsAgree;
    assert [A.EMPTY][..0] == [];
  }

  lemma RoomInside(c: Ctx, m: M.State, m2: M.State, depth: nat, fs: nat)
    requires Room(c, m, depth) && depth > 0 && c.need >= 2 && fs <= c.maxFrame
    ensures m.sp + 1 < C.GLOBAL_BASE && m.fp + fs < M.RAM_WORDS
    ensures m2.sp == m.sp + 1 && m2.fp == m.fp + fs ==> Room(c, m2, depth - 1)
  {
    LessDeep(depth, c.maxFrame);
  }

  lemma LessDeep(depth: nat, size: nat)
    requires depth > 0
    ensures depth * size == (depth - 1) * size + size && (depth - 1) * size >= 0
  {
  }

  /** What a call achieves: the frame pointer, the stack and all protected memory are as they were. */
  ghost predicate Returns(c: Ctx, name: string, out: S.Outcome, fuel: nat, m: M.State, n: nat) {
    var m' := M.Run(c.chip, n, m);
    match out
    case Done(s', left) =>
      && n + left >= fuel && GlobalsAgree(c.g, s'.globals, m'.ram) && m'.printed == s'.printed && Within(c.chip, n, m)
      && m'.pc == m.ppc && m'.sp == m.sp && m'.fp == m.fp && Kept(m.ram, m'.ram, m.sp, m.fp)
    case Timeout(at, place, calls) =>
      && n >= fuel && m'.printed == at.printed && c.start <= m'.pc && Within(c.chip, n, m)
      && Kept(m.ram, m'.ram, m.sp, m.fp) && m.sp < C.GLOBAL_BASE && m'.ram[m.sp] == m.ppc
      && name in c.code && BodyPoint(c, name, place).Some?
      && Active(c, BodyPoint(c, name, place).value, at, calls, m', m.sp + 1, m.fp + c.code[name].frame,
                c.code[name].frame)
    case Undefined => true
    case TooDeep => true
  }

  /** The return address has been saved and a frame of `fs` cells allocated. */
  ghost predicate Entered(c: Ctx, m: M.State, m2: M.State, fs: nat) {
    && m2 == M.Run(c.chip, 2, m) && Within(c.chip, 2, m)
    && m.sp + 1 < C.GLOBAL_BASE && m.fp + fs < M.RAM_WORDS
    && m2 == m.(pc := m2.pc, sp := m.sp + 1, fp := m.fp + fs, ram := m.ram[m.sp := m.ppc])
  }

  lemma ReturnFrom(c: Ctx, name: string, body: seq<Stmt>, st1: C.State, st2: C.State, fs: nat, out: S.Outcome,
                   fuel: nat, m: M.State, m2: M.State, k: nat) returns (n: nat)
    requires |c.chip.rom| <= M.ROM_WORDS && Linkage(c, name, |st2.gen.prog|, fs) && InFunction(c, st2)
    requires name in c.code && c.code[name].frame == fs
    requires Entered(c, m, m2, fs)
    requires S.FindFunc(c.w.prog, name) == Some(body) && c.code[name].begin == st1 && C.Ready(st1)
    requires Simulates(c, Located(st1, Block(body), out, c.order), st2, out, fuel, m2, k, fs)
    ensures Returns(c, name, out, fuel, m, n)
  {
    hide MemAgrees, M.Run, InFunction, Linkage, GlobalsAgree, Within, Active;
    M.RunAdd(c.chip, 2, k, m);
    n := 2 + k;
    match out {
      case Done(s', left) =>
        var m3 := M.Run(c.chip, k, m2);
        LeaveFunction(c, name, |st2.gen.prog|, fs, m3);
        M.RunAdd(c.chip, 2 + k, 2, m);
        n := 2 + k + 2;
        assert m3.ram[m.sp] == m2.ram[m.sp] == m.ppc;
        FunctionGlobals(c, st2, s', m3.ram, m3.fp, fs);
        WithinBoth(c.chip, 2, k, m);
        WithinBoth(c.chip, 2 + k, 2, m);
      case Timeout(at, place, calls) =>
        WithinBoth(c.chip, 2, k, m);
      case _ =>
    }
  }

  /** Where a function's code starts, and from which state its body was compiled. */
  lemma CodeParts(c: Ctx, name: string, body: seq<Stmt>)
    requires HasCode(c, name, body)
    ensures name in c.lab && name in c.code
    ensures var Code(st1, st2, fs) := c.code[name];
            && Linkage(c, name, |st2.gen.prog|, fs) && st1.allocs == [c.g, A.New(0, A.STACK)]
            && |st1.gen.prog| == c.lab[name] + 2 && fs <= c.maxFrame
  {
    hide InFunction, Settled, StmtsFit, C.CompileStmts;
  }

  lemma ReachBody(c: Ctx, name: string, body: seq<Stmt>, allocs: seq<A.Alloc>, depth: nat, store: S.Store, m: M.State,
                  fs: nat)
    requires HasCode(c, name, body) && |c.chip.rom| <= M.ROM_WORDS && c.need >= 2 && 1 <= |allocs| <= 2
        && allocs[0] == c.g
    requires MemAgrees(allocs, store, m.ram, m.fp, fs) && m.printed == store.printed
    requires depth > 0 && Room(c, m, depth) && m.fp >= C.FRAME_BASE
    requires m.pc == c.lab[name]
    ensures var fs' := c.code[name].frame;
            var m2 := M.Run(c.chip, 2, m);
            && Entered(c, m, m2, fs')
            && Represents(c.code[name].begin, store.(scopes := [map[]]), m2, fs') && Room(c, m2, depth - 1)
  {
    hide HasCode, Linkage, MemAgrees, M.Run, Room, A.New, Within;
    CodeParts(c, name, body);
    var Code(st1, st2, fs') := c.code[name];
    var m2 := M.Run(c.chip, 2, m);
    RoomInside(c, m, m2, depth, fs');
    EnterFunction(c, name, |st2.gen.prog|, fs', m);
    EmptyFrame(c, allocs, store, m.ram, m2.ram, m.fp, fs, fs');
  }

  lemma GetCode(c: Ctx, name: string, body: seq<Stmt>)
    requires Good(c) && S.FindFunc(c.w.prog, name) == Some(body)
    ensures HasCode(c, name, body) && name in c.code && name in c.lab
    ensures var Code(st1, st2, fs) := c.code[name];
            && Linkage(c, name, |st2.gen.prog|, fs) && InFunction(c, st1) && InFunction(c, st2) && C.Ready(st1)
            && C.CompileStmts(st1, body, c.order) == Ok(st2) && Settled(c, st2, fs) && StmtsFit(body, c.need)
  {
    hide Settled, StmtsFit, C.CompileStmts, A.Valid, G.Valid;
  }

  /** A function runs in its own frame above the caller's and returns to the address in `ppc`. */
  lemma {:induction false} SimFunction(c: Ctx, name: string, body: seq<Stmt>, allocs: seq<A.Alloc>,
                                       fuel: nat, depth: nat, store: S.Store, m: M.State, fs: nat)
    returns (n: nat)
    requires Good(c) && S.FindFunc(c.w.prog, name) == Some(body) && 1 <= |allocs| <= 2 && allocs[0] == c.g
    requires MemAgrees(allocs, store, m.ram, m.fp, fs) && m.printed == store.printed
    requires depth > 0 && Room(c, m, depth) && m.fp >= C.FRAME_BASE
    requires name in c.lab && m.pc == c.lab[name]
    ensures Returns(c, name, S.ExecAll(c.w, fuel, depth - 1, body, store.(scopes := [map[]])), fuel, m, n)
    decreases fuel, body, 1
  {
    hide *;
    GoodOrder(c);
    GetCode(c, name, body);
    var Code(st1, st2, fs') := c.code[name];
    ReachBody(c, name, body, allocs, depth, store, m, fs);
    var m2, inner := M.Run(c.chip, 2, m), store.(scopes := [map[]]);
    var k := SimStmts(c, st1, body, fuel, depth - 1, inner, m2, fs');
    n := ReturnFrom(c, name, body, st1, st2, fs', S.ExecAll(c.w, fuel, depth - 1, body, inner), fuel, m, m2, k);
  }

  lemma RoomBounds(c: Ctx, m: M.State, depth: nat)
    requires Room(c, m, depth) && c.need >= 2
    ensures m.sp + depth + 2 <= C.GLOBAL_BASE && m.fp < M.RAM_WORDS
  {
    assert depth * c.maxFrame >= 0;
  }

  lemma FunctionGlobals(c: Ctx, st: C.State, s: S.Store, ram: M.Ram, fp: int, fs: nat)
    requires InFunction(c, st) && MemAgrees(st.allocs, s, ram, fp, fs)
    ensures GlobalsAgree(c.g, s.globals, ram)
  {
  }

  lemma {:induction false} SimCall(c: Ctx, st: C.State, s: Stmt, fuel: nat, depth: nat, store: S.Store, m: M.State,
                                   fs: nat)
    returns (n: nat)
    requires s.Call? && fuel > 0
    requires Good(c) && InFunction(c, st) && C.CompileStmt(st, s, c.order).Ok? && StmtFits(s, c.need)
    requires Settled(c, C.CompileStmt(st, s, c.order).value, fs)
    requires Represents(st, store, m, fs) && Room(c, m, depth)
    ensures var out := S.Exec(c.w, fuel, depth, s, store);
            Simulates(c, Located(st, s, out, c.order), C.CompileStmt(st, s, c.order).value, out, fuel, m, n, fs)
    decreases fuel, s, 1
  {
    hide A.Valid, G.Valid, L.Linked, L.Extends, Asm.Pack, Good, GlobalsAgree, LocalsAgree, FrameFits, M.Run,
         C.CompileStmts, Within, Active;
    GoodOrder(c);
    n := 0;
    var f := S.FindFunc(c.w.prog, s.callee);
    if f.Some? && depth > 0 {
      RoomBounds(c, m, depth);
      SimJump(c.chip, c.lab, st.gen, s.callee, m);
      var m1 := M.Run(c.chip, 2, m);
      ScratchAgrees(st.allocs, store, m.ram, m1.ram, m.fp, fs, m.sp);
      var k := SimFunction(c, s.callee, f.value, st.allocs, fuel - 1, depth, store, m1, fs);
      M.RunAdd(c.chip, 2, k, m);
      n := 2 + k;
      var m2 := M.Run(c.chip, k, m1);
      match S.ExecAll(c.w, fuel - 1, depth - 1, f.value, store.(scopes := [map[]])) {
        case Done(s', left) =>
          LocalsFrame(C.Last(st).blocks, store.scopes, m1.ram, m2.ram, m.fp, fs);
          WithinBoth(c.chip, 2, k, m);
        case Timeout(at, place, calls) =>
          SettledBefore(c, st, s, fs);
          CallActive(c, Point(st, s), store, S.Suspended(s.callee, store.scopes, place), at, calls, m1.ram, m2, m.sp,
                     m.fp, fs);
          WithinBoth(c.chip, 2, k, m);
        case _ =>
      }
    }
  }
}
