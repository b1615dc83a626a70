/**
 The machine between the statements of an unfinished run: the operand stack is the return
 addresses of the active calls, and each call's frame lies above its caller's.
 */
module Activations {
  import opened Results
  import opened Words
  import opened Syntax
  import opened Agreement
  import opened Expressions
  import opened Statements
  import opened Progress
  import Asm = Assembler
  import C = Compiler
  import A = Allocator
  import L = Linking
  import G = CodeGen
  import M = Machine
  import S = Semantics

  // ----- places in the compiled code -----

  /** A statement, and the state of the compiler when it starts to compile it. */
  datatype Point = Point(st: C.State, s: Stmt)

  /** Compiling `s` from `st`, the compiler comes to the statement at a place in it. */
  function PointAt(st: C.State, s: Stmt, place: Place, order: A.HashOrder): Option<Point>
    requires C.Ready(st)
    decreases place
  {
    match place
    case Here => Some(Point(st, s))
    case Inside(IntoThen, rest) =>
      if s.If? && C.BeginIf(st, s.cond).Ok? then PointAt(C.Open(C.BeginIf(st, s.cond).value), s.thn, rest, order)
      else None
    case Inside(IntoElse, rest) =>
      if s.If? && s.els.Some? && C.CompileStmt(st, s, order).Ok? then
        PointAt(C.Open(StatesOfIf(st, s, order).elseStart), s.els.value, rest, order)
      else None
    case Inside(IntoBody, rest) =>
      if s.While? && C.BeginWhile(st, s.cond).Ok? then
        PointAt(C.Open(C.BeginWhile(st, s.cond).value), s.body, rest, order)
      else None
    case Inside(IntoFirst, rest) =>
      if s.Block? && s.stmts != [] then PointAt(st, s.stmts[0], rest, order) else None
    case Inside(IntoRest, rest) =>
      if s.Block? && s.stmts != [] && C.CompileStmt(st, s.stmts[0], order).Ok? then
        PointAt(C.CompileStmt(st, s.stmts[0], order).value, Block(s.stmts[1..]), rest, order)
      else None
  }

  /** The statement at a place, from the program's text alone. */
  function StatementAt(s: Stmt, place: Place): Option<Stmt>
    decreases place
  {
    match place
    case Here => Some(s)
    case Inside(IntoThen, rest) => if s.If? then StatementAt(s.thn, rest) else None
    case Inside(IntoElse, rest) => if s.If? && s.els.Some? then StatementAt(s.els.value, rest) else None
    case Inside(IntoBody, rest) => if s.While? then StatementAt(s.body, rest) else None
    case Inside(IntoFirst, rest) => if s.Block? && s.stmts != [] then StatementAt(s.stmts[0], rest) else None
    case Inside(IntoRest, rest) => if s.Block? && s.stmts != [] then StatementAt(Block(s.stmts[1..]), rest) else None
  }

  lemma {:induction false} PointStatement(st: C.State, s: Stmt, place: Place, order: A.HashOrder)
    requires C.Ready(st) && PointAt(st, s, place, order).Some?
    ensures StatementAt(s, place) == Some(PointAt(st, s, place, order).value.s)
    decreases place
  {
    hide C.BeginIf, C.BeginElse, C.EndIf, C.BeginWhile, C.CompileScoped, C.Open;
    match place
    case Here =>
    case Inside(IntoThen, rest) => PointStatement(C.Open(C.BeginIf(st, s.cond).value), s.thn, rest, order);
    case Inside(IntoElse, rest) => PointStatement(C.Open(StatesOfIf(st, s, order).elseStart), s.els.value, rest, order);
    case Inside(IntoBody, rest) => PointStatement(C.Open(C.BeginWhile(st, s.cond).value), s.body, rest, order);
    case Inside(IntoFirst, rest) => PointStatement(st, s.stmts[0], rest, order);
    case Inside(IntoRest, rest) =>
      PointStatement(C.CompileStmt(st, s.stmts[0], order).value, Block(s.stmts[1..]), rest, order);
  }

  /** The point of the statement at which a run ran out of fuel. */
  function Located(st: C.State, s: Stmt, out: S.Outcome, order: A.HashOrder): Option<Point>
    requires C.Ready(st)
  {
    match out
    case Timeout(_, place, _) => PointAt(st, s, place, order)
    case _ => None
  }

  /** The same, for a branch or a loop's body, which has a block of its own. */
  function Scoped(st: C.State, s: Stmt, out: S.Outcome, order: A.HashOrder): Option<Point>
    requires C.Ready(st)
  {
    Located(C.Open(st), s, out, order)
  }

  /** The point of a place in a function's body. */
  function BodyPoint(c: Ctx, name: string, place: Place): Option<Point> {
    match S.FindFunc(c.w.prog, name)
    case Some(body) =>
      if name in c.code && C.Ready(c.code[name].begin) then PointAt(c.code[name].begin, Block(body), place, c.order)
      else None
    case None => None
  }

  // ----- the active calls -----

  /** `ret` is the address behind a call of `callee`. */
  predicate IsBehindCall(c: Ctx, ret: int, callee: string) {
    && 2 <= ret <= |c.chip.rom| && callee in c.lab
    && c.chip.rom[ret - 2] == c.lab[callee] && c.chip.rom[ret - 1] == Asm.AJMP
  }

  /**
   The call at point `p` waits: the return address is the place behind its code, and its variables
   are where the compiler has put them there.
   */
  ghost predicate Waits(c: Ctx, p: Point, at: S.Store, call: S.Suspended, ret: Word, ram: M.Ram, fp: int, fs: nat) {
    && p.s == Call(call.callee) && ret == |p.st.gen.prog| + 2 && IsBehindCall(c, ret, call.callee)
    && p.st.allocs != [] && p.st.allocs[0] == c.g && MemAgrees(p.st.allocs, at.(scopes := call.scopes), ram, fp, fs)
  }

  /**
   The machine is before the statement at point `p`, and the variables of `at` are where the
   compiler has put them there.
   */
  ghost predicate Stands(c: Ctx, p: Point, at: S.Store, m: M.State, fs: nat) {
    && !p.s.Block? && m.pc == |p.st.gen.prog|
    && |p.st.allocs| == 2 && p.st.allocs[0] == c.g && MemAgrees(p.st.allocs, at, m.ram, m.fp, fs)
  }

  /**
   A function at point `p`, with a frame of `fs` cells below `fp` and `sp` words on the stack, waits for
   the calls `calls`, outermost first; the innermost of them stands with the scopes of `at`.
   */
  ghost predicate Active(c: Ctx, p: Point, at: S.Store, calls: seq<S.Suspended>, m: M.State, sp: int, fp: int, fs: nat)
    decreases |calls|
  {
    if calls == [] then m.sp == sp && m.fp == fp && Stands(c, p, at, m, fs)
    else
      && calls[0].callee in c.code && 0 <= sp < C.GLOBAL_BASE
      && Waits(c, p, at, calls[0], m.ram[sp], m.ram, fp, fs)
      && BodyPoint(c, calls[0].callee, calls[0].place).Some?
      && var size := c.code[calls[0].callee].frame;
         Active(c, BodyPoint(c, calls[0].callee, calls[0].place).value, at, calls[1..], m, sp + 1, fp + size, size)
  }

  lemma NoneActive(c: Ctx, p: Point, at: S.Store, m: M.State, fs: nat)
    requires Stands(c, p, at, m, fs)
    ensures Active(c, p, at, [], m, m.sp, m.fp, fs)
  {}

  lemma WaitsGlobals(c: Ctx, p: Point, at: S.Store, call: S.Suspended, ret: Word, ram: M.Ram, fp: int, fs: nat)
    requires Waits(c, p, at, call, ret, ram, fp, fs)
    ensures GlobalsAgree(c.g, at.globals, ram)
  {
    hide GlobalsAgree, LocalsAgree, FrameFits, IsBehindCall;
  }

  lemma {:induction false} ActiveGlobals(c: Ctx, p: Point, at: S.Store, calls: seq<S.Suspended>, m: M.State, sp: int,
                                         fp: int, fs: nat)
    requires Active(c, p, at, calls, m, sp, fp, fs)
    ensures GlobalsAgree(c.g, at.globals, m.ram)
  {
    hide GlobalsAgree, LocalsAgree, FrameFits, Waits, BodyPoint;
    if calls != [] {
      WaitsGlobals(c, p, at, calls[0], m.ram[sp], m.ram, fp, fs);
    }
  }

  /** The caller's variables are still there while the call runs, if its frame was not touched. */
  lemma CallActive(c: Ctx, p: Point, store: S.Store, call: S.Suspended, at: S.Store, calls: seq<S.Suspended>,
                   ram: M.Ram, m: M.State, sp: nat, fp: int, fs: nat)
    requires p.s == Call(call.callee) && call.scopes == store.scopes && 1 <= |p.st.allocs| <= 2 && p.st.allocs[0] == c.g
    requires G.Valid(p.st.gen) && L.Linked(c.chip.rom, c.lab, G.Jump(p.st.gen, call.callee))
    requires MemAgrees(p.st.allocs, store, ram, fp, fs) && Kept(ram, m.ram, sp, fp)
    requires call.callee in c.code && sp < C.GLOBAL_BASE && m.ram[sp] == |p.st.gen.prog| + 2
    requires BodyPoint(c, call.callee, call.place).Some?
    requires Active(c, BodyPoint(c, call.callee, call.place).value, at, calls, m, sp + 1,
                    fp + c.code[call.callee].frame, c.code[call.callee].frame)
    ensures Active(c, p, at, [call] + calls, m, sp, fp, fs)
  {
    hide *;
    var size := c.code[call.callee].frame;
    ActiveGlobals(c, BodyPoint(c, call.callee, call.place).value, at, calls, m, sp + 1, fp + size, size);
    BehindJump(c, p.st.gen, call.callee);
    CallerKept(c, p, store, call, at, ram, m.ram, sp, fp, fs);
    OneMore(c, p, call, at, calls, m, sp, fp, fs);
  }

  lemma OneMore(c: Ctx, p: Point, call: S.Suspended, at: S.Store, calls: seq<S.Suspended>, m: M.State, sp: nat,
                fp: int, fs: nat)
    requires call.callee in c.code && sp < C.GLOBAL_BASE && Waits(c, p, at, call, m.ram[sp], m.ram, fp, fs)
    requires BodyPoint(c, call.callee, call.place).Some?
    requires Active(c, BodyPoint(c, call.callee, call.place).value, at, calls, m, sp + 1,
                    fp + c.code[call.callee].frame, c.code[call.callee].frame)
    ensures Active(c, p, at, [call] + calls, m, sp, fp, fs)
  {
    hide Waits, Stands, BodyPoint;
    assert ([call] + calls)[1..] == calls;
  }

  lemma CallerKept(c: Ctx, p: Point, store: S.Store, call: S.Suspended, at: S.Store, ram: M.Ram, ram': M.Ram, sp: nat,
                   fp: int, fs: nat)
    requires p.s == Call(call.callee) && call.scopes == store.scopes && 1 <= |p.st.allocs| <= 2 && p.st.allocs[0] == c.g
    requires MemAgrees(p.st.allocs, store, ram, fp, fs) && Kept(ram, ram', sp, fp)
    requires GlobalsAgree(c.g, at.globals, ram') && sp < C.GLOBAL_BASE && ram'[sp] == |p.st.gen.prog| + 2
    requires IsBehindCall(c, |p.st.gen.prog| + 2, call.callee)
    ensures Waits(c, p, at, call, ram'[sp], ram', fp, fs)
  {
    hide GlobalsAgree, LocalsAgree, FrameFits, IsBehindCall;
    if |p.st.allocs| == 2 {
      LocalsFrame(p.st.allocs[1].blocks, store.scopes, ram, ram', fp, fs);
    }
  }

  /** The words before a return address are the call. */
  lemma BehindJump(c: Ctx, g: G.Gen, callee: string)
    requires G.Valid(g) && L.Linked(c.chip.rom, c.lab, G.Jump(g, callee))
    ensures IsBehindCall(c, |g.prog| + 2, callee)
  {
    hide G.Valid, L.Linked, L.Extends, Asm.Pack;
    var g1 := G.Ref(g, callee);
    L.RefExtends(g, callee);
    L.EmitExtends(g1, Asm.AJMP);
    L.LinkedBack(c.chip.rom, c.lab, g1, G.Jump(g, callee));
    L.EmittedWord(c.chip.rom, c.lab, g1, Asm.AJMP);
    L.RefWord(c.chip.rom, c.lab, g, callee);
  }

  // ----- the whole stack -----

  /** The frame pointer of the i-th caller. */
  function FrameOf(c: Ctx, calls: seq<S.Suspended>, fp: int, i: nat): int
    requires i <= |calls| && forall k :: 0 <= k < |calls| ==> calls[k].callee in c.code
    decreases i
  {
    if i == 0 then fp else FrameOf(c, calls[1..], fp + c.code[calls[0].callee].frame, i - 1)
  }

  /** The size of the i-th caller's frame. */
  function SizeOf(c: Ctx, calls: seq<S.Suspended>, fs: nat, i: nat): nat
    requires i <= |calls| && forall k :: 0 <= k < |calls| ==> calls[k].callee in c.code
  {
    if i == 0 then fs else c.code[calls[i - 1].callee].frame
  }

  /** The point at which the i-th caller waits, or after all of them where the innermost call stands. */
  function CallerPoint(c: Ctx, p: Point, calls: seq<S.Suspended>, i: nat): Option<Point>
    requires i <= |calls|
  {
    if i == 0 then Some(p) else BodyPoint(c, calls[i - 1].callee, calls[i - 1].place)
  }

  lemma {:induction false} ActiveKnown(c: Ctx, p: Point, at: S.Store, calls: seq<S.Suspended>, m: M.State, sp: int,
                                       fp: int, fs: nat)
    requires Active(c, p, at, calls, m, sp, fp, fs)
    ensures forall k :: 0 <= k < |calls| ==> calls[k].callee in c.code
    decreases |calls|
  {
    hide Waits, Stands, BodyPoint;
    if calls != [] {
      var size := c.code[calls[0].callee].frame;
      ActiveKnown(c, BodyPoint(c, calls[0].callee, calls[0].place).value, at, calls[1..], m, sp + 1, fp + size, size);
      forall k | 0 <= k < |calls| ensures calls[k].callee in c.code {
        if k > 0 {
          assert calls[k] == calls[1..][k - 1];
        }
      }
    }
  }

  /**
   Each active call's frame lies right above its caller's; its caller waits and its own code stands
   where the source does.
   */
  lemma {:induction false} FrameHeld(c: Ctx, p: Point, at: S.Store, calls: seq<S.Suspended>, m: M.State, sp: nat,
                                     fp: int, fs: nat, i: nat)
    requires Active(c, p, at, calls, m, sp, fp, fs) && i <= |calls| && sp <= C.GLOBAL_BASE
    ensures forall k :: 0 <= k < |calls| ==> calls[k].callee in c.code
    ensures m.fp == FrameOf(c, calls, fp, |calls|) && m.sp == sp + |calls| <= C.GLOBAL_BASE
    ensures CallerPoint(c, p, calls, i).Some?
    ensures var q, size := CallerPoint(c, p, calls, i).value, SizeOf(c, calls, fs, i);
            if i < |calls| then Waits(c, q, at, calls[i], m.ram[sp + i], m.ram, FrameOf(c, calls, fp, i), size)
            else Stands(c, q, at, m, size)
    decreases |calls|
  {
    hide Waits, Stands, BodyPoint;
    ActiveKnown(c, p, at, calls, m, sp, fp, fs);
    if calls != [] {
      var size := c.code[calls[0].callee].frame;
      var q := BodyPoint(c, calls[0].callee, calls[0].place).value;
      ActiveKnown(c, q, at, calls[1..], m, sp + 1, fp + size, size);
      FrameHeld(c, q, at, calls[1..], m, sp + 1, fp + size, size, if i > 0 then i - 1 else 0);
    }
  }

  /**
   What the whole program's calls look like, if the outermost is made at point `p`. The stack holds
   as many words as calls are active. The i-th of them is the address behind the i-th caller's call,
   at the place in its function where the source waits. From the start of the frames up, every
   caller's frame holds its variables in the slots that the compiler gave them at that call. The
   machine is before the statement that the source would start next, and the innermost frame holds
   the variables of `at` in the slots they have there.
   */
  ghost predicate FramesShow(c: Ctx, p: Point, at: S.Store, calls: seq<S.Suspended>, m: M.State) {
    && (forall i :: 0 <= i < |calls| ==> calls[i].callee in c.code)
    && m.sp == |calls| <= C.GLOBAL_BASE && m.fp == FrameOf(c, calls, C.FRAME_BASE, |calls|)
    && (forall i: nat {:trigger CallerPoint(c, p, calls, i)} :: i < |calls| ==>
          && CallerPoint(c, p, calls, i).Some?
          && Waits(c, CallerPoint(c, p, calls, i).value, at, calls[i], m.ram[i], m.ram,
                   FrameOf(c, calls, C.FRAME_BASE, i), SizeOf(c, calls, 0, i)))
    && CallerPoint(c, p, calls, |calls|).Some?
    && Stands(c, CallerPoint(c, p, calls, |calls|).value, at, m, SizeOf(c, calls, 0, |calls|))
  }

  lemma FramesShown(c: Ctx, p: Point, at: S.Store, calls: seq<S.Suspended>, m: M.State)
    requires Active(c, p, at, calls, m, 0, C.FRAME_BASE, 0)
    ensures FramesShow(c, p, at, calls, m)
  {
    hide Active, Waits, Stands, FrameOf, SizeOf, CallerPoint;
    FrameHeld(c, p, at, calls, m, 0, C.FRAME_BASE, 0, |calls|);
    forall i: nat {:trigger CallerPoint(c, p, calls, i)} | i < |calls|
      ensures CallerPoint(c, p, calls, i).Some?
      ensures Waits(c, CallerPoint(c, p, calls, i).value, at, calls[i], m.ram[i], m.ram,
                    FrameOf(c, calls, C.FRAME_BASE, i), SizeOf(c, calls, 0, i))
    {
      FrameHeld(c, p, at, calls, m, 0, C.FRAME_BASE, 0, i);
    }
  }
}
