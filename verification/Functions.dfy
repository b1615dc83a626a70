/** The code of whole functions: prologue, body and epilogue, and where each ends up in the program. */
module Functions {
  import opened Results
  import opened Words
  import opened Syntax
  import opened Expressions
  import opened Progress
  import Asm = Assembler
  import A = Allocator
  import C = Compiler
  import F = Frames
  import G = CodeGen
  import L = Linking
  import S = Semantics

  /** No expression of the statement needs more than `k` stack cells. */
  predicate StmtFits(s: Stmt, k: nat) {
    match s
    case If(c, t, e) => Need(c) <= k && StmtFits(t, k) && (e.Some? ==> StmtFits(e.value, k))
    case While(c, b) => Need(c) <= k && StmtFits(b, k)
    case VarDecl(_, e) => Need(e) <= k
    case Assign(_, e) => Need(e) <= k
    case Print(e) => Need(e) <= k
    case Call(_) => true
    case Block(ss) => StmtsFit(ss, k)
  }

  predicate StmtsFit(ss: seq<Stmt>, k: nat) {
    ss == [] || (StmtFits(ss[0], k) && StmtsFit(ss[1..], k))
  }

  /** The four words of linkage of a function with a frame of `fs` cells, whose body ends at `e`. */
  predicate Linkage(c: Ctx, name: string, e: nat, fs: nat) {
    var rom := c.chip.rom;
    && name in c.lab && c.start <= c.lab[name]
    && Asm.FitsImmediate(fs) && Asm.FitsImmediate(0 - fs) && fs <= c.maxFrame
    && c.lab[name] + 2 <= e < |rom| - 1
    && rom[c.lab[name]] == Asm.LPPC && rom[c.lab[name] + 1] == Asm.Pack(Asm.FP_IMM_FP, Asm.ADD, fs)
    && rom[e] == Asm.Pack(Asm.FP_IMM_FP, Asm.ADD, 0 - fs) && rom[e + 1] == Asm.AJMP
  }

  /** The body was compiled from `st1` to `st2`, starting with an empty frame. */
  ghost predicate BodyCode(c: Ctx, body: seq<Stmt>, st1: C.State, st2: C.State, fs: nat) {
    && InFunction(c, st1) && InFunction(c, st2) && st1.allocs == [c.g, A.New(0, A.STACK)]
    && C.CompileStmts(st1, body, c.order) == Ok(st2)
    && Settled(c, st2, fs) && StmtsFit(body, c.need)
  }

  ghost predicate CodeOk(c: Ctx, name: string, body: seq<Stmt>, code: Code) {
    && Linkage(c, name, |code.end.gen.prog|, code.frame) && BodyCode(c, body, code.begin, code.end, code.frame)
    && |code.begin.gen.prog| == c.lab[name] + 2
  }

  /** The code of a function is part of the final program. */
  ghost predicate HasCode(c: Ctx, name: string, body: seq<Stmt>) {
    name in c.code && CodeOk(c, name, body, c.code[name])
  }

  /** A declared label's address in the final table. */
  lemma LabelWord(c: Ctx, g: G.Gen, name: string)
    requires G.DeclareLabel(g, name).Ok? && L.Linked(c.chip.rom, c.lab, G.DeclareLabel(g, name).value)
    ensures name in c.lab && c.lab[name] == |g.prog|
  {
  }

  /** The state after a function's body, whose high-water mark is the frame size. */
  function BodyEnd(st: C.State, name: string, body: seq<Stmt>, order: A.HashOrder): C.State
    requires C.CompileFunc(st, name, body, order).Ok?
  {
    C.CompileStmts(C.Enter(st, G.DeclareLabel(st.gen, name).value), body, order).value
  }

  /** The code of function `name` was emitted in state `st` and is part of the final program. */
  ghost predicate FuncCode(c: Ctx, st: C.State, name: string, body: seq<Stmt>) {
    && st.allocs == [c.g] && G.Valid(st.gen) && c.start <= |st.gen.prog|
    && C.CompileFunc(st, name, body, c.order).Ok?
    && L.Linked(c.chip.rom, c.lab, C.CompileFunc(st, name, body, c.order).value.gen)
    && StmtsFit(body, c.need)
    && C.Last(BodyEnd(st, name, body, c.order)).firstFree <= c.maxFrame
  }

  /** The pieces of a function's compilation. */
  lemma FuncShape(st: C.State, name: string, body: seq<Stmt>, order: A.HashOrder)
    requires C.CompileFunc(st, name, body, order).Ok?
    ensures name !in st.gen.labels
    ensures var g1 := G.DeclareLabel(st.gen, name).value;
            var st1 := C.Enter(st, g1);
            && C.CompileStmts(st1, body, order).Ok?
            && BodyEnd(st, name, body, order) == C.CompileStmts(st1, body, order).value
            && var st2 := BodyEnd(st, name, body, order);
               && C.Ready(st2)
               && st2.gen.fpAdds == g1.fpAdds + [|g1.prog| + 1] && |st1.gen.prog| == |g1.prog| + 2 <= |st2.gen.prog|
               && G.Epilogue(st2.gen, C.Last(st2).firstFree).Ok?
               && C.CompileFunc(st, name, body, order).value.gen == G.Epilogue(st2.gen, C.Last(st2).firstFree).value
  {
    hide C.CompileStmts, Asm.Addfp, Asm.Pack;
  }

  lemma EnterInFunction(c: Ctx, st: C.State, name: string)
    requires st.allocs == [c.g] && G.Valid(st.gen) && c.start <= |st.gen.prog| && name !in st.gen.labels
    ensures var g1 := G.DeclareLabel(st.gen, name).value;
            && G.Valid(g1) && L.Extends(g1, G.Prologue(g1)) && InFunction(c, C.Enter(st, g1))
  {
    var g1 := G.DeclareLabel(st.gen, name).value;
    L.DeclareExtends(st.gen, name);
    PrologueExtends(g1);
    A.NewValid(0, A.STACK);
    hide A.Valid, G.Valid, L.Extends;
  }

  lemma PrologueExtends(g: G.Gen)
    requires G.Valid(g)
    ensures G.Valid(G.Prologue(g)) && L.Extends(g, G.Prologue(g))
  {
    var g' := G.Prologue(g);
    assert forall i: nat :: G.IsRef(g', i) <==> G.IsRef(g, i);
    forall i | 0 <= i < |g'.fpAdds| ensures g'.fpAdds[i] < |g'.prog| && !G.IsRef(g', g'.fpAdds[i]) {
      if i < |g.fpAdds| {
        assert g'.fpAdds[i] == g.fpAdds[i];
      }
    }
  }

  lemma PrologueWord(rom: seq<Word>, lab: map<string, nat>, g: G.Gen)
    requires G.Valid(g) && L.Linked(rom, lab, G.Prologue(g))
    ensures |g.prog| < |rom| && rom[|g.prog|] == Asm.LPPC
  {
    var g' := G.Prologue(g);
    assert !G.IsRef(g', |g.prog|);
    assert |g.prog| !in g'.fpAdds;
    assert g'.prog[|g.prog|] == Asm.LPPC;
  }

  /** The epilogue patches the frame allocation, and its own three words follow the body. */
  lemma EpilogueWords(rom: seq<Word>, lab: map<string, nat>, g1: G.Gen, g2: G.Gen, fs: nat)
    requires G.Valid(g1) && G.Valid(g2) && L.Extends(G.Prologue(g1), g2)
    requires g2.fpAdds == g1.fpAdds + [|g1.prog| + 1] && |g1.prog| + 2 <= |g2.prog|
    requires G.Epilogue(g2, fs).Ok? && L.Linked(rom, lab, G.Epilogue(g2, fs).value)
    ensures L.Linked(rom, lab, g2) && Asm.FitsImmediate(fs) && Asm.FitsImmediate(0 - fs)
    ensures var p, e := |g1.prog|, |g2.prog|;
            && e + 1 < |rom| && rom[p + 1] == Asm.Pack(Asm.FP_IMM_FP, Asm.ADD, fs)
            && rom[e] == Asm.Pack(Asm.FP_IMM_FP, Asm.ADD, 0 - fs) && rom[e + 1] == Asm.AJMP
  {
    hide Asm.Pack;
    var g3 := G.Epilogue(g2, fs).value;
    var p, e := |g1.prog|, |g2.prog|;
    assert g3.fpAdds == g1.fpAdds;
    assert forall i: nat :: G.IsRef(g3, i) <==> G.IsRef(g2, i);
    assert g2.fpAdds[|g1.fpAdds|] == p + 1;
    assert !G.IsRef(g2, p + 1) && !G.IsRef(g2, e) && !G.IsRef(g2, e + 1);
    assert p + 1 !in g3.fpAdds && e !in g3.fpAdds && e + 1 !in g3.fpAdds;
    assert g3.prog[p + 1] == Asm.Pack(Asm.FP_IMM_FP, Asm.ADD, fs);
    assert g3.prog[e] == Asm.Pack(Asm.FP_IMM_FP, Asm.ADD, 0 - fs) && g3.prog[e + 1] == Asm.AJMP;
    assert L.Extends(g2, g3);
    L.LinkedBack(rom, lab, g2, g3);
  }

  /** What the compiler knows of a function once it has compiled it. */
  function FuncCodeAt(st: C.State, name: string, body: seq<Stmt>, order: A.HashOrder): Code
    requires C.CompileFunc(st, name, body, order).Ok?
  {
    var end := BodyEnd(st, name, body, order);
    Code(C.Enter(st, G.DeclareLabel(st.gen, name).value), end, C.Last(end).firstFree)
  }

  lemma CodeOf(c: Ctx, st: C.State, name: string, body: seq<Stmt>)
    requires A.IsHashOrder(c.order) && FuncCode(c, st, name, body)
    ensures CodeOk(c, name, body, FuncCodeAt(st, name, body, c.order))
  {
    hide A.Valid, G.Valid, L.Linked, L.Extends, Asm.Pack, C.CompileStmts, C.CompileFunc, G.Epilogue, G.Prologue,
         A.IsHashOrder;
    FuncShape(st, name, body, c.order);
    EnterInFunction(c, st, name);
    var g1 := G.DeclareLabel(st.gen, name).value;
    var st1, st2 := C.Enter(st, g1), BodyEnd(st, name, body, c.order);
    var fs := C.Last(st2).firstFree;
    StmtsProgress(c, st1, body);
    EpilogueWords(c.chip.rom, c.lab, g1, st2.gen, fs);
    L.LinkedBack(c.chip.rom, c.lab, st1.gen, st2.gen);
    PrologueWord(c.chip.rom, c.lab, g1);
    L.LinkedBack(c.chip.rom, c.lab, g1, st1.gen);
    LabelWord(c, st.gen, name);
  }

  // ----- all functions of a program -----

  /** Seen from before the function, its epilogue only extends the program. */
  lemma EpilogueExtends(g1: G.Gen, g2: G.Gen, fs: nat)
    requires G.Valid(g1) && G.Valid(g2) && L.Extends(G.Prologue(g1), g2)
    requires g2.fpAdds == g1.fpAdds + [|g1.prog| + 1] && |g1.prog| + 2 <= |g2.prog|
    requires G.Epilogue(g2, fs).Ok?
    ensures G.Valid(G.Epilogue(g2, fs).value) && L.Extends(g1, G.Epilogue(g2, fs).value)
  {
    hide Asm.Pack, Asm.Addfp;
    var gp, g3 := G.Prologue(g1), G.Epilogue(g2, fs).value;
    assert g3.fpAdds == g1.fpAdds;
    assert forall i: nat :: G.IsRef(g3, i) <==> G.IsRef(g2, i);
    assert forall i: nat :: G.IsRef(gp, i) <==> G.IsRef(g1, i);
    forall i: nat | i < |g1.prog| && i !in g1.fpAdds ensures i !in g3.fpAdds && g3.prog[i] == g1.prog[i] {
      assert i !in gp.fpAdds && gp.prog[i] == g1.prog[i];
    }
  }

  lemma FuncExtends(st: C.State, name: string, body: seq<Stmt>, order: A.HashOrder)
    requires |st.allocs| == 1 && G.Valid(st.gen) && A.IsHashOrder(order) && C.CompileFunc(st, name, body, order).Ok?
    ensures var st' := C.CompileFunc(st, name, body, order).value;
            G.Valid(st'.gen) && L.Extends(st.gen, st'.gen) && st'.allocs == st.allocs
  {
    hide A.Valid, G.Valid, L.Extends, C.CompileStmts, G.Epilogue, G.Prologue, A.IsHashOrder;
    FuncShape(st, name, body, order);
    var g1 := G.DeclareLabel(st.gen, name).value;
    var st1, st2 := C.Enter(st, g1), BodyEnd(st, name, body, order);
    L.DeclareExtends(st.gen, name);
    PrologueExtends(g1);
    A.NewValid(0, A.STACK);
    L.StmtsExtends(st1, body, order);
    F.StmtsEvolve(st1, body, order);
    EpilogueExtends(g1, st2.gen, C.Last(st2).firstFree);
    L.ExtendsTrans(st.gen, g1, G.Epilogue(st2.gen, C.Last(st2).firstFree).value);
    assert st2.allocs[..1] == st1.allocs[..1] == st.allocs;
  }

  lemma {:induction false} FuncsExtend(st: C.State, p: Program, order: A.HashOrder)
    requires |st.allocs| == 1 && G.Valid(st.gen) && A.IsHashOrder(order) && C.CompileFuncs(st, p, order).Ok?
    ensures var st' := C.CompileFuncs(st, p, order).value; G.Valid(st'.gen) && L.Extends(st.gen, st'.gen)
    decreases |p|
  {
    hide G.Valid, L.Extends, C.CompileFunc, A.IsHashOrder;
    if p == [] {
      L.ExtendsRefl(st.gen);
    } else {
      match p[0]
      case Global(_, _) => FuncsExtend(st, p[1..], order);
      case Func(name, body) =>
        FuncExtends(st, name, body, order);
        var st1 := C.CompileFunc(st, name, body, order).value;
        FuncsExtend(st1, p[1..], order);
        L.ExtendsTrans(st.gen, st1.gen, C.CompileFuncs(st1, p[1..], order).value.gen);
    }
  }

  /** The code of every function, found by name. */
  function CodeMap(st: C.State, p: Program, order: A.HashOrder): map<string, Code>
    requires C.CompileFuncs(st, p, order).Ok?
    decreases |p|
  {
    if p == [] then map[]
    else
      match p[0]
      case Global(_, _) => CodeMap(st, p[1..], order)
      case Func(name, body) =>
        CodeMap(C.CompileFunc(st, name, body, order).value, p[1..], order)[name := FuncCodeAt(st, name, body, order)]
  }

  /** No function's frame is larger than `k` cells. */
  predicate FramesFit(st: C.State, p: Program, order: A.HashOrder, k: nat)
    requires C.CompileFuncs(st, p, order).Ok?
    decreases |p|
  {
    if p == [] then true
    else
      match p[0]
      case Global(_, _) => FramesFit(st, p[1..], order, k)
      case Func(name, body) =>
        && FuncCodeAt(st, name, body, order).frame <= k
        && FramesFit(C.CompileFunc(st, name, body, order).value, p[1..], order, k)
  }

  /** No expression of the program needs more than `k` stack cells. */
  predicate ProgramFits(p: Program, k: nat)
    decreases |p|
  {
    if p == [] then true
    else
      && (match p[0]
          case Global(_, e) => Need(e) <= k
          case Func(_, body) => StmtsFit(body, k))
      && ProgramFits(p[1..], k)
  }

  /** Every function a program defines has its code in the linked program. */
  lemma {:induction false} AllCode(c: Ctx, st: C.State, p: Program, name: string)
    requires A.IsHashOrder(c.order) && st.allocs == [c.g] && G.Valid(st.gen) && c.start <= |st.gen.prog|
    requires C.CompileFuncs(st, p, c.order).Ok?
    requires L.Linked(c.chip.rom, c.lab, C.CompileFuncs(st, p, c.order).value.gen)
    requires FramesFit(st, p, c.order, c.maxFrame) && ProgramFits(p, c.need)
    requires S.FindFunc(p, name).Some?
    ensures name in CodeMap(st, p, c.order)
    ensures CodeOk(c, name, S.FindFunc(p, name).value, CodeMap(st, p, c.order)[name])
    decreases |p|
  {
    hide G.Valid, L.Extends, L.Linked, C.CompileFunc, A.IsHashOrder, CodeOk, StmtsFit, FuncCodeAt;
    match p[0]
    case Global(_, _) => AllCode(c, st, p[1..], name);
    case Func(f, body) =>
      var st1 := C.CompileFunc(st, f, body, c.order).value;
      FuncExtends(st, f, body, c.order);
      if f == name {
        FuncsExtend(st1, p[1..], c.order);
        L.LinkedBack(c.chip.rom, c.lab, st1.gen, C.CompileFuncs(st1, p[1..], c.order).value.gen);
        CodeOfFirst(c, st, name, body);
      } else {
        assert |st.gen.prog| <= |st1.gen.prog| by {
          FuncGrows(st, f, body, c.order);
        }
        AllCode(c, st1, p[1..], name);
      }
  }

  lemma FuncGrows(st: C.State, name: string, body: seq<Stmt>, order: A.HashOrder)
    requires |st.allocs| == 1 && G.Valid(st.gen) && A.IsHashOrder(order) && C.CompileFunc(st, name, body, order).Ok?
    ensures |st.gen.prog| <= |C.CompileFunc(st, name, body, order).value.gen.prog|
  {
    hide C.CompileFunc;
    FuncExtends(st, name, body, order);
  }

  lemma CodeOfFirst(c: Ctx, st: C.State, name: string, body: seq<Stmt>)
    requires A.IsHashOrder(c.order) && st.allocs == [c.g] && G.Valid(st.gen) && c.start <= |st.gen.prog|
    requires C.CompileFunc(st, name, body, c.order).Ok?
    requires L.Linked(c.chip.rom, c.lab, C.CompileFunc(st, name, body, c.order).value.gen)
    requires FuncCodeAt(st, name, body, c.order).frame <= c.maxFrame && StmtsFit(body, c.need)
    ensures CodeOk(c, name, body, FuncCodeAt(st, name, body, c.order))
  {
    hide C.CompileFunc, CodeOk;
    CodeOf(c, st, name, body);
  }
}
