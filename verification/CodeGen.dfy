/**
 The code generator's state and operations: words are appended, frame sizes are
 patched when a function ends, and label references when the program ends.
 */
module CodeGen {
  import opened Results
  import opened Words
  import Asm = Assembler

  datatype Gen = Gen(
    prog: seq<Word>,               // the words emitted so far
    labels: map<string, nat>,      // declared labels and their addresses
    refs: map<string, seq<nat>>,   // for each label, the words that must hold its address
    fpAdds: seq<nat>)              // frame allocations of the functions still open

  const START := Gen([], map[], map[], [])

  function Here(g: Gen): nat {
    |g.prog|
  }

  function Emit(g: Gen, w: Word): Gen {
    g.(prog := g.prog + [w])
  }

  function EmitConst(g: Gen, v: nat): Result<Gen> {
    var w :- Asm.Const(v);
    Ok(Emit(g, w))
  }

  function Load(g: Gen, addr: nat): Result<Gen> {
    var g1 :- EmitConst(g, addr);
    Ok(Emit(g1, Asm.LMEM))
  }

  function StackLoad(g: Gen, addr: nat): Result<Gen> {
    var w :- Asm.Lfpmem(0 - addr);
    Ok(Emit(g, w))
  }

  function Save(g: Gen, addr: nat): Result<Gen> {
    var g1 :- EmitConst(g, addr);
    Ok(Emit(g1, Asm.STMEM))
  }

  function StackSave(g: Gen, addr: nat): Result<Gen> {
    var w :- Asm.Stfpmem(0 - addr);
    Ok(Emit(g, w))
  }

  /** Save the return address, and leave room for the instruction that allocates the frame. */
  function Prologue(g: Gen): Gen {
    var g1 := Emit(g, Asm.LPPC);
    Emit(g1.(fpAdds := g1.fpAdds + [Here(g1)]), 0)
  }

  /** Patch the frame allocation, release the frame, and return. */
  function Epilogue(g: Gen, frameSize: nat): Result<Gen>
    requires g.fpAdds != [] && g.fpAdds[|g.fpAdds| - 1] < |g.prog|
  {
    var n := |g.fpAdds| - 1;
    var enter :- Asm.Addfp(frameSize);
    var leave :- Asm.Addfp(0 - frameSize);
    Ok(Emit(Emit(g.(prog := g.prog[g.fpAdds[n] := enter], fpAdds := g.fpAdds[..n]), leave), Asm.AJMP))
  }

  function DeclareLabel(g: Gen, name: string): Result<Gen> {
    if name in g.labels then Err(LabelDeclared(name))
    else Ok(g.(labels := g.labels[name := Here(g)]))
  }

  function RefsTo(g: Gen, name: string): seq<nat> {
    if name in g.refs then g.refs[name] else []
  }

  /** Emit a placeholder for the label's address. */
  function Ref(g: Gen, name: string): Gen {
    Emit(g.(refs := g.refs[name := RefsTo(g, name) + [Here(g)]]), 0)
  }

  /** Jump to a label. */
  function Jump(g: Gen, name: string): Gen {
    Emit(Ref(g, name), Asm.AJMP)
  }

  // ----- linking -----

  /** Word `i` holds a reference to a label. */
  ghost predicate IsRef(g: Gen, i: nat) {
    exists name :: name in g.refs && i in g.refs[name]
  }

  /** Every referenced label is declared at an address that fits in a constant. */
  predicate Linkable(g: Gen) {
    forall name <- g.refs :: name in g.labels && Asm.FitsConstant(g.labels[name])
  }

  /** The program `rom` is `g`'s program with every reference replaced by its label's address. */
  ghost predicate Resolved(g: Gen, rom: seq<Word>) {
    && Linkable(g)
    && |rom| == |g.prog|
    && (forall name, p :: name in g.refs && p in g.refs[name] && p < |rom| ==> rom[p] == g.labels[name])
    && (forall i :: 0 <= i < |rom| && !IsRef(g, i) ==> rom[i] == g.prog[i])
  }

  /** What every emission keeps. */
  ghost predicate Valid(g: Gen) {
    && (forall name, p :: name in g.refs && p in g.refs[name] ==> p < |g.prog|)
    && (forall name, other, p :: name in g.refs && other in g.refs && p in g.refs[name] && p in g.refs[other] ==>
                                   name == other)
    && (forall name :: name in g.labels ==> g.labels[name] <= |g.prog|)
    && (forall i :: 0 <= i < |g.fpAdds| ==> g.fpAdds[i] < |g.prog| && !IsRef(g, g.fpAdds[i]))
    && (forall name :: name in g.refs ==> g.refs[name] != [])
  }

  /** Linking has one possible result, whatever the order in which the labels are visited. */
  lemma ResolvedUnique(g: Gen, rom: seq<Word>, rom': seq<Word>)
    requires Valid(g) && Resolved(g, rom) && Resolved(g, rom')
    ensures rom == rom'
  {
    forall i | 0 <= i < |rom| ensures rom[i] == rom'[i] {
      if IsRef(g, i) {
        var name :| name in g.refs && i in g.refs[name];
        assert rom[i] == g.labels[name];
      }
    }
  }
}
