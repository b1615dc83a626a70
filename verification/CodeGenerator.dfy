/** The code generator as the compiler uses it: an object that appends to and patches its program. */
module CodeGenerators {
  import opened Results
  import opened Words
  import Asm = Assembler
  import G = CodeGen

  class CodeGenerator {
    var mProgram: seq<Word>
    var mLabels: map<string, nat>
    var mRefs: map<string, seq<nat>>
    var mFpAdds: seq<nat>

    function View(): G.Gen
      reads this
    {
      G.Gen(mProgram, mLabels, mRefs, mFpAdds)
    }

    constructor ()
      ensures View() == G.START
    {
      mProgram, mLabels, mRefs, mFpAdds := [], map[], map[], [];
    }

    method Emit(w: Word)
      modifies this
      ensures View() == G.Emit(old(View()), w)
    {
      mProgram := mProgram + [w];
    }

    method CompileConst(v: nat) returns (r: Result<()>)
      modifies this
      ensures match G.EmitConst(old(View()), v)
              case Ok(g) => r == Ok(()) && View() == g
              case Err(e) => r == Err(e)
    {
      var w :- Asm.Const(v);
      Emit(w);
      return Ok(());
    }

    method CompileLoad(addr: nat) returns (r: Result<()>)
      modifies this
      ensures match G.Load(old(View()), addr)
              case Ok(g) => r == Ok(()) && View() == g
              case Err(e) => r == Err(e)
    {
      var w :- Asm.Const(addr);
      Emit(w);
      Emit(Asm.LMEM);
      return Ok(());
    }

    method CompileStackLoad(addr: nat) returns (r: Result<()>)
      modifies this
      ensures match G.StackLoad(old(View()), addr)
              case Ok(g) => r == Ok(()) && View() == g
              case Err(e) => r == Err(e)
    {
      var w :- Asm.Lfpmem(0 - addr);
      Emit(w);
      return Ok(());
    }

    method CompileSave(addr: nat) returns (r: Result<()>)
      modifies this
      ensures match G.Save(old(View()), addr)
              case Ok(g) => r == Ok(()) && View() == g
              case Err(e) => r == Err(e)
    {
      var w :- Asm.Const(addr);
      Emit(w);
      Emit(Asm.STMEM);
      return Ok(());
    }

    method CompileStackSave(addr: nat) returns (r: Result<()>)
      modifies this
      ensures match G.StackSave(old(View()), addr)
              case Ok(g) => r == Ok(()) && View() == g
              case Err(e) => r == Err(e)
    {
      var w :- Asm.Stfpmem(0 - addr);
      Emit(w);
      return Ok(());
    }

    method CompilePrologue()
      modifies this
      ensures View() == G.Prologue(old(View()))
    {
      Emit(Asm.LPPC);
      mFpAdds := mFpAdds + [|mProgram|];
      Emit(0);
    }

    method CompileEpilogue(frameSize: nat) returns (r: Result<()>)
      requires mFpAdds != [] && mFpAdds[|mFpAdds| - 1] < |mProgram|
      modifies this
      ensures match G.Epilogue(old(View()), frameSize)
              case Ok(g) => r == Ok(()) && View() == g
              case Err(e) => r == Err(e)
    {
      var enter :- Asm.Addfp(frameSize);
      mProgram := mProgram[mFpAdds[|mFpAdds| - 1] := enter];
      mFpAdds := mFpAdds[..|mFpAdds| - 1];
      var leave :- Asm.Addfp(0 - frameSize);
      Emit(leave);
      Emit(Asm.AJMP);
      return Ok(());
    }

    method DeclareLabel(name: string) returns (r: Result<()>)
      modifies this
      ensures match G.DeclareLabel(old(View()), name)
              case Ok(g) => r == Ok(()) && View() == g
              case Err(e) => r == Err(e)
    {
      if name in mLabels {
        return Err(LabelDeclared(name));
      }
      mLabels := mLabels[name := |mProgram|];
      return Ok(());
    }

    method CompileRef(name: string)
      modifies this
      ensures View() == G.Ref(old(View()), name)
    {
      if name !in mRefs {
        mRefs := mRefs[name := []];
      }
      mRefs := mRefs[name := mRefs[name] + [|mProgram|]];
      Emit(0);
    }

    /**
     Write every label's address into the words that refer to it. The table is visited
     in an unspecified order; the exception, if any, comes in the middle of the work.
     */
    method ResolveRefs() returns (r: Result<()>)
      requires G.Valid(View())
      modifies this`mProgram
      ensures r.Ok? <==> G.Linkable(View())
      ensures r.Ok? ==> G.Resolved(old(View()), mProgram)
    {
      var todo := mRefs.Keys;
      while todo != {}
        invariant todo <= mRefs.Keys
        invariant |mProgram| == |old(mProgram)|
        invariant forall name :: name in mRefs && name !in todo ==>
                    name in mLabels && Asm.FitsConstant(mLabels[name])
        invariant forall name, p :: name in mRefs && name !in todo && p in mRefs[name] ==>
                    mProgram[p] == mLabels[name]
        invariant forall i :: 0 <= i < |mProgram| && !G.IsRef(old(View()), i) ==> mProgram[i] == old(mProgram)[i]
        decreases todo
      {
        var name :| name in todo;
        if name !in mLabels {
          return Err(LabelMissing(name));
        }
        var w := Asm.Const(mLabels[name]);
        if w.Err? {
          return Err(w.error);
        }
        Patch(mRefs[name], w.value);
        todo := todo - {name};
      }
      return Ok(());
    }

    /** The inner loop of linking: one label's references. */
    method Patch(positions: seq<nat>, w: Word)
      requires forall p :: p in positions ==> p < |mProgram|
      modifies this`mProgram
      ensures |mProgram| == |old(mProgram)|
      ensures forall i :: 0 <= i < |mProgram| ==> mProgram[i] == if i in positions then w else old(mProgram)[i]
    {
      for k := 0 to |positions|
        invariant |mProgram| == |old(mProgram)|
        invariant forall i :: 0 <= i < |mProgram| ==>
                    mProgram[i] == if i in positions[..k] then w else old(mProgram)[i]
      {
        assert positions[k] in positions;
        assert positions[..k + 1] == positions[..k] + [positions[k]];
        mProgram := mProgram[positions[k] := w];
      }
      assert positions[..|positions|] == positions;
    }
  }
}
