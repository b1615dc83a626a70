/**
 When a machine memory represents a source store: which cell holds which variable,
 and why giving one variable a value disturbs no other.
 */
module Agreement {
  import opened Results
  import opened Words
  import opened Syntax
  import A = Allocator
  import C = Compiler
  import M = Machine
  import S = Semantics

  /** A set variable's value is in its cell. */
  predicate Holds(v: Option<Word>, ram: M.Ram, addr: int) {
    v.Some? ==> 0 <= addr < M.RAM_WORDS && ram[addr] == v.value
  }

  /** The globals live between the stack area and the frames, at one slot each. */
  ghost predicate GlobalsAgree(g: A.Alloc, globals: S.Scope, ram: M.Ram) {
    && g.scope == A.GLOBAL && g.base == C.GLOBAL_BASE && |g.blocks| == 1 && A.Valid(g)
    && C.GLOBAL_BASE + g.firstFree <= C.FRAME_BASE
    && globals.Keys == g.blocks[0].vars.Keys
    && (forall x :: x in globals ==> Holds(globals[x], ram, C.GLOBAL_BASE + g.blocks[0].vars[x]))
  }

  /** Scope by scope and block by block, local variables live below the frame pointer. */
  ghost predicate LocalsAgree(blocks: seq<A.Block>, scopes: seq<S.Scope>, ram: M.Ram, fp: int) {
    && |scopes| == |blocks|
    && (forall i :: 0 <= i < |scopes| ==> scopes[i].Keys == blocks[i].vars.Keys)
    && (forall i, x {:trigger x in scopes[i]} :: 0 <= i < |scopes| && x in scopes[i] ==>
          Holds(scopes[i][x], ram, fp - blocks[i].vars[x]))
  }

  /** The blocks' slots are distinct and fit in a frame of `fs` cells. */
  ghost predicate FrameFits(blocks: seq<A.Block>, fs: nat) {
    A.BlocksOk(blocks) && (forall slot :: slot in A.Live(blocks) ==> slot < fs)
  }

  // ----- reading -----

  /** Where a name is found among the blocks, its value is found in the store. */
  lemma {:induction false} LocalLookup(blocks: seq<A.Block>, st: S.Store, ram: M.Ram, fp: int, x: string)
    requires LocalsAgree(blocks, st.scopes, ram, fp)
    ensures match A.SlotOf(blocks, x)
            case None => S.Lookup(st, x) == S.Lookup(st.(scopes := []), x)
            case Some(slot) => Holds(S.Lookup(st, x), ram, fp - slot) && slot in A.Live(blocks)
    decreases |blocks|
  {
    if blocks != [] {
      var n := |blocks| - 1;
      if x in blocks[n].vars {
        assert x in st.scopes[n];
      } else {
        LocalLookup(blocks[..n], st.(scopes := st.scopes[..n]), ram, fp, x);
      }
    }
  }

  // ----- writing -----

  /** The effect of an assignment on the scopes, and the slot it concerns. */
  lemma {:induction false} LocalUpdate(blocks: seq<A.Block>, st: S.Store, ram: M.Ram, fp: int, x: string, v: Word)
    returns (i: nat)
    requires LocalsAgree(blocks, st.scopes, ram, fp)
    ensures match A.SlotOf(blocks, x)
            case None =>
              S.Update(st, x, v) ==
              (match S.Update(st.(scopes := []), x, v)
               case None => None
               case Some(st') => Some(st'.(scopes := st.scopes)))
            case Some(slot) =>
              && i < |blocks| && x in blocks[i].vars && blocks[i].vars[x] == slot && x in st.scopes[i]
              && S.Update(st, x, v) == Some(st.(scopes := st.scopes[i := st.scopes[i][x := Some(v)]]))
    decreases |blocks|
  {
    i := 0;
    if blocks == [] {
      assert st.(scopes := []) == st;
    } else {
      var n := |blocks| - 1;
      if x in blocks[n].vars {
        i := n;
      } else {
        var inner := st.(scopes := st.scopes[..n]);
        assert inner.(scopes := []) == st.(scopes := []);
        i := LocalUpdate(blocks[..n], inner, ram, fp, x, v);
        assert st.scopes[..n] + [st.scopes[n]] == st.scopes;
        if A.SlotOf(blocks, x).Some? {
          assert st.scopes[..n][i := st.scopes[i][x := Some(v)]] + [st.scopes[n]]
              == st.scopes[i := st.scopes[i][x := Some(v)]];
        }
      }
    }
  }

  /** Storing a local variable's new value keeps the agreement of all locals. */
  lemma LocalStored(blocks: seq<A.Block>, scopes: seq<S.Scope>, ram: M.Ram, fp: int, fs: nat,
                    i: nat, x: string, v: Word)
    requires LocalsAgree(blocks, scopes, ram, fp) && FrameFits(blocks, fs) && fs <= fp < M.RAM_WORDS
    requires i < |blocks| && x in blocks[i].vars && x in scopes[i]
    ensures 0 <= fp - blocks[i].vars[x] < M.RAM_WORDS
    ensures LocalsAgree(blocks, scopes[i := scopes[i][x := Some(v)]], ram[fp - blocks[i].vars[x] := v], fp)
  {
    A.BoundIsLive(blocks, i, x);
    var slot := blocks[i].vars[x];
    var scopes', ram' := scopes[i := scopes[i][x := Some(v)]], ram[fp - slot := v];
    forall j, y {:trigger y in scopes'[j]} | 0 <= j < |scopes'| && y in scopes'[j]
      ensures Holds(scopes'[j][y], ram', fp - blocks[j].vars[y])
    {
      if (j, y) != (i, x) {
        assert y in scopes[j];
        A.SlotsDistinct(blocks, i, x, j, y);
      }
    }
  }

  /** Storing a global variable's new value keeps the agreement of all globals. */
  lemma GlobalStored(g: A.Alloc, globals: S.Scope, ram: M.Ram, x: string, v: Word)
    requires GlobalsAgree(g, globals, ram) && x in globals
    ensures C.GLOBAL_BASE + g.blocks[0].vars[x] < C.FRAME_BASE
    ensures GlobalsAgree(g, globals[x := Some(v)], ram[C.GLOBAL_BASE + g.blocks[0].vars[x] := v])
  {
    A.BoundIsLive(g.blocks, 0, x);
    forall y | y in globals && y != x ensures g.blocks[0].vars[y] != g.blocks[0].vars[x] {
      A.SlotsDistinct(g.blocks, 0, x, 0, y);
    }
  }

  // ----- unrelated memory -----

  lemma LocalsFrame(blocks: seq<A.Block>, scopes: seq<S.Scope>, ram: M.Ram, ram': M.Ram, fp: int, fs: nat)
    requires LocalsAgree(blocks, scopes, ram, fp) && FrameFits(blocks, fs) && fs <= fp < M.RAM_WORDS
    requires forall a :: fp - fs < a <= fp ==> ram'[a] == ram[a]
    ensures LocalsAgree(blocks, scopes, ram', fp)
  {
    forall i, x {:trigger x in scopes[i]} | 0 <= i < |scopes| && x in scopes[i]
      ensures Holds(scopes[i][x], ram', fp - blocks[i].vars[x])
    {
      A.BoundIsLive(blocks, i, x);
    }
  }

  lemma GlobalsFrame(g: A.Alloc, globals: S.Scope, ram: M.Ram, ram': M.Ram)
    requires GlobalsAgree(g, globals, ram)
    requires forall a :: C.GLOBAL_BASE <= a < C.FRAME_BASE ==> ram'[a] == ram[a]
    ensures GlobalsAgree(g, globals, ram')
  {
    forall x | x in globals ensures Holds(globals[x], ram', C.GLOBAL_BASE + g.blocks[0].vars[x]) {
      A.BoundIsLive(g.blocks, 0, x);
    }
  }

  // ----- scopes opening and closing -----

  lemma PushAgrees(blocks: seq<A.Block>, scopes: seq<S.Scope>, ram: M.Ram, fp: int, fs: nat)
    requires LocalsAgree(blocks, scopes, ram, fp) && FrameFits(blocks, fs)
    ensures LocalsAgree(blocks + [A.EMPTY], scopes + [map[]], ram, fp) && FrameFits(blocks + [A.EMPTY], fs)
  {
    hide FrameFits;
    PushFits(blocks, fs);
    assert forall i, x {:trigger x in (scopes + [map[]])[i]} ::
        0 <= i < |scopes| && x in (scopes + [map[]])[i] ==> x in scopes[i];
  }

  lemma PushFits(blocks: seq<A.Block>, fs: nat)
    requires FrameFits(blocks, fs)
    ensures FrameFits(blocks + [A.EMPTY], fs)
  {
    assert (blocks + [A.EMPTY])[..|blocks|] == blocks;
  }

  lemma PopAgrees(blocks: seq<A.Block>, scopes: seq<S.Scope>, ram: M.Ram, fp: int, fs: nat)
    requires LocalsAgree(blocks, scopes, ram, fp) && FrameFits(blocks, fs) && blocks != []
    ensures LocalsAgree(blocks[..|blocks| - 1], scopes[..|scopes| - 1], ram, fp)
    ensures FrameFits(blocks[..|blocks| - 1], fs)
  {
    var n := |blocks| - 1;
    assert A.Live(blocks[..n]) <= A.Live(blocks);
    assert forall i, x {:trigger x in scopes[..n][i]} :: 0 <= i < n && x in scopes[..n][i] ==> x in scopes[i];
  }

  /** A newly declared variable is unset, so nothing is asked of its cell. */
  lemma IntroduceAgrees(a: A.Alloc, st: S.Store, ram: M.Ram, fp: int, x: string)
    requires A.Valid(a) && A.Declare(a, x).Ok? && LocalsAgree(a.blocks, st.scopes, ram, fp)
    ensures LocalsAgree(A.Declare(a, x).value.0.blocks, S.Introduce(st, x).scopes, ram, fp)
    ensures S.Introduce(st, x).globals == st.globals
  {
    var n := |a.blocks| - 1;
    var blocks', scopes' := A.Declare(a, x).value.0.blocks, S.Introduce(st, x).scopes;
    forall i, y {:trigger y in scopes'[i]} | 0 <= i < |scopes'| && y in scopes'[i]
      ensures Holds(scopes'[i][y], ram, fp - blocks'[i].vars[y])
    {
      if (i, y) != (n, x) {
        assert y in st.scopes[i];
      }
    }
  }

  lemma IntroduceGlobalAgrees(g: A.Alloc, st: S.Store, ram: M.Ram, x: string)
    requires GlobalsAgree(g, st.globals, ram) && st.scopes == [] && A.Declare(g, x).Ok?
    requires C.GLOBAL_BASE + A.Declare(g, x).value.0.firstFree <= C.FRAME_BASE
    ensures GlobalsAgree(A.Declare(g, x).value.0, S.Introduce(st, x).globals, ram)
    ensures S.Introduce(st, x).scopes == []
  {
    hide A.Valid, A.Declare;
    A.DeclareValid(g, x);
    A.DeclareShape(g, x);
    var (g', slot) := A.Declare(g, x).value;
    var globals' := S.Introduce(st, x).globals;
    forall y | y in globals' ensures Holds(globals'[y], ram, C.GLOBAL_BASE + g'.blocks[0].vars[y]) {
      if y != x {
        assert y in st.globals;
      }
    }
  }
}
