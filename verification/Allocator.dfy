/**
 The variable allocator: a stack of blocks, each binding names to slots, and a free
 list through which the slots of closed blocks are used again.
 */
module Allocator {
  import opened Results

  datatype Scope = GLOBAL | STACK

  /** One block: the slot of each name, and the names in the order they were inserted. */
  datatype Block = Block(vars: map<string, nat>, names: seq<string>)

  const EMPTY := Block(map[], [])

  /**
   The order in which iterating over a hash table meets its keys. It may depend on
   the order of insertion in any way; all that is known is that it is a permutation.
   */
  type HashOrder = seq<string> -> seq<string>

  ghost predicate IsHashOrder(order: HashOrder) {
    forall names {:trigger order(names)} :: multiset(order(names)) == multiset(names)
  }

  /** The fields of an allocator. */
  datatype Alloc = Alloc(scope: Scope, base: nat, firstFree: nat, free: seq<nat>, blocks: seq<Block>)

  function New(base: nat, scope: Scope): Alloc {
    Alloc(scope, base, 0, [], [EMPTY])
  }

  function StartBlock(a: Alloc): Alloc {
    a.(blocks := a.blocks + [EMPTY])
  }

  /** The slots of the given names, in order. */
  function Slots(vars: map<string, nat>, names: seq<string>): seq<nat> {
    if names == [] then []
    else if names[0] in vars then [vars[names[0]]] + Slots(vars, names[1..])
    else Slots(vars, names[1..])
  }

  function EndBlock(a: Alloc, order: HashOrder): Result<Alloc> {
    if |a.blocks| <= 1 then Err(NoBlock)
    else
      var last := a.blocks[|a.blocks| - 1];
      Ok(a.(free := a.free + Slots(last.vars, order(last.names)), blocks := a.blocks[..|a.blocks| - 1]))
  }

  /** Take the most recently freed slot, or a new one if none is free. */
  function AllocAddr(a: Alloc): (Alloc, nat) {
    if a.free != [] then (a.(free := a.free[..|a.free| - 1]), a.free[|a.free| - 1])
    else (a.(firstFree := a.firstFree + 1), a.firstFree)
  }

  /** Bind a name in the innermost block; the result carries the slot, without the base offset. */
  function Declare(a: Alloc, name: string): Result<(Alloc, nat)>
    requires a.blocks != []
  {
    var last := a.blocks[|a.blocks| - 1];
    if name in last.vars then Err(VariableDeclared(name))
    else
      var (a', slot) := AllocAddr(a);
      var last' := Block(last.vars[name := slot], last.names + [name]);
      Ok((a'.(blocks := a.blocks[..|a.blocks| - 1] + [last']), slot))
  }

  /** The slot of a name: innermost block first. */
  function SlotOf(blocks: seq<Block>, name: string): Option<nat> {
    if blocks == [] then None
    else
      var last := blocks[|blocks| - 1];
      if name in last.vars then Some(last.vars[name]) else SlotOf(blocks[..|blocks| - 1], name)
  }

  function GetAddr(a: Alloc, name: string): Option<nat> {
    match SlotOf(a.blocks, name)
    case None => None
    case Some(slot) => Some(a.base + slot)
  }

  // ----- the invariant -----

  ghost predicate NoDup<T>(s: seq<T>) {
    forall i, j :: 0 <= i < j < |s| ==> s[i] != s[j]
  }

  ghost predicate BlockOk(b: Block) {
    && NoDup(b.names)
    && (forall x :: x in b.names <==> x in b.vars)
    && (forall x, y :: x in b.vars && y in b.vars && x != y ==> b.vars[x] != b.vars[y])
  }

  /** The slots bound in some block. */
  ghost function Live(blocks: seq<Block>): set<nat> {
    if blocks == [] then {}
    else Live(blocks[..|blocks| - 1]) + blocks[|blocks| - 1].vars.Values
  }

  ghost function LiveCount(blocks: seq<Block>): nat {
    if blocks == [] then 0
    else LiveCount(blocks[..|blocks| - 1]) + |blocks[|blocks| - 1].vars|
  }

  /** Every block is well formed and shares no slot with the blocks around it. */
  ghost predicate BlocksOk(blocks: seq<Block>) {
    blocks != [] ==>
      var last := blocks[|blocks| - 1];
      && BlockOk(last)
      && last.vars.Values !! Live(blocks[..|blocks| - 1])
      && BlocksOk(blocks[..|blocks| - 1])
  }

  /** The numbers below `n`. */
  ghost function Range(n: nat): (r: set<nat>)
    ensures forall i: nat :: i in r <==> i < n
  {
    if n == 0 then {} else Range(n - 1) + {n - 1}
  }

  ghost function Elements(s: seq<nat>): set<nat> {
    set x | x in s
  }

  /**
   Conservation: the slots handed out so far are exactly the live ones and the free
   ones; no slot is bound twice, free twice, or both bound and free.
   */
  ghost predicate Valid(a: Alloc) {
    && a.blocks != []
    && BlocksOk(a.blocks)
    && NoDup(a.free)
    && Elements(a.free) !! Live(a.blocks)
    && Elements(a.free) + Live(a.blocks) == Range(a.firstFree)
  }

  lemma NewValid(base: nat, scope: Scope)
    ensures Valid(New(base, scope))
  {
    assert [EMPTY][..0] == [];
  }

  lemma StartBlockValid(a: Alloc)
    requires Valid(a)
    ensures Valid(StartBlock(a))
    ensures Live(StartBlock(a).blocks) == Live(a.blocks)
  {
    assert StartBlock(a).blocks[..|a.blocks|] == a.blocks;
  }

  lemma AllocAddrValid(a: Alloc)
    requires Valid(a)
    ensures var (a', slot) := AllocAddr(a);
            && NoDup(a'.free)
            && slot !in Live(a.blocks) && slot !in Elements(a'.free)
            && Elements(a'.free) !! Live(a.blocks)
            && Elements(a'.free) + Live(a.blocks) + {slot} == Range(a'.firstFree)
            && slot < a'.firstFree && a.firstFree <= a'.firstFree
  {
    if a.free != [] {
      var (a', slot) := AllocAddr(a);
      assert a.free == a'.free + [slot];
      assert slot in Elements(a.free);
      assert Elements(a.free) == Elements(a'.free) + {slot};
    } else {
      assert Elements(a.free) == {};
      assert a.firstFree !in Range(a.firstFree);
    }
  }

  lemma NewValue(vars: map<string, nat>, name: string, slot: nat)
    requires name !in vars
    ensures vars[name := slot].Values == vars.Values + {slot}
  {
    var vars' := vars[name := slot];
    forall v | v in vars.Values + {slot} ensures v in vars'.Values {
      if v == slot {
        assert vars'[name] == v;
      } else {
        var x :| x in vars && vars[x] == v;
        assert vars'[x] == v;
      }
    }
  }

  lemma BlockOkDeclare(b: Block, name: string, slot: nat)
    requires BlockOk(b) && name !in b.vars && slot !in b.vars.Values
    ensures BlockOk(Block(b.vars[name := slot], b.names + [name]))
  {
    forall x | x in b.vars ensures b.vars[x] != slot {
      assert b.vars[x] in b.vars.Values;
    }
  }

  /** Only the innermost block changes. */
  lemma DeclareShape(a: Alloc, name: string)
    requires a.blocks != [] && Declare(a, name).Ok?
    ensures var (a', slot) := Declare(a, name).value;
            var n := |a.blocks| - 1;
            && a'.scope == a.scope && a'.base == a.base && a.firstFree <= a'.firstFree
            && |a'.blocks| == |a.blocks| && a'.blocks[..n] == a.blocks[..n]
            && a'.blocks[n] == Block(a.blocks[n].vars[name := slot], a.blocks[n].names + [name])
  {}

  lemma DeclareValid(a: Alloc, name: string)
    requires Valid(a) && Declare(a, name).Ok?
    ensures var (a', slot) := Declare(a, name).value;
            && Valid(a')
            && slot !in Live(a.blocks) && slot < a'.firstFree && a.firstFree <= a'.firstFree
            && Live(a'.blocks) == Live(a.blocks) + {slot}
  {
    hide NoDup, BlockOk, BlocksOk, Range, Elements, Declare, AllocAddr, Live;
    var n := |a.blocks| - 1;
    var (a', slot) := Declare(a, name).value;
    DeclareShape(a, name);
    DeclareFree(a, name);
    AllocAddrValid(a);
    BoundBlocks(a.blocks, a'.blocks, name, slot);
  }

  /** What a declaration does to the free slots is what allocating an address does. */
  lemma DeclareFree(a: Alloc, name: string)
    requires a.blocks != [] && Declare(a, name).Ok?
    ensures var (a', slot) := Declare(a, name).value;
            var (b, slot') := AllocAddr(a);
            slot == slot' && a'.free == b.free && a'.firstFree == b.firstFree && name !in a.blocks[|a.blocks| - 1].vars
  {}

  /** A new binding in the innermost block, to a slot that was not live. */
  lemma BoundBlocks(blocks: seq<Block>, blocks': seq<Block>, name: string, slot: nat)
    requires blocks != [] && BlocksOk(blocks) && slot !in Live(blocks) && name !in blocks[|blocks| - 1].vars
    requires var n := |blocks| - 1;
             && |blocks'| == |blocks| && blocks'[..n] == blocks[..n]
             && blocks'[n] == Block(blocks[n].vars[name := slot], blocks[n].names + [name])
    ensures BlocksOk(blocks') && Live(blocks') == Live(blocks) + {slot}
  {
    hide BlockOk, NoDup;
    var last := blocks[|blocks| - 1];
    NewValue(last.vars, name, slot);
    BlockOkDeclare(last, name, slot);
  }

  lemma {:induction false} SlotsOfNames(vars: map<string, nat>, names: seq<string>)
    requires NoDup(names)
    requires forall x :: x in names ==> x in vars
    requires forall x, y :: x in vars && y in vars && x != y ==> vars[x] != vars[y]
    ensures NoDup(Slots(vars, names))
    ensures forall v :: v in Slots(vars, names) <==> exists x :: x in names && vars[x] == v
  {
    if names != [] {
      var rest := names[1..];
      assert names == [names[0]] + rest;
      SlotsOfNames(vars, rest);
      var s := Slots(vars, names);
      assert s == [vars[names[0]]] + Slots(vars, rest);
      assert vars[names[0]] !in Slots(vars, rest) by {
        assert forall x :: x in rest ==> x != names[0];
      }
      forall v | v in s ensures exists x :: x in names && vars[x] == v {
        if v == vars[names[0]] {
          assert names[0] in names;
        } else {
          var x :| x in rest && vars[x] == v;
          assert x in names;
        }
      }
    }
  }

  lemma PermutationFacts(s: seq<string>, t: seq<string>)
    requires multiset(s) == multiset(t) && NoDup(s)
    ensures NoDup(t)
    ensures forall x :: x in t <==> x in s
  {
    forall x ensures x in t <==> x in s {
      assert x in t <==> x in multiset(t);
      assert x in s <==> x in multiset(s);
    }
    if i, j :| 0 <= i < j < |t| && t[i] == t[j] {
      var x := t[i];
      assert t == t[..j] + t[j..];
      assert multiset(t) == multiset(t[..j]) + multiset(t[j..]);
      assert t[..j][i] == x && t[j..][0] == x;
      assert x in t[..j] && x in t[j..];
      assert multiset(t)[x] >= 2;
      NoDupCount(s, x);
      assert false;
    }
  }

  lemma {:induction false} NoDupCount(s: seq<string>, x: string)
    requires NoDup(s)
    ensures multiset(s)[x] <= 1
  {
    if s != [] {
      assert s == [s[0]] + s[1..];
      NoDupCount(s[1..], x);
      if s[0] == x {
        assert x !in s[1..];
        assert x !in multiset(s[1..]);
      }
    }
  }

  lemma NoDupConcat(s: seq<nat>, t: seq<nat>)
    requires NoDup(s) && NoDup(t) && Elements(s) !! Elements(t)
    ensures NoDup(s + t)
  {
    forall i, j | 0 <= i < j < |s + t| ensures (s + t)[i] != (s + t)[j] {
      if i < |s| <= j {
        assert s[i] in Elements(s) && t[j - |s|] in Elements(t);
      }
    }
  }

  lemma EndBlockValid(a: Alloc, order: HashOrder)
    requires Valid(a) && |a.blocks| > 1 && IsHashOrder(order)
    ensures Valid(EndBlock(a, order).value)
  {
    var n := |a.blocks| - 1;
    var last := a.blocks[n];
    var names := order(last.names);
    PermutationFacts(last.names, names);
    SlotsOfNames(last.vars, names);
    var slots := Slots(last.vars, names);
    assert Elements(slots) == last.vars.Values by {
      forall v | v in last.vars.Values ensures v in slots {
        var x :| x in last.vars && last.vars[x] == v;
        assert x in names;
      }
    }
    var a' := EndBlock(a, order).value;
    NoDupConcat(a.free, slots);
    assert Elements(a'.free) == Elements(a.free) + Elements(slots);
    assert BlocksOk(a'.blocks);
  }

  // ----- what the invariant gives a client -----

  /** Each bound slot is live, hence below the high-water mark. */
  lemma {:induction false} BoundIsLive(blocks: seq<Block>, i: nat, x: string)
    requires i < |blocks| && x in blocks[i].vars
    ensures blocks[i].vars[x] in Live(blocks)
  {
    if i < |blocks| - 1 {
      BoundIsLive(blocks[..|blocks| - 1], i, x);
    }
  }

  /** No two bindings, in the same block or in different ones, share a slot. */
  lemma {:induction false} SlotsDistinct(blocks: seq<Block>, i: nat, x: string, j: nat, y: string)
    requires BlocksOk(blocks)
    requires i < |blocks| && x in blocks[i].vars && j < |blocks| && y in blocks[j].vars
    requires (i, x) != (j, y)
    ensures blocks[i].vars[x] != blocks[j].vars[y]
  {
    var n := |blocks| - 1;
    if i < n && j < n {
      SlotsDistinct(blocks[..n], i, x, j, y);
    } else if i < n {
      BoundIsLive(blocks[..n], i, x);
    } else if j < n {
      BoundIsLive(blocks[..n], j, y);
    }
  }
}
