/** Whole histories of allocator operations: how many slots they need, and what scopes they leave. */
module AllocatorRuns {
  import opened Results
  import opened Allocator

  datatype Operation = Open | Close | Bind(name: string)

  function Apply(a: Alloc, op: Operation, order: HashOrder): Result<Alloc>
    requires a.blocks != []
  {
    match op
    case Open => Ok(StartBlock(a))
    case Close => EndBlock(a, order)
    case Bind(name) => var r :- Declare(a, name); Ok(r.0)
  }

  function RunAll(a: Alloc, ops: seq<Operation>, order: HashOrder): (r: Result<Alloc>)
    requires a.blocks != []
    ensures r.Ok? ==> r.value.blocks != []
    decreases |ops|
  {
    if ops == [] then Ok(a)
    else
      var a' :- Apply(a, ops[0], order);
      RunAll(a', ops[1..], order)
  }

  function Max(x: nat, y: nat): nat {
    if x < y then y else x
  }

  /** The largest number of simultaneously bound variables in any state of the run. */
  ghost function Peak(a: Alloc, ops: seq<Operation>, order: HashOrder): nat
    requires a.blocks != [] && RunAll(a, ops, order).Ok?
    decreases |ops|
  {
    Max(LiveCount(a.blocks), if ops == [] then 0 else Peak(Apply(a, ops[0], order).value, ops[1..], order))
  }

  // ----- counting -----

  lemma {:induction false} RangeSize(n: nat)
    ensures |Range(n)| == n
  {
    if n > 0 {
      RangeSize(n - 1);
    }
  }

  lemma {:induction false} ElementsSize(s: seq<nat>)
    requires NoDup(s)
    ensures |Elements(s)| == |s|
  {
    if s != [] {
      var n := |s| - 1;
      assert s == s[..n] + [s[n]];
      ElementsSize(s[..n]);
      assert Elements(s) == Elements(s[..n]) + {s[n]};
      assert s[n] !in Elements(s[..n]);
    }
  }

  lemma {:induction false} ValuesSize(m: map<string, nat>)
    requires forall x, y :: x in m && y in m && x != y ==> m[x] != m[y]
    ensures |m.Values| == |m|
  {
    if m != map[] {
      var x :| x in m;
      var rest := m - {x};
      ValuesSize(rest);
      assert m == rest[x := m[x]];
      NewValue(rest, x, m[x]);
      assert m[x] !in rest.Values;
    }
  }

  lemma {:induction false} LiveSize(blocks: seq<Block>)
    requires BlocksOk(blocks)
    ensures |Live(blocks)| == LiveCount(blocks)
  {
    if blocks != [] {
      LiveSize(blocks[..|blocks| - 1]);
      ValuesSize(blocks[|blocks| - 1].vars);
    }
  }

  /** Conservation, counted: bound slots plus free slots make up all slots ever handed out. */
  lemma SlotsAddUp(a: Alloc)
    requires Valid(a)
    ensures LiveCount(a.blocks) + |a.free| == a.firstFree
  {
    RangeSize(a.firstFree);
    ElementsSize(a.free);
    LiveSize(a.blocks);
  }

  // ----- every operation keeps the invariant -----

  lemma ApplyValid(a: Alloc, op: Operation, order: HashOrder)
    requires Valid(a) && IsHashOrder(order) && Apply(a, op, order).Ok?
    ensures Valid(Apply(a, op, order).value)
  {
    match op
    case Open => StartBlockValid(a);
    case Close => EndBlockValid(a, order);
    case Bind(name) => DeclareValid(a, name);
  }

  lemma {:induction false} RunAllValid(a: Alloc, ops: seq<Operation>, order: HashOrder)
    requires Valid(a) && IsHashOrder(order) && RunAll(a, ops, order).Ok?
    ensures Valid(RunAll(a, ops, order).value)
    decreases |ops|
  {
    if ops != [] {
      ApplyValid(a, ops[0], order);
      RunAllValid(Apply(a, ops[0], order).value, ops[1..], order);
    }
  }

  /** A step raises the high-water mark only when every slot is in use. */
  lemma ApplyPeak(a: Alloc, op: Operation, order: HashOrder)
    requires Valid(a) && IsHashOrder(order) && Apply(a, op, order).Ok?
    ensures var a' := Apply(a, op, order).value;
            Valid(a') && a'.firstFree == Max(a.firstFree, LiveCount(a'.blocks))
  {
    assert a.blocks != [];
    hide Valid, LiveCount, Slots;
    ApplyValid(a, op, order);
    SlotsAddUp(a);
    SlotsAddUp(Apply(a, op, order).value);
  }

  /**
   The frame size is optimal: the high-water mark after any history is the largest
   number of variables that were ever bound at the same time.
   */
  lemma {:induction false} HighWaterMarkIsPeak(a: Alloc, ops: seq<Operation>, order: HashOrder)
    requires Valid(a) && IsHashOrder(order) && RunAll(a, ops, order).Ok?
    ensures RunAll(a, ops, order).value.firstFree == Max(a.firstFree, Peak(a, ops, order))
    decreases |ops|
  {
    SlotsAddUp(a);
    if ops != [] {
      ApplyPeak(a, ops[0], order);
      HighWaterMarkIsPeak(Apply(a, ops[0], order).value, ops[1..], order);
    }
  }

  lemma FreshHighWaterMark(base: nat, scope: Scope, ops: seq<Operation>, order: HashOrder)
    requires IsHashOrder(order) && RunAll(New(base, scope), ops, order).Ok?
    ensures RunAll(New(base, scope), ops, order).value.firstFree == Peak(New(base, scope), ops, order)
  {
    NewValid(base, scope);
    HighWaterMarkIsPeak(New(base, scope), ops, order);
  }

  // ----- scopes -----

  /** The nesting depth never falls below the starting level, and declarations happen inside. */
  predicate Nested(ops: seq<Operation>, depth: nat) {
    if ops == [] then depth == 0
    else
      match ops[0]
      case Open => Nested(ops[1..], depth + 1)
      case Close => depth > 0 && Nested(ops[1..], depth - 1)
      case Bind(_) => depth > 0 && Nested(ops[1..], depth)
  }

  lemma {:induction false} NestedKeepsBlocks(a: Alloc, ops: seq<Operation>, depth: nat, order: HashOrder)
    requires a.blocks != [] && depth < |a.blocks| && Nested(ops, depth)
    requires RunAll(a, ops, order).Ok?
    ensures RunAll(a, ops, order).value.blocks == a.blocks[..|a.blocks| - depth]
    ensures RunAll(a, ops, order).value.base == a.base
    decreases |ops|
  {
    if ops != [] {
      var a' := Apply(a, ops[0], order).value;
      var depth' := match ops[0] case Open => depth + 1 case Close => depth - 1 case Bind(_) => depth;
      NestedKeepsBlocks(a', ops[1..], depth', order);
      assert a'.blocks[..|a'.blocks| - depth'] == a.blocks[..|a.blocks| - depth];
    } else {
      assert a.blocks[..|a.blocks|] == a.blocks;
    }
  }

  /** Across any well-nested history, every name means what it meant before. */
  lemma ScopesRestored(a: Alloc, ops: seq<Operation>, order: HashOrder, name: string)
    requires a.blocks != [] && Nested(ops, 0) && RunAll(a, ops, order).Ok?
    ensures GetAddr(RunAll(a, ops, order).value, name) == GetAddr(a, name)
  {
    NestedKeepsBlocks(a, ops, 0, order);
    assert a.blocks[..|a.blocks|] == a.blocks;
  }

  /** A declaration shadows every outer one of its name, and no other name. */
  lemma DeclareShadows(a: Alloc, name: string, other: string)
    requires a.blocks != [] && Declare(a, name).Ok?
    ensures var (a', slot) := Declare(a, name).value;
            && GetAddr(a', name) == Some(a.base + slot)
            && (other != name ==> GetAddr(a', other) == GetAddr(a, other))
  {
    var (a', _) := Declare(a, name).value;
    assert a'.blocks[..|a'.blocks| - 1] == a.blocks[..|a.blocks| - 1];
  }

  /** The slot of a variable whose block has just been closed is the next to be used again. */
  lemma ReusedFirst(a: Alloc, x: string, y: string, order: HashOrder)
    requires a.blocks != [] && y !in a.blocks[|a.blocks| - 1].vars && IsHashOrder(order)
    ensures var (b, slot) := Declare(StartBlock(a), x).value;
            var c := EndBlock(b, order);
            c.Ok? && Declare(c.value, y).Ok? && Declare(c.value, y).value.1 == slot
  {
    var (b, slot) := Declare(StartBlock(a), x).value;
    OneName(x, order);
    OneSlot(x, slot);
    var a1, n := StartBlock(a), |a.blocks|;
    assert a1.blocks[n] == EMPTY && a1.blocks[..n] == a.blocks;
    DeclareShape(a1, x);
    assert b.blocks[n].vars == map[x := slot] && b.blocks[n].names == [x] && b.blocks[..n] == a.blocks;
    hide Slots;
    assert EndBlock(b, order).value.free == b.free + [slot];
  }

  lemma OneSlot(x: string, slot: nat)
    ensures Slots(map[x := slot], [x]) == [slot]
  {
    assert Slots(map[x := slot], [x][1..]) == [];
  }

  lemma OneName(x: string, order: HashOrder)
    requires IsHashOrder(order)
    ensures order([x]) == [x]
  {
    var names := order([x]);
    assert multiset(names) == multiset([x]);
    assert |names| == |multiset(names)| == 1;
    assert names[0] in multiset(names);
  }
}
