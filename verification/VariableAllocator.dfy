/** The allocator as the compiler uses it: an object whose methods update its fields. */
module VariableAllocators {
  import opened Results
  import A = Allocator

  class VariableAllocator {
    const mScope: A.Scope
    const mBaseOffset: nat
    const mOrder: A.HashOrder
    var mFirstFree: nat
    var mFree: seq<nat>
    var mBlocks: seq<A.Block>

    function View(): A.Alloc
      reads this
    {
      A.Alloc(mScope, mBaseOffset, mFirstFree, mFree, mBlocks)
    }

    constructor (baseOffset: nat, scope: A.Scope, order: A.HashOrder)
      ensures View() == A.New(baseOffset, scope) && mOrder == order
    {
      mBaseOffset, mScope, mOrder := baseOffset, scope, order;
      mFirstFree, mFree, mBlocks := 0, [], [];
      new;
      StartBlock();
    }

    method StartBlock()
      modifies this
      ensures View() == A.StartBlock(old(View()))
    {
      mBlocks := mBlocks + [A.EMPTY];
    }

    method EndBlock() returns (r: Result<()>)
      modifies this
      ensures match A.EndBlock(old(View()), mOrder)
              case Ok(a) => r == Ok(()) && View() == a
              case Err(e) => r == Err(e)
    {
      if |mBlocks| <= 1 {
        return Err(NoBlock);
      }
      var block := mBlocks[|mBlocks| - 1];
      var names := mOrder(block.names);
      for i := 0 to |names|
        invariant mBlocks == old(mBlocks) && mFirstFree == old(mFirstFree)
        invariant mFree + A.Slots(block.vars, names[i..]) == old(mFree) + A.Slots(block.vars, names)
      {
        if names[i] in block.vars {
          FreeAddr(block.vars[names[i]]);
        }
      }
      mBlocks := mBlocks[..|mBlocks| - 1];
      return Ok(());
    }

    /** The address bound to `name`, base offset included. */
    method Alloc(name: string) returns (r: Result<nat>)
      requires mBlocks != []
      modifies this
      ensures match A.Declare(old(View()), name)
              case Ok((a, slot)) => r == Ok(mBaseOffset + slot) && View() == a
              case Err(e) => r == Err(e)
    {
      var block := mBlocks[|mBlocks| - 1];
      if name in block.vars {
        return Err(VariableDeclared(name));
      }
      var addr := AllocAddr();
      mBlocks := mBlocks[..|mBlocks| - 1] + [A.Block(block.vars[name := addr], block.names + [name])];
      return Ok(mBaseOffset + addr);
    }

    method GetAddr(name: string) returns (r: Option<nat>)
      ensures r == A.GetAddr(View(), name)
    {
      var i := |mBlocks|;
      assert mBlocks[..i] == mBlocks;
      while i > 0
        invariant 0 <= i <= |mBlocks|
        invariant A.SlotOf(mBlocks, name) == A.SlotOf(mBlocks[..i], name)
      {
        var block := mBlocks[i - 1];
        assert mBlocks[..i][..i - 1] == mBlocks[..i - 1];
        if name in block.vars {
          return Some(mBaseOffset + block.vars[name]);
        }
        i := i - 1;
      }
      return None;
    }

    method AllocAddr() returns (addr: nat)
      modifies this
      ensures (View(), addr) == A.AllocAddr(old(View()))
    {
      if mFree != [] {
        addr := mFree[|mFree| - 1];
        mFree := mFree[..|mFree| - 1];
      } else {
        addr := mFirstFree;
        mFirstFree := mFirstFree + 1;
      }
    }

    method FreeAddr(addr: nat)
      modifies this
      ensures View() == old(View()).(free := old(mFree) + [addr])
    {
      mFree := mFree + [addr];
    }
  }
}
