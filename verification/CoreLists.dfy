/** The benchmark's linked list in memory, and the operations that rewrite its pointers in place. */
module CoreLists {
  import opened StableSorting

  /** A 16-bit datum by its bit pattern. */
  type U16 = x: int | 0 <= x < 0x1_0000
  type S16 = x: int | -0x8000 <= x < 0x8000
  type S32 = x: int | -0x8000_0000 <= x < 0x8000_0000

  function WrapU16(x: int): U16 {
    x % 0x1_0000
  }

  /** Two's complement wrap-around to 16 bits. */
  function WrapS16(x: int): (r: S16)
    ensures -0x8000 <= x < 0x8000 ==> r == x
  {
    (x + 0x8000) % 0x1_0000 - 0x8000
  }

  /** Wrapping gives the one congruent number of the range. */
  lemma WrapsIff(x: int, u: U16, v: S16)
    ensures u == WrapU16(x) <==> (u - x) % 0x1_0000 == 0
    ensures v == WrapS16(x) <==> (v - x) % 0x1_0000 == 0
  {}

  class ListData {
    var data16: U16 // the upper byte backs up the original, bit 7 says that the low 7 bits are a result
    var idx: S16

    constructor (data16: U16, idx: S16)
      ensures this.data16 == data16 && this.idx == idx
    {
      this.data16 := data16;
      this.idx := idx;
    }
  }

  class ListHead {
    var next: ListHead?
    var info: ListData

    constructor (next: ListHead?, info: ListData)
      ensures this.next == next && this.info == info
    {
      this.next := next;
      this.info := info;
    }
  }

  // ----- what the pointers represent -----

  /** The node at place `i` of `s`, null past the end. */
  function At(s: seq<ListHead>, i: nat): ListHead? {
    if i < |s| then s[i] else null
  }

  /** The nodes of `l` at places `lo` to `hi` lead to their successors in `l`. */
  ghost predicate Linked(l: seq<ListHead>, lo: nat, hi: nat)
    requires hi <= |l|
    reads l`next
  {
    forall i {:trigger l[i].next} :: lo <= i < hi ==> l[i].next == At(l, i + 1)
  }

  /** `list` heads a list whose nodes are exactly `s`, in that order. */
  ghost predicate IsList(list: ListHead?, s: seq<ListHead>)
    reads s`next
  {
    Distinct(s) && list == At(s, 0) && Linked(s, 0, |s|)
  }

  // ----- find -----

  /** By index, or by the low byte of the datum when the index sought is negative. */
  predicate Matches(d: ListData, info: ListData)
    reads d, info
  {
    if info.idx >= 0 then d.idx == info.idx else d.data16 % 0x100 == info.data16
  }

  /** The first node that matches, or null. */
  method ListFind(list: ListHead?, info: ListData, ghost s: seq<ListHead>) returns (found: ListHead?, ghost at: nat)
    requires IsList(list, s)
    ensures at <= |s| && found == At(s, at)
    ensures at < |s| ==> Matches(s[at].info, info)
    ensures forall i :: 0 <= i < at ==> !Matches(s[i].info, info)
  {
    at := 0;
    found := list;
    if info.idx >= 0 {
      while found != null && found.info.idx != info.idx
        invariant at <= |s| && found == At(s, at)
        invariant forall i :: 0 <= i < at ==> !Matches(s[i].info, info)
        decreases |s| - at
      {
        found := found.next;
        at := at + 1;
      }
    } else {
      while found != null && found.info.data16 % 0x100 != info.data16
        invariant at <= |s| && found == At(s, at)
        invariant forall i :: 0 <= i < at ==> !Matches(s[i].info, info)
        decreases |s| - at
      {
        found := found.next;
        at := at + 1;
      }
    }
  }

  // ----- reverse -----

  function Prior(s: seq<ListHead>, i: nat): ListHead?
    requires i <= |s|
  {
    if i == 0 then null else s[i - 1]
  }

  lemma ReverseAt(s: seq<ListHead>, i: nat)
    requires i < |s|
    ensures Reverse(s)[i] == s[|s| - 1 - i] && At(Reverse(s), i + 1) == Prior(s, |s| - 1 - i)
  {}

  /** The first `hi` nodes lead to their predecessors. */
  ghost predicate BackLinked(s: seq<ListHead>, hi: nat)
    requires hi <= |s|
    reads s`next
  {
    forall i {:trigger s[i].next} :: 0 <= i < hi ==> s[i].next == Prior(s, i)
  }

  lemma ReversedList(s: seq<ListHead>)
    requires Distinct(s) && BackLinked(s, |s|)
    ensures IsList(Prior(s, |s|), Reverse(s))
  {
    hide Reverse, Distinct;
    ReverseDistinct(s);
    ghost var r := Reverse(s);
    forall i | 0 <= i < |r| ensures r[i].next == At(r, i + 1) {
      ReverseAt(s, i);
      assert s[|s| - 1 - i].next == Prior(s, |s| - 1 - i);
    }
  }

  method ListReverse(list: ListHead?, ghost s: seq<ListHead>) returns (next: ListHead?)
    requires IsList(list, s)
    modifies s`next
    ensures IsList(next, Reverse(s))
  {
    hide Reverse, Distinct;
    var rest := list;
    next := null;
    ghost var done := 0;
    while rest != null
      invariant done <= |s| && rest == At(s, done)
      invariant Linked(s, done, |s|)
      invariant next == Prior(s, done)
      invariant BackLinked(s, done)
      decreases |s| - done
    {
      OthersDiffer(s, done);
      var tmp := rest.next;
      rest.next := next;
      next := rest;
      rest := tmp;
      done := done + 1;
    }
    ReversedList(s);
  }

  // ----- remove and its undo -----

  function Without<T>(s: seq<T>, i: nat): (r: seq<T>)
    requires i < |s|
    ensures |r| == |s| - 1
  {
    s[..i] + s[i + 1..]
  }

  lemma WithoutAt<T>(s: seq<T>, i: nat)
    requires i < |s|
    ensures var w := Without(s, i);
      && (forall k :: 0 <= k < i ==> w[k] == s[k])
      && (forall k :: i <= k < |w| ==> w[k] == s[k + 1])
    ensures Distinct(s) ==> Distinct(Without(s, i))
  {}

  /** Removes the datum of `item` from the list by taking over the next node's and unlinking that node. */
  method ListRemove(item: ListHead, ghost list: ListHead?, ghost s: seq<ListHead>, ghost i: nat) returns (ret: ListHead)
    requires IsList(list, s) && i + 1 < |s| && item == s[i]
    modifies item, item.next
    ensures ret == s[i + 1] && ret.next == null
    ensures IsList(list, Without(s, i + 1))
    ensures item.info == old(ret.info) && ret.info == old(item.info)
  {
    hide Distinct;
    WithoutAt(s, i + 1);
    OthersDiffer(s, i);
    OthersDiffer(s, i + 1);
    ret := item.next;
    var tmp := item.info;
    item.info := ret.info;
    ret.info := tmp;
    item.next := item.next.next;
    ret.next := null;
    ghost var w := Without(s, i + 1);
    hide Without;
    forall k | 0 <= k < |w| ensures w[k].next == At(w, k + 1) {}
  }

  /** Links `removed` back behind `modified`; the two exchange their data again. */
  method ListUndoRemove(removed: ListHead, modified: ListHead, ghost list: ListHead?, ghost s: seq<ListHead>,
                        ghost i: nat)
    returns (ret: ListHead)
    requires Distinct(s) && i + 1 < |s| && modified == s[i] && removed == s[i + 1]
    requires IsList(list, Without(s, i + 1))
    modifies removed, modified
    ensures ret == removed
    ensures IsList(list, s)
    ensures modified.info == old(removed.info) && removed.info == old(modified.info)
  {
    hide Distinct;
    WithoutAt(s, i + 1);
    OthersDiffer(s, i);
    OthersDiffer(s, i + 1);
    ghost var w := Without(s, i + 1);
    assert w[i] == modified;
    hide Without;
    var tmp := removed.info;
    removed.info := modified.info;
    modified.info := tmp;
    removed.next := modified.next;
    modified.next := removed;
    ret := removed;
    forall k | 0 <= k < |s| ensures s[k].next == At(s, k + 1) {
      assert k > i + 1 ==> w[k - 1] == s[k];
    }
  }

  // ----- moving a node to the head -----

  /** `s` with its (i+1)-st node moved to the second place, if there is one. */
  function MovedUp<T>(s: seq<T>, i: nat): (r: seq<T>)
    requires i < |s|
    ensures |r| == |s|
  {
    if i + 1 < |s| then [s[0]] + [s[i + 1]] + s[1..i + 1] + s[i + 2..] else s
  }

  lemma MovedUpAt<T>(s: seq<T>, i: nat)
    requires 0 < i && i + 1 < |s|
    ensures var r := MovedUp(s, i);
      && r[0] == s[0] && r[1] == s[i + 1]
      && (forall k :: 2 <= k <= i + 1 ==> r[k] == s[k - 1])
      && (forall k :: i + 2 <= k < |s| ==> r[k] == s[k])
  {
    var front, moved, rest := [s[0], s[i + 1]], s[1..i + 1], s[i + 2..];
    var r := MovedUp(s, i);
    assert r == front + moved + rest;
    hide MovedUp;
    forall k | 2 <= k <= i + 1 ensures r[k] == s[k - 1] {
      assert r[k] == moved[k - 2];
    }
  }

  lemma MovedUpSame<T>(s: seq<T>, i: nat)
    requires i < |s|
    ensures multiset(MovedUp(s, i)) == multiset(s)
    ensures i == 0 ==> MovedUp(s, i) == s
  {
    if i + 1 < |s| {
      var a, b, x, d := [s[0]], s[1..i + 1], [s[i + 1]], s[i + 2..];
      assert s == a + b + x + d && MovedUp(s, i) == a + x + b + d;
      hide MovedUp;
      SwapParts(a, b, x, d);
    }
  }

  lemma SwapParts<T>(a: seq<T>, b: seq<T>, x: seq<T>, d: seq<T>)
    ensures multiset(a + x + b + d) == multiset(a + b + x + d)
  {
    assert multiset(a + x + b + d) == multiset(a) + multiset(x) + multiset(b) + multiset(d);
    assert multiset(a + b + x + d) == multiset(a) + multiset(b) + multiset(x) + multiset(d);
  }

  lemma MovedUpDistinct<T>(s: seq<T>, i: nat)
    requires i < |s| && Distinct(s)
    ensures Distinct(MovedUp(s, i))
  {
    if 0 < i && i + 1 < |s| {
      MovedUpAt(s, i);
    } else if i == 0 {
      MovedUpSame(s, i);
    }
  }

  method CacheNext(list: ListHead, thisFind: ListHead, ghost s: seq<ListHead>, ghost i: nat)
    requires IsList(list, s) && i < |s| && thisFind == s[i]
    modifies s`next
    ensures IsList(list, MovedUp(s, i))
  {
    hide Distinct;
    MovedUpDistinct(s, i);
    MovedUpSame(s, i);
    if thisFind.next != null {
      OthersDiffer(s, 0);
      OthersDiffer(s, i);
      OthersDiffer(s, i + 1);
      var finder := thisFind.next;
      thisFind.next := finder.next;
      finder.next := list.next;
      list.next := finder;
      if i > 0 {
        MovedUpAt(s, i);
        ghost var r := MovedUp(s, i);
        hide MovedUp;
        forall k | 0 <= k < |r| ensures r[k].next == At(r, k + 1) {}
      }
    }
  }
}
