/** Exactly which lists the list benchmark brings back. */
module Restoring {
  import opened Comparators
  import opened CoreLists
  import opened ListBench
  import opened Mergesort
  import opened Searches
  import opened StableSorting

  /** The indices of `s` increase strictly. */
  ghost predicate StrictlyIncreasing(item: Contents, s: seq<ListHead>) {
    forall i, j :: 0 <= i < j < |s| ==> Lookup(item, s[i]).idx < Lookup(item, s[j]).idx
  }

  /** Sorting `order` by index gives `s`. */
  ghost predicate Restores(item: Contents, order: seq<ListHead>, s: seq<ListHead>) {
    Ordered(IndexKeys(item, order), order, s)
  }

  lemma KeyOfNode(item: Contents, order: seq<ListHead>, x: ListHead)
    requires x in order
    ensures x in IndexKeys(item, order) && IndexKeys(item, order)[x] == Lookup(item, x).idx
  {}

  /** Whatever the order of the nodes, strictly increasing indices bring them back. */
  lemma IncreasingRestores(item: Contents, order: seq<ListHead>, s: seq<ListHead>)
    requires multiset(order) == multiset(s) && StrictlyIncreasing(item, s)
    ensures Restores(item, order, s)
  {
    hide Lookup, IndexKeys;
    SameMembers(order, s);
    forall i, j | 0 <= i < j < |s| ensures Before(IndexKeys(item, order), order, s[i], s[j]) {
      assert s[i] in order && s[j] in order;
      KeyOfNode(item, order, s[i]);
      KeyOfNode(item, order, s[j]);
    }
  }

  lemma HuntPermutes(item: Contents, h: Hunt, sought: Item)
    ensures multiset(HuntOnce(item, h, sought).order) == multiset(h.order)
  {
    var at := FirstFit(Pick(item, h.order), sought);
    var r := Reverse(h.order);
    hide Pick, FirstFit, MovedUp, Reverse, Score;
    if at < |h.order| {
      MovedUpSame(r, |h.order| - 1 - at);
    }
  }

  lemma {:induction false} HuntsPermute(item: Contents, s: seq<ListHead>, finderIdx: S16, n: nat)
    ensures multiset(Hunted(item, s, finderIdx, n).order) == multiset(s)
  {
    hide HuntOnce, IndexAfter;
    if n > 0 {
      HuntsPermute(item, s, finderIdx, n - 1);
      HuntPermutes(item, Hunted(item, s, finderIdx, n - 1), Item(WrapU16(n - 1) % 0x100, IndexAfter(finderIdx, n - 1)));
    }
  }

  /** What the first search makes of the list. */
  lemma FirstHunt(item: Contents, s: seq<ListHead>, finderIdx: S16)
    ensures var at := FirstFit(Pick(item, s), Item(0, finderIdx));
      Hunted(item, s, finderIdx, 1).order == if at < |s| then MovedUp(Reverse(s), |s| - 1 - at) else Reverse(s)
  {
    hide Hunted, FirstFit, Pick, MovedUp, Reverse, Score;
    FirstStep(item, s, finderIdx);
  }

  lemma FirstStep(item: Contents, s: seq<ListHead>, finderIdx: S16)
    ensures Hunted(item, s, finderIdx, 1) == HuntOnce(item, Hunt(s, 0, 0), Item(0, finderIdx))
  {
    hide HuntOnce, IndexAfter;
    IndexGrows(finderIdx, 0);
    assert Hunted(item, s, finderIdx, 0) == Hunt(s, 0, 0);
  }

  lemma PosBefore(order: seq<ListHead>, a: nat, b: nat)
    requires Distinct(order) && a < b < |order|
    ensures order[a] in order && order[b] in order && Pos(order, order[a]) < Pos(order, order[b])
  {
    PosAt(order, a);
    PosAt(order, b);
  }

  lemma ReversePlace(s: seq<ListHead>, i: nat)
    requires i < |s|
    ensures Reverse(s)[|s| - 1 - i] == s[i]
  {}

  /** Where the element at place `k` is after the one at `m + 1` has moved up behind the head. */
  function Moved(k: nat, m: nat): nat {
    if k == m + 1 then 1 else if 0 < k <= m then k + 1 else k
  }

  lemma MovedPlace(r: seq<ListHead>, m: nat, k: nat)
    requires m + 1 < |r| && k < |r|
    ensures Moved(k, m) < |r| && MovedUp(r, m)[Moved(k, m)] == r[k]
  {
    if m == 0 {
      MovedUpSame(r, m);
    } else {
      MovedUpAt(r, m);
    }
  }

  /** In a reversed list a later node stands before an earlier one, unless that is moved up. */
  lemma StillReversed(s: seq<ListHead>, m: nat, i: nat, j: nat)
    requires Distinct(s) && i < j < |s| && m < |s| && |s| != m + i + 2
    ensures var order := MovedUp(Reverse(s), m);
      s[i] in order && s[j] in order && Pos(order, s[j]) < Pos(order, s[i])
  {
    hide Distinct, Reverse, Pos, MovedUp;
    var n, r := |s|, Reverse(s);
    ReverseDistinct(s);
    ReversePlace(s, i);
    ReversePlace(s, j);
    if m + 1 < n {
      MovedPlace(r, m, n - 1 - i);
      MovedPlace(r, m, n - 1 - j);
      MovedUpDistinct(r, m);
      PosBefore(MovedUp(r, m), Moved(n - 1 - j, m), Moved(n - 1 - i, m));
    } else {
      NotMoved(r, m);
      PosBefore(r, n - 1 - j, n - 1 - i);
    }
  }

  lemma NotMoved(r: seq<ListHead>, m: nat)
    requires m < |r| && (m == 0 || m + 1 == |r|)
    ensures MovedUp(r, m) == r
  {}

  /** Two nodes with the same index come out of a first search exchanged, if it does not move the earlier one up. */
  lemma Exchanged(item: Contents, s: seq<ListHead>, finderIdx: S16, i: nat, j: nat)
    requires Distinct(s) && i < j < |s| && Lookup(item, s[i]).idx == Lookup(item, s[j]).idx
    requires FirstFit(Pick(item, s), Item(0, finderIdx)) != i + 1
    ensures !Restores(item, Hunted(item, s, finderIdx, 1).order, s)
  {
    hide FirstFit, Pick, Lookup, IndexKeys, Hunted, MovedUp, Reverse, Pos, Distinct;
    var order := Hunted(item, s, finderIdx, 1).order;
    var at := FirstFit(Pick(item, s), Item(0, finderIdx));
    FirstHunt(item, s, finderIdx);
    var m := if at < |s| then |s| - 1 - at else |s| - 1;
    NotMoved(Reverse(s), |s| - 1);
    StillReversed(s, m, i, j);
    KeyOfNode(item, order, s[i]);
    KeyOfNode(item, order, s[j]);
    assert !Before(IndexKeys(item, order), order, s[i], s[j]);
  }

  /** A search that misses is undone exactly if the indices increase strictly. */
  lemma MissRestoresIff(item: Contents, s: seq<ListHead>, finderIdx: S16)
    requires Distinct(s) && FirstFit(Pick(item, s), Item(0, finderIdx)) == |s|
    ensures Restores(item, Hunted(item, s, finderIdx, 1).order, s) <==> StrictlyIncreasing(item, s)
  {
    hide FirstFit, Pick, Hunted, Reverse, Before, Distinct, Lookup;
    FirstHunt(item, s, finderIdx);
    SameMembers(s, Reverse(s));
    ReversalUndoneIffIncreasing(IndexKeys(item, Reverse(s)), s);
  }

  lemma NotRestoring(item: Contents, s: seq<ListHead>, finderIdx: S16, i: nat, j: nat)
    requires Distinct(s) && i < j < |s| && Lookup(item, s[i]).idx >= Lookup(item, s[j]).idx
    requires FirstFit(Pick(item, s), Item(0, finderIdx)) != i + 1
    ensures !Restores(item, Hunted(item, s, finderIdx, 1).order, s)
  {
    hide FirstFit, Pick, Lookup, IndexKeys, Hunted;
    if Lookup(item, s[i]).idx == Lookup(item, s[j]).idx {
      Exchanged(item, s, finderIdx, i, j);
    } else {
      NotDescending(item, Hunted(item, s, finderIdx, 1).order, s, i, j);
    }
  }

  lemma NotDescending(item: Contents, order: seq<ListHead>, s: seq<ListHead>, i: nat, j: nat)
    requires i < j < |s| && Lookup(item, s[i]).idx > Lookup(item, s[j]).idx
    ensures !Restores(item, order, s)
  {
    hide Lookup, Pos;
    if Before(IndexKeys(item, order), order, s[i], s[j]) {
      KeyOfNode(item, order, s[i]);
      KeyOfNode(item, order, s[j]);
    }
  }

  /** So is, on every list, a single search for index 0, whether it finds a node or not. */
  lemma OneSearchRestoresIff(item: Contents, s: seq<ListHead>)
    requires Distinct(s)
    ensures Restores(item, Hunted(item, s, 0, 1).order, s) <==> StrictlyIncreasing(item, s)
  {
    hide FirstFit, Pick, Lookup, IndexKeys, Hunted, Distinct, Restores;
    var order := Hunted(item, s, 0, 1).order;
    HuntsPermute(item, s, 0, 1);
    if StrictlyIncreasing(item, s) {
      IncreasingRestores(item, order, s);
    } else {
      var i, j :| 0 <= i < j < |s| && Lookup(item, s[i]).idx >= Lookup(item, s[j]).idx;
      if FirstFit(Pick(item, s), Item(0, 0)) != i + 1 {
        NotRestoring(item, s, 0, i, j);
      } else {
        FirstOfIndexZero(item, s, i);
        if Lookup(item, s[i]).idx > 0 {
          NotDescending(item, order, s, i, i + 1);
        } else {
          NotDescending(item, order, s, i + 1, j);
        }
      }
    }
  }

  /** The node before the first one with index 0 has another index. */
  lemma FirstOfIndexZero(item: Contents, s: seq<ListHead>, i: nat)
    requires i + 1 < |s| && FirstFit(Pick(item, s), Item(0, 0)) == i + 1
    ensures Lookup(item, s[i]).idx != 0 && Lookup(item, s[i + 1]).idx == 0
  {
    hide FirstFit, Lookup;
    var items := Pick(item, s);
    assert Fits(items[i + 1], Item(0, 0)) && !Fits(items[i], Item(0, 0));
  }

  /**
   Every number of searches, from every index that is not positive, is undone if and only if the
   indices increase strictly.
   */
  lemma AlwaysRestoredIff(item: Contents, s: seq<ListHead>)
    requires Distinct(s)
    ensures (forall n: nat, finderIdx: S16 | finderIdx <= 0 :: Restores(item, Hunted(item, s, finderIdx, n).order, s))
       <==> StrictlyIncreasing(item, s)
  {
    hide Restores, StrictlyIncreasing;
    OneSearchRestoresIff(item, s);
    if StrictlyIncreasing(item, s) {
      forall n: nat, finderIdx: S16 | finderIdx <= 0 ensures Restores(item, Hunted(item, s, finderIdx, n).order, s) {
        HuntsPermute(item, s, finderIdx, n);
        IncreasingRestores(item, Hunted(item, s, finderIdx, n).order, s);
      }
    }
  }

  /** The benchmark with a single search for index 0 restores a list if and only if its indices increase strictly. */
  method BenchOnce(res: Results, ghost s: seq<ListHead>) returns (retval: U16)
    requires IsList(res.list, s) && 3 <= |s| < 0x8000_0000 && res.seed3 == 1
    modifies s, Data(s)`data16, res
    ensures IsList(res.list, s) <==> old(StrictlyIncreasing(ContentsOf(s), s))
  {
    hide Distinct, Linked, At, StrictlyIncreasing, Ordered, Hunted;
    ghost var item0 := ContentsOf(s);
    ghost var t, sorted, item;
    retval, t, sorted, item := BenchList(res, 0, s);
    OneSearchRestoresIff(item0, s);
  }

  method ThreeNodes() returns (res: Results, ghost s: seq<ListHead>)
    ensures |s| == 3 && IsList(res.list, s) && res.seed3 == 1 && fresh(res) && fresh(s) && fresh(Data(s))
    ensures Item(s[0].info.data16, s[0].info.idx) == Item(0x101, 5)
    ensures Item(s[1].info.data16, s[1].info.idx) == Item(0x202, 5)
    ensures Item(s[2].info.data16, s[2].info.idx) == Item(0x303, 6)
  {
    var data3 := new ListData(0x303, 6);
    var data2 := new ListData(0x202, 5);
    var data1 := new ListData(0x101, 5);
    var third := new ListHead(null, data3);
    var second := new ListHead(third, data2);
    var first := new ListHead(second, data1);
    res := new Results(1, first);
    s := [first, second, third];
  }

  /**
   One search, which misses, from index -1: the first two of three nodes, which have the same
   index, come back exchanged.
   */
  method BenchThree(res: Results, ghost s: seq<ListHead>)
    requires |s| == 3 && IsList(res.list, s) && res.seed3 == 1
    requires Item(s[0].info.data16, s[0].info.idx) == Item(0x101, 5)
    requires Item(s[1].info.data16, s[1].info.idx) == Item(0x202, 5)
    requires Item(s[2].info.data16, s[2].info.idx) == Item(0x303, 6)
    modifies s, Data(s)`data16, res
    ensures Linked([s[1], s[0], s[2]], 0, 3)
    ensures s[0].info.idx == s[1].info.idx == 5 && s[2].info.idx == 6
  {
    hide IndexKeys, Hunted, IsStableSort, ContentsOf, Data, SortedByResult, FirstChecksum, Gains, WrapU16, LastKey,
         Pick, Repeated,
         Ordered, IsList;
    IsDistinct(res.list, s);
    ghost var item0 := ContentsOf(s);
    Known(s);
    ghost var t, sorted, item;
    var retval;
    retval, t, sorted, item := BenchList(res, -1, s);
    NotSorted(item0, Hunted(item0, s, -1, 1).order, item, sorted);
    ExchangedOrder(item0, s);
    SameSort(IndexKeys(item, sorted), sorted, t, [s[1], s[0], s[2]]);
  }

  lemma IsDistinct(list: ListHead?, s: seq<ListHead>)
    requires IsList(list, s)
    ensures Distinct(s)
  {}

  /** A list that comes back changed: of two nodes with index 5 the benchmark leaves one out of its own list. */
  method NotRestored() returns (res: Results, ghost s: seq<ListHead>)
    ensures |s| == 3 && Distinct(s) && res.list == s[0]
    ensures s[0].info.idx == s[1].info.idx == 5 && s[2].info.idx == 6
    ensures IsList(s[1], [s[1], s[0], s[2]]) && IsList(res.list, [s[0], s[2]])
  {
    hide Data;
    res, s := ThreeNodes();
    BenchThree(res, s);
    ghost var t := [s[1], s[0], s[2]];
    assert t[0].next == At(t, 1) && t[1].next == At(t, 2) && t[2].next == At(t, 3);
  }

  lemma NotSorted(item0: Contents, order: seq<ListHead>, item: Contents, sorted: seq<ListHead>)
    requires SortedByResult(-1, item0, order, item, sorted)
    ensures sorted == order && item == item0
  {}

  lemma SameSort(key: map<ListHead, int>, s: seq<ListHead>, t: seq<ListHead>, u: seq<ListHead>)
    requires IsStableSort(key, s, t) && IsStableSort(key, s, u)
    ensures t == u
  {
    StableSortUnique(key, s, t, u);
  }

  lemma ExchangedOrder(item: Contents, s: seq<ListHead>)
    requires |s| == 3 && Distinct(s)
    requires Lookup(item, s[0]) == Item(0x101, 5) && Lookup(item, s[1]) == Item(0x202, 5)
        && Lookup(item, s[2]) == Item(0x303, 6)
    ensures var order := Hunted(item, s, -1, 1).order;
      IsStableSort(IndexKeys(item, order), order, [s[1], s[0], s[2]])
  {
    hide Hunted, FirstFit, Before, MovedUp;
    var order := Hunted(item, s, -1, 1).order;
    var items := Pick(item, s);
    assert items == [Item(0x101, 5), Item(0x202, 5), Item(0x303, 6)];
    FirstFitUnique(items, Item(0, -1), 3);
    FirstHunt(item, s, -1);
    assert order == [s[2], s[1], s[0]];
    SortedThree(item, s[0], s[1], s[2]);
  }

  lemma SortedThree(item: Contents, first: ListHead, second: ListHead, third: ListHead)
    requires first != second && first != third && second != third
    requires Lookup(item, first).idx == Lookup(item, second).idx < Lookup(item, third).idx
    ensures var order := [third, second, first];
      IsStableSort(IndexKeys(item, order), order, [second, first, third])
  {
    hide Lookup, Pos;
    var order, t := [third, second, first], [second, first, third];
    KeyOfNode(item, order, first);
    KeyOfNode(item, order, second);
    KeyOfNode(item, order, third);
    PosBefore(order, 1, 2);
    assert multiset(t) == multiset(order);
    forall i, j | 0 <= i < j < |t| ensures Before(IndexKeys(item, order), order, t[i], t[j]) {}
  }
}
