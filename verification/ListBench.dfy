/** The list benchmark: find, reverse, move, sort, remove, undo and sort again. */
module ListBench {
  import opened Comparators
  import opened CoreLists
  import opened Mergesort
  import opened Searches
  import opened StableSorting
  import Crc

  lemma SecondNode(list: ListHead, s: seq<ListHead>)
    requires IsList(list, s)
    ensures list.next == At(s, 1)
  {}

  /** Searches for one datum, reverses the list, and moves what now follows the datum found to the front. */
  method SearchOnce(list0: ListHead, info: ListData, retval0: U16, ghost s: seq<ListHead>)
    returns (list: ListHead, retval: U16, hit: bool, ghost at: nat, ghost t: seq<ListHead>)
    requires IsList(list0, s) && |s| >= 2
    modifies s`next
    ensures at <= |s| && (hit <==> at < |s|) && forall i :: 0 <= i < at ==> !Matches(s[i].info, info)
    ensures hit ==> Matches(s[at].info, info) && t == MovedUp(Reverse(s), |s| - 1 - at)
    ensures !hit ==> t == Reverse(s)
    ensures IsList(list, t) && multiset(t) == multiset(s) && |t| == |s|
    ensures retval == WrapU16(retval0 + Score(hit, if hit then s[at].info.data16 else 0, Reverse(s)[1].info.data16))
  {
    hide Distinct, Reverse, MovedUp, Linked, Matches, BitOf;
    retval := retval0;
    var thisFind;
    thisFind, at := ListFind(list0, info, s);
    var reversed := ListReverse(list0, s);
    t := Reverse(s);
    SameMembers(s, t);
    list := reversed;
    SecondNode(list, t);
    if thisFind == null {
      retval := WrapU16(retval + BitOf(list.next.info.data16, 8));
      hit := false;
    } else {
      hit := true;
      if BitOf(thisFind.info.data16, 0) == 1 {
        retval := WrapU16(retval + BitOf(thisFind.info.data16, 9));
      }
      ghost var i: nat := |s| - 1 - at;
      CacheNext(list, thisFind, t, i);
      MovedUpSame(t, i);
      t := MovedUp(t, i);
    }
  }

  lemma FitsMatches(s: seq<ListHead>, info: ListData, at: nat)
    requires at <= |s| && (at < |s| ==> Matches(s[at].info, info))
    requires forall i :: 0 <= i < at ==> !Matches(s[i].info, info)
    ensures FirstFit(Pick(ContentsOf(s), s), Item(info.data16, info.idx)) == at
  {
    var items, sought := Pick(ContentsOf(s), s), Item(info.data16, info.idx);
    forall i | 0 <= i < |s| ensures Fits(items[i], sought) <==> Matches(s[i].info, info) {
      PickedNow(s, s, i);
    }
    hide Matches, Fits;
    FirstFitUnique(items, sought, at);
  }

  lemma PickedNow(s: seq<ListHead>, order: seq<ListHead>, i: nat)
    requires i < |order| && order[i] in s
    ensures Pick(ContentsOf(s), order)[i] == Item(order[i].info.data16, order[i].info.idx)
  {}

  /** A search on the list is a search on its contents. */
  lemma SearchIsHunt(s: seq<ListHead>, h: Hunt, info: ListData, hit: bool, at: nat, t: seq<ListHead>, retval: U16)
    requires |s| >= 2 && h.order == s
    requires at <= |s| && (hit <==> at < |s|) && forall i :: 0 <= i < at ==> !Matches(s[i].info, info)
    requires hit ==> Matches(s[at].info, info) && t == MovedUp(Reverse(s), |s| - 1 - at)
    requires !hit ==> t == Reverse(s)
    requires retval == WrapU16(h.score + Score(hit, if hit then s[at].info.data16 else 0, Reverse(s)[1].info.data16))
    ensures HuntOnce(ContentsOf(s), h, Item(info.data16, info.idx))
        == Hunt(t, retval, if hit then h.found + 1 else h.found)
  {
    hide MovedUp, Score, WrapU16, FirstFit, Matches, Fits, Reverse, Pick, ContentsOf, Distinct;
    FitsMatches(s, info, at);
    PickedNow(s, Reverse(s), 1);
    if hit {
      PickedNow(s, s, at);
    }
  }

  lemma SameContents(s: seq<ListHead>, t: seq<ListHead>)
    requires multiset(t) == multiset(s)
    ensures ContentsOf(t) == ContentsOf(s)
  {
    SameMembers(s, t);
  }

  /** The i-th search, with the key it looks for, and the key for the next one. */
  method SearchNext(list0: ListHead, info: ListData, i: S16, retval0: U16,
                    ghost s: seq<ListHead>, ghost item: Contents, ghost finderIdx: S16, ghost h: Hunt)
    returns (list: ListHead, retval: U16, hit: bool, ghost t: seq<ListHead>)
    requires IsList(list0, h.order) && |h.order| >= 2 && info !in Data(h.order) && item == ContentsOf(h.order)
    requires i >= 0 && h == Hunted(item, s, finderIdx, i) && retval0 == h.score && info.idx == LastKey(finderIdx, i).idx
    modifies h.order`next, info
    ensures IsList(list, t) && multiset(t) == multiset(h.order) && |t| == |h.order|
    ensures Hunted(item, s, finderIdx, i + 1) == Hunt(t, retval, if hit then h.found + 1 else h.found)
    ensures Item(info.data16, info.idx) == LastKey(finderIdx, i + 1)
  {
    hide Distinct, Linked, Reverse, MovedUp, Matches, Score, WrapU16, WrapS16, At, HuntOnce, IndexAfter, ContentsOf,
         Hunted, LastKey;
    info.data16 := WrapU16(i) % 0x100;
    ghost var at;
    list, retval, hit, at, t := SearchOnce(list0, info, retval0, h.order);
    SearchIsHunt(h.order, h, info, hit, at, t, retval);
    HuntedMore(item, s, finderIdx, i);
    if info.idx >= 0 {
      info.idx := WrapS16(info.idx + 1);
    }
  }

  /** The search loop rearranges the list and arrives at the result that the searches on its contents give. */
  method Search(list0: ListHead, info: ListData, findNum: S16, ghost s: seq<ListHead>)
    returns (list: ListHead, retval: U16, ghost t: seq<ListHead>)
    requires IsList(list0, s) && |s| >= 2 && info !in Data(s)
    requires info.data16 == 0
    modifies s`next, info
    ensures IsList(list, t) && multiset(t) == multiset(s) && |t| == |s|
    ensures t == Hunted(old(ContentsOf(s)), s, old(info.idx), SearchCount(findNum)).order
    ensures retval == WrapU16(Gains(old(ContentsOf(s)), s, old(info.idx), SearchCount(findNum)))
    ensures Item(info.data16, info.idx) == LastKey(old(info.idx), SearchCount(findNum))
  {
    hide Distinct, Linked, WrapU16, At, ContentsOf, Hunted, Gains, LastKey, Data;
    list, retval, t := list0, 0, s;
    var found: U16, missed: U16 := 0, 0;
    var i: S16 := 0;
    ghost var item, finderIdx := ContentsOf(s), info.idx;
    Known(s);
    NotInData(s, info);
    HuntedNone(item, s, finderIdx);
    while i < findNum
      invariant IsList(list, t) && multiset(t) == multiset(s) && |t| == |s|
      invariant found + missed == i && i <= SearchCount(findNum)
      invariant Hunted(item, s, finderIdx, i) == Hunt(t, retval, found)
      invariant Item(info.data16, info.idx) == LastKey(finderIdx, i)
      invariant info !in Data(t) && item == ContentsOf(t)
      decreases findNum - i
    {
      SameData(s, t);
      var hit;
      ghost var was := t;
      list, retval, hit, t := SearchNext(list, info, i, retval, s, item, finderIdx, Hunt(t, retval, found));
      SameData(s, t);
      assert item.Keys == set x | x in t;
      Recognise(t, item);
      if hit {
        found := found + 1;
      } else {
        missed := missed + 1;
      }
      i := i + 1;
    }
    retval := WrapU16(retval + found * 4 - missed);
    ResultIsSum(item, s, finderIdx, i);
  }

  /** The checksum takes in the head's datum, not `finder`'s, once for every node from `finder` on. */
  method ChecksumFrom(finder0: ListHead?, list: ListHead, retval0: U16, ghost s: seq<ListHead>, ghost at: nat)
    returns (retval: U16)
    requires IsList(list, s) && at <= |s| && finder0 == At(s, at)
    ensures Crc.BitsOf(retval, 16) == Repeated(list.info.data16, |s| - at, Crc.BitsOf(retval0, 16))
  {
    hide Crc.BitsOf, Crc.Fold;
    var finder := finder0;
    retval := retval0;
    ghost var i := at;
    ghost var datum := Crc.BitsOf(list.info.data16, 16);
    Crc.FoldNone(Crc.BitsOf(retval0, 16));
    while finder != null
      invariant at <= i <= |s| && finder == At(s, i)
      invariant Crc.BitsOf(retval, 16) == Crc.Fold(Times(datum, i - at), Crc.BitsOf(retval0, 16))
      decreases |s| - i
    {
      Crc.FoldAppend(Times(datum, i - at), datum, Crc.BitsOf(retval0, 16));
      retval := Crc.Crc16(list.info.data16, retval);
      finder := finder.next;
      i := i + 1;
    }
  }

  /** Upper bytes, indices and the data of each node are what they were. */
  twostate predicate Intact(s: seq<ListHead>)
    reads s, Data(s)
  {
    forall x :: x in s ==>
      && x.info == old(x.info)
      && x.info.idx == old(x.info.idx)
      && Upper(x.info.data16) == old(Upper(x.info.data16))
  }

  /** Sorts by result, if the benchmark is to search from a positive index. */
  method SortByResult(res: Results, list0: ListHead, finderIdx: S16, ghost s: seq<ListHead>)
    returns (list: ListHead, ghost t: seq<ListHead>)
    requires IsList(list0, s) && 3 <= |s| < 0x8000_0000
    modifies s`next, Data(s)`data16, res
    ensures IsList(list, t) && multiset(t) == multiset(s) && |t| == |s|
    ensures Intact(s)
    ensures SortedByResult(finderIdx, old(ContentsOf(s)), s, ContentsOf(s), t)
  {
    hide Distinct, Linked, Before, Upper, SortedByResult, Tracked, IsStableSort, Snapshot, ContentsOf;
    list, t := list0, s;
    ghost var item, start := ContentsOf(s), Snapshot(s);
    Recorded(s);
    if finderIdx > 0 {
      ghost var key;
      list, t, key := ListMergesort(list, Complex, res, s);
      StableSortPermutes(key, s, t);
      TrackedUpper(s, start, key);
      ResultsCached(s, t, key, item, start, finderIdx);
    } else {
      NotSorted(finderIdx, item, s);
    }
  }

  lemma NotSorted(finderIdx: S16, item: Contents, s: seq<ListHead>)
    requires finderIdx <= 0
    ensures SortedByResult(finderIdx, item, s, item, s)
  {}

  lemma Recorded(s: seq<ListHead>)
    ensures ContentsOf(s).Keys == set x | x in s
    ensures forall x :: x in s ==> x.info in Snapshot(s) && Snapshot(s)[x.info] == x.info.data16
    ensures forall x :: x in s ==> ContentsOf(s)[x] == Item(Snapshot(s)[x.info], x.info.idx)
  {
    hide Data;
    forall x | x in s ensures x.info in Data(s) {
      InData(s, x);
    }
  }

  lemma TrackedUpper(s: seq<ListHead>, start: map<ListData, U16>, key: map<ListHead, int>)
    requires Tracked(Complex, false, s, start, key)
    ensures forall x :: x in s && x.info in start ==> Upper(x.info.data16) == Upper(start[x.info])
  {
    hide Upper, Settled, KeyOf, IsOwnResult, Cache;
  }

  /** What the sort leaves in the data. */
  lemma ResultsCached(s: seq<ListHead>, t: seq<ListHead>, key: map<ListHead, int>, item: Contents,
                      start: map<ListData, U16>, finderIdx: S16)
    requires finderIdx > 0 && IsStableSort(key, s, t) && Tracked(Complex, false, s, start, key)
    requires forall x :: x in s ==> x in key
    requires item.Keys == set x | x in s
    requires forall x :: x in s ==> x.info in start && item[x] == Item(start[x.info], x.info.idx)
    ensures SortedByResult(finderIdx, item, s, ContentsOf(s), t)
  {
    hide Low7, Cached, IsStableSort, Evolves;
    assert key == ResultKeys(ContentsOf(s), s);
  }

  /** Searches, and counts the checksum from the node found, or else from the second one. */
  method FindAndCheck(list: ListHead, info: ListData, retval0: U16, ghost u: seq<ListHead>) returns (retval: U16)
    requires IsList(list, u) && |u| >= 2
    ensures var at := FirstFit(Pick(ContentsOf(u), u), Item(info.data16, info.idx));
      Crc.BitsOf(retval, 16) == Repeated(u[0].info.data16, |u| - (if at < |u| then at else 1), Crc.BitsOf(retval0, 16))
  {
    hide Distinct, Linked, Matches, Crc.BitsOf, Crc.Fold, Repeated, FirstFit, Pick, ContentsOf;
    var finder, at := ListFind(list, info, u);
    ghost var from := if at < |u| then at else 1;
    SecondNode(list, u);
    if finder == null {
      finder := list.next;
    }
    retval := ChecksumFrom(finder, list, retval0, u, from);
    FitsMatches(u, info, at);
  }

  /** Removes the second datum, searches without it, and undoes the removal. */
  method RemoveAndUndo(list: ListHead, info: ListData, retval0: U16, ghost s: seq<ListHead>)
    returns (retval: U16)
    requires IsList(list, s) && 3 <= |s|
    modifies s
    ensures IsList(list, s)
    ensures forall x :: x in s ==> x.info == old(x.info)
    ensures Crc.BitsOf(retval, 16)
         == FirstChecksum(Pick(old(ContentsOf(s)), s), Item(info.data16, info.idx), Crc.BitsOf(retval0, 16))
  {
    hide Distinct, Matches, Crc.BitsOf, Crc.Fold, Repeated, FirstFit, FirstChecksum, Pick, ContentsOf, Without;
    OthersDiffer(s, 1);
    OthersDiffer(s, 2);
    ghost var items := Pick(ContentsOf(s), s);
    AllPicked(s);
    var item := list.next;
    var remover := ListRemove(item, list, s, 1);
    ghost var u := Without(s, 2);
    WithoutAt(s, 2);
    retval := FindAndCheck(list, info, retval0, u);
    OneDatumLess(s, items, u);
    ChecksumCounts(items, Item(info.data16, info.idx), Crc.BitsOf(retval0, 16));
    remover := ListUndoRemove(remover, list.next, list, s, 1);
  }

  lemma AllPicked(s: seq<ListHead>)
    ensures forall i :: 0 <= i < |s| ==> Pick(ContentsOf(s), s)[i] == Item(s[i].info.data16, s[i].info.idx)
  {}

  lemma ChecksumCounts(items: seq<Item>, sought: Item, crc: Crc.Register)
    requires |items| >= 3
    ensures var n, at := |items| - 1, FirstFit(Without(items, 1), sought);
      FirstChecksum(items, sought, crc) == Repeated(items[0].data16, n - (if at < n then at else 1), crc)
  {
    hide Repeated, FirstFit;
  }

  /** Removing the second datum exchanges it with the third, whose node goes. */
  lemma OneDatumLess(s: seq<ListHead>, items: seq<Item>, u: seq<ListHead>)
    requires |items| == |s| >= 3 && u == Without(s, 2)
    requires forall i :: 0 <= i < |s| && i != 1 && i != 2 ==> items[i] == Item(s[i].info.data16, s[i].info.idx)
    requires items[2] == Item(s[1].info.data16, s[1].info.idx)
    ensures Pick(ContentsOf(u), u) == Without(items, 1)
  {
    var picked, rest := Pick(ContentsOf(u), u), Without(items, 1);
    WithoutAt(s, 2);
    WithoutAt(items, 1);
    hide Without;
    forall i | 0 <= i < |u| ensures picked[i] == rest[i] {
      PickedNow(u, u, i);
    }
  }

  /** Sorts by index, recovering every lower byte from the upper one. */
  method SortByIndex(list0: ListHead, ghost s: seq<ListHead>, ghost item: Contents)
    returns (list: ListHead, ghost t: seq<ListHead>)
    requires IsList(list0, s) && 2 <= |s| < 0x8000_0000 && item == ContentsOf(s)
    modifies s`next, Data(s)`data16
    ensures IsList(list, t) && IsStableSort(IndexKeys(item, s), s, t)
    ensures multiset(t) == multiset(s) && |t| == |s|
    ensures forall i, j :: 0 <= i < j < |t| ==> t[i].info.idx <= t[j].info.idx
    ensures forall x :: x in s ==> x in IndexKeys(item, s) && IndexKeys(item, s)[x] == x.info.idx
    ensures forall x :: x in s ==> x.info == old(x.info) && x.info.idx == old(x.info.idx)
    ensures forall x :: x in s ==> x.info.data16 == Restore(old(x.info.data16))
  {
    hide Distinct, Linked, Before, Upper, Restored, Restore, ContentsOf, IndexKeys, IsStableSort, Tracked, Snapshot;
    Recorded(s);
    ghost var start := Snapshot(s);
    ghost var key;
    list, t, key := ListMergesort(list0, Index, null, s);
    TrackedIndices(s, start, key);
    KeysOfIndices(s, item, key);
    StableSortPermutes(key, s, t);
    InOrder(s, t, key);
  }

  lemma TrackedIndices(s: seq<ListHead>, start: map<ListData, U16>, key: map<ListHead, int>)
    requires Tracked(Index, true, s, start, key) && forall x :: x in s ==> x in key
    ensures key.Keys == set x | x in s
    ensures forall x :: x in s ==> key[x] == x.info.idx
    ensures forall x :: x in s ==> x.info in start && x.info.data16 == Restore(start[x.info])
  {
    hide Upper, Restored, Restore;
    forall x | x in s ensures x.info in start && x.info.data16 == Restore(start[x.info]) {
      RestoreUnique(start[x.info], x.info.data16);
    }
  }

  lemma RestoreUnique(v: U16, w: U16)
    ensures Upper(w) == Upper(v) && Restored(w) ==> w == Restore(v)
  {}

  /** A list as it is built: indices increase strictly, and lower bytes repeat the upper ones. */
  ghost predicate Initial(s: seq<ListHead>)
    reads s, Data(s)
  {
    && (forall i, j :: 0 <= i < j < |s| ==> s[i].info.idx < s[j].info.idx)
    && (forall x :: x in s ==> Restored(x.info.data16))
  }

  lemma SameData(s: seq<ListHead>, t: seq<ListHead>)
    requires multiset(t) == multiset(s)
    ensures |t| == |s| && Data(t) == Data(s)
    ensures forall i :: 0 <= i < |t| ==> t[i] in s
    ensures forall x :: x in s <==> x in t
  {
    SameMembers(s, t);
    forall d ensures d in Data(t) <==> d in Data(s) {
      if d in Data(t) {
        var x :| x in t && x.info == d;
        assert x in s;
      }
      if d in Data(s) {
        var x :| x in s && x.info == d;
        assert x in t;
      }
    }
  }

  /** The searches and the sort by result; `item` is what the sort left in the data. */
  method Shuffle(res: Results, info: ListData, finderIdx: S16, ghost s: seq<ListHead>)
    returns (list: ListHead, retval: U16, ghost t: seq<ListHead>, ghost item: Contents)
    requires IsList(res.list, s) && 3 <= |s| < 0x8000_0000 && info !in Data(s)
    requires info.data16 == 0 && info.idx == finderIdx
    modifies s`next, Data(s)`data16, res, info
    ensures IsList(list, t) && multiset(t) == multiset(s) && |t| == |s|
    ensures Intact(s) && item == ContentsOf(s)
    ensures var n := SearchCount(res.seed3);
      var h := Hunted(old(ContentsOf(s)), s, finderIdx, n);
      && SortedByResult(finderIdx, old(ContentsOf(s)), h.order, item, t)
      && retval == WrapU16(Gains(old(ContentsOf(s)), s, finderIdx, n))
      && Item(info.data16, info.idx) == LastKey(finderIdx, n)
  {
    hide Distinct, Linked, Upper, Data, IsList, SortedByResult, Gains, WrapU16, Hunted, LastKey, ContentsOf;
    NotInData(s, info);
    ghost var item0 := ContentsOf(s);
    Known(s);
    list, retval, t := Search(res.list, info, res.seed3, s);
    ghost var found := t;
    SameData(s, found);
    Recognise(found, item0);
    list, t := SortByResult(res, list, finderIdx, found);
    item := ContentsOf(found);
    Known(found);
    Recognise(s, item);
  }

  /** Everything the benchmark does before it sorts the list back. */
  method Disturb(res: Results, finderIdx: S16, ghost s: seq<ListHead>)
    returns (list: ListHead, retval: U16, ghost t: seq<ListHead>, ghost item: Contents)
    requires IsList(res.list, s) && 3 <= |s| < 0x8000_0000
    modifies s, Data(s)`data16, res
    ensures IsList(list, t) && multiset(t) == multiset(s) && |t| == |s|
    ensures Intact(s) && item == ContentsOf(s)
    ensures var n := SearchCount(res.seed3);
      var h := Hunted(old(ContentsOf(s)), s, finderIdx, n);
      && SortedByResult(finderIdx, old(ContentsOf(s)), h.order, item, t)
      && var result := WrapU16(Gains(old(ContentsOf(s)), s, finderIdx, n));
         Crc.BitsOf(retval, 16) == FirstChecksum(Pick(item, t), LastKey(finderIdx, n), Crc.BitsOf(result, 16))
  {
    hide Distinct, Linked, Upper, Data, IsList, SortedByResult, FirstChecksum, Gains, WrapU16, Hunted, LastKey,
         ContentsOf, Pick,
         Crc.BitsOf;
    ghost var item0 := ContentsOf(s);
    Known(s);
    var info := new ListData(0, finderIdx);
    NotInData(s, info);
    Recognise(s, item0);
    list, retval, t, item := Shuffle(res, info, finderIdx, s);
    SameContents(s, t);
    SameData(s, t);
    Known(s);
    retval := RemoveAndUndo(list, info, retval, t);
    Recognise(s, item);
  }

  lemma Known(s: seq<ListHead>)
    ensures ContentsOf(s).Keys == set x | x in s
    ensures forall x :: x in s ==> ContentsOf(s)[x] == Item(x.info.data16, x.info.idx)
  {}

  lemma Recognise(s: seq<ListHead>, item: Contents)
    requires item.Keys == (set x | x in s) && forall x :: x in s ==> item[x] == Item(x.info.data16, x.info.idx)
    ensures ContentsOf(s) == item
  {}

  lemma RestoreByUpper(v: U16, w: U16)
    requires Upper(v) == Upper(w)
    ensures Restore(v) == Restore(w)
  {}

  /** Indices that increase strictly bring the nodes back to their places, however they were shuffled. */
  lemma BackInPlace(s: seq<ListHead>, shuffled: seq<ListHead>, t: seq<ListHead>, key: map<ListHead, int>)
    requires multiset(shuffled) == multiset(s) && IsStableSort(key, shuffled, t)
    requires forall x :: x in s ==> x in key && key[x] == x.info.idx
    requires forall i, j :: 0 <= i < j < |s| ==> s[i].info.idx < s[j].info.idx
    ensures t == s
  {
    forall i, j | 0 <= i < j < |s| ensures key[s[i]] < key[s[j]] {
      assert s[i] in s && s[j] in s;
    }
    SortRestores(key, s, shuffled, t);
  }

  lemma InOrder(shuffled: seq<ListHead>, t: seq<ListHead>, key: map<ListHead, int>)
    requires IsStableSort(key, shuffled, t)
    requires forall x :: x in shuffled ==> x in key && key[x] == x.info.idx
    ensures forall i, j :: 0 <= i < j < |t| ==> t[i].info.idx <= t[j].info.idx
  {
    SameMembers(shuffled, t);
    forall i, j | 0 <= i < j < |t| ensures t[i].info.idx <= t[j].info.idx {
      assert Before(key, shuffled, t[i], t[j]);
      assert t[i] in t && t[j] in t;
    }
  }

  /**
   The whole benchmark: whatever it does in between, an initial list is back as it was. Its
   result is the one that the searches, the sort by result (which leaves `item` in the data)
   and the two checksums give on the list's contents.
   */
  method BenchList(res: Results, finderIdx: S16, ghost s: seq<ListHead>)
    returns (retval: U16, ghost t: seq<ListHead>, ghost sorted: seq<ListHead>, ghost item: Contents)
    requires IsList(res.list, s) && 3 <= |s| < 0x8000_0000
    modifies s, Data(s)`data16, res
    ensures Distinct(t) && Linked(t, 0, |t|) && multiset(t) == multiset(s) && |t| == |s|
    ensures forall i, j :: 0 <= i < j < |t| ==> t[i].info.idx <= t[j].info.idx
    ensures forall x :: x in s ==> x.info == old(x.info) && x.info.idx == old(x.info.idx)
    ensures forall x :: x in s ==> x.info.data16 == Restore(old(x.info.data16))
    ensures old(Initial(s)) ==> IsList(res.list, s) && forall x :: x in s ==> x.info.data16 == old(x.info.data16)
    ensures IsList(res.list, s) <==> Ordered(IndexKeys(item, sorted), sorted, s)
    ensures var n := SearchCount(res.seed3);
      var h := Hunted(old(ContentsOf(s)), s, finderIdx, n);
      && SortedByResult(finderIdx, old(ContentsOf(s)), h.order, item, sorted)
      && IsStableSort(IndexKeys(item, sorted), sorted, t)
      && |sorted| == |t|
      && var result := WrapU16(Gains(old(ContentsOf(s)), s, finderIdx, n));
         Crc.BitsOf(retval, 16) == Repeated(t[0].info.data16, |t| - 1,
           FirstChecksum(Pick(item, sorted), LastKey(finderIdx, n), Crc.BitsOf(result, 16)))
  {
    hide Distinct, Linked, Upper, Restored, Restore, Data, IsStableSort, At, Crc.BitsOf, Repeated,
         ContentsOf, Pick, FirstChecksum, SortedByResult, Hunted, Gains, WrapU16, LastKey, IndexKeys;
    HeadNode(res.list, s);
    var list;
    list, retval, sorted, item := Disturb(res, finderIdx, s);
    label Disturbed:
    SameData(s, sorted);
    SameContents(s, sorted);
    list, t := SortByIndex(list, sorted, item);
    forall x | x in s ensures x.info.data16 == Restore(old(x.info.data16)) {
      RestoreByUpper(old(x.info.data16), old@Disturbed(x.info.data16));
    }
    if old(Initial(s)) {
      BackInPlace(s, sorted, t, IndexKeys(item, sorted));
    }
    RestoredIff(IndexKeys(item, sorted), res.list, list, s, sorted, t);
    SecondNode(list, t);
    HeadNode(list, t);
    retval := ChecksumFrom(list.next, list, retval, t, 1);
  }

  /** The nodes lead through `s` again exactly when the sort has brought them into the order of `s`. */
  lemma RestoredIff(key: map<ListHead, int>, first: ListHead, list: ListHead, s: seq<ListHead>, sorted: seq<ListHead>,
                    t: seq<ListHead>)
    requires IsList(list, t) && IsStableSort(key, sorted, t)
    requires Distinct(s) && s != [] && first == s[0] && multiset(s) == multiset(sorted)
    ensures IsList(first, s) <==> Ordered(key, sorted, s)
  {
    hide Ordered, Before, Distinct;
    StableSortPermutes(key, sorted, t);
    if IsList(first, s) {
      OneChain(s, t);
    }
    if Ordered(key, sorted, s) {
      StableSortUnique(key, sorted, s, t);
    }
  }

  /** The same nodes cannot be linked up in two orders at once. */
  lemma OneChain(s: seq<ListHead>, t: seq<ListHead>)
    requires Distinct(s) && Distinct(t) && multiset(s) == multiset(t)
    requires Linked(s, 0, |s|) && Linked(t, 0, |t|)
    ensures s == t
  {
    SameMembers(s, t);
    var i: nat := |s|;
    while i > 0
      invariant i <= |s| == |t| && forall k :: i <= k < |s| ==> s[k] == t[k]
    {
      i := i - 1;
      assert At(s, i + 1) == At(t, i + 1) == s[i].next;
      assert s[i] in t;
      var j :| 0 <= j < |t| && t[j] == s[i];
      assert t[j].next == At(t, j + 1);
    }
  }

  lemma HeadNode(list: ListHead, t: seq<ListHead>)
    requires IsList(list, t)
    ensures t != [] && list == t[0]
  {}

  lemma KeysOfIndices(sorted: seq<ListHead>, item: Contents, key: map<ListHead, int>)
    requires key.Keys == set x | x in sorted
    requires forall x :: x in sorted ==> x in item && key[x] == item[x].idx
    ensures key == IndexKeys(item, sorted)
  {}
}
