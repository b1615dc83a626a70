/** The list sort: bottom-up merging of runs of doubling width, in place and without recursion. */
module Mergesort {
  import opened Comparators
  import opened CoreLists
  import opened Multiples
  import opened Runs
  import opened StableSorting

  ghost function Data(s: seq<ListHead>): set<ListData>
    reads s`info
  {
    set i | 0 <= i < |s| :: s[i].info
  }

  lemma InData(s: seq<ListHead>, x: ListHead)
    requires x in s
    ensures x.info in Data(s)
  {}

  lemma NotInData(s: seq<ListHead>, d: ListData)
    ensures d !in Data(s) <==> forall x :: x in s ==> x.info != d
  {}

  /** The data of a list as they are now. */
  ghost function Snapshot(s: seq<ListHead>): (m: map<ListData, U16>)
    reads s`info, Data(s)`data16, Data(s)`idx
  {
    map d | d in Data(s) :: d.data16
  }

  /**
   How a sort that began with data `start` stands: every datum evolved from what it was, and
   `key` holds the lasting keys of those nodes that have been compared.
   */
  ghost predicate Tracked(cmp: Comparator, restore: bool, s: seq<ListHead>, start: map<ListData, U16>,
                          key: map<ListHead, int>)
    reads s`info, Data(s)`data16, Data(s)`idx
  {
    && start.Keys == Data(s)
    && (forall d :: d in start ==> Evolves(cmp, restore, start[d], d.data16))
    && (forall x :: x in key ==> x in s && Settled(cmp, restore, x.info.data16) && key[x] == KeyOf(cmp, x.info))
  }

  lemma EvolvesTransitive(cmp: Comparator, restore: bool, x: U16, y: U16, z: U16)
    requires Evolves(cmp, restore, x, y) && (y == z || Evolves(cmp, restore, y, z))
    ensures Evolves(cmp, restore, x, z)
  {}

  lemma SettledStays(cmp: Comparator, restore: bool, x: U16, y: U16)
    requires Settled(cmp, restore, x) && (x == y || Evolves(cmp, restore, x, y))
    ensures x == y
  {}

  /** One comparison; both nodes have lasting keys afterwards, and the others keep theirs. */
  method CompareNodes(cmp: Comparator, p: ListHead, q: ListHead, res: Results?,
                      ghost s: seq<ListHead>, ghost start: map<ListData, U16>, ghost key: map<ListHead, int>)
    returns (r: S32, ghost more: map<ListHead, int>)
    requires cmp.Complex? ==> res != null
    requires p in s && q in s && Tracked(cmp, res == null, s, start, key)
    modifies Data(s)`data16, res
    ensures Tracked(cmp, res == null, s, start, more) && Extends(key, more)
    ensures p in more && q in more && r == more[p] - more[q]
  {
    hide Upper, Cached, Restored, Settled, Evolves, Data, KeyOf, Low7;
    InData(s, p);
    InData(s, q);
    r := Compare(cmp, p.info, q.info, res);
    more := key[p := KeyOf(cmp, p.info)][q := KeyOf(cmp, q.info)];
    forall d | d in start ensures Evolves(cmp, res == null, start[d], d.data16) {
      EvolvesTransitive(cmp, res == null, start[d], old(d.data16), d.data16);
    }
    forall x | x in key ensures x.info.data16 == old(x.info.data16) {
      SettledStays(cmp, res == null, old(x.info.data16), x.info.data16);
    }
  }

  /** The merged nodes so far are linked up, except that the last may lead anywhere. */
  ghost predicate Joined(m: seq<ListHead>, list: ListHead?, tail: ListHead?)
    reads m`next
  {
    && list == At(m, 0)
    && tail == (if m == [] then null else m[|m| - 1])
    && (m != [] ==> Linked(m, 0, |m| - 1))
  }

  /** Where a merge stands: the heads and sizes of what is left of both runs. */
  datatype Cursor = Cursor(p: ListHead?, psize: S32, q: ListHead?, qsize: S32)

  ghost predicate Left(c: Cursor, l: seq<ListHead>, insize: S32, b: nat, d: nat, pi: nat, qi: nat)
    requires b <= d <= |l|
    reads l`next
  {
    && pi <= b <= qi <= d
    && c.psize == b - pi && c.qsize == insize - (qi - b)
    && (c.psize > 0 ==> c.p == l[pi]) && c.q == At(l, qi)
    && Linked(l, pi, b) && Linked(l, qi, |l|)
  }

  /** Takes the next element of the merge from one of the runs. */
  method Next(cmp: Comparator, res: Results?, c: Cursor, insize: S32, ghost s: seq<ListHead>,
              ghost start: map<ListData, U16>, ghost l: seq<ListHead>, ghost m: seq<ListHead>,
              ghost key: map<ListHead, int>, ghost a: nat, ghost b: nat, ghost d: nat, ghost pi: nat, ghost qi: nat)
    returns (e: ListHead, n: Cursor, ghost more: map<ListHead, int>, ghost pn: nat, ghost qn: nat)
    requires cmp.Complex? ==> res != null
    requires forall i :: 0 <= i < |l| ==> l[i] in s
    requires Tracked(cmp, res == null, s, start, key)
    requires Mergeable(key, s, l, a, b, d) && Merging(key, s, l, m, a, b, d, pi, qi)
    requires insize > 0 && b <= |l| && d == RunEnd(|l|, b, insize) && Left(c, l, insize, b, d, pi, qi)
    requires c.psize > 0 || (c.qsize > 0 && c.q != null)
    modifies Data(s)`data16, res
    ensures Tracked(cmp, res == null, s, start, more) && Extends(key, more)
    ensures Mergeable(more, s, l, a, b, d) && Merging(more, s, l, m + [e], a, b, d, pn, qn)
    ensures Left(n, l, insize, b, d, pn, qn)
    ensures pn + qn == pi + qi + 1
  {
    hide Merging, Mergeable, Before, Extends, Distinct, Run, Pos, Tracked, KeyOf;
    MergeableBounds(key, s, l, a, b, d);
    more, pn, qn := key, pi, qi;
    var Cursor(p, psize, q, qsize) := c;
    if psize == 0 {
      TakeSecond(key, s, l, m, a, b, d, pi, qi);
      e := q;
      q := q.next;
      qsize := qsize - 1;
      qn := qi + 1;
    } else if qsize == 0 || q == null {
      TakeFirst(key, s, l, m, a, b, d, pi, qi);
      e := p;
      p := p.next;
      psize := psize - 1;
      pn := pi + 1;
    } else {
      var order;
      order, more := CompareNodes(cmp, p, q, res, s, start, key);
      MergeableExtends(key, more, s, l, a, b, d);
      MergingExtends(key, more, s, l, m, a, b, d, pi, qi);
      TakeSmaller(more, s, l, m, a, b, d, pi, qi);
      if order <= 0 {
        e := p;
        p := p.next;
        psize := psize - 1;
        pn := pi + 1;
      } else {
        e := q;
        q := q.next;
        qsize := qsize - 1;
        qn := qi + 1;
      }
    }
    n := Cursor(p, psize, q, qsize);
  }

  lemma NothingLeft(c: Cursor, l: seq<ListHead>, insize: S32, b: nat, d: nat, pi: nat, qi: nat)
    requires insize > 0 && b <= |l| && d == RunEnd(|l|, b, insize) && Left(c, l, insize, b, d, pi, qi)
    ensures !(c.psize > 0 || (c.qsize > 0 && c.q != null)) ==>
              pi == b && qi == d && c.q == At(l, d) && Linked(l, d, |l|)
  {}

  /** Links `e` behind the merged nodes. */
  method Append(e: ListHead, list: ListHead?, tail: ListHead?, ghost cmp: Comparator, ghost restore: bool,
                ghost c: Cursor, ghost insize: S32,
                ghost s: seq<ListHead>, ghost start: map<ListData, U16>, ghost l: seq<ListHead>, ghost m: seq<ListHead>,
                ghost key: map<ListHead, int>, ghost a: nat, ghost b: nat, ghost d: nat, ghost pi: nat, ghost qi: nat)
    returns (first: ListHead)
    requires Joined(m, list, tail) && Merging(key, s, l, m + [e], a, b, d, pi, qi)
    requires b <= d <= |l| && Left(c, l, insize, b, d, pi, qi)
    requires Tracked(cmp, restore, s, start, key)
    modifies s`next
    ensures Joined(m + [e], first, e)
    ensures Left(c, l, insize, b, d, pi, qi)
    ensures Tracked(cmp, restore, s, start, key)
  {
    hide Merging, Distinct, Tracked;
    MergedNew(key, s, l, m, e, a, b, d, pi, qi);
    if tail != null {
      OthersDiffer(m, |m| - 1);
      tail.next := e;
      first := list;
    } else {
      first := e;
    }
  }

  /** Merges the run of `psize` nodes at `p` with the run of up to `insize` nodes at `q` onto the end of the list. */
  method MergeRuns(cmp: Comparator, res: Results?, p: ListHead, q0: ListHead?, insize: S32, psize: S32,
                   list0: ListHead?, tail0: ListHead?, ghost s: seq<ListHead>, ghost start: map<ListData, U16>,
                   ghost l: seq<ListHead>, ghost m0: seq<ListHead>, ghost key0: map<ListHead, int>, ghost a: nat,
                   ghost b: nat, ghost d: nat)
    returns (list: ListHead?, tail: ListHead?, q: ListHead?, ghost m: seq<ListHead>, ghost key: map<ListHead, int>)
    requires cmp.Complex? ==> res != null
    requires insize > 0 && (forall i :: 0 <= i < |l| ==> l[i] in s)
    requires Tracked(cmp, res == null, s, start, key0)
    requires Mergeable(key0, s, l, a, b, d) && Merging(key0, s, l, m0, a, b, d, a, b)
    requires d == RunEnd(|l|, b, insize) && Left(Cursor(p, psize, q0, insize), l, insize, b, d, a, b)
    requires Joined(m0, list0, tail0)
    modifies s`next, Data(s)`data16, res
    ensures Tracked(cmp, res == null, s, start, key) && Extends(key0, key)
    ensures Merging(key, s, l, m, a, b, d, b, d) && m0 <= m
    ensures Joined(m, list, tail) && Linked(l, d, |l|) && q == At(l, d)
  {
    hide Merging, Mergeable, Before, Extends, Distinct, Run, Pos, Tracked, KeyOf, Left, Joined, Linked, RunEnd;
    list, tail, m, key := list0, tail0, m0, key0;
    var c := Cursor(p, psize, q0, insize);
    ghost var pi: nat, qi: nat := a, b;
    MergeableBounds(key, s, l, a, b, d);
    while c.psize > 0 || (c.qsize > 0 && c.q != null)
      invariant Tracked(cmp, res == null, s, start, key) && Extends(key0, key)
      invariant Mergeable(key, s, l, a, b, d) && Merging(key, s, l, m, a, b, d, pi, qi) && m0 <= m
      invariant Left(c, l, insize, b, d, pi, qi)
      invariant Joined(m, list, tail)
      decreases b + d - pi - qi
    {
      var e: ListHead;
      ghost var more;
      e, c, more, pi, qi := Next(cmp, res, c, insize, s, start, l, m, key, a, b, d, pi, qi);
      ExtendsTransitive(key0, key, more);
      key := more;
      MergingBounds(key, s, l, m + [e], a, b, d, pi, qi);
      list := Append(e, list, tail, cmp, res == null, c, insize, s, start, l, m, key, a, b, d, pi, qi);
      tail := e;
      m := m + [e];
    }
    q := c.q;
    NothingLeft(c, l, insize, b, d, pi, qi);
  }

  /** Steps `insize` places along from `p`, or off the end. */
  method StepAlong(p: ListHead, insize: S32, ghost l: seq<ListHead>, ghost a: nat) returns (q: ListHead?, psize: S32)
    requires insize > 0 && a < |l| && p == l[a] && Linked(l, a, |l|)
    ensures psize == RunEnd(|l|, a, insize) - a && q == At(l, a + psize)
  {
    q, psize := p, 0;
    var i: S32 := 0;
    while i < insize
      invariant 0 <= i <= insize && psize == i && a + i <= |l| && q == At(l, a + i)
      invariant i < insize ==> q != null
    {
      psize := psize + 1;
      q := q.next;
      if q == null {
        break;
      }
      i := i + 1;
    }
  }

  lemma LeftStart(p: ListHead, psize: S32, q: ListHead?, insize: S32, l: seq<ListHead>, a: nat, b: nat, d: nat)
    requires insize > 0 && a < |l| && b == RunEnd(|l|, a, insize) && d == RunEnd(|l|, b, insize)
    requires p == l[a] && psize == b - a && q == At(l, b) && Linked(l, a, |l|)
    ensures Left(Cursor(p, psize, q, insize), l, insize, b, d, a, b)
  {}

  lemma NoneJoined()
    ensures Joined([], null, null)
  {}

  /** Ends the merged list at `tail`. */
  method Terminate(ghost list: ListHead?, tail: ListHead?, ghost cmp: Comparator, ghost restore: bool,
                   ghost s: seq<ListHead>, ghost start: map<ListData, U16>, ghost m: seq<ListHead>,
                   ghost key: map<ListHead, int>)
    requires Joined(m, list, tail) && Distinct(m) && m != [] && forall i :: 0 <= i < |m| ==> m[i] in s
    requires Tracked(cmp, restore, s, start, key)
    modifies s`next
    ensures IsList(list, m) && Tracked(cmp, restore, s, start, key)
  {
    hide Tracked, Distinct;
    OthersDiffer(m, |m| - 1);
    tail.next := null;
  }

  lemma StartTracked(cmp: Comparator, restore: bool, s: seq<ListHead>)
    ensures Tracked(cmp, restore, s, Snapshot(s), map[])
  {}

  /** One pass over the list: merges its runs of length `insize` two by two. */
  method Pass(cmp: Comparator, res: Results?, list0: ListHead, insize: S32, ghost s: seq<ListHead>,
              ghost start: map<ListData, U16>, ghost l: seq<ListHead>, ghost key0: map<ListHead, int>)
    returns (list: ListHead?, nmerges: S32, ghost m: seq<ListHead>, ghost key: map<ListHead, int>)
    requires cmp.Complex? ==> res != null
    requires insize > 0 && 0 < |l| < 0x8000_0000 && forall i :: 0 <= i < |l| ==> l[i] in s
    requires IsList(list0, l) && AllRuns(key0, s, l, insize)
    requires Tracked(cmp, res == null, s, start, key0)
    modifies s`next, Data(s)`data16, res
    ensures Tracked(cmp, res == null, s, start, key) && Extends(key0, key)
    ensures |m| == |l| && forall i :: 0 <= i < |m| ==> m[i] in s
    ensures IsList(list, m) && AllRuns(key, s, m, 2 * insize)
    ensures nmerges <= 1 <==> |l| <= 2 * insize
  {
    hide Merging, Mergeable, Before, Extends, Distinct, Run, Pos, Tracked, KeyOf, AllRuns, Aligned, Left, Joined,
         Linked, Apart;
    var p: ListHead?, tail: ListHead? := list0, null;
    NoneJoined();
    list, nmerges, m, key := null, 0, [], key0;
    NoRuns(key, s, l, 2 * insize);
    while p != null
      invariant Tracked(cmp, res == null, s, start, key) && Extends(key0, key)
      invariant |m| <= |l| && p == At(l, |m|) && Linked(l, |m|, |l|)
      invariant Distinct(m) && (forall i :: 0 <= i < |m| ==> m[i] in s) && Apart(m, l, |m|, |l|)
      invariant Joined(m, list, tail)
      invariant AllRuns(key, s, m, 2 * insize) && AllRuns(key, s, l, insize)
      invariant |m| < |l| ==> Aligned(|m|, 2 * insize)
      invariant if nmerges == 0 then m == [] else if nmerges == 1 then |m| == RunEnd(|l|, 0, 2 * insize)
          else |m| > 2 * insize
      invariant 0 <= nmerges <= |m|
      decreases |l| - |m|
    {
      ghost var a := |m|;
      nmerges := nmerges + 1;
      var q, psize := StepAlong(p, insize, l, a);
      ghost var b := RunEnd(|l|, a, insize);
      ghost var d := RunEnd(|l|, b, insize);
      RunsMergeable(key, s, l, insize, a);
      MergeStart(key, s, l, m, a, b, d);
      LeftStart(p, psize, q, insize, l, a, b, d);
      ghost var m1, more;
      list, tail, q, m1, more := MergeRuns(cmp, res, p, q, insize, psize, list, tail, s, start, l, m, key, a, b, d);
      AllRunsExtend(key, more, s, m, 2 * insize);
      AllRunsExtend(key, more, s, l, insize);
      ExtendsTransitive(key0, key, more);
      key := more;
      MergedRuns(key, s, l, m, m1, insize, a);
      MergingBounds(key, s, l, m1, a, b, d, b, d);
      m := m1;
      p := q;
    }
    Terminate(list, tail, cmp, res == null, s, start, m, key);
  }

  /** The list comes back sorted in place: the same nodes, ordered stably by their lasting keys. */
  method ListMergesort(list0: ListHead, cmp: Comparator, res: Results?, ghost s: seq<ListHead>)
    returns (list: ListHead, ghost t: seq<ListHead>, ghost key: map<ListHead, int>)
    requires cmp.Complex? ==> res != null
    requires 0 < |s| < 0x8000_0000 && IsList(list0, s)
    modifies s`next, Data(s)`data16, res
    ensures IsList(list, t) && IsStableSort(key, s, t)
    ensures Tracked(cmp, res == null, s, old(Snapshot(s)), key)
    ensures |s| >= 2 ==> forall x :: x in s ==> x in key
  {
    hide Before, Extends, Distinct, Run, Pos, Tracked, KeyOf, AllRuns;
    list := list0;
    var insize: S32 := 1;
    ghost var l := s;
    ghost var start := Snapshot(s);
    key := map[];
    StartTracked(cmp, res == null, s);
    SingleRuns(s);
    while true
      invariant IsList(list, l) && |l| == |s| && forall i :: 0 <= i < |l| ==> l[i] in s
      invariant Tracked(cmp, res == null, s, start, key)
      invariant 0 < insize && AllRuns(key, s, l, insize)
      decreases 2 * |s| - insize
    {
      var nmerges;
      list, nmerges, l, key := Pass(cmp, res, list, insize, s, start, l, key);
      if nmerges <= 1 {
        OneRunSorts(key, s, l, 2 * insize);
        return list, l, key;
      }
      insize := insize * 2;
    }
  }
}
