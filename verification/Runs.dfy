/** Bottom-up merging on sequences: sorted runs of doubling width, and one merge of two runs. */
module Runs {
  import opened Multiples
  import opened StableSorting

  function RunEnd(n: nat, a: nat, w: nat): (b: nat)
    requires a <= n
    ensures a <= b <= n
  {
    if a + w < n then a + w else n
  }

  /**
   `l[a..b]` holds what stood at places a to b of `s`, sorted. A run of a single element
   need not have a key yet.
   */
  ghost predicate Run<T>(key: map<T, int>, s: seq<T>, l: seq<T>, a: nat, b: nat)
    requires a <= b <= |l|
  {
    && (forall i :: a <= i < b ==> l[i] in s && a <= Pos(s, l[i]) < b)
    && (b - a >= 2 ==> forall i, j :: a <= i < j < b ==> Before(key, s, l[i], l[j]))
  }

  /** Every run of width `w` in `l`. */
  ghost predicate AllRuns<T>(key: map<T, int>, s: seq<T>, l: seq<T>, w: nat)
    requires w > 0
  {
    forall a: nat :: a < |l| && Aligned(a, w) ==> Run(key, s, l, a, RunEnd(|l|, a, w))
  }

  ghost predicate Extends<T>(key: map<T, int>, more: map<T, int>) {
    forall x :: x in key ==> x in more && more[x] == key[x]
  }

  lemma BeforeExtends<T>(key: map<T, int>, more: map<T, int>, s: seq<T>, x: T, y: T)
    requires Extends(key, more) && Before(key, s, x, y)
    ensures Before(more, s, x, y)
  {}

  lemma BeforeTransitive<T>(key: map<T, int>, s: seq<T>, x: T, y: T, z: T)
    requires Before(key, s, x, y) && Before(key, s, y, z)
    ensures Before(key, s, x, z)
  {}

  lemma RunExtends<T>(key: map<T, int>, more: map<T, int>, s: seq<T>, l: seq<T>, a: nat, b: nat)
    requires Extends(key, more) && a <= b <= |l| && Run(key, s, l, a, b)
    ensures Run(more, s, l, a, b)
  {
    if b - a >= 2 {
      forall i, j | a <= i < j < b ensures Before(more, s, l[i], l[j]) {
        BeforeExtends(key, more, s, l[i], l[j]);
      }
    }
  }

  lemma AllRunsExtend<T>(key: map<T, int>, more: map<T, int>, s: seq<T>, l: seq<T>, w: nat)
    requires w > 0 && Extends(key, more) && AllRuns(key, s, l, w)
    ensures AllRuns(more, s, l, w)
  {
    hide Run, Extends;
    forall a: nat | a < |l| && Aligned(a, w) ensures Run(more, s, l, a, RunEnd(|l|, a, w)) {
      RunExtends(key, more, s, l, a, RunEnd(|l|, a, w));
    }
  }

  lemma SingleRuns<T>(s: seq<T>)
    requires Distinct(s)
    ensures AllRuns(map[], s, s, 1)
  {
    forall a: nat | a < |s| ensures Run(map[], s, s, a, RunEnd(|s|, a, 1)) {
      PosAt(s, a);
    }
  }

  /** A finished run appended to whole runs. */
  lemma AppendRun<T>(key: map<T, int>, s: seq<T>, m: seq<T>, l: seq<T>, w: nat)
    requires w > 0 && AllRuns(key, s, m, w) && Aligned(|m|, w)
    requires |m| < |l| <= |m| + w && l[..|m|] == m && Run(key, s, l, |m|, |l|)
    ensures AllRuns(key, s, l, w)
  {
    forall a: nat | a < |l| && Aligned(a, w) ensures Run(key, s, l, a, RunEnd(|l|, a, w)) {
      if a < |m| {
        AlignedBelow(a, |m|, w);
        assert Run(key, s, m, a, RunEnd(|m|, a, w));
        RunPrefix(key, s, m, l, a, a + w);
      } else if a > |m| {
        AlignedBelow(|m|, a, w);
        assert false;
      }
    }
  }

  lemma RunPrefix<T>(key: map<T, int>, s: seq<T>, m: seq<T>, l: seq<T>, a: nat, b: nat)
    requires a <= b <= |m| <= |l| && l[..|m|] == m && Run(key, s, m, a, b)
    ensures Run(key, s, l, a, b)
  {
    forall i | a <= i < b ensures l[i] == m[i] {
      assert l[..|m|][i] == l[i];
    }
  }

  // ----- merging the runs at a and at b -----

  /** No element of `m` is among `l[lo..hi]`. */
  ghost predicate Apart<T>(m: seq<T>, l: seq<T>, lo: nat, hi: nat)
    requires hi <= |l|
  {
    forall k, i :: 0 <= k < |m| && lo <= i < hi ==> m[k] != l[i]
  }

  /** The merged elements, from `a` on, all belong before `l[lo..hi]`. */
  ghost predicate Ahead<T>(key: map<T, int>, s: seq<T>, m: seq<T>, a: nat, l: seq<T>, lo: nat, hi: nat)
    requires hi <= |l|
  {
    forall k, i :: a <= k < |m| && lo <= i < hi ==> Before(key, s, m[k], l[i])
  }

  /** What has been merged so far, from runs l[a..b] and l[b..d], of which l[p..b] and l[q..d] are left. */
  ghost predicate Merging<T>(key: map<T, int>, s: seq<T>, l: seq<T>, m: seq<T>, a: nat, b: nat, d: nat, p: nat,
                             q: nat) {
    && a <= p <= b <= q <= d <= |l|
    && |m| == p + q - b
    && Distinct(m)
    && (forall k :: 0 <= k < |m| ==> m[k] in s)
    && Apart(m, l, p, b) && Apart(m, l, q, |l|)
    && (forall k :: a <= k < |m| ==> a <= Pos(s, m[k]) < d)
    && (d - a >= 2 ==>
      && (forall i, j :: a <= i < j < |m| ==> Before(key, s, m[i], m[j]))
      && Ahead(key, s, m, a, l, p, b)
      && Ahead(key, s, m, a, l, q, d))
  }

  ghost predicate Mergeable<T>(key: map<T, int>, s: seq<T>, l: seq<T>, a: nat, b: nat, d: nat) {
    && a < b <= d <= |l|
    && Distinct(l)
    && Run(key, s, l, a, b) && Run(key, s, l, b, d)
  }

  lemma MergeStart<T>(key: map<T, int>, s: seq<T>, l: seq<T>, m: seq<T>, a: nat, b: nat, d: nat)
    requires Mergeable(key, s, l, a, b, d)
    requires |m| == a && Distinct(m) && (forall k :: 0 <= k < |m| ==> m[k] in s) && Apart(m, l, a, |l|)
    ensures Merging(key, s, l, m, a, b, d, a, b)
  {}

  lemma TakeFirst<T>(key: map<T, int>, s: seq<T>, l: seq<T>, m: seq<T>, a: nat, b: nat, d: nat, p: nat, q: nat)
    requires Mergeable(key, s, l, a, b, d) && Merging(key, s, l, m, a, b, d, p, q)
    requires p < b && (q < d ==> Before(key, s, l[p], l[q]))
    ensures Merging(key, s, l, m + [l[p]], a, b, d, p + 1, q)
  {
    hide Before;
    var n := m + [l[p]];
    OthersDiffer(l, p);
    if d - a >= 2 {
      forall i | q <= i < d ensures Before(key, s, l[p], l[i]) {
        if i > q {
          BeforeTransitive(key, s, l[p], l[q], l[i]);
        }
      }
    }
  }

  lemma TakeSecond<T>(key: map<T, int>, s: seq<T>, l: seq<T>, m: seq<T>, a: nat, b: nat, d: nat, p: nat, q: nat)
    requires Mergeable(key, s, l, a, b, d) && Merging(key, s, l, m, a, b, d, p, q)
    requires q < d && (p < b ==> Before(key, s, l[q], l[p]))
    ensures Merging(key, s, l, m + [l[q]], a, b, d, p, q + 1)
  {
    hide Before;
    var n := m + [l[q]];
    OthersDiffer(l, q);
    if d - a >= 2 {
      forall i | p <= i < b ensures Before(key, s, l[q], l[i]) {
        if i > p {
          BeforeTransitive(key, s, l[q], l[p], l[i]);
        }
      }
    }
  }

  /** Whichever run its head came from: a smaller key, or an equal one from the first run. */
  lemma HeadsCompare<T>(key: map<T, int>, s: seq<T>, l: seq<T>, a: nat, b: nat, d: nat, p: nat, q: nat)
    requires Mergeable(key, s, l, a, b, d) && a <= p < b <= q < d
    requires l[p] in key && l[q] in key
    ensures key[l[p]] <= key[l[q]] ==> Before(key, s, l[p], l[q])
    ensures key[l[p]] > key[l[q]] ==> Before(key, s, l[q], l[p])
  {}

  lemma Merged<T>(key: map<T, int>, s: seq<T>, l: seq<T>, m: seq<T>, a: nat, b: nat, d: nat)
    requires Merging(key, s, l, m, a, b, d, b, d)
    ensures Run(key, s, m, a, d)
  {}

  lemma MergeableExtends<T>(key: map<T, int>, more: map<T, int>, s: seq<T>, l: seq<T>, a: nat, b: nat, d: nat)
    requires Extends(key, more) && Mergeable(key, s, l, a, b, d)
    ensures Mergeable(more, s, l, a, b, d)
  {
    RunExtends(key, more, s, l, a, b);
    RunExtends(key, more, s, l, b, d);
  }

  lemma MergingExtends<T>(key: map<T, int>, more: map<T, int>, s: seq<T>, l: seq<T>, m: seq<T>,
                          a: nat, b: nat, d: nat, p: nat, q: nat)
    requires Extends(key, more) && Merging(key, s, l, m, a, b, d, p, q)
    ensures Merging(more, s, l, m, a, b, d, p, q)
  {}

  lemma ExtendsTransitive<T>(key: map<T, int>, more: map<T, int>, most: map<T, int>)
    requires Extends(key, more) && Extends(more, most)
    ensures Extends(key, most)
  {}

  /** Taking the smaller head; on a tie, the head of the first run. */
  lemma TakeSmaller<T>(key: map<T, int>, s: seq<T>, l: seq<T>, m: seq<T>, a: nat, b: nat, d: nat, p: nat, q: nat)
    requires Mergeable(key, s, l, a, b, d) && Merging(key, s, l, m, a, b, d, p, q)
    requires p < b && q < d && l[p] in key && l[q] in key
    ensures key[l[p]] <= key[l[q]] ==> Merging(key, s, l, m + [l[p]], a, b, d, p + 1, q)
    ensures key[l[p]] > key[l[q]] ==> Merging(key, s, l, m + [l[q]], a, b, d, p, q + 1)
  {
    hide Before, Run, Distinct;
    HeadsCompare(key, s, l, a, b, d, p, q);
    if key[l[p]] <= key[l[q]] {
      TakeFirst(key, s, l, m, a, b, d, p, q);
    } else {
      TakeSecond(key, s, l, m, a, b, d, p, q);
    }
  }

  lemma MergingBounds<T>(key: map<T, int>, s: seq<T>, l: seq<T>, m: seq<T>, a: nat, b: nat, d: nat, p: nat, q: nat)
    requires Merging(key, s, l, m, a, b, d, p, q)
    ensures a <= p <= b <= q <= d <= |l| && |m| == p + q - b && Distinct(m)
    ensures forall x :: x in m ==> x in s
    ensures Apart(m, l, p, b) && Apart(m, l, q, |l|)
  {}

  lemma MergeableBounds<T>(key: map<T, int>, s: seq<T>, l: seq<T>, a: nat, b: nat, d: nat)
    requires Mergeable(key, s, l, a, b, d)
    ensures a < b <= d <= |l| && Distinct(l)
    ensures Extends(key, key)
  {}

  /** The element just merged is new, and the last one before it is not among those left. */
  lemma MergedNew<T>(key: map<T, int>, s: seq<T>, l: seq<T>, m: seq<T>, e: T, a: nat, b: nat, d: nat, p: nat, q: nat)
    requires Merging(key, s, l, m + [e], a, b, d, p, q)
    ensures Distinct(m) && e !in m
    ensures m != [] ==> m[|m| - 1] in s
    ensures m != [] ==> forall i :: p <= i < b || q <= i < |l| ==> l[i] != m[|m| - 1]
  {
    var n := m + [e];
    assert n[|m|] == e;
    assert forall k :: 0 <= k < |m| ==> n[k] == m[k];
  }

  /** In a list of whole runs, the run at a multiple of twice the width and its neighbour can be merged. */
  lemma RunsMergeable<T>(key: map<T, int>, s: seq<T>, l: seq<T>, w: nat, a: nat)
    requires w > 0 && Distinct(l) && AllRuns(key, s, l, w) && a < |l| && Aligned(a, 2 * w)
    ensures var b := RunEnd(|l|, a, w); Mergeable(key, s, l, a, b, RunEnd(|l|, b, w))
  {
    AlignedHalf(a, w);
    var b := RunEnd(|l|, a, w);
    assert Run(key, s, l, a, b);
    if b < |l| {
      assert Run(key, s, l, b, RunEnd(|l|, b, w));
    }
  }

  /** A finished merge of two runs leaves whole runs of twice the width. */
  lemma MergedRuns<T>(key: map<T, int>, s: seq<T>, l: seq<T>, m: seq<T>, n: seq<T>, w: nat, a: nat)
    requires w > 0 && a < |l| && Aligned(a, 2 * w) && |m| == a && AllRuns(key, s, m, 2 * w) && m <= n
    requires var b := RunEnd(|l|, a, w); var d := RunEnd(|l|, b, w); Merging(key, s, l, n, a, b, d, b, d)
    ensures AllRuns(key, s, n, 2 * w)
    ensures |n| == RunEnd(|l|, a, 2 * w) && (|n| < |l| ==> Aligned(|n|, 2 * w))
  {
    hide Run;
    var b := RunEnd(|l|, a, w);
    var d := RunEnd(|l|, b, w);
    Merged(key, s, l, n, a, b, d);
    AppendRun(key, s, m, n, 2 * w);
  }

  /** A single run that spans the whole of `s` is `s` sorted. */
  lemma OneRunSorts<T>(key: map<T, int>, s: seq<T>, t: seq<T>, w: nat)
    requires 0 < |t| == |s| <= w && Distinct(s) && Distinct(t) && AllRuns(key, s, t, w)
    ensures IsStableSort(key, s, t)
    ensures |s| >= 2 ==> forall x :: x in s ==> x in key
  {
    assert Run(key, s, t, 0, RunEnd(|t|, 0, w));
    Permutation(s, t);
    SameMembers(s, t);
    if |s| >= 2 {
      forall x | x in s ensures x in key {
        var i :| 0 <= i < |t| && t[i] == x;
        assert if i == 0 then Before(key, s, t[0], t[1]) else Before(key, s, t[0], t[i]);
      }
    }
  }

  lemma NoRuns<T>(key: map<T, int>, s: seq<T>, l: seq<T>, w: nat)
    requires w > 0
    ensures Apart([], l, 0, |l|)
    ensures AllRuns(key, s, [], w) && Aligned(0, w) && Extends(key, key) && Distinct<T>([])
  {}
}
