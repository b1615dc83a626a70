/** Orders on sequences without repetition: what a stable sort is, and that it is unique. */
module StableSorting {

  predicate Distinct<T(==)>(s: seq<T>) {
    forall i, j :: 0 <= i < j < |s| ==> s[i] != s[j]
  }

  lemma OthersDiffer<T>(s: seq<T>, k: nat)
    requires Distinct(s) && k < |s|
    ensures forall i :: 0 <= i < |s| && i != k ==> s[i] != s[k]
  {}

  /** Where `x` stands in `s`. */
  function Pos<T(==)>(s: seq<T>, x: T): (p: nat)
    requires x in s
    ensures p < |s| && s[p] == x
  {
    if s[0] == x then 0 else 1 + Pos(s[1..], x)
  }

  lemma PosAt<T>(s: seq<T>, i: nat)
    requires Distinct(s) && i < |s|
    ensures Pos(s, s[i]) == i
  {
    var p := Pos(s, s[i]);
    assert s[p] == s[i];
  }

  /** `x` belongs before `y`: a smaller key, or the same key and an earlier place in `s`. */
  predicate Before<T(==)>(key: map<T, int>, s: seq<T>, x: T, y: T) {
    && x in key && y in key && x in s && y in s
    && (key[x] < key[y] || (key[x] == key[y] && Pos(s, x) < Pos(s, y)))
  }

  predicate Ordered<T(==)>(key: map<T, int>, s: seq<T>, t: seq<T>) {
    forall i, j :: 0 <= i < j < |t| ==> Before(key, s, t[i], t[j])
  }

  /** `t` is `s` sorted by `key`, equal keys in the order they had in `s`. */
  ghost predicate IsStableSort<T>(key: map<T, int>, s: seq<T>, t: seq<T>) {
    && multiset(t) == multiset(s)
    && Ordered(key, s, t)
  }

  ghost predicate Increasing<T>(key: map<T, int>, s: seq<T>) {
    && (forall x :: x in s ==> x in key)
    && forall i, j :: 0 <= i < j < |s| ==> key[s[i]] < key[s[j]]
  }

  lemma StableSortPermutes<T>(key: map<T, int>, s: seq<T>, t: seq<T>)
    requires IsStableSort(key, s, t)
    ensures multiset(t) == multiset(s) && |t| == |s|
  {
    SameMembers(s, t);
  }

  /** Members of a sequence are exactly those of its multiset. */
  lemma SameMembers<T>(s: seq<T>, t: seq<T>)
    requires multiset(s) == multiset(t)
    ensures |s| == |t|
    ensures forall x :: x in s <==> x in t
  {
    assert |multiset(s)| == |s| && |multiset(t)| == |t|;
    forall x ensures x in s <==> x in t {
      assert x in s <==> x in multiset(s);
      assert x in t <==> x in multiset(t);
    }
  }

  lemma FirstIsLeast<T>(key: map<T, int>, s: seq<T>, t: seq<T>, x: T)
    requires Ordered(key, s, t) && x in t
    ensures x == t[0] || Before(key, s, t[0], x)
  {}

  lemma SameFirst<T>(key: map<T, int>, s: seq<T>, t: seq<T>, u: seq<T>)
    requires Ordered(key, s, t) && Ordered(key, s, u) && t != [] && u != []
    requires t[0] in u && u[0] in t
    ensures t[0] == u[0]
  {
    FirstIsLeast(key, s, t, u[0]);
    FirstIsLeast(key, s, u, t[0]);
  }

  lemma OrderedTail<T>(key: map<T, int>, s: seq<T>, t: seq<T>)
    requires Ordered(key, s, t) && t != []
    ensures Ordered(key, s, t[1..])
  {
    forall i, j | 0 <= i < j < |t[1..]| ensures Before(key, s, t[1..][i], t[1..][j]) {
      assert Before(key, s, t[i + 1], t[j + 1]);
    }
  }

  lemma MultisetTail<T>(t: seq<T>)
    requires t != []
    ensures multiset(t[1..]) == multiset(t) - multiset{t[0]}
  {
    assert t == [t[0]] + t[1..];
  }

  /** Two stable sorts of the same sequence by the same keys agree. */
  lemma {:induction false} StableSortUnique<T>(key: map<T, int>, s: seq<T>, t: seq<T>, u: seq<T>)
    requires Ordered(key, s, t) && Ordered(key, s, u) && multiset(t) == multiset(u)
    ensures t == u
    decreases |t|
  {
    hide Before, Ordered;
    SameMembers(t, u);
    if t != [] {
      assert t[0] in u && u[0] in t;
      SameFirst(key, s, t, u);
      OrderedTail(key, s, t);
      OrderedTail(key, s, u);
      MultisetTail(t);
      MultisetTail(u);
      StableSortUnique(key, s, t[1..], u[1..]);
      assert t == [t[0]] + t[1..] && u == [u[0]] + u[1..];
    }
  }

  function Reverse<T>(s: seq<T>): (r: seq<T>)
    ensures |r| == |s|
    ensures forall i :: 0 <= i < |s| ==> r[i] == s[|s| - 1 - i]
    ensures multiset(r) == multiset(s)
  {
    if s == [] then []
    else
      assert s == [s[0]] + s[1..];
      Reverse(s[1..]) + [s[0]]
  }

  /**
   Whatever rearrangement a sequence went through, sorting by `key` brings it back
   if the keys were strictly increasing to begin with.
   */
  lemma SortRestores<T>(key: map<T, int>, s: seq<T>, shuffled: seq<T>, t: seq<T>)
    requires Increasing(key, s)
    requires multiset(shuffled) == multiset(s)
    requires IsStableSort(key, shuffled, t)
    ensures t == s
  {
    SameMembers(shuffled, s);
    forall i, j | 0 <= i < j < |s| ensures Before(key, shuffled, s[i], s[j]) {
      assert s[i] in s && s[j] in s;
    }
    StableSortUnique(key, shuffled, t, s);
  }

  /** And a mere reversal is only undone by the sort if they were: equal keys end up swapped. */
  lemma ReversalUndoneIffIncreasing<T>(key: map<T, int>, s: seq<T>)
    requires Distinct(s) && forall x :: x in s ==> x in key
    ensures IsStableSort(key, Reverse(s), s) <==> Increasing(key, s)
  {
    if IsStableSort(key, Reverse(s), s) {
      UndoneOnlyIfIncreasing(key, s);
    }
    if Increasing(key, s) {
      forall i, j | 0 <= i < j < |s| ensures Before(key, Reverse(s), s[i], s[j]) {
        SameMembers(s, Reverse(s));
        assert s[i] in s && s[j] in s;
      }
    }
  }

  lemma UndoneOnlyIfIncreasing<T>(key: map<T, int>, s: seq<T>)
    requires Distinct(s) && forall x :: x in s ==> x in key
    requires IsStableSort(key, Reverse(s), s)
    ensures Increasing(key, s)
  {
    var r := Reverse(s);
    forall i, j | 0 <= i < j < |s| ensures key[s[i]] < key[s[j]] {
      assert Before(key, r, s[i], s[j]);
      assert r[|s| - 1 - i] == s[i] && r[|s| - 1 - j] == s[j];
      ReverseDistinct(s);
      PosAt(r, |s| - 1 - i);
      PosAt(r, |s| - 1 - j);
    }
  }

  lemma ReverseDistinct<T>(s: seq<T>)
    requires Distinct(s)
    ensures Distinct(Reverse(s))
  {}

  /** Distinct members of `s`, as many as `s` has: a permutation. */
  lemma Permutation<T>(s: seq<T>, t: seq<T>)
    requires Distinct(s) && Distinct(t) && |t| == |s|
    requires forall i :: 0 <= i < |t| ==> t[i] in s
    ensures multiset(t) == multiset(s)
  {
    var ss, ts := set x | x in s, set x | x in t;
    DistinctCard(s);
    DistinctCard(t);
    assert ts <= ss;
    SubsetSameCard(ts, ss);
    DistinctMultiset(s);
    DistinctMultiset(t);
    assert multiset(t) == multiset(ts) == multiset(ss) == multiset(s);
  }

  lemma {:induction false} DistinctCard<T>(s: seq<T>)
    requires Distinct(s)
    ensures |set x | x in s| == |s|
  {
    if s != [] {
      var last := |s| - 1;
      DistinctCard(s[..last]);
      assert (set x | x in s) == (set x | x in s[..last]) + {s[last]};
    }
  }

  lemma {:induction false} DistinctMultiset<T>(s: seq<T>)
    requires Distinct(s)
    ensures multiset(s) == multiset(set x | x in s)
  {
    if s != [] {
      var last := |s| - 1;
      DistinctMultiset(s[..last]);
      assert s == s[..last] + [s[last]];
      assert (set x | x in s) == (set x | x in s[..last]) + {s[last]};
    }
  }

  lemma SubsetSameCard<T>(a: set<T>, b: set<T>)
    requires a <= b && |a| == |b|
    ensures a == b
  {
    assert |b - a| == |b| - |a|;
    assert b - a == {};
  }
}
