/** The matrix benchmark on flat arrays, and the layout of its block of memory. */
module Matrix {
  import opened CoreLists
  import Crc

  /** Two's complement wrap-around to 32 bits. */
  function WrapS32(x: int): (r: S32)
    ensures -0x8000_0000 <= x < 0x8000_0000 ==> r == x
  {
    (x + 0x8000_0000) % 0x1_0000_0000 - 0x8000_0000
  }

  lemma WrapAdds(x: int, y: int)
    ensures WrapS32(WrapS32(x) + y) == WrapS32(x + y)
  {}

  /** Wrapping gives the one congruent number of the range. */
  lemma WrapIff(x: int, r: S32)
    ensures r == WrapS32(x) <==> (r - x) % 0x1_0000_0000 == 0
  {}

  // ----- what the result matrix holds -----

  /** An element of a matrix stored row after row. */
  function At2(a: seq<S16>, n: nat, i: nat, j: nat): S16 {
    if i * n + j < |a| then a[i * n + j] else 0
  }

  /** What the kernels that fill the whole result compute. */
  datatype Kernel =
    | Scaled(a: seq<S16>, val: S16)
    | Product(a: seq<S16>, b: seq<S16>)
    | Extracted(a: seq<S16>, b: seq<S16>)

  /** Row i of a times column j of b, over the first k elements. */
  function Dot(a: seq<S16>, b: seq<S16>, n: nat, i: nat, j: nat, k: nat): int {
    if k == 0 then 0 else Dot(a, b, n, i, j, k - 1) + At2(a, n, i, k - 1) as int * At2(b, n, k - 1, j) as int
  }

  /** Bits 2 to 5 of a product times its bits 5 to 11. */
  function ExtractBits(x: int): (r: nat)
    ensures r <= 15 * 127
  {
    x / 4 % 16 * (x / 32 % 128)
  }

  /** With bits 2 to 5 and bits 5 to 11 cut out, whatever is above and below them. */
  lemma BitsExtracted(x: int, high: int, four: nat, low: nat, above: int, seven: nat, below: nat)
    requires x == high * 0x40 + four * 4 + low && four < 16 && low < 4
    requires x == above * 0x1000 + seven * 0x20 + below && seven < 128 && below < 0x20
    ensures ExtractBits(x) == four * seven
  {
    FourBits(x, high, four, low);
    SevenBits(x, above, seven, below);
  }

  lemma FourBits(x: int, high: int, four: nat, low: nat)
    requires x == high * 0x40 + four * 4 + low && four < 16 && low < 4
    ensures x / 4 % 16 == four
  {
    assert x / 4 == high * 16 + four;
  }

  lemma SevenBits(x: int, above: int, seven: nat, below: nat)
    requires x == above * 0x1000 + seven * 0x20 + below && seven < 128 && below < 0x20
    ensures x / 0x20 % 128 == seven
  {
    assert x / 0x20 == above * 128 + seven;
  }

  function ExtractDot(a: seq<S16>, b: seq<S16>, n: nat, i: nat, j: nat, k: nat): int {
    if k == 0 then 0
    else ExtractDot(a, b, n, i, j, k - 1) + ExtractBits(At2(a, n, i, k - 1) as int * At2(b, n, k - 1, j) as int)
  }

  function Element(f: Kernel, n: nat, i: nat, j: nat): S32 {
    match f
    case Scaled(a, val) => WrapS32(At2(a, n, i, j) as int * val as int)
    case Product(a, b) => WrapS32(Dot(a, b, n, i, j, n))
    case Extracted(a, b) => WrapS32(ExtractDot(a, b, n, i, j, n))
  }

  /** The first `i` rows, and the first `j` elements of row `i`. */
  function Rows(f: Kernel, n: nat, i: nat): (r: seq<S32>)
    ensures |r| == i * n
    decreases i
  {
    if i == 0 then []
    else
      assert i * n == (i - 1) * n + n;
      Rows(f, n, i - 1) + Row(f, n, i - 1, n)
  }

  function Row(f: Kernel, n: nat, i: nat, j: nat): (r: seq<S32>)
    ensures |r| == j
  {
    seq<S32>(j, k requires 0 <= k < j => Element(f, n, i, k))
  }

  /** Element (i, j) of the result, where the kernels leave it. */
  lemma {:induction false} ElementAt(f: Kernel, n: nat, rows: nat, i: nat, j: nat)
    requires i < rows && j < n
    ensures i * n + j < rows * n && Rows(f, n, rows)[i * n + j] == Element(f, n, i, j)
    decreases rows
  {
    hide Element;
    assert rows * n == (rows - 1) * n + n;
    if i == rows - 1 {
      assert Rows(f, n, rows)[i * n + j] == Row(f, n, i, n)[j];
    } else {
      ElementAt(f, n, rows - 1, i, j);
      assert Rows(f, n, rows)[i * n + j] == Rows(f, n, rows - 1)[i * n + j];
    }
  }

  /** If the exact product fits, it is what the result holds. */
  lemma ProductExact(a: seq<S16>, b: seq<S16>, n: nat, i: nat, j: nat)
    requires i < n && j < n && -0x8000_0000 <= Dot(a, b, n, i, j, n) < 0x8000_0000
    ensures i * n + j < n * n && Rows(Product(a, b), n, n)[i * n + j] == Dot(a, b, n, i, j, n)
  {
    ElementAt(Product(a, b), n, n, i, j);
  }

  // ----- indices -----

  lemma IndexInRange(n: nat, i: nat, j: nat)
    requires i < n && j < n
    ensures i * n + j < (i + 1) * n <= n * n
  {
    RowsMonotone(n, i + 1, n);
  }

  lemma {:induction false} RowsMonotone(n: nat, i: nat, k: nat)
    requires i <= k
    ensures i * n <= k * n
    decreases k
  {
    if i < k {
      RowsMonotone(n, i, k - 1);
      assert k * n == (k - 1) * n + n;
    }
  }

  /** Element j of row i, written behind what is already there. */
  lemma OneMore(f: Kernel, n: nat, i: nat, j: nat)
    requires i < n && j < n
    ensures Row(f, n, i, j + 1) == Row(f, n, i, j) + [Element(f, n, i, j)]
  {
    hide Element;
  }

  lemma RowDone(f: Kernel, n: nat, i: nat)
    ensures Rows(f, n, i) + Row(f, n, i, n) == Rows(f, n, i + 1)
    ensures Rows(f, n, i) + Row(f, n, i, 0) == Rows(f, n, i)
    ensures (i + 1) * n == i * n + n
  {
    hide Element;
  }

  // ----- the kernels -----

  method MulConst(n: nat, c: array<S32>, a: array<S16>, val: S16)
    requires c.Length >= n * n && a.Length >= n * n
    modifies c
    ensures c[..n * n] == Rows(Scaled(a[..], val), n, n)
    ensures c[n * n..] == old(c[n * n..]) && a[..] == old(a[..])
  {
    hide Rows, Row, Element;
    ghost var f := Scaled(a[..], val);
    ghost var rest := c[n * n..];
    RowZero(f, n);
    for i := 0 to n
      invariant i * n <= n * n && c[..i * n] == Rows(f, n, i)
      invariant c[n * n..] == rest && a[..] == f.a
    {
      RowDone(f, n, i);
      RowsMonotone(n, i + 1, n);
      for j := 0 to n
        invariant c[..i * n + j] == Rows(f, n, i) + Row(f, n, i, j)
        invariant c[n * n..] == rest && a[..] == f.a
      {
        IndexInRange(n, i, j);
        OneMore(f, n, i, j);
        ScaledAt(f.a, val, n, i, j);
        c[i * n + j] := WrapS32(a[i * n + j] as int * val as int);
        assert c[..i * n + j + 1] == c[..i * n + j] + [c[i * n + j]];
      }
    }
  }

  lemma RowZero(f: Kernel, n: nat)
    ensures Rows(f, n, 0) == [] && 0 * n == 0
  {}

  lemma ScaledAt(a: seq<S16>, val: S16, n: nat, i: nat, j: nat)
    requires i * n + j < |a|
    ensures Element(Scaled(a, val), n, i, j) == WrapS32(a[i * n + j] as int * val as int)
  {}

  lemma ProductStep(a: seq<S16>, b: seq<S16>, n: nat, i: nat, j: nat, k: nat)
    requires i * n + k < |a| && k * n + j < |b|
    ensures Dot(a, b, n, i, j, k + 1) == Dot(a, b, n, i, j, k) + a[i * n + k] as int * b[k * n + j] as int
    ensures ExtractDot(a, b, n, i, j, k + 1)
         == ExtractDot(a, b, n, i, j, k) + ExtractBits(a[i * n + k] as int * b[k * n + j] as int)
  {}

  lemma NoProducts(a: seq<S16>, b: seq<S16>, n: nat, i: nat, j: nat)
    ensures WrapS32(Dot(a, b, n, i, j, 0)) == 0 && WrapS32(ExtractDot(a, b, n, i, j, 0)) == 0
  {}

  /** One element of a product, accumulated in the result array. */
  method MulElement(extract: bool, n: nat, c: array<S32>, a: array<S16>, b: array<S16>, i: nat, j: nat)
    requires c.Length >= n * n && a.Length >= n * n && b.Length >= n * n && a != b && i < n && j < n
    modifies c
    ensures i * n + j < n * n
    ensures c[..] == old(c[..])[i * n + j := Element(if extract then Extracted(a[..], b[..])
                                                     else Product(a[..], b[..]), n, i, j)]
    ensures a[..] == old(a[..]) && b[..] == old(b[..])
  {
    hide Dot, ExtractDot, WrapS32, ExtractBits;
    IndexInRange(n, i, j);
    ghost var was, sa, sb := c[..], a[..], b[..];
    c[i * n + j] := 0;
    NoProducts(sa, sb, n, i, j);
    for k := 0 to n
      invariant c[..] == was[i * n + j := WrapS32(if extract then ExtractDot(sa, sb, n, i, j, k)
                                                  else Dot(sa, sb, n, i, j, k))]
      invariant a[..] == sa && b[..] == sb
    {
      IndexInRange(n, i, k);
      IndexInRange(n, k, j);
      ProductStep(sa, sb, n, i, j, k);
      var tmp := a[i * n + k] as int * b[k * n + j] as int;
      var term := if extract then ExtractBits(tmp) else tmp;
      WrapAdds(if extract then ExtractDot(sa, sb, n, i, j, k) else Dot(sa, sb, n, i, j, k), term);
      c[i * n + j] := WrapS32(c[i * n + j] as int + term);
    }
  }

  /** The product of two matrices, or of their extracted bits. */
  method MulMatrix(extract: bool, n: nat, c: array<S32>, a: array<S16>, b: array<S16>)
    requires c.Length >= n * n && a.Length >= n * n && b.Length >= n * n && a != b
    modifies c
    ensures c[..n * n] == Rows(if extract then Extracted(a[..], b[..]) else Product(a[..], b[..]), n, n)
    ensures c[n * n..] == old(c[n * n..]) && a[..] == old(a[..]) && b[..] == old(b[..])
  {
    hide Rows, Row, Element;
    ghost var f := if extract then Extracted(a[..], b[..]) else Product(a[..], b[..]);
    ghost var rest := c[n * n..];
    RowZero(f, n);
    for i := 0 to n
      invariant i * n <= n * n && c[..i * n] == Rows(f, n, i)
      invariant c[n * n..] == rest && a[..] == f.a && b[..] == f.b
    {
      RowDone(f, n, i);
      RowsMonotone(n, i + 1, n);
      for j := 0 to n
        invariant c[..i * n + j] == Rows(f, n, i) + Row(f, n, i, j)
        invariant c[n * n..] == rest && a[..] == f.a && b[..] == f.b
      {
        IndexInRange(n, i, j);
        OneMore(f, n, i, j);
        ghost var before := c[..i * n + j];
        MulElement(extract, n, c, a, b, i, j);
        assert c[..i * n + j + 1] == before + [c[i * n + j]];
      }
    }
  }

  /** The product of a matrix and a vector. */
  function Vector(a: seq<S16>, b: seq<S16>, n: nat, i: nat): (r: seq<S32>)
    ensures |r| == i
  {
    seq<S32>(i, k requires 0 <= k < i => WrapS32(VectorDot(a, b, n, k, n)))
  }

  function VectorDot(a: seq<S16>, b: seq<S16>, n: nat, i: nat, j: nat): int {
    if j == 0 then 0
    else VectorDot(a, b, n, i, j - 1) + At2(a, n, i, j - 1) as int * (if j - 1 < |b| then b[j - 1] as int else 0)
  }

  // ----- what the products are -----

  /** A unit vector: one at place `j`. */
  predicate IsUnit(b: seq<S16>, n: nat, j: nat) {
    |b| >= n && forall k :: 0 <= k < n ==> b[k] == if k == j then 1 else 0
  }

  /** The product with a unit vector is a column of the matrix. */
  lemma {:induction false} ColumnOf(a: seq<S16>, b: seq<S16>, n: nat, i: nat, j: nat, k: nat)
    requires |a| >= n * n && IsUnit(b, n, j) && i < n && j < n && k <= n
    ensures i * n + j < |a|
    ensures VectorDot(a, b, n, i, k) == if j < k then a[i * n + j] as int else 0
  {
    IndexInRange(n, i, j);
    if k > 0 {
      ColumnOf(a, b, n, i, j, k - 1);
      IndexInRange(n, i, k - 1);
    }
  }

  /** Row `i` of the product of `a` and `b`, times the vector `x`, over `k` columns. */
  function ProductTimes(a: seq<S16>, b: seq<S16>, x: seq<S16>, n: nat, i: nat, m: nat, k: nat): int {
    if k == 0 then 0
    else
      ProductTimes(a, b, x, n, i, m, k - 1) + Dot(a, b, n, i, k - 1, m) * if k - 1 < |x| then x[k - 1] as int else 0
  }

  /** Row `i` of `a`, times the product of `b` and the vector `x`, over `m` columns. */
  function TimesProduct(a: seq<S16>, b: seq<S16>, x: seq<S16>, n: nat, i: nat, m: nat, k: nat): int {
    if m == 0 then 0
    else TimesProduct(a, b, x, n, i, m - 1, k) + At2(a, n, i, m - 1) as int * VectorDot(b, x, n, m - 1, k)
  }

  /** The product of matrices is the one after the other: (a b) x is a (b x). */
  lemma {:induction false} ProductComposes(a: seq<S16>, b: seq<S16>, x: seq<S16>, n: nat, i: nat, m: nat, k: nat)
    ensures ProductTimes(a, b, x, n, i, m, k) == TimesProduct(a, b, x, n, i, m, k)
    decreases m
  {
    if m == 0 {
      NoRows(a, b, x, n, i, k);
    } else {
      ProductComposes(a, b, x, n, i, m - 1, k);
      OneRowMore(a, b, x, n, i, m, k);
    }
  }

  lemma {:induction false} NoRows(a: seq<S16>, b: seq<S16>, x: seq<S16>, n: nat, i: nat, k: nat)
    ensures ProductTimes(a, b, x, n, i, 0, k) == 0
  {
    if k > 0 {
      NoRows(a, b, x, n, i, k - 1);
    }
  }

  lemma {:induction false} OneRowMore(a: seq<S16>, b: seq<S16>, x: seq<S16>, n: nat, i: nat, m: nat, k: nat)
    requires m > 0
    ensures ProductTimes(a, b, x, n, i, m, k)
         == ProductTimes(a, b, x, n, i, m - 1, k) + At2(a, n, i, m - 1) as int * VectorDot(b, x, n, m - 1, k)
  {
    hide At2;
    if k > 0 {
      OneRowMore(a, b, x, n, i, m, k - 1);
      var aik, bkj := At2(a, n, i, m - 1) as int, At2(b, n, m - 1, k - 1) as int;
      var xj := if k - 1 < |x| then x[k - 1] as int else 0;
      Distribute(Dot(a, b, n, i, k - 1, m - 1), aik, bkj, xj, VectorDot(b, x, n, m - 1, k - 1));
    }
  }

  lemma Distribute(d: int, a: int, b: int, x: int, v: int)
    ensures (d + a * b) * x == d * x + a * (b * x) && a * (v + b * x) == a * v + a * (b * x)
  {}

  method MulVect(n: nat, c: array<S32>, a: array<S16>, b: array<S16>)
    requires c.Length >= n && a.Length >= n * n && b.Length >= n && a != b
    modifies c
    ensures c[..n] == Vector(a[..], b[..], n, n)
    ensures c[n..] == old(c[n..]) && a[..] == old(a[..]) && b[..] == old(b[..])
  {
    hide WrapS32;
    ghost var sa, sb, rest := a[..], b[..], c[n..];
    for i := 0 to n
      invariant c[..i] == Vector(sa, sb, n, i)
      invariant c[n..] == rest && a[..] == sa && b[..] == sb
    {
      c[i] := 0;
      ZeroVector(sa, sb, n, i);
      for j := 0 to n
        invariant c[..i] == Vector(sa, sb, n, i)
        invariant c[i] == WrapS32(VectorDot(sa, sb, n, i, j))
        invariant c[n..] == rest && a[..] == sa && b[..] == sb
      {
        IndexInRange(n, i, j);
        WrapAdds(VectorDot(sa, sb, n, i, j), a[i * n + j] as int * b[j] as int);
        c[i] := WrapS32(c[i] as int + a[i * n + j] as int * b[j] as int);
      }
      assert c[..i + 1] == c[..i] + [c[i]];
    }
  }

  lemma ZeroVector(a: seq<S16>, b: seq<S16>, n: nat, i: nat)
    ensures WrapS32(VectorDot(a, b, n, i, 0)) == 0
  {}

  /** Every element plus a constant, wrapped to 16 bits. */
  function Added(a: seq<S16>, size: nat, val: S16): (r: seq<S16>)
    ensures |r| == |a|
  {
    seq<S16>(|a|, k requires 0 <= k < |a| => if k < size then WrapS16(a[k] as int + val as int) else a[k])
  }

  /** Elements behind the matrix are kept, and those in it are larger by the constant, modulo 2^16. */
  lemma AddedAt(a: seq<S16>, size: nat, val: S16, k: nat)
    requires k < |a|
    ensures k >= size ==> Added(a, size, val)[k] == a[k]
    ensures k < size ==> (Added(a, size, val)[k] as int - a[k] as int - val as int) % 0x1_0000 == 0
  {
    WrapsIff(a[k] as int + val as int, 0, Added(a, size, val)[k]);
  }

  method AddConst(n: nat, a: array<S16>, val: S16)
    requires a.Length >= n * n
    modifies a
    ensures a[..] == Added(old(a[..]), n * n, val)
  {
    hide WrapS16;
    ghost var was := a[..];
    assert 0 * n == 0;
    for i := 0 to n
      invariant i * n <= n * n && a[..] == Added(was, i * n, val)
    {
      RowsMonotone(n, i + 1, n);
      for j := 0 to n
        invariant i * n + j <= n * n && a[..] == Added(was, i * n + j, val)
      {
        IndexInRange(n, i, j);
        a[i * n + j] := WrapS16(a[i * n + j] as int + val as int);
      }
      assert i * n + n == (i + 1) * n;
    }
  }

  /** Adding a constant and then its negation restores the matrix, wrap-around or not. */
  lemma AddedBack(a: seq<S16>, size: nat, val: S16)
    ensures Added(Added(a, size, val), size, WrapS16(0 - val)) == a
  {
    hide WrapS16;
    forall k | 0 <= k < |a| ensures Added(Added(a, size, val), size, WrapS16(0 - val))[k] == a[k] {
      ThereAndBack(a[k], val);
    }
  }

  lemma ThereAndBack(x: S16, val: S16)
    ensures WrapS16(WrapS16(x as int + val as int) as int + WrapS16(0 - val as int) as int) == x
  {}

  // ----- the checksum of a result -----

  /** The accumulator, the previous element and the result so far. */
  datatype Sum = Sum(tmp: S32, prev: S32, ret: S16)

  /** An accumulator above the clip value counts ten and starts again; otherwise a rise counts one. */
  function SumStep(s: Sum, cur: S32, clipval: S16): Sum {
    var tmp := WrapS32(s.tmp as int + cur as int);
    if tmp > clipval then Sum(0, cur, WrapS16(s.ret as int + 10))
    else Sum(tmp, cur, if cur > s.prev then WrapS16(s.ret as int + 1) else s.ret)
  }

  function SumOf(c: seq<S32>, clipval: S16): Sum
    decreases |c|
  {
    if c == [] then Sum(0, 0, 0) else SumStep(SumOf(c[..|c| - 1], clipval), c[|c| - 1], clipval)
  }

  /** The sum, and the places at which it clipped. */
  method MatrixSum(n: nat, c: array<S32>, clipval: S16) returns (ret: S16, ghost clips: set<nat>)
    requires c.Length >= n * n
    ensures ret == SumOf(c[..n * n], clipval).ret
    ensures AreClips(c[..n * n], clipval, clips)
    ensures ret == WrapS16(10 * |clips| + |RisesOf(c[..n * n], clips)|)
  {
    ret := SumLoops(n, c, clipval);
    clips := ClipsExist(c[..n * n], clipval);
    SumCounts(c[..n * n], clipval, clips);
  }

  method SumLoops(n: nat, c: array<S32>, clipval: S16) returns (ret: S16)
    requires c.Length >= n * n
    ensures ret == SumOf(c[..n * n], clipval).ret
  {
    hide WrapS32, WrapS16, SumOf;
    NothingSummed(clipval);
    var tmp: S32, prev: S32 := 0, 0;
    ret := 0;
    assert 0 * n == 0;
    for i := 0 to n
      invariant i * n <= n * n && Sum(tmp, prev, ret) == SumOf(c[..i * n], clipval)
    {
      RowsMonotone(n, i + 1, n);
      for j := 0 to n
        invariant i * n + j <= n * n && Sum(tmp, prev, ret) == SumOf(c[..i * n + j], clipval)
      {
        IndexInRange(n, i, j);
        var cur := c[i * n + j];
        SumOfMore(c[..i * n + j + 1], clipval);
        assert c[..i * n + j + 1][..i * n + j] == c[..i * n + j];
        tmp := WrapS32(tmp as int + cur as int);
        if tmp > clipval {
          ret := WrapS16(ret as int + 10);
          tmp := 0;
        } else if cur > prev {
          ret := WrapS16(ret as int + 1);
        }
        prev := cur;
      }
      assert i * n + n == (i + 1) * n;
    }
  }

  // ----- what the sum is -----

  function Total(c: seq<S32>): int {
    if c == [] then 0 else Total(c[..|c| - 1]) + c[|c| - 1] as int
  }

  /** The clips before `k` end right before `from`. */
  predicate Since(clips: set<nat>, from: nat, k: nat) {
    from <= k && (from == 0 || from - 1 in clips) && forall j: nat :: from <= j < k ==> j !in clips
  }

  /** The places where the sum is clipped: those where the elements since the last clip add up to more. */
  ghost predicate AreClips(c: seq<S32>, clipval: S16, clips: set<nat>) {
    && (forall k :: k in clips ==> k < |c|)
    && (forall from: nat, k: nat {:trigger Since(clips, from, k)} :: from <= k < |c| && Since(clips, from, k) ==>
          (k in clips <==> WrapS32(Total(c[from..k + 1])) > clipval))
  }

  /** Place `k` holds more than the one before it. */
  predicate Rises(c: seq<S32>, k: nat)
    requires k < |c|
  {
    c[k] > if k == 0 then 0 else c[k - 1]
  }

  /** The other places at which the elements rise. */
  ghost function RisesOf(c: seq<S32>, clips: set<nat>): set<nat> {
    set k: nat | k < |c| && k !in clips && Rises(c, k)
  }

  /** The sum counts ten for a clip, one for a rise that is no clip. */
  lemma SumCounts(c: seq<S32>, clipval: S16, clips: set<nat>)
    requires AreClips(c, clipval, clips)
    ensures SumOf(c, clipval).ret == WrapS16(10 * |clips| + |RisesOf(c, clips)|)
  {
    var from := LastClip(clips, |c|);
    SumTracked(c, clipval, clips, from);
  }

  lemma {:induction false} LastClip(clips: set<nat>, k: nat) returns (from: nat)
    ensures Since(clips, from, k)
  {
    if k == 0 || k - 1 in clips {
      from := k;
    } else {
      from := LastClip(clips, k - 1);
    }
  }

  lemma {:induction false} SumTracked(c: seq<S32>, clipval: S16, clips: set<nat>, from: nat)
    requires AreClips(c, clipval, clips) && Since(clips, from, |c|)
    ensures SumOf(c, clipval)
         == Sum(WrapS32(Total(c[from..])), if c == [] then 0 else c[|c| - 1],
                WrapS16(10 * |clips| + |RisesOf(c, clips)|))
    decreases |c|
  {
    hide WrapS32, WrapS16, AreClips, RisesOf, SumStep, SumOf, Total;
    if c == [] {
      NoClips(clips, clipval);
    } else {
      var n := |c| - 1;
      var clips0 := clips - {n};
      ShorterClips(c, clipval, clips);
      ClipsInside(c, clipval, clips);
      var from0 := LastClip(clips, n);
      assert Since(clips0, from0, n);
      SumTracked(c[..n], clipval, clips0, from0);
      ClipHere(c, clipval, clips, from0);
      CountsGrow(c, clips);
      SliceTotal(c, from0);
      SumOfMore(c, clipval);
      OneStep(Total(c[..n][from0..]), if n == 0 then 0 else c[n - 1], 10 * |clips0| + |RisesOf(c[..n], clips0)|, c[n],
              clipval);
      if n in clips {
        assert from == n + 1;
        NoTotal(c);
      } else {
        assert from == from0;
      }
    }
  }

  lemma NoTotal(c: seq<S32>)
    ensures WrapS32(Total(c[|c|..])) == 0
  {}

  lemma NoClips(clips: set<nat>, clipval: S16)
    requires AreClips([], clipval, clips)
    ensures 10 * |clips| + |RisesOf([], clips)| == 0 && WrapS16(0) == 0 && WrapS32(Total([])) == 0
    ensures SumOf([], clipval) == Sum(0, 0, 0)
  {}

  /** Without the last place the clips are the others. */
  lemma ShorterClips(c: seq<S32>, clipval: S16, clips: set<nat>)
    requires c != [] && AreClips(c, clipval, clips)
    ensures AreClips(c[..|c| - 1], clipval, clips - {|c| - 1})
  {
    hide WrapS32, Total;
    var n := |c| - 1;
    var clips0 := clips - {n};
    forall from: nat, k: nat | from <= k < n && Since(clips0, from, k)
      ensures k in clips0 <==> WrapS32(Total(c[..n][from..k + 1])) > clipval
    {
      forall j: nat | from <= j < k ensures j !in clips {
        assert j !in clips0;
      }
      assert Since(clips, from, k) && c[..n][from..k + 1] == c[from..k + 1];
    }
  }

  /** Whether the last place is a clip. */
  lemma ClipHere(c: seq<S32>, clipval: S16, clips: set<nat>, from: nat)
    requires c != [] && AreClips(c, clipval, clips) && Since(clips, from, |c| - 1)
    ensures |c| - 1 in clips <==> WrapS32(Total(c[from..])) > clipval
  {
    hide WrapS32, Total;
    assert c[from..|c|] == c[from..];
  }

  lemma CountsGrow(c: seq<S32>, clips: set<nat>)
    requires c != [] && forall k :: k in clips ==> k < |c|
    ensures var n := |c| - 1;
            && |clips| == |clips - {n}| + (if n in clips then 1 else 0)
            && |RisesOf(c, clips)|
            == |RisesOf(c[..n], clips - {n})| + (if n !in clips && Rises(c, n) then 1 else 0)
  {
    var n := |c| - 1;
    var rises, rises0 := RisesOf(c, clips), RisesOf(c[..n], clips - {n});
    assert rises == rises0 + if n !in clips && Rises(c, n) then {n} else {};
    if n in clips {
      assert clips == clips - {n} + {n};
    }
  }

  lemma SliceTotal(c: seq<S32>, from: nat)
    requires from < |c|
    ensures Total(c[from..]) == Total(c[..|c| - 1][from..]) + c[|c| - 1] as int
  {
    var n := |c| - 1;
    assert c[from..][..n - from] == c[..n][from..];
  }

  /** One more element, on top of a wrapped total and a wrapped count. */
  lemma OneStep(total: int, prev: S32, count: int, cur: S32, clipval: S16)
    ensures var total' := total + cur as int;
            SumStep(Sum(WrapS32(total), prev, WrapS16(count)), cur, clipval) ==
            if WrapS32(total') > clipval then Sum(0, cur, WrapS16(count + 10))
            else Sum(WrapS32(total'), cur, WrapS16(count + if cur > prev then 1 else 0))
  {
    hide WrapS32, WrapS16;
    WrapAdds(total, cur as int);
    WrapAdds16(count, 10);
    WrapAdds16(count, 1);
  }

  lemma NothingSummed(clipval: S16)
    ensures SumOf([], clipval) == Sum(0, 0, 0)
  {}

  lemma SumOfMore(c: seq<S32>, clipval: S16)
    requires c != []
    ensures SumOf(c, clipval) == SumStep(SumOf(c[..|c| - 1], clipval), c[|c| - 1], clipval)
  {}

  lemma ClipsInside(c: seq<S32>, clipval: S16, clips: set<nat>)
    requires AreClips(c, clipval, clips)
    ensures forall k :: k in clips ==> k < |c|
  {}

  lemma WrapAdds16(x: int, y: int)
    ensures WrapS16(WrapS16(x) as int + y) == WrapS16(x + y)
  {}

  /** There are such places. */
  lemma {:induction false} ClipsExist(c: seq<S32>, clipval: S16) returns (clips: set<nat>)
    ensures AreClips(c, clipval, clips)
    decreases |c|
  {
    hide WrapS32, Total;
    if c == [] {
      clips := {};
    } else {
      var n := |c| - 1;
      var clips0 := ClipsExist(c[..n], clipval);
      var from0 := LastClip(clips0, n);
      clips := clips0 + if WrapS32(Total(c[from0..])) > clipval then {n} else {};
      forall from: nat, k: nat | from <= k < |c| && Since(clips, from, k)
        ensures k in clips <==> WrapS32(Total(c[from..k + 1])) > clipval
      {
        if k < n {
          assert Since(clips0, from, k) && c[..n][from..k + 1] == c[from..k + 1];
        } else {
          OneSince(clips0, from, from0, n);
          assert c[from..k + 1] == c[from..];
        }
      }
    }
  }

  lemma OneSince(clips: set<nat>, from: nat, from': nat, k: nat)
    requires Since(clips, from, k) && Since(clips, from', k)
    ensures from == from'
  {}

  /** A signed datum as the checksum sees it. */
  function Unsigned(x: S16): U16 {
    x as int % 0x1_0000
  }

  /** The clip value: the upper four bits are set, so it is always negative. */
  function Big(val: S16): (r: S16)
    ensures r < 0
  {
    0 - 0x1000 + val as int % 0x1000
  }

  /** The datum's lower twelve bits are kept; the upper four are set, and the checksum takes in 16 bits of a datum. */
  lemma BigBits(val: S16, upper: nat, lower: nat)
    requires upper < 16 && lower < 0x1000 && Unsigned(val) == 0x1000 * upper + lower
    ensures Unsigned(Big(val)) == 0x1000 * 15 + lower
    ensures (Unsigned(val) - val) % 0x1_0000 == 0
  {}

  /** The four result matrices of the test, in their order. */
  function Results(n: nat, c: seq<S32>, a: seq<S16>, b: seq<S16>, val: S16): (r: seq<seq<S32>>)
    requires |c| >= n * n
    ensures |r| == 4
  {
    SideWithinSquare(n);
    var plus := Added(a, n * n, val);
    var scaled := Rows(Scaled(plus, val), n, n);
    [scaled, Vector(plus, b, n, n) + scaled[n..], Rows(Product(plus, b), n, n), Rows(Extracted(plus, b), n, n)]
  }

  lemma SideWithinSquare(n: nat)
    ensures n <= n * n
  {
    if n > 0 {
      RowsMonotone(n, 1, n);
      assert 1 * n == n;
    }
  }

  lemma FrontChanged(s: seq<S32>, t: seq<S32>, n: nat, k: nat)
    requires n <= k <= |s| == |t| && t[n..] == s[n..]
    ensures t[..k] == t[..n] + s[..k][n..]
  {
    forall i | n <= i < k ensures t[i] == s[i] {
      assert t[n..][i - n] == s[n..][i - n];
    }
  }

  /**
   The whole test: both operands are afterwards what they were, for every value, and the
   checksum is that of the four results in turn.
   */
  method MatrixTest(n: nat, c: array<S32>, a: array<S16>, b: array<S16>, val: S16) returns (crc: U16)
    requires c.Length >= n * n && a.Length >= n * n && b.Length >= n * n && a != b
    modifies a, c
    ensures a[..] == old(a[..]) && b[..] == old(b[..])
    ensures c[..n * n] == Results(n, old(c[..]), old(a[..]), b[..], val)[3] && c[n * n..] == old(c[n * n..])
    ensures Crc.BitsOf(crc, 16) == Checksum(Results(n, old(c[..]), old(a[..]), b[..], val), Big(val), 4)
  {
    hide Added, Rows, Vector, SumOf, Big, Unsigned, Crc.Fold, Crc.BitsOf;
    ghost var sa, sb, sc := a[..], b[..], c[..];
    ghost var results := Results(n, sc, sa, sb, val);
    var clipval := Big(val);
    SideWithinSquare(n);
    crc := 0;
    NoChecksum(results, clipval);
    AddConst(n, a, val);
    ghost var plus := a[..];
    MulConst(n, c, a, val);
    crc := AddSum(n, c, clipval, crc, results, 0);
    ghost var scaled := c[..n * n];
    ghost var before := c[..];
    MulVect(n, c, a, b);
    FrontChanged(before, c[..], n, n * n);
    crc := AddSum(n, c, clipval, crc, results, 1);
    MulMatrix(false, n, c, a, b);
    crc := AddSum(n, c, clipval, crc, results, 2);
    MulMatrix(true, n, c, a, b);
    crc := AddSum(n, c, clipval, crc, results, 3);
    AddConst(n, a, WrapS16(0 - val as int));
    AddedBack(sa, n * n, val);
  }

  /** The checksum after the first `k` results. */
  function Checksum(results: seq<seq<S32>>, clipval: S16, k: nat): Crc.Register
    requires k <= |results|
  {
    if k == 0 then Crc.BitsOf(0, 16)
    else Crc.Fold(Crc.BitsOf(Unsigned(SumOf(results[k - 1], clipval).ret), 16), Checksum(results, clipval, k - 1))
  }

  lemma NoChecksum(results: seq<seq<S32>>, clipval: S16)
    ensures Checksum(results, clipval, 0) == Crc.BitsOf(0, 16)
  {}

  method AddSum(n: nat, c: array<S32>, clipval: S16, crc: U16, ghost results: seq<seq<S32>>, ghost k: nat)
    returns (r: U16)
    requires c.Length >= n * n && k < |results| && c[..n * n] == results[k]
    requires Crc.BitsOf(crc, 16) == Checksum(results, clipval, k)
    ensures Crc.BitsOf(r, 16) == Checksum(results, clipval, k + 1)
  {
    hide SumOf, Unsigned, Crc.Fold, Crc.BitsOf;
    ghost var clips;
    var sum;
    sum, clips := MatrixSum(n, c, clipval);
    r := Crc.Crc16(Unsigned(sum), crc);
  }

  // ----- the block of memory -----

  /** Rounds an address up to a multiple of four. */
  function AlignMem(x: nat): (r: nat)
    requires x > 0
    ensures r >= x && r < x + 4 && r % 4 == 0
    ensures x % 4 == 0 ==> r == x
  {
    4 + (x - 1) / 4 * 4
  }

  /** The block sizes from 1 up to this one are those for which the search for the side does not wrap around. */
  const MAX_BLOCK := 0xFFFD_5020

  const BLOCK_END := 0x1_0000_0000

  /** What the search compares with the block size: eight times a square, in 32 bits. */
  function Needed(i: nat): (j: nat)
    ensures j < BLOCK_END
  {
    i * i * 2 * 4 % BLOCK_END
  }

  /** The matrices' side, found by trying 1, 2, 3 and so on; the search ends at `bound` at the latest. */
  method Side(blksize: nat, ghost bound: nat) returns (n: nat)
    requires 0 < blksize < BLOCK_END && Needed(bound) >= blksize
    ensures n < bound && Needed(n + 1) >= blksize && forall i :: 0 <= i <= n ==> Needed(i) < blksize
  {
    hide Needed;
    var i: nat, j: nat := 0, 0;
    assert Needed(0) == 0 by {
      NeededSmall(0);
    }
    while j < blksize
      invariant j == Needed(i) && i <= bound
      invariant forall k :: 0 <= k < i ==> Needed(k) < blksize
      decreases bound - i
    {
      i := i + 1;
      j := Needed(i);
    }
    n := i - 1;
  }

  /**
   The side is the largest whose three matrices leave at least a byte of the block unused if and
   only if the search did not wrap around.
   */
  lemma SideIff(blksize: nat, n: nat)
    requires 0 < blksize < BLOCK_END
    requires Needed(n + 1) >= blksize && forall i :: 0 <= i <= n ==> Needed(i) < blksize
    ensures 8 * (n * n) < blksize <= 8 * ((n + 1) * (n + 1)) <==> blksize <= MAX_BLOCK
  {
    hide Needed;
    NeededSmall(23170);
    if blksize <= MAX_BLOCK {
      if n >= 23170 {
        assert false;
      }
      NeededSmall(n);
      NeededSmall(n + 1);
    } else {
      if n < 23170 {
        NeededSmall(n + 1);
        assert false;
      }
      if n == 23170 {
        FirstWrap();
      }
      RowsMonotone(n, 23171, n);
      RowsMonotone(23171, 23171, n);
      assert n * n >= 23171 * 23171;
    }
  }

  lemma NeededSmall(i: nat)
    requires i <= 23170
    ensures Needed(i) == 8 * (i * i) <= MAX_BLOCK
  {
    RowsMonotone(i, i, 23170);
    RowsMonotone(23170, i, 23170);
    var square := i * i;
    assert square <= 536848900;
    EightParts(0, square);
  }

  lemma FirstWrap()
    ensures Needed(23171) == 194632
  {}

  /** For the largest block sizes the search would not end at all. */
  lemma SideEndsIff(blksize: nat)
    requires 0 < blksize < BLOCK_END
    ensures (exists bound :: Needed(bound) >= blksize) <==> blksize <= 0xFFFF_FFC8
  {
    hide Needed;
    LargestNeeded();
    if bound :| Needed(bound) >= blksize {
      NeededBelow(bound);
    }
  }

  lemma LargestNeeded()
    ensures Needed(57098059) == 0xFFFF_FFC8
  {}

  lemma NeededBelow(i: nat)
    ensures Needed(i) <= 0xFFFF_FFC8
  {
    var square := i * i;
    SquareModulo16(i);
    EightTimes(square);
  }

  /** Eight times a number, in 32 bits, is eight times the number's lowest 29 bits. */
  lemma EightTimes(square: nat)
    ensures square * 2 * 4 % BLOCK_END == 8 * (square % 0x2000_0000)
    ensures square % 0x2000_0000 % 16 == square % 16
  {
    EightParts(square / 0x2000_0000, square % 0x2000_0000);
  }

  lemma EightParts(q: nat, rest: nat)
    requires rest < 0x2000_0000
    ensures (0x2000_0000 * q + rest) * 2 * 4 % BLOCK_END == 8 * rest
    ensures (0x2000_0000 * q + rest) % 16 == rest % 16
  {
    BlockAdded(q, 8 * rest);
    SixteenMore(rest, 0x200_0000 * q);
  }

  lemma BlockAdded(q: nat, rest: nat)
    requires rest < BLOCK_END
    ensures (BLOCK_END * q + rest) % BLOCK_END == rest
  {}

  lemma {:induction false} SquareModulo16(i: nat)
    ensures i * i % 16 == 0 || i * i % 16 == 1 || i * i % 16 == 4 || i * i % 16 == 9
  {
    if i >= 8 {
      var j: nat := i - 8;
      SquareModulo16(j);
      EightLess(i, j);
      SixteenMore(j * j, j + 4);
    } else if i >= 4 {
      assert i == 4 || i == 5 || i == 6 || i == 7;
    }
  }

  lemma EightLess(i: nat, j: nat)
    requires i == j + 8
    ensures i * i == j * j + 16 * (j + 4)
  {}

  lemma SixteenMore(x: nat, y: nat)
    ensures (x + 16 * y) % 16 == x % 16
  {}

  /** In an aligned block the three matrices lie one behind the other, apart and in bounds. */
  lemma Layout(base: nat, blksize: nat, n: nat)
    requires base > 0 && base % 4 == 0 && 8 * (n * n) < blksize
    ensures var a := AlignMem(base);
            var b := a + 2 * (n * n);
            var c := AlignMem(b + 2 * (n * n));
            a == base && c == b + 2 * (n * n) && c + 4 * (n * n) < base + blksize
  {
    var square := n * n;
    assert (base + 4 * square) % 4 == 0;
  }
}
