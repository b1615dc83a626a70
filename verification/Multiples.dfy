/** Multiples of a width, without division. */
module Multiples {

  /** `a` is a multiple of `w`. */
  predicate Aligned(a: nat, w: nat)
    requires w > 0
    decreases a
  {
    a == 0 || (a >= w && Aligned(a - w, w))
  }

  lemma {:induction false} AlignedBelow(c: nat, n: nat, w: nat)
    requires w > 0 && Aligned(c, w) && Aligned(n, w) && c < n
    ensures c + w <= n
    decreases c
  {
    if c > 0 {
      AlignedBelow(c - w, n - w, w);
    }
  }

  /** A multiple of twice the width, and the place one width further, are multiples of the width. */
  lemma {:induction false} AlignedHalf(a: nat, w: nat)
    requires w > 0 && Aligned(a, 2 * w)
    ensures Aligned(a, w) && Aligned(a + w, w)
    decreases a
  {
    if a > 0 {
      AlignedHalf(a - 2 * w, w);
    }
  }
}
