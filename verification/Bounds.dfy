/** Runs during which the stack stays below the globals and the frames within memory. */
module Bounds {
  import C = Compiler
  import M = Machine

  predicate Bounded(m: M.State) {
    m.sp <= C.GLOBAL_BASE && m.fp < M.RAM_WORDS
  }

  /** All states of the first `n` steps, the last one included. */
  ghost predicate Within(c: M.Chip, n: nat, m: M.State) {
    forall k: nat :: k <= n ==> Bounded(M.Run(c, k, m))
  }

  lemma WithinNone(c: M.Chip, m: M.State)
    requires Bounded(m)
    ensures Within(c, 0, m)
  {
    assert M.Run(c, 0, m) == m;
  }

  lemma WithinOne(c: M.Chip, m: M.State)
    requires Bounded(m) && Bounded(M.Step(c, m))
    ensures Within(c, 1, m)
  {
    hide M.Step;
    assert M.Run(c, 0, m) == m && M.Run(c, 1, m) == M.Step(c, m);
  }

  lemma WithinTwo(c: M.Chip, m: M.State)
    requires Bounded(m) && Bounded(M.Step(c, m)) && Bounded(M.Step(c, M.Step(c, m)))
    ensures Within(c, 2, m)
  {
    hide M.Step, Within;
    WithinOne(c, m);
    WithinOne(c, M.Step(c, m));
    assert M.Run(c, 1, m) == M.Step(c, m);
    WithinBoth(c, 1, 1, m);
  }

  lemma WithinBoth(c: M.Chip, n: nat, n': nat, m: M.State)
    requires Within(c, n, m) && Within(c, n', M.Run(c, n, m))
    ensures Within(c, n + n', m)
  {
    hide M.Run, Bounded;
    forall k: nat | k <= n + n' ensures Bounded(M.Run(c, k, m)) {
      if k > n {
        M.RunAdd(c, n, k - n, m);
      }
    }
  }

  lemma WithinEnds(c: M.Chip, n: nat, k: nat, m: M.State)
    requires Within(c, n, m) && k <= n
    ensures Bounded(M.Run(c, k, m))
  {}
}
