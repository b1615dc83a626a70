/** Names for the labels the compiler makes up. */
module LabelGenerators {

  function Digit(d: nat): (c: char)
    requires d < 10
    ensures '0' <= c <= '9' && (c - '0') as nat == d
  {
    '0' + d as char
  }

  /** The decimal numeral of `n`. */
  function Decimal(n: nat): (s: string)
    ensures s != []
    ensures forall c :: c in s ==> '0' <= c <= '9'
  {
    if n < 10 then [Digit(n)] else Decimal(n / 10) + [Digit(n % 10)]
  }

  function Name(prefix: string, k: nat): string {
    prefix + Decimal(k)
  }

  lemma {:induction false} DecimalInjective(m: nat, n: nat)
    requires Decimal(m) == Decimal(n)
    ensures m == n
  {
    var s, t := Decimal(m), Decimal(n);
    assert s[|s| - 1] == Digit(m % 10);
    assert t[|t| - 1] == Digit(n % 10);
    if m >= 10 && n >= 10 {
      assert s[..|s| - 1] == Decimal(m / 10);
      assert t[..|t| - 1] == Decimal(n / 10);
      DecimalInjective(m / 10, n / 10);
    }
  }

  /** Generated names never repeat. */
  lemma NamesDistinct(prefix: string, m: nat, n: nat)
    requires m != n
    ensures Name(prefix, m) != Name(prefix, n)
  {
    if Name(prefix, m) == Name(prefix, n) {
      assert Name(prefix, m)[|prefix|..] == Decimal(m);
      assert Name(prefix, n)[|prefix|..] == Decimal(n);
      DecimalInjective(m, n);
    }
  }

  class LabelGenerator {
    const prefix: string
    var counter: nat

    constructor (p: string)
      ensures prefix == p && counter == 0
    {
      prefix, counter := p, 0;
    }

    method Next() returns (name: string)
      modifies this
      ensures name == Name(prefix, old(counter)) && counter == old(counter) + 1
    {
      name := prefix + Decimal(counter);
      counter := counter + 1;
    }
  }
}
