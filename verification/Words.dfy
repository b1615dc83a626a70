/** Arithmetic on 32-bit words, as the processor's arithmetic unit performs it. */
module Words {

  const MODULUS := 0x1_0000_0000

  /** A 32-bit register or memory cell, read as an unsigned number. */
  type Word = x: int | 0 <= x < 0x1_0000_0000

  function Wrap(x: int): Word {
    x % MODULUS
  }

  /** The two's complement reading of a word. */
  function Signed(w: Word): int {
    if w < 0x8000_0000 then w else w - MODULUS
  }

  function Flag(b: bool): Word {
    if b then 1 else 0
  }

  function Pow2(n: nat): (r: nat)
    ensures r > 0
  {
    if n == 0 then 1 else 2 * Pow2(n - 1)
  }

  datatype Gate = AndGate | OrGate | XorGate

  /** One bit of a bitwise operation. */
  function Bit(gate: Gate, x: bool, y: bool): nat {
    match gate
    case AndGate => if x && y then 1 else 0
    case OrGate => if x || y then 1 else 0
    case XorGate => if x != y then 1 else 0
  }

  /** The bitwise operation, from the lowest bit up. */
  function Bits(gate: Gate, a: nat, b: nat): nat
    decreases a + b
  {
    if a == 0 && b == 0 then 0
    else Bit(gate, a % 2 == 1, b % 2 == 1) + 2 * Bits(gate, a / 2, b / 2)
  }

  /** The result has no more bits than the operands. */
  lemma {:induction false} BitsBelow(n: nat, gate: Gate, a: nat, b: nat)
    requires a < Pow2(n) && b < Pow2(n)
    ensures Bits(gate, a, b) < Pow2(n)
  {
    if n > 0 {
      BitsBelow(n - 1, gate, a / 2, b / 2);
    }
  }

  lemma Pow2Of32()
    ensures Pow2(32) == MODULUS
  {
    assert Pow2(8) == 256;
    assert Pow2(16) == 65536;
    assert Pow2(24) == 0x100_0000;
  }

  function Bitwise(gate: Gate, a: Word, b: Word): Word {
    Pow2Of32();
    BitsBelow(32, gate, a, b);
    Bits(gate, a, b)
  }

  function ShiftLeft(a: Word, b: nat): Word
    decreases b
  {
    if b == 0 then a else ShiftLeft(Wrap(2 * a), b - 1)
  }

  function ShiftRight(a: Word, b: nat): Word
    decreases b
  {
    if b == 0 then a else ShiftRight(a / 2, b - 1)
  }

  lemma {:induction false} MulGrows(d: nat, q: nat)
    requires d > 0
    ensures d * q >= q
  {
    if d > 1 {
      MulGrows(d - 1, q);
    }
  }

  lemma QuotientBounds(a: nat, d: nat)
    requires d > 0
    ensures 0 <= a / d <= a
  {
    MulGrows(d, a / d);
  }

  function Quotient(a: Word, b: Word): Word
    requires b != 0
  {
    QuotientBounds(a, b);
    a / b
  }

  function Remainder(a: Word, b: Word): Word
    requires b != 0
  {
    a % b
  }

  /** `or` and `and` agree exactly on equal operands. */
  lemma {:induction false} OrMeetsAnd(a: nat, b: nat)
    ensures Bits(OrGate, a, b) == Bits(AndGate, a, b) <==> a == b
    decreases a + b
  {
    if a != 0 || b != 0 {
      OrMeetsAnd(a / 2, b / 2);
    }
  }

  /** `xor` and `and` agree exactly when both operands are zero. */
  lemma {:induction false} XorMeetsAnd(a: nat, b: nat)
    ensures Bits(XorGate, a, b) == Bits(AndGate, a, b) <==> a == 0 && b == 0
    decreases a + b
  {
    if a != 0 || b != 0 {
      XorMeetsAnd(a / 2, b / 2);
    }
  }
}
