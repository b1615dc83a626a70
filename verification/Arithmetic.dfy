/**
 What the operations of the arithmetic units and of the source language compute, stated by the
 relation of the result to the operands: congruence modulo 2^32, bounds of a quotient, single bits.
 */
module Arithmetic {
  import opened Words
  import opened Assembler
  import opened Syntax
  import C = Compiler
  import I = CalcIsa
  import M = Machine
  import S = Semantics

  predicate Congruent(x: int, y: int) {
    (x - y) % MODULUS == 0
  }

  /** Bit `k` of a number. */
  predicate BitAt(x: nat, k: nat) {
    if k == 0 then x % 2 == 1 else BitAt(x / 2, k - 1)
  }

  predicate Truth(r: Word, c: bool) {
    (c ==> r == 1) && (!c ==> r == 0)
  }

  /** Result `r` is that of the operation on `a` and `b`, the divisor not being zero. */
  ghost predicate Means(op: AluOp, a: Word, b: Word, r: Word) {
    match op
    case ZERO => r == 0
    case NEGATE => Congruent(r + a, 0)
    case ADD => Congruent(r, a + b)
    case SUB => Congruent(r + b, a)
    case MUL => Congruent(r, a * b)
    case DIV => b * r <= a < b * (r + 1)
    case REM => r < b && r <= a && Multiple(a - r, b)
    case AND => BitByBit(AndGate, a, b, r)
    case OR => BitByBit(OrGate, a, b, r)
    case XOR => BitByBit(XorGate, a, b, r)
    case NOT => Complement(a, r)
    case A => r == a
    case B => r == b
    case SHL => Congruent(r, a * Pow2(b))
    case SHR => r * Pow2(b) <= a < (r + 1) * Pow2(b)
    case EQ => Truth(r, a == b)
    case NEQ => Truth(r, a != b)
    case LT => Truth(r, Signed(a) < Signed(b))
    case GT => Truth(r, Signed(a) > Signed(b))
    case LE => Truth(r, Signed(a) <= Signed(b))
    case GE => Truth(r, Signed(a) >= Signed(b))
  }

  predicate Gated(gate: Gate, x: bool, y: bool) {
    match gate
    case AndGate => x && y
    case OrGate => x || y
    case XorGate => x != y
  }

  ghost predicate BitByBit(gate: Gate, a: Word, b: Word, r: Word) {
    forall k: nat :: k < 32 ==> (BitAt(r, k) <==> Gated(gate, BitAt(a, k), BitAt(b, k)))
  }

  ghost predicate Complement(a: Word, r: Word) {
    forall k: nat :: k < 32 ==> (BitAt(r, k) <==> !BitAt(a, k))
  }

  predicate Multiple(x: nat, d: nat) {
    exists q: nat :: q <= x && d * q == x
  }

  // ----- wrap-around -----

  /** Wrapping gives the one congruent word. */
  lemma WrapIff(x: int, w: Word)
    ensures w == Wrap(x) <==> Congruent(w, x)
  {}

  /** The signed reading is the one congruent number of 32 bits in two's complement. */
  lemma SignedIff(w: Word, x: int)
    ensures x == Signed(w) <==> -0x8000_0000 <= x < 0x8000_0000 && Congruent(x, w)
  {}

  lemma WordsDiffer(r: Word, r': Word, x: int)
    requires Congruent(r, x) && Congruent(r', x)
    ensures r == r'
  {}

  lemma TimesModulus(k: int)
    ensures k * MODULUS % MODULUS == 0
  {}

  lemma CongruentTimes(x: int, y: int, m: int)
    requires Congruent(x, y)
    ensures Congruent(x * m, y * m)
  {
    var k := (x - y) / MODULUS;
    assert x - y == k * MODULUS;
    Regroup(x, y, k, m);
    TimesModulus(k * m);
  }

  lemma Regroup(x: int, y: int, k: int, m: int)
    requires x - y == k * MODULUS
    ensures x * m - y * m == k * m * MODULUS
  {
    assert (x - y) * m == x * m - y * m;
    assert k * MODULUS * m == k * m * MODULUS;
  }

  lemma CongruentTrans(x: int, y: int, z: int)
    requires Congruent(x, y) && Congruent(y, z)
    ensures Congruent(x, z)
  {}

  // ----- division -----

  /** Quotient and remainder together. */
  lemma DivisionLaw(a: Word, b: Word)
    requires b != 0
    ensures a == b * Quotient(a, b) + Remainder(a, b) && Remainder(a, b) < b
  {}

  lemma QuotientIff(a: Word, b: Word, r: Word)
    requires b != 0
    ensures b * r <= a < b * (r + 1) <==> r == Quotient(a, b)
  {
    hide Quotient, Remainder;
    DivisionLaw(a, b);
    assert b * (r + 1) == b * r + b;
    if b * r <= a < b * (r + 1) {
      DivisionUnique(b, r, a - b * r, Quotient(a, b), Remainder(a, b));
    }
  }

  lemma Monotone(b: nat, x: nat, y: nat)
    requires x <= y
    ensures b * x <= b * y
  {}

  lemma RemainderIff(a: Word, b: Word, r: Word)
    requires b != 0
    ensures r < b && r <= a && Multiple(a - r, b) <==> r == Remainder(a, b)
  {
    DivisionLaw(a, b);
    var q := Quotient(a, b);
    QuotientBounds(a, b);
    if r == Remainder(a, b) {
      MulGrows(b, q);
      assert q <= a - r && b * q == a - r;
    }
    if r < b && r <= a && Multiple(a - r, b) {
      var k: nat :| k <= a - r && b * k == a - r;
      assert b * (k + 1) == b * k + b;
      QuotientIff(a, b, k);
    }
  }

  // ----- shifts -----

  lemma {:induction false} ShiftLeftLaw(a: Word, b: nat)
    ensures Congruent(ShiftLeft(a, b), a * Pow2(b))
    decreases b
  {
    if b > 0 {
      hide Wrap, Congruent, Pow2;
      var a2 := Wrap(2 * a);
      ShiftLeftLaw(a2, b - 1);
      WrapIff(2 * a, a2);
      CongruentTimes(a2, 2 * a, Pow2(b - 1));
      Power(b);
      Twice(a, Pow2(b - 1));
      CongruentTrans(ShiftLeft(a, b), a2 * Pow2(b - 1), a * Pow2(b));
    }
  }

  lemma Twice(a: nat, p: nat)
    ensures 2 * a * p == a * (2 * p)
  {}

  lemma {:induction false} ShiftRightLaw(a: Word, b: nat)
    ensures ShiftRight(a, b) * Pow2(b) <= a < (ShiftRight(a, b) + 1) * Pow2(b)
    decreases b
  {
    if b > 0 {
      ShiftRightLaw(a / 2, b - 1);
      hide ShiftRight;
      Doubled(a, ShiftRight(a / 2, b - 1), Pow2(b - 1));
      ShiftRightOnce(a, b);
    }
  }

  lemma ShiftRightOnce(a: Word, b: nat)
    requires b > 0
    ensures ShiftRight(a, b) == ShiftRight(a / 2, b - 1) && Pow2(b) == 2 * Pow2(b - 1)
  {}

  lemma Doubled(a: nat, r: nat, p: nat)
    requires r * p <= a / 2 < (r + 1) * p
    ensures r * (2 * p) <= a < (r + 1) * (2 * p)
  {
    assert r * (2 * p) == 2 * (r * p) && (r + 1) * (2 * p) == 2 * ((r + 1) * p);
  }

  lemma ShiftRightIff(a: Word, b: nat, r: Word)
    ensures r * Pow2(b) <= a < (r + 1) * Pow2(b) <==> r == ShiftRight(a, b)
  {
    hide ShiftRight, Pow2;
    ShiftRightLaw(a, b);
    var q, p := ShiftRight(a, b), Pow2(b);
    if r < q {
      Monotone(p, r + 1, q);
    } else if q < r {
      Monotone(p, q + 1, r);
    }
  }

  // ----- bits -----

  lemma {:induction false} BitsLaw(gate: Gate, a: nat, b: nat, k: nat)
    ensures BitAt(Bits(gate, a, b), k) <==> Gated(gate, BitAt(a, k), BitAt(b, k))
    decreases k
  {
    BitsHalves(gate, a, b);
    if k > 0 {
      BitsLaw(gate, a / 2, b / 2, k - 1);
    }
  }

  lemma BitsHalves(gate: Gate, a: nat, b: nat)
    ensures Bits(gate, a, b) / 2 == Bits(gate, a / 2, b / 2)
    ensures Bits(gate, a, b) % 2 == 1 <==> Gated(gate, a % 2 == 1, b % 2 == 1)
  {}

  lemma {:induction false} NotLaw(n: nat, a: nat, k: nat)
    requires a < Pow2(n) && k < n
    ensures BitAt(Pow2(n) - 1 - a, k) <==> !BitAt(a, k)
    decreases n
  {
    hide Pow2;
    Power(n);
    NotHalf(Pow2(n - 1), a);
    if k > 0 {
      NotLaw(n - 1, a / 2, k - 1);
    }
  }

  lemma Power(n: nat)
    requires n > 0
    ensures Pow2(n) == 2 * Pow2(n - 1)
  {}

  lemma NotHalf(p: nat, a: nat)
    requires a < 2 * p
    ensures (2 * p - 1 - a) / 2 == p - 1 - a / 2 && a / 2 < p
    ensures (2 * p - 1 - a) % 2 == 1 <==> a % 2 == 0
  {}

  /** Two numbers with the same `n` bits are the same. */
  lemma {:induction false} SameBits(n: nat, x: nat, y: nat)
    requires x < Pow2(n) && y < Pow2(n) && forall k: nat :: k < n ==> (BitAt(x, k) <==> BitAt(y, k))
    ensures x == y
  {
    if n > 0 {
      assert BitAt(x, 0) <==> BitAt(y, 0);
      forall k: nat | k < n - 1 ensures BitAt(x / 2, k) <==> BitAt(y / 2, k) {
        assert BitAt(x, k + 1) <==> BitAt(y, k + 1);
      }
      SameBits(n - 1, x / 2, y / 2);
    }
  }

  lemma SameWord(r: Word, r': Word)
    requires forall k: nat :: k < 32 ==> (BitAt(r, k) <==> BitAt(r', k))
    ensures r == r'
  {
    Pow2Of32();
    SameBits(32, r, r');
  }

  /** Bit `k` of a number is the last bit of its quotient by 2^k. */
  lemma {:induction false} BitOfQuotient(x: nat, k: nat)
    ensures BitAt(x, k) <==> x / Pow2(k) % 2 == 1
    decreases k
  {
    if k > 0 {
      BitOfQuotient(x / 2, k - 1);
      QuotientOfHalf(x, Pow2(k - 1));
    }
  }

  lemma QuotientOfHalf(x: nat, p: nat)
    requires p > 0
    ensures x / 2 / p == x / (2 * p)
  {
    QuotientBetween(x / 2, p);
    Doubled(x, x / 2 / p, p);
    QuotientUnique(x, 2 * p, x / 2 / p);
  }

  lemma QuotientUnique(x: nat, d: nat, q: nat)
    requires d > 0 && q * d <= x < (q + 1) * d
    ensures q == x / d
  {
    var rest := x - d * q;
    assert (q + 1) * d == d * q + d;
    assert x == d * (x / d) + x % d;
    DivisionUnique(d, q, rest, x / d, x % d);
  }

  lemma DivisionUnique(d: nat, q: nat, rest: nat, q': nat, rest': nat)
    requires d * q + rest == d * q' + rest' && rest < d && rest' < d
    ensures q == q'
  {
    assert d * (q + 1) == d * q + d && d * (q' + 1) == d * q' + d;
    if q < q' {
      Monotone(d, q + 1, q');
    } else if q' < q {
      Monotone(d, q' + 1, q);
    }
  }

  lemma QuotientBetween(x: nat, d: nat)
    requires d > 0
    ensures x / d * d <= x < (x / d + 1) * d
  {
    assert x == d * (x / d) + x % d;
  }

  /** Addresses with bit 30 set select the output of either processor. */
  lemma PortIff(addr: Word)
    ensures M.IsPort(addr) <==> BitAt(addr, 30)
    ensures I.IsPort(addr) <==> BitAt(addr, 30)
  {
    hide BitAt, Pow2;
    BitOfQuotient(addr, 30);
    Pow2Of30();
  }

  lemma Pow2Of30()
    ensures Pow2(30) == 0x4000_0000
  {
    assert Pow2(10) == 1024;
    assert Pow2(20) == 0x10_0000;
  }

  // ----- the arithmetic units and the source language -----

  lemma BitwiseIff(gate: Gate, a: Word, b: Word, r: Word)
    ensures r == Bitwise(gate, a, b) <==> BitByBit(gate, a, b, r)
  {
    hide BitAt;
    var r' := Bitwise(gate, a, b);
    forall k: nat ensures BitAt(r', k) <==> Gated(gate, BitAt(a, k), BitAt(b, k)) {
      BitsLaw(gate, a, b, k);
    }
    if BitByBit(gate, a, b, r) {
      forall k: nat | k < 32 ensures BitAt(r, k) <==> BitAt(r', k) {}
      SameWord(r, r');
    }
  }

  lemma NotIff(a: Word, r: Word)
    ensures r == MODULUS - 1 - a <==> Complement(a, r)
  {
    hide BitAt, Pow2;
    Pow2Of32();
    var r': Word := MODULUS - 1 - a;
    forall k: nat | k < 32 ensures BitAt(r', k) <==> !BitAt(a, k) {
      NotLaw(32, a, k);
    }
    if Complement(a, r) {
      forall k: nat | k < 32 ensures BitAt(r, k) <==> BitAt(r', k) {}
      SameWord(r, r');
    }
  }

  lemma ShiftLeftIff(a: Word, b: nat, r: Word)
    ensures r == ShiftLeft(a, b) <==> Congruent(r, a * Pow2(b))
  {
    hide Congruent, ShiftLeft;
    ShiftLeftLaw(a, b);
    if Congruent(r, a * Pow2(b)) {
      WordsDiffer(r, ShiftLeft(a, b), a * Pow2(b));
    }
  }

  lemma SumIff(a: Word, b: Word, r: Word)
    ensures r == Wrap(a - b) <==> Congruent(r + b, a)
    ensures r == Wrap(0 - a) <==> Congruent(r + a, 0)
  {
    WrapIff(a - b, r);
    WrapIff(0 - a, r);
  }

  /** The Calc2 arithmetic unit computes each operation, and nothing else. */
  lemma AluMeans(z: M.ByZero, op: AluOp, a: Word, b: Word, r: Word)
    requires b != 0 || (op != DIV && op != REM)
    ensures Means(op, a, b, r) <==> r == M.Alu(z, op, a, b)
  {
    hide Congruent, Wrap, Signed, Multiple, Bitwise, ShiftLeft, ShiftRight, Quotient, Remainder, BitByBit,
         Complement, Pow2;
    match op
    case NEGATE => SumIff(a, b, r);
    case ADD => WrapIff(a + b, r);
    case SUB => SumIff(a, b, r);
    case MUL => WrapIff(a * b, r);
    case DIV => QuotientIff(a, b, r);
    case REM => RemainderIff(a, b, r);
    case AND => BitwiseIff(AndGate, a, b, r);
    case OR => BitwiseIff(OrGate, a, b, r);
    case XOR => BitwiseIff(XorGate, a, b, r);
    case NOT => NotIff(a, r);
    case SHL => ShiftLeftIff(a, b, r);
    case SHR => ShiftRightIff(a, b, r);
    case _ =>
  }

  /** The operation that a source operator denotes as it is written. */
  function Denotes(op: BinOp): AluOp {
    match op
    case BitOr => OR
    case BitXor => XOR
    case BitAnd => AND
    case Equal => EQ
    case NotEqual => NEQ
    case Less => LT
    case LessEqual => LE
    case Greater => GT
    case GreaterEqual => GE
    case ShiftL => SHL
    case ShiftR => SHR
    case Plus => ADD
    case Minus => SUB
    case Mult => MUL
    case Div => DIV
    case Rem => REM
  }

  lemma ValueIsAlu(w: S.World, op: BinOp, a: Word, b: Word)
    ensures w.dialect == S.Written ==> S.BinaryValue(w, op, a, b) == M.Alu(w.z, Denotes(op), a, b)
    ensures w.dialect == S.Emitted ==> S.BinaryValue(w, op, a, b) == M.Alu(w.z, C.AluFor(op), a, b)
  {
    hide Wrap, Signed, Bitwise, ShiftLeft, ShiftRight, Quotient, Remainder;
  }

  /** What an operator of the source language computes, as written and as compiled. */
  lemma OperatorMeans(w: S.World, op: BinOp, a: Word, b: Word, r: Word)
    requires b != 0 || (op != Div && op != Rem)
    ensures Means(if w.dialect == S.Written then Denotes(op) else C.AluFor(op), a, b, r)
            <==> r == S.BinaryValue(w, op, a, b)
  {
    hide Means, M.Alu, S.BinaryValue;
    ValueIsAlu(w, op, a, b);
    AluMeans(w.z, if w.dialect == S.Written then Denotes(op) else C.AluFor(op), a, b, r);
  }

  lemma UnaryMeans(op: UnOp, a: Word, b: Word, r: Word)
    ensures Means(if op.Negative? then NEGATE else NOT, a, b, r) <==> r == S.UnaryValue(op, a)
  {
    hide Congruent, Wrap, Complement;
    SumIff(a, b, r);
    NotIff(a, r);
  }
}
