/**
 CRC-16 as the benchmark computes it, bit by bit, and what it is: the remainder of a
 division of polynomials over GF(2).
 */
module Crc {
  import Words

  /** Bits, least significant first: the order in which the code consumes a message. */
  type Bits = seq<bool>

  type Byte = b: Bits | |b| == 8 witness seq(8, _ => false)

  /** The 16-bit checksum register; bit 0 is the least significant. */
  type Register = b: Bits | |b| == 16 witness seq(16, _ => false)

  const ZERO: Register := seq(16, _ => false)

  /** The low `n` bits of a number. */
  function BitsOf(v: nat, n: nat): (bits: Bits)
    ensures |bits| == n
    decreases n
  {
    if n == 0 then [] else [v % 2 == 1] + BitsOf(v / 2, n - 1)
  }

  function Xor(a: Bits, b: Bits): (r: Bits)
    requires |a| == |b|
    ensures |r| == |a|
  {
    seq(|a|, i requires 0 <= i < |a| => a[i] != b[i])
  }

  function ShiftRight(a: Bits): (r: Bits)
    requires a != []
    ensures |r| == |a|
  {
    a[1..] + [false]
  }

  /** One bit of the message: shift, and subtract 0xA001 if the bit shifted out differs from it. */
  function Step(bit: bool, crc: Register): Register {
    seq(16, i requires 0 <= i < 16 => (i < 15 && crc[i + 1]) != (crc[0] != bit && (i == 0 || i == 13 || i == 15)))
  }

  function Fold(message: Bits, crc: Register): Register
    decreases |message|
  {
    if message == [] then crc else Fold(message[1..], Step(message[0], crc))
  }

  lemma FoldNone(crc: Register)
    ensures Fold([], crc) == crc
  {}

  method CrcU8(data: Byte, crc: Register) returns (r: Register)
    ensures r == Fold(data, crc)
  {
    var d: Byte := data;
    var carry := false;
    r := crc;
    for i := 0 to 8
      invariant d[..8 - i] == data[i..]
      invariant Fold(data[i..], r) == Fold(data, crc)
    {
      var x16 := d[0] != r[0];
      ghost var was := r;
      assert d[0] == d[..8 - i][0] == data[i];
      assert ShiftRight(d)[..8 - (i + 1)] == d[..8 - i][1..];
      assert data[i..][1..] == data[i + 1..];
      d := ShiftRight(d);
      if x16 {
        r := r[1 := !r[1]][14 := !r[14]]; // exclusive or with 0x4002
        carry := true;
      } else {
        carry := false;
      }
      r := ShiftRight(r);
      if carry {
        r := r[15 := true];
      } else {
        r := r[15 := false];
      }
      assert r == Step(data[i], was);
    }
    assert data[8..] == [];
  }

  method CrcU16(newval: nat, crc: Register) returns (r: Register)
    ensures r == Fold(BitsOf(newval, 16), crc)
  {
    hide BitsOf, Fold;
    r := CrcU8(BitsOf(newval, 8), crc);
    r := CrcU8(BitsOf(newval / 0x100, 8), r);
    HalvedByte(newval);
    SplitBits(newval, 8, 8);
    FoldAppend(BitsOf(newval, 8), BitsOf(newval / 0x100, 8), crc);
  }

  method CrcU32(newval: nat, crc: Register) returns (r: Register)
    ensures r == Fold(BitsOf(newval, 32), crc)
  {
    hide BitsOf, Fold;
    r := CrcU16(newval, crc);
    r := CrcU16(newval / 0x1_0000, r);
    HalvedHalfword(newval);
    SplitBits(newval, 16, 16);
    FoldAppend(BitsOf(newval, 16), BitsOf(newval / 0x1_0000, 16), crc);
  }

  function Halved(v: nat, n: nat): nat
    decreases n
  {
    if n == 0 then v else Halved(v / 2, n - 1)
  }

  lemma {:induction false} SplitBits(v: nat, m: nat, n: nat)
    ensures BitsOf(v, m + n) == BitsOf(v, m) + BitsOf(Halved(v, m), n)
    decreases m
  {
    if m > 0 {
      SplitBits(v / 2, m - 1, n);
    }
  }

  lemma HalvedByte(v: nat)
    ensures Halved(v, 8) == v / 0x100
  {
    assert Halved(v, 4) == v / 16;
    assert Halved(v / 16, 4) == v / 16 / 16;
    HalvedTwice(v, 4, 4);
  }

  lemma {:induction false} HalvedTwice(v: nat, m: nat, n: nat)
    ensures Halved(v, m + n) == Halved(Halved(v, m), n)
    decreases m
  {
    if m > 0 {
      HalvedTwice(v / 2, m - 1, n);
    }
  }

  lemma HalvedHalfword(v: nat)
    ensures Halved(v, 16) == v / 0x1_0000
  {
    HalvedByte(v);
    HalvedByte(v / 0x100);
    HalvedTwice(v, 8, 8);
  }

  lemma {:induction false} FoldAppend(m: Bits, n: Bits, crc: Register)
    ensures Fold(m + n, crc) == Fold(n, Fold(m, crc))
    decreases |m|
  {
    if m == [] {
      assert m + n == n;
    } else {
      assert (m + n)[1..] == m[1..] + n;
      FoldAppend(m[1..], n, Step(m[0], crc));
    }
  }

  // ----- registers as numbers -----

  function Value(b: Bits): (v: nat)
    ensures v < Words.Pow2(|b|)
  {
    if b == [] then 0 else (if b[0] then 1 else 0) + 2 * Value(b[1..])
  }

  lemma {:induction false} BitsOfValue(b: Bits)
    ensures BitsOf(Value(b), |b|) == b
  {
    if b != [] {
      BitsOfValue(b[1..]);
      assert Value(b) / 2 == Value(b[1..]);
    }
  }

  lemma RegisterSize()
    ensures Words.Pow2(16) == 0x1_0000
  {
    assert Words.Pow2(8) == 16 * Words.Pow2(4) && Words.Pow2(12) == 16 * Words.Pow2(8)
        && Words.Pow2(16) == 16 * Words.Pow2(12);
  }

  /** The checksum of a 16-bit datum on top of an earlier checksum, both as numbers. */
  method Crc16(newval: nat, crc: nat) returns (r: nat)
    ensures r < 0x1_0000
    ensures BitsOf(r, 16) == Fold(BitsOf(newval, 16), BitsOf(crc, 16))
  {
    var c := CrcU16(newval, BitsOf(crc, 16));
    RegisterSize();
    BitsOfValue(c);
    r := Value(c);
  }

  // ----- linearity -----

  lemma StepLinear(a: bool, b: bool, c: Register, d: Register)
    ensures Step(a != b, Xor(c, d)) == Xor(Step(a, c), Step(b, d))
  {}

  /** The checksum of a difference is the difference of the checksums. */
  lemma {:induction false} FoldLinear(m: Bits, n: Bits, c: Register, d: Register)
    requires |m| == |n|
    ensures Fold(Xor(m, n), Xor(c, d)) == Xor(Fold(m, c), Fold(n, d))
    decreases |m|
  {
    if m != [] {
      StepLinear(m[0], n[0], c, d);
      FoldLinear(m[1..], n[1..], Step(m[0], c), Step(n[0], d));
      assert Xor(m, n)[1..] == Xor(m[1..], n[1..]);
    }
  }

  // ----- division -----

  /** The coefficient of x^k in the polynomial with coefficients `p`, lowest degree first. */
  function Coef(p: Bits, k: int): bool {
    0 <= k < |p| && p[k]
  }

  /** A message or a register as a polynomial: its first bit has the highest degree. */
  function HighFirst(m: Bits, k: int): bool {
    Coef(m, |m| - 1 - k)
  }

  /** The coefficient of x^k in q times x^16 + x^15 + x^2 + 1. */
  function TimesDivisor(q: Bits, k: int): bool {
    ((Coef(q, k - 16) != Coef(q, k - 15)) != Coef(q, k - 2)) != Coef(q, k)
  }

  /** The coefficient of x^k in m x^16 + c x^|m|: the message with the initial register on top. */
  function Dividend(m: Bits, c: Register, k: int): bool {
    HighFirst(m, k - 16) != HighFirst(c, k - |m|)
  }

  /** The dividend is `q` times the divisor, plus `r`. */
  ghost predicate Divides(m: Bits, c: Register, q: Bits, r: Register) {
    forall k: int :: Dividend(m, c, k) == (TimesDivisor(q, k) != HighFirst(r, k))
  }

  lemma DividendGrows(m: Bits, bit: bool, c: Register, k: int)
    ensures Dividend(m + [bit], c, k) == (Dividend(m, c, k - 1) != (k == 16 && bit))
  {}

  lemma QuotientGrows(q: Bits, t: bool, k: int)
    ensures TimesDivisor([t] + q, k) == (TimesDivisor(q, k - 1) != (t && (k == 16 || k == 15 || k == 2 || k == 0)))
  {}

  lemma RemainderShifts(bit: bool, r: Register, k: int)
    ensures HighFirst(Step(bit, r), k)
         == ((k != 16 && HighFirst(r, k - 1)) != (r[0] != bit && (k == 15 || k == 2 || k == 0)))
  {}

  /** The register after a message is the remainder of that division (its degree is below 16). */
  lemma {:induction false} Remainder(m: Bits, c: Register) returns (q: Bits)
    ensures Divides(m, c, q, Fold(m, c))
    decreases |m|
  {
    if m == [] {
      q := [];
    } else {
      var last := |m| - 1;
      var q0 := Remainder(m[..last], c);
      var r := Fold(m[..last], c);
      assert m == m[..last] + [m[last]];
      FoldAppend(m[..last], [m[last]], c);
      q := [r[0] != m[last]] + q0;
      RemainderStep(m[..last], m[last], c, q0, r);
    }
  }

  lemma RemainderStep(m: Bits, bit: bool, c: Register, q: Bits, r: Register)
    requires Divides(m, c, q, r)
    ensures Divides(m + [bit], c, [r[0] != bit] + q, Step(bit, r))
  {
    hide TimesDivisor, Dividend, Step;
    var t := r[0] != bit;
    forall k: int ensures Dividend(m + [bit], c, k) == (TimesDivisor([t] + q, k) != HighFirst(Step(bit, r), k)) {
      DividendGrows(m, bit, c, k);
      QuotientGrows(q, t, k);
      RemainderShifts(bit, r, k);
    }
  }

  // ----- error detection -----

  lemma StepInjective(bit: bool, c: Register, d: Register)
    requires Step(bit, c) == Step(bit, d)
    ensures c == d
  {
    assert Step(bit, c)[15] == Step(bit, d)[15];
    assert c[0] == d[0];
    forall i | 1 <= i < 16 ensures c[i] == d[i] {
      assert Step(bit, c)[i - 1] == Step(bit, d)[i - 1];
    }
  }

  lemma {:induction false} FoldInjective(m: Bits, c: Register, d: Register)
    requires Fold(m, c) == Fold(m, d)
    ensures c == d
    decreases |m|
  {
    if m != [] {
      FoldInjective(m[1..], Step(m[0], c), Step(m[0], d));
      StepInjective(m[0], c, d);
    }
  }

  /** Only the message that repeats the register brings it to zero within 16 bits. */
  lemma {:induction false} FoldToZero(m: Bits, c: Register)
    requires |m| <= 16 && Fold(m, c) == ZERO
    ensures forall i :: 0 <= i < 16 ==> c[i] == Coef(m, i)
    decreases |m|
  {
    if m != [] {
      var next := Step(m[0], c);
      FoldToZero(m[1..], next);
      assert next[15] == Coef(m[1..], 15) == false;
      assert c[0] == m[0];
      forall i | 1 <= i < 16 ensures c[i] == Coef(m, i) {
        assert next[i - 1] == Coef(m[1..], i - 1);
      }
    }
  }

  lemma ShortInjective(m: Bits, n: Bits, r: Register)
    requires |m| == |n| <= 16 && Fold(m, r) == Fold(n, r)
    ensures m == n
  {
    FoldLinear(m, n, r, r);
    assert Xor(r, r) == ZERO && Xor(Fold(m, r), Fold(n, r)) == ZERO;
    FoldToZero(Xor(m, n), ZERO);
    forall i | 0 <= i < |m| ensures m[i] == n[i] {
      assert Coef(Xor(m, n), i) == ZERO[i];
    }
  }

  /** Messages that differ in a burst of at most 16 bits never share a checksum. */
  lemma BurstDetected(before: Bits, m: Bits, n: Bits, after: Bits, c: Register)
    requires |m| == |n| <= 16 && m != n
    ensures Fold(before + m + after, c) != Fold(before + n + after, c)
  {
    var r := Fold(before, c);
    FoldAppend(before + m, after, c);
    FoldAppend(before, m, c);
    FoldAppend(before + n, after, c);
    FoldAppend(before, n, c);
    if Fold(before + m + after, c) == Fold(before + n + after, c) {
      FoldInjective(after, Fold(m, r), Fold(n, r));
      ShortInjective(m, n, r);
    }
  }
}
