/** The two comparators of the list benchmark; both rewrite the data they compare. */
module Comparators {
  import opened CoreLists
  import Crc

  /** A call of the state or the matrix kernel, with the checksum it was given and the one it returned. */
  datatype Call = StateCall(dtype: S16, crc: U16, result: U16) | MatrixCall(dtype: S16, crc: U16, result: U16)

  /** The part of the benchmark's results that the list code touches; `calls` records the kernels' calls. */
  class Results {
    const seed3: S16
    const list: ListHead
    var crc: U16
    var crcstate: U16
    var crcmatrix: U16
    ghost var calls: seq<Call>

    constructor (seed3: S16, list: ListHead)
      ensures this.seed3 == seed3 && this.list == list
    {
      this.seed3 := seed3;
      this.list := list;
      crc, crcstate, crcmatrix := 0, 0, 0;
      calls := [];
    }
  }

  /** A list_cmp: by result of the datum's computation, or by index. */
  datatype Comparator = Complex | Index

  predicate Cached(v: U16) {
    (v / 0x80) % 2 == 1
  }

  predicate Restored(v: U16) {
    v % 0x100 == v / 0x100
  }

  function Upper(v: U16): U16 {
    v / 0x100
  }

  function Low7(v: U16): (r: U16)
    ensures r < 0x80
  {
    v % 0x80
  }

  /** Bits 3 to 6, twice: the byte that parameterises the computation. */
  function Dtype(v: U16): (r: S16)
    ensures 0 <= r < 0x100
  {
    (v / 8) % 16 * 17
  }

  /** The datum with result `retval` cached in its lower byte. */
  function Cache(v: U16, retval: U16): (c: U16)
    ensures Cached(c) && Upper(c) == Upper(v) && Low7(c) == Low7(retval)
  {
    v / 0x100 * 0x100 + 0x80 + retval % 0x80
  }

  /** The datum with its lower byte recovered from the upper one. */
  function Restore(v: U16): (c: U16)
    ensures Restored(c) && Upper(c) == Upper(v)
    ensures Restored(v) ==> c == v
  {
    v / 0x100 * 0x100 + v / 0x100
  }

  /**
   A datum in parts: a backup of 8 bits, a flag, a parameter of 4 bits and a kind of 3. The flag says
   that the lower 7 bits are a result; the kernels get the parameter twice over.
   */
  lemma DatumParts(v: U16, backup: nat, flag: nat, parameter: nat, kind: nat)
    requires backup < 0x100 && flag < 2 && parameter < 0x10 && kind < 8
    requires v == 0x100 * backup + 0x80 * flag + 8 * parameter + kind
    ensures (Cached(v) <==> flag == 1) && Upper(v) == backup && v % 8 == kind
    ensures Low7(v) == 8 * parameter + kind && Dtype(v) == 0x10 * parameter + parameter
    ensures Restore(v) == 0x100 * backup + backup
    ensures Restored(v) <==> 0x80 * flag + 8 * parameter + kind == backup
  {
    var lower := 0x80 * flag + 8 * parameter + kind;
    assert lower < 0x100 && v == 0x100 * backup + lower;
    assert v / 0x80 == 2 * backup + flag;
    assert v / 8 == 0x20 * backup + 0x10 * flag + parameter;
    Lower(v, backup, lower);
  }

  lemma Lower(v: nat, backup: nat, lower: nat)
    requires v == 0x100 * backup + lower && lower < 0x100
    ensures v / 0x100 == backup && v % 0x100 == lower
  {}

  /** Caching keeps the backup and sets the flag. */
  lemma CacheParts(v: U16, backup: nat, lower: nat, retval: U16, rest: nat, result: nat)
    requires v == 0x100 * backup + lower && lower < 0x100
    requires retval == 0x80 * rest + result && result < 0x80
    ensures Cache(v, retval) == 0x100 * backup + 0x80 + result
  {
    Lower(v, backup, lower);
  }

  /** A datum that further comparisons leave alone; an index sort without results restores data. */
  predicate Settled(cmp: Comparator, restore: bool, v: U16) {
    match cmp
    case Complex => Cached(v)
    case Index => restore ==> Restored(v)
  }

  /** What is compared: the cached 7-bit result, or the index. */
  function KeyOf(cmp: Comparator, d: ListData): S16
    reads d`data16, d`idx
  {
    match cmp
    case Complex => Low7(d.data16)
    case Index => d.idx
  }

  /** A datum whose result is not computed by a kernel is its own result. */
  predicate IsOwnResult(v: U16) {
    !Cached(v) && v % 8 >= 2
  }

  /** Comparisons keep the upper byte, and do not touch a settled datum at all. */
  predicate Evolves(cmp: Comparator, restore: bool, before: U16, after: U16) {
    && Upper(after) == Upper(before)
    && (Settled(cmp, restore, before) ==> after == before)
    && (cmp.Complex? && IsOwnResult(before) ==> after == before || after == Cache(before, before))
  }

  /** The state and matrix kernels: any checksum; they do not touch the list. */
  method BenchState(dtype: S16, res: Results) returns (r: U16)
    modifies res`calls
    ensures res.calls == old(res.calls) + [StateCall(dtype, res.crc, r)]
  {
    r := *;
    res.calls := res.calls + [StateCall(dtype, res.crc, r)];
  }

  method BenchMatrix(dtype: S16, res: Results) returns (r: U16)
    modifies res`calls
    ensures res.calls == old(res.calls) + [MatrixCall(dtype, res.crc, r)]
  {
    r := *;
    res.calls := res.calls + [MatrixCall(dtype, res.crc, r)];
  }

  /** The cached result, or else one that is computed, added to the checksum, and cached. */
  method CalcFunc(d: ListData, res: Results) returns (r: S16, ghost retval: U16)
    modifies d`data16, res
    ensures Cached(d.data16) && r == Low7(d.data16)
    ensures Evolves(Complex, false, old(d.data16), d.data16)
    ensures old(Cached(d.data16)) ==> unchanged(res)
    ensures !old(Cached(d.data16)) ==>
      && d.data16 == Cache(old(d.data16), retval)
      && Crc.BitsOf(res.crc, 16) == Crc.Fold(Crc.BitsOf(retval, 16), Crc.BitsOf(old(res.crc), 16))
    ensures !old(Cached(d.data16)) && old(d.data16) % 8 == 0 ==>
      && res.calls == old(res.calls) + [StateCall(if Dtype(old(d.data16)) < 0x22 then 0x22 else Dtype(old(d.data16)),
                                                  old(res.crc), retval)]
      && res.crcstate == (if old(res.crcstate) == 0 then retval else old(res.crcstate))
      && res.crcmatrix == old(res.crcmatrix)
    ensures !old(Cached(d.data16)) && old(d.data16) % 8 == 1 ==>
      && res.calls == old(res.calls) + [MatrixCall(Dtype(old(d.data16)), old(res.crc), retval)]
      && res.crcmatrix == (if old(res.crcmatrix) == 0 then retval else old(res.crcmatrix))
      && res.crcstate == old(res.crcstate)
    ensures old(IsOwnResult(d.data16)) ==>
      && retval == old(d.data16) && res.calls == old(res.calls)
      && res.crcstate == old(res.crcstate) && res.crcmatrix == old(res.crcmatrix)
  {
    hide Cache, Low7, Upper, Cached, Dtype, Crc.BitsOf, Crc.Fold;
    var data := d.data16;
    if Cached(data) {
      return Low7(data), 0;
    }
    var flag := data % 8;
    var dtype := Dtype(data);
    var result: U16;
    match flag {
      case 0 =>
        if dtype < 0x22 {
          dtype := 0x22;
        }
        result := BenchState(dtype, res);
        if res.crcstate == 0 {
          res.crcstate := result;
        }
      case 1 =>
        result := BenchMatrix(dtype, res);
        if res.crcmatrix == 0 {
          res.crcmatrix := result;
        }
      case _ =>
        result := data;
    }
    res.crc := Crc.Crc16(result, res.crc);
    d.data16 := Cache(data, result);
    r := Low7(result);
    retval := result;
  }

  method Compare(cmp: Comparator, a: ListData, b: ListData, res: Results?) returns (r: S32)
    requires cmp.Complex? ==> res != null
    modifies a`data16, b`data16, res
    ensures Settled(cmp, res == null, a.data16) && Settled(cmp, res == null, b.data16)
    ensures Evolves(cmp, res == null, old(a.data16), a.data16)
    ensures Evolves(cmp, res == null, old(b.data16), b.data16)
    ensures r == KeyOf(cmp, a) - KeyOf(cmp, b)
  {
    hide Restore, Low7, Upper, Cached, Restored, Cache;
    if cmp.Complex? {
      var val1, _ := CalcFunc(a, res);
      var val2, _ := CalcFunc(b, res);
      r := val1 - val2;
    } else {
      if res == null {
        a.data16 := Restore(a.data16);
        b.data16 := Restore(b.data16);
      }
      r := a.idx - b.idx;
    }
  }
}
