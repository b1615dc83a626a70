/** The serial loader: assembles received bytes to words and writes them to consecutive addresses. */
module UartLoader {
  import opened Words
  import opened Bytes

  /** `n` modulo `size`. */
  function Modulo(n: nat, size: nat): (r: nat)
    requires size > 0
    ensures r < size
  {
    if n < size then n else Modulo(n - size, size)
  }

  /** The writes that received bytes cause: the k-th word at address k, modulo the memory's size. */
  function Writes(received: seq<Byte>, size: nat): (w: seq<(nat, Word)>)
    requires size > 0
    ensures |w| == |received| / 4
  {
    var words := WordsOf(received);
    seq(|words|, k requires 0 <= k < |words| => (Modulo(k, size), words[k]))
  }

  /** The shift register's upper bytes are those of the word being assembled. */
  predicate Assembles(shiftReg: Word, pending: seq<Byte>) {
    match |pending|
    case 0 => true
    case 1 => shiftReg / 0x100_0000 == pending[0]
    case 2 => shiftReg / 0x1_0000 == (pending[0] as int) + 0x100 * (pending[1] as int)
    case 3 => shiftReg / 0x100 == (pending[0] as int) + 0x100 * (pending[1] as int) + 0x1_0000 * (pending[2] as int)
    case _ => false
  }

  function Shifted(shiftReg: Word, b: Byte): Word {
    (b as int) * 0x100_0000 + shiftReg / 0x100
  }

  lemma ShiftedAssembles(shiftReg: Word, pending: seq<Byte>, b: Byte)
    requires Assembles(shiftReg, pending)
    ensures |pending| < 3 ==> Assembles(Shifted(shiftReg, b), pending + [b])
    ensures |pending| == 3 ==> Shifted(shiftReg, b) == WordOf(pending + [b])
  {
  }

  lemma WritesPending(whole: seq<Byte>, pending: seq<Byte>, size: nat)
    requires size > 0 && |whole| % 4 == 0 && |pending| < 4
    ensures Writes(whole + pending, size) == Writes(whole, size)
  {
    hide WordsOf;
    WordPending(whole, pending);
  }

  lemma WritesCompleted(whole: seq<Byte>, last: seq<Byte>, size: nat)
    requires size > 0 && |whole| % 4 == 0 && |last| == 4
    ensures Writes(whole + last, size) == Writes(whole, size) + [(Modulo(|whole| / 4, size), WordOf(last))]
  {
    hide WordsOf, WordOf, Modulo;
    WordCompleted(whole, last);
  }

  class UartRamLoader {
    const size: nat // 2^ADDR_WIDTH
    var shiftReg: Word
    var byteCount: nat
    var addr: nat
    var ramAddr: nat
    var ramData: Word
    var ramWe: bool
    ghost var whole: seq<Byte>
    ghost var pending: seq<Byte>
    ghost var written: seq<(nat, Word)>

    ghost predicate Valid()
      reads this
    {
      && size > 0 && |whole| % 4 == 0 && byteCount == |pending| < 4
      && addr == Modulo(|whole| / 4, size)
      && Assembles(shiftReg, pending)
      && written == Writes(whole + pending, size)
    }

    /** Every byte received since reset. */
    ghost function Received(): seq<Byte>
      reads this
    {
      whole + pending
    }

    constructor (size: nat)
      requires size > 0
      ensures Valid() && this.size == size && Received() == [] && written == [] && !ramWe
    {
      this.size := size;
      ramWe := false;
      shiftReg, byteCount, addr := 0, 0, 0;
      ramAddr, ramData := *, *;
      whole, pending, written := [], [], [];
    }

    /** One clock; `written` records the writes that the memory port has shown. */
    method Tick(uartData: Byte, uartValid: bool)
      requires Valid()
      modifies this
      ensures Valid()
      ensures Received() == if uartValid then old(Received()) + [uartData] else old(Received())
      ensures ramWe <==> uartValid && |Received()| % 4 == 0
      ensures written == if ramWe then old(written) + [(ramAddr, ramData)] else old(written)
      ensures written == Writes(Received(), size)
    {
      hide WordOf, Assembles, Shifted, Writes, Modulo;
      ramWe := false;
      if uartValid {
        ShiftedAssembles(shiftReg, pending, uartData);
        WritesPending(whole, pending, size);
        pending := pending + [uartData];
        shiftReg := Shifted(shiftReg, uartData);
        if byteCount == 3 {
          WritesCompleted(whole, pending, size);
          ramData := shiftReg;
          ramAddr := addr;
          ramWe := true;
          written := written + [(ramAddr, ramData)];
          addr := if addr + 1 == size then 0 else addr + 1;
          byteCount := 0;
          NextAddress(|whole| / 4, size);
          whole, pending := whole + pending, [];
          assert whole + pending == whole;
          NothingAssembled(shiftReg);
        } else {
          byteCount := byteCount + 1;
          WritesPending(whole, pending, size);
        }
      }
    }
  }

  lemma NothingAssembled(shiftReg: Word)
    ensures Assembles(shiftReg, [])
  {}

  lemma {:induction false} NextAddress(n: nat, size: nat)
    requires size > 0
    ensures Modulo(n + 1, size) == if Modulo(n, size) + 1 == size then 0 else Modulo(n, size) + 1
    decreases n
  {
    if n >= size {
      NextAddress(n - size, size);
    }
  }

  /** Sending a program's bytes to a memory that can hold it writes every word to its place. */
  lemma LoadsProgram(p: seq<Word>, size: nat)
    requires |p| <= size && size > 0
    ensures Writes(ProgramBytes(p), size) == seq(|p|, k requires 0 <= k < |p| => (k, p[k]))
  {
    hide WordsOf, ProgramBytes;
    WordsOfProgram(p);
  }
}
