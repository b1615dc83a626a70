/** Words as four bytes, least significant first. */
module Bytes {
  import opened Words

  type Byte = x: int | 0 <= x < 0x100

  function BytesOf(w: Word): (b: seq<Byte>)
    ensures |b| == 4
  {
    [w % 0x100, w / 0x100 % 0x100, w / 0x1_0000 % 0x100, w / 0x100_0000 % 0x100]
  }

  function WordOf(b: seq<Byte>): Word
    requires |b| == 4
  {
    (b[0] as int) + 0x100 * (b[1] as int) + 0x1_0000 * (b[2] as int) + 0x100_0000 * (b[3] as int)
  }

  lemma WordOfBytes(w: Word)
    ensures WordOf(BytesOf(w)) == w
  {
    SplitWord(w, w / 0x100, w / 0x1_0000, w / 0x100_0000);
  }

  lemma SplitWord(w: Word, w1: nat, w2: nat, w3: nat)
    requires w1 == w / 0x100 && w2 == w1 / 0x100 && w3 == w2 / 0x100
    ensures w1 % 0x100 == w1 - 0x100 * w2 && w2 % 0x100 == w2 - 0x100 * w3 && w % 0x100 == w - 0x100 * w1 && w3 < 0x100
  {
  }

  /** The bytes of a program, as they are sent or stored. */
  function ProgramBytes(p: seq<Word>): (b: seq<Byte>)
    ensures |b| == 4 * |p|
  {
    if p == [] then [] else BytesOf(p[0]) + ProgramBytes(p[1..])
  }

  /** The words that complete groups of four bytes make; what is left over makes none. */
  function WordsOf(b: seq<Byte>): (p: seq<Word>)
    ensures |p| == |b| / 4
    decreases |b|
  {
    if |b| < 4 then [] else [WordOf(b[..4])] + WordsOf(b[4..])
  }

  lemma {:induction false} WordsOfProgram(p: seq<Word>)
    ensures WordsOf(ProgramBytes(p)) == p
  {
    if p != [] {
      var b := ProgramBytes(p);
      assert b[..4] == BytesOf(p[0]) && b[4..] == ProgramBytes(p[1..]);
      WordOfBytes(p[0]);
      WordsOfProgram(p[1..]);
    }
  }

  /** Four more bytes complete one more word. */
  lemma {:induction false} WordCompleted(b: seq<Byte>, last: seq<Byte>)
    requires |b| % 4 == 0 && |last| == 4
    ensures WordsOf(b + last) == WordsOf(b) + [WordOf(last)]
    decreases |b|
  {
    var all := b + last;
    if b == [] {
      assert all[..4] == last && all[4..] == [];
    } else {
      assert all[..4] == b[..4] && all[4..] == b[4..] + last;
      WordCompleted(b[4..], last);
    }
  }

  lemma {:induction false} WordPending(b: seq<Byte>, last: seq<Byte>)
    requires |b| % 4 == 0 && |last| < 4
    ensures WordsOf(b + last) == WordsOf(b)
    decreases |b|
  {
    var all := b + last;
    if b == [] {
    } else {
      assert all[..4] == b[..4] && all[4..] == b[4..] + last;
      WordPending(b[4..], last);
    }
  }
}
