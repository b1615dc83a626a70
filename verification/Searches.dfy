/**
 What the list benchmark computes, on values: the searches that rearrange the list, and the
 checksum over what follows. No list is changed here.
 */
module Searches {
  import opened Comparators
  import opened CoreLists
  import opened Mergesort
  import opened StableSorting
  import Crc

  /** What a node's datum holds. */
  datatype Item = Item(data16: U16, idx: S16)

  type Contents = map<ListHead, Item>

  /** The contents of a list's nodes as they are now. */
  ghost function ContentsOf(s: seq<ListHead>): Contents
    reads s`info, Data(s)`data16, Data(s)`idx
  {
    map x | x in s :: Item(x.info.data16, x.info.idx)
  }

  function Lookup(item: Contents, x: ListHead): Item {
    if x in item then item[x] else Item(0, 0)
  }

  function Pick(item: Contents, order: seq<ListHead>): (items: seq<Item>)
    ensures |items| == |order|
  {
    seq(|order|, i requires 0 <= i < |order| => Lookup(item, order[i]))
  }

  /** By index, or by the low byte of the datum when the index sought is negative. */
  predicate Fits(d: Item, sought: Item) {
    if sought.idx >= 0 then d.idx == sought.idx else d.data16 % 0x100 == sought.data16
  }

  /** The place of the first item that fits, or else the number of items. */
  function FirstFit(items: seq<Item>, sought: Item): (at: nat)
    ensures at <= |items|
    ensures at < |items| ==> Fits(items[at], sought)
    ensures forall i :: 0 <= i < at ==> !Fits(items[i], sought)
  {
    if items == [] || Fits(items[0], sought) then 0 else 1 + FirstFit(items[1..], sought)
  }

  lemma FirstFitUnique(items: seq<Item>, sought: Item, at: nat)
    requires at <= |items| && (at < |items| ==> Fits(items[at], sought))
    requires forall i :: 0 <= i < at ==> !Fits(items[i], sought)
    ensures FirstFit(items, sought) == at
  {
    hide Fits;
  }

  // ----- the searches -----

  /** Bit `n` of a datum. */
  function BitOf(v: U16, n: nat): U16
    requires n == 0 || n == 8 || n == 9
  {
    if n == 0 then v % 2 else if n == 8 then v / 0x100 % 2 else v / 0x200 % 2
  }

  /** What one search adds to the score, from the datum found or else from the list's second one. */
  function Score(hit: bool, found: U16, second: U16): U16 {
    if !hit then BitOf(second, 8) else if BitOf(found, 0) == 1 then BitOf(found, 9) else 0
  }

  /** Where the searches stand: the order of the nodes, the score, and how many searches were successful. */
  datatype Hunt = Hunt(order: seq<ListHead>, score: U16, found: nat)

  /** One search: the list is reversed, and what then follows the node found moves up behind the head. */
  function HuntOnce(item: Contents, h: Hunt, sought: Item): (h': Hunt)
    ensures |h'.order| == |h.order| && h.found <= h'.found <= h.found + 1
  {
    var items, reversed := Pick(item, h.order), Reverse(h.order);
    var at := FirstFit(items, sought);
    var second := if |items| > 1 then Pick(item, reversed)[1].data16 else 0;
    if at < |items| then
      Hunt(MovedUp(reversed, |items| - 1 - at), WrapU16(h.score + Score(true, items[at].data16, second)), h.found + 1)
    else
      Hunt(reversed, WrapU16(h.score + Score(false, 0, second)), h.found)
  }

  /** The index sought after `n` searches: one more each time, until it wraps around. */
  function IndexAfter(finderIdx: S16, n: nat): S16 {
    if finderIdx < 0 then finderIdx else if finderIdx + n < 0x8000 then finderIdx + n else -0x8000
  }

  lemma IndexGrows(finderIdx: S16, n: nat)
    ensures IndexAfter(finderIdx, 0) == finderIdx
    ensures IndexAfter(finderIdx, n + 1)
         == if IndexAfter(finderIdx, n) >= 0 then WrapS16(IndexAfter(finderIdx, n) + 1) else IndexAfter(finderIdx, n)
  {}

  /** After the first `n` searches. */
  function Hunted(item: Contents, s: seq<ListHead>, finderIdx: S16, n: nat): (h: Hunt)
    ensures |h.order| == |s| && h.found <= n
  {
    if n == 0 then Hunt(s, 0, 0)
    else HuntOnce(item, Hunted(item, s, finderIdx, n - 1), Item(WrapU16(n - 1) % 0x100, IndexAfter(finderIdx, n - 1)))
  }

  /** How many searches there are. */
  function SearchCount(findNum: S16): nat {
    if findNum > 0 then findNum else 0
  }

  /** The key in force when the searches are over. */
  function LastKey(finderIdx: S16, n: nat): Item {
    Item(if n == 0 then 0 else WrapU16(n - 1) % 0x100, IndexAfter(finderIdx, n))
  }

  lemma HuntedNone(item: Contents, s: seq<ListHead>, finderIdx: S16)
    ensures Hunted(item, s, finderIdx, 0) == Hunt(s, 0, 0) && LastKey(finderIdx, 0) == Item(0, finderIdx)
  {}

  lemma HuntedMore(item: Contents, s: seq<ListHead>, finderIdx: S16, n: nat)
    ensures Hunted(item, s, finderIdx, n + 1)
         == HuntOnce(item, Hunted(item, s, finderIdx, n), Item(WrapU16(n) % 0x100, LastKey(finderIdx, n).idx))
    ensures LastKey(finderIdx, n + 1) == Item(WrapU16(n) % 0x100, IndexAfter(finderIdx, n + 1))
    ensures IndexAfter(finderIdx, n + 1)
         == if LastKey(finderIdx, n).idx >= 0 then WrapS16(LastKey(finderIdx, n).idx + 1) else LastKey(finderIdx, n).idx
  {
    hide HuntOnce, WrapU16;
    IndexGrows(finderIdx, n);
  }

  /**
   What one search contributes to the result: 4 for a hit, and one more if bits 0 and 9 of the datum
   found are set; -1 for a miss, and one more if bit 8 of the last datum but one is set, which is the
   second when the list has been reversed.
   */
  function Gain(items: seq<Item>, sought: Item): int {
    var at := FirstFit(items, sought);
    if at < |items| then 4 + if items[at].data16 % 2 == 1 then items[at].data16 / 0x200 % 2 else 0
    else (if |items| > 1 then items[|items| - 2].data16 / 0x100 % 2 else 0) - 1
  }

  /** The contributions of the first `n` searches, each for its number's low byte or its index. */
  function Gains(item: Contents, s: seq<ListHead>, finderIdx: S16, n: nat): int {
    if n == 0 then 0
    else
      Gains(item, s, finderIdx, n - 1)
      + Gain(Pick(item, Hunted(item, s, finderIdx, n - 1).order), Item((n - 1) % 0x100, IndexAfter(finderIdx, n - 1)))
  }

  /** One search adds to the score what it contributes, apart from the 4 or -1 that is added in the end. */
  lemma ScoreGrows(item: Contents, h: Hunt, sought: Item)
    ensures var h' := HuntOnce(item, h, sought);
            var end := if h'.found > h.found then 4 else 0 - 1;
            (h'.score - h.score - (Gain(Pick(item, h.order), sought) - end)) % 0x1_0000 == 0
  {
    hide FirstFit, MovedUp, Reverse, Pick;
    SecondOfReversed(item, h.order);
  }

  lemma SecondOfReversed(item: Contents, order: seq<ListHead>)
    ensures |order| > 1 ==>
              Pick(item, Reverse(order))[1].data16 == Pick(item, order)[|order| - 2].data16
  {}

  /**
   The result after `n` searches, computed from the score and the numbers of hits and misses, is the
   sum of what the searches contribute, modulo 2^16.
   */
  lemma ResultIsSum(item: Contents, s: seq<ListHead>, finderIdx: S16, n: nat)
    ensures var h := Hunted(item, s, finderIdx, n);
            WrapU16(h.score + h.found * 4 - (n - h.found)) == WrapU16(Gains(item, s, finderIdx, n))
  {
    hide Hunted, Gains;
    ScoreIsSum(item, s, finderIdx, n);
    var h := Hunted(item, s, finderIdx, n);
    WrapCongruent(h.score + h.found * 4 - (n - h.found), Gains(item, s, finderIdx, n));
  }

  lemma WrapCongruent(x: int, y: int)
    requires (x - y) % 0x1_0000 == 0
    ensures WrapU16(x) == WrapU16(y)
  {}

  lemma SumsOfMultiples(x: int, y: int)
    requires x % 0x1_0000 == 0 && y % 0x1_0000 == 0
    ensures (x + y) % 0x1_0000 == 0
  {}

  lemma {:induction false} ScoreIsSum(item: Contents, s: seq<ListHead>, finderIdx: S16, n: nat)
    ensures var h := Hunted(item, s, finderIdx, n);
            (h.score + 4 * h.found - (n - h.found) - Gains(item, s, finderIdx, n)) % 0x1_0000 == 0
  {
    hide HuntOnce, Gain, Gains, Hunted, Pick, IndexAfter, WrapU16;
    if n == 0 {
      NoGains(item, s, finderIdx);
    } else {
      ScoreIsSum(item, s, finderIdx, n - 1);
      var h, sought := Hunted(item, s, finderIdx, n - 1), Item((n - 1) % 0x100, IndexAfter(finderIdx, n - 1));
      var h' := HuntOnce(item, h, sought);
      HuntedNext(item, s, finderIdx, n);
      ScoreGrows(item, h, sought);
      var g, gain := Gains(item, s, finderIdx, n - 1), Gain(Pick(item, h.order), sought);
      var end := if h'.found > h.found then 4 else 0 - 1;
      SumsOfMultiples(h.score + 4 * h.found - (n - 1 - h.found) - g, h'.score - h.score - (gain - end));
    }
  }

  lemma NoGains(item: Contents, s: seq<ListHead>, finderIdx: S16)
    ensures Gains(item, s, finderIdx, 0) == 0 && Hunted(item, s, finderIdx, 0) == Hunt(s, 0, 0)
  {}

  lemma HuntedNext(item: Contents, s: seq<ListHead>, finderIdx: S16, n: nat)
    requires n > 0
    ensures var h, sought := Hunted(item, s, finderIdx, n - 1), Item((n - 1) % 0x100, IndexAfter(finderIdx, n - 1));
            && Hunted(item, s, finderIdx, n) == HuntOnce(item, h, sought)
            && Gains(item, s, finderIdx, n)
            == Gains(item, s, finderIdx, n - 1) + Gain(Pick(item, h.order), sought)
  {
    hide HuntOnce, Gain, Pick, IndexAfter, WrapU16;
    LowByte(n - 1);
  }

  lemma LowByte(k: nat)
    ensures WrapU16(k) % 0x100 == k % 0x100
  {
    assert k == k / 0x1_0000 * 0x1_0000 + WrapU16(k);
  }

  // ----- the sort by result -----

  function ResultKeys(item: Contents, s: seq<ListHead>): map<ListHead, int> {
    map x | x in s :: Low7(Lookup(item, x).data16) as int
  }

  function IndexKeys(item: Contents, s: seq<ListHead>): map<ListHead, int> {
    map x | x in s :: Lookup(item, x).idx as int
  }

  /**
   A positive index has the list sorted by its data's 7-bit results, all of which are cached
   afterwards; otherwise nothing happens.
   */
  ghost predicate SortedByResult(finderIdx: S16, item: Contents, order: seq<ListHead>, item': Contents,
                                 sorted: seq<ListHead>) {
    if finderIdx <= 0 then sorted == order && item' == item
    else
      && IsStableSort(ResultKeys(item', order), order, sorted)
      && item'.Keys == item.Keys
      && forall x :: x in item ==>
           && item'[x].idx == item[x].idx && Cached(item'[x].data16)
           && Evolves(Complex, false, item[x].data16, item'[x].data16)
  }

  // ----- the checksum -----

  function Times(b: Crc.Bits, n: nat): Crc.Bits {
    if n == 0 then [] else Times(b, n - 1) + b
  }

  /** The same datum added to a checksum `n` times. */
  function Repeated(datum: U16, n: nat, crc: Crc.Register): Crc.Register {
    Crc.Fold(Times(Crc.BitsOf(datum, 16), n), crc)
  }

  /** How many nodes the first checksum counts: those from the first that fits, of a list without its second datum. */
  function Counted(items: seq<Item>, sought: Item): nat
    requires |items| >= 3
  {
    var without := Without(items, 1);
    var at := FirstFit(without, sought);
    |without| - if at < |without| then at else 1
  }

  /**
   Of a list without its second datum, place `k` is the first that fits, or else there is none and
   `k` is the number of places: the nodes from there on are counted, or all but the head.
   */
  lemma CountedNodes(items: seq<Item>, sought: Item, k: nat)
    requires |items| >= 3 && k <= |items| - 1
    requires (k > 0 ==> !Fits(items[0], sought)) && forall i :: 2 <= i <= k ==> !Fits(items[i], sought)
    requires k < |items| - 1 ==> Fits(items[if k == 0 then 0 else k + 1], sought)
    ensures Counted(items, sought) == if k < |items| - 1 then |items| - 1 - k else |items| - 2
  {
    hide Fits, FirstFit;
    var without := Without(items, 1);
    forall i: nat | i < |without| ensures without[i] == items[if i == 0 then 0 else i + 1] {
      assert without[i] == if i < 1 then items[..1][i] else items[2..][i - 1];
    }
    forall i | 0 <= i < k ensures !Fits(without[i], sought) {
      assert i > 0 ==> without[i] == items[i + 1];
    }
    FirstFitUnique(without, sought, k);
  }

  /** The checksum of the list without its second datum, on top of an earlier one. */
  function FirstChecksum(items: seq<Item>, sought: Item, crc: Crc.Register): Crc.Register
    requires |items| >= 3
  {
    Repeated(items[0].data16, Counted(items, sought), crc)
  }
}
