/** The state machine benchmark: scanning a buffer of comma-separated tokens. */
module CoreState {
  import opened TokenForms
  import opened Words
  import Crc
  import R = Multiples

  /** The place of a state in the counter arrays. */
  function Code(s: State): (k: nat)
    ensures k < 8
  {
    match s
    case CORE_START => 0
    case CORE_INVALID => 1
    case CORE_S1 => 2
    case CORE_S2 => 3
    case CORE_INT => 4
    case CORE_FLOAT => 5
    case CORE_EXPONENT => 6
    case CORE_SCIENTIFIC => 7
  }

  type Counts = s: seq<Word> | |s| == 8 witness seq(8, _ => 0)

  function Bump(c: Counts, s: State): Counts {
    c[Code(s) := Wrap(c[Code(s)] as int + 1)]
  }

  /** The transition counters after one more character; a state is not counted while it repeats. */
  function Count(c: Counts, s: State, x: Byte): Counts {
    match s
    case CORE_START => Bump(if Next(s, x) == CORE_INVALID then Bump(c, CORE_INVALID) else c, CORE_START)
    case CORE_INVALID => c
    case CORE_SCIENTIFIC => if IsDigit(x) then c else Bump(c, CORE_INVALID)
    case CORE_INT => if IsDigit(x) then c else Bump(c, s)
    case CORE_FLOAT => if IsDigit(x) then c else Bump(c, s)
    case _ => Bump(c, s)
  }

  function Counted(c: Counts, t: Text): Counts
    decreases |t|
  {
    if t == [] then c
    else
      var init := t[..|t| - 1];
      Count(Counted(c, init), Recognised(init), t[|t| - 1])
  }

  /** The first comma from `from` on, or else the end. */
  function TokenEnd(t: Text, from: nat): (e: nat)
    requires from <= |t|
    ensures from <= e <= |t|
    ensures forall i :: from <= i < e ==> t[i] != COMMA
    ensures e < |t| ==> t[e] == COMMA
    decreases |t| - from
  {
    if from == |t| || t[from] == COMMA then from else TokenEnd(t, from + 1)
  }

  /**
   A call that starts at `from` returns `s` and leaves the pointer at `to`: either it took
   the token up to its comma or the end, and its form is that of `s`, or it stopped behind
   the first character that made it invalid.
   */
  ghost predicate Consumes(t: Text, from: nat, to: nat, s: State) {
    && from <= to <= |t|
    && var e := TokenEnd(t, from);
       if s != CORE_INVALID then HasForm(s, t[from..e]) && to == (if e < |t| then e + 1 else e)
       else from < to <= e && !Viable(t[from..to]) && forall k :: from <= k < to ==> Viable(t[from..k])
  }

  /** The characters a call looks at before it returns. */
  function Seen(t: Text, from: nat, to: nat, s: State): Text
    requires from <= to <= |t|
  {
    if s == CORE_INVALID then t[from..to] else t[from..TokenEnd(t, from)]
  }

  /** The buffer up to its first NUL. */
  ghost predicate Holds(mem: array<Byte>, t: Text)
    reads mem
  {
    |t| < mem.Length && mem[|t|] == 0 && forall i :: 0 <= i < |t| ==> mem[i] == t[i] && t[i] != 0
  }

  /** One character: the next state, and the counters. */
  method Transition(state: State, nextSymbol: Byte, transitionCount: array<Word>) returns (next: State)
    requires transitionCount.Length == 8
    modifies transitionCount
    ensures next == Next(state, nextSymbol)
    ensures transitionCount[..] == Count(old(transitionCount[..]), state, nextSymbol)
  {
    next := state;
    match state {
      case CORE_START =>
        if IsDigit(nextSymbol) {
          next := CORE_INT;
        } else if nextSymbol == PLUS || nextSymbol == MINUS {
          next := CORE_S1;
        } else if nextSymbol == POINT {
          next := CORE_FLOAT;
        } else {
          next := CORE_INVALID;
          Increment(transitionCount, CORE_INVALID);
        }
        Increment(transitionCount, CORE_START);
      case CORE_S1 =>
        if IsDigit(nextSymbol) {
          next := CORE_INT;
          Increment(transitionCount, CORE_S1);
        } else if nextSymbol == POINT {
          next := CORE_FLOAT;
          Increment(transitionCount, CORE_S1);
        } else {
          next := CORE_INVALID;
          Increment(transitionCount, CORE_S1);
        }
      case CORE_INT =>
        if nextSymbol == POINT {
          next := CORE_FLOAT;
          Increment(transitionCount, CORE_INT);
        } else if !IsDigit(nextSymbol) {
          next := CORE_INVALID;
          Increment(transitionCount, CORE_INT);
        }
      case CORE_FLOAT =>
        if IsE(nextSymbol) {
          next := CORE_S2;
          Increment(transitionCount, CORE_FLOAT);
        } else if !IsDigit(nextSymbol) {
          next := CORE_INVALID;
          Increment(transitionCount, CORE_FLOAT);
        }
      case CORE_S2 =>
        if nextSymbol == PLUS || nextSymbol == MINUS {
          next := CORE_EXPONENT;
          Increment(transitionCount, CORE_S2);
        } else {
          next := CORE_INVALID;
          Increment(transitionCount, CORE_S2);
        }
      case CORE_EXPONENT =>
        if IsDigit(nextSymbol) {
          next := CORE_SCIENTIFIC;
          Increment(transitionCount, CORE_EXPONENT);
        } else {
          next := CORE_INVALID;
          Increment(transitionCount, CORE_EXPONENT);
        }
      case CORE_SCIENTIFIC =>
        if !IsDigit(nextSymbol) {
          next := CORE_INVALID;
          Increment(transitionCount, CORE_INVALID);
        }
      case CORE_INVALID =>
    }
  }

  method Increment(counts: array<Word>, s: State)
    requires counts.Length == 8
    modifies counts
    ensures counts[..] == Bump(old(counts[..]), s)
  {
    counts[Code(s)] := Wrap(counts[Code(s)] as int + 1);
  }

  /** The class of the token at `instr`, and where the next one starts. */
  method CoreStateTransition(mem: array<Byte>, instr: nat, transitionCount: array<Word>, ghost t: Text)
    returns (str: nat, state: State)
    requires Holds(mem, t) && instr <= |t| && transitionCount.Length == 8
    modifies transitionCount
    ensures instr <= str <= |t| && Consumes(t, instr, str, state)
    ensures str > instr || instr == |t|
    ensures transitionCount[..] == Counted(old(transitionCount[..]), Seen(t, instr, str, state))
  {
    hide HasForm, Count, Counted, Recognised, Next;
    str := instr;
    state := CORE_START;
    assert t[instr..instr] == [];
    ghost var counts := transitionCount[..];
    NothingCounted(counts);
    while mem[str] != 0 && state != CORE_INVALID
      invariant instr <= str <= TokenEnd(t, instr)
      invariant state == Recognised(t[instr..str])
      invariant forall k :: instr <= k < str ==> Recognised(t[instr..k]) != CORE_INVALID
      invariant transitionCount[..] == Counted(counts, t[instr..str])
      decreases |t| - str
    {
      var nextSymbol := mem[str];
      if nextSymbol == COMMA {
        ReadToComma(t, instr, str, state);
        str := str + 1;
        return;
      }
      assert t[instr..str + 1] == t[instr..str] + [nextSymbol];
      CountedMore(counts, t[instr..str], nextSymbol);
      state := Transition(state, nextSymbol, transitionCount);
      str := str + 1;
    }
    if state == CORE_INVALID {
      ReadInvalid(t, instr, str);
    } else {
      assert str == |t|;
      assert t[instr..str] == t[instr..];
      ReadToEnd(t, instr, state);
    }
  }

  lemma NothingCounted(c: Counts)
    ensures Counted(c, []) == c && Recognised([]) == CORE_START
  {}

  lemma ReadToComma(t: Text, instr: nat, str: nat, state: State)
    requires instr <= str < |t| && t[str] == COMMA && str <= TokenEnd(t, instr)
    requires state == Recognised(t[instr..str]) && state != CORE_INVALID
    ensures TokenEnd(t, instr) == str && Consumes(t, instr, str + 1, state)
  {
    StatesAreForms(t[instr..str], state);
    hide HasForm, Recognised;
  }

  lemma ReadToEnd(t: Text, instr: nat, state: State)
    requires instr <= |t| && TokenEnd(t, instr) == |t|
    requires state == Recognised(t[instr..]) && state != CORE_INVALID
    ensures Consumes(t, instr, |t|, state)
  {
    assert t[instr..|t|] == t[instr..];
    StatesAreForms(t[instr..], state);
    hide HasForm, Recognised;
  }

  lemma NothingRead(t: Text, instr: nat)
    requires instr <= |t|
    ensures Recognised(t[instr..instr]) == CORE_START
  {
    assert t[instr..instr] == [];
  }

  lemma ReadInvalid(t: Text, instr: nat, str: nat)
    requires instr <= |t| && instr <= str <= TokenEnd(t, instr) && Recognised(t[instr..str]) == CORE_INVALID
    requires forall k :: instr <= k < str ==> Recognised(t[instr..k]) != CORE_INVALID
    ensures Consumes(t, instr, str, CORE_INVALID)
  {
    NothingRead(t, instr);
    forall k | instr <= k <= str ensures Recognised(t[instr..k]) == CORE_INVALID <==> !Viable(t[instr..k]) {
      InvalidIsUnviable(t[instr..k]);
    }
    hide Viable, Recognised;
  }

  lemma CountedMore(c: Counts, t: Text, x: Byte)
    ensures Counted(c, t + [x]) == Count(Counted(c, t), Recognised(t), x)
    ensures Recognised(t + [x]) == Next(Recognised(t), x)
  {
    var u := t + [x];
    assert u[..|u| - 1] == t;
  }

  // ----- what the transition counters count -----

  /**
   Place `k` of a call's text counts for a state: for INVALID, if the text becomes invalid there
   from START or SCIENTIFIC; for SCIENTIFIC, never; for another state, if it is left there.
   */
  predicate CountsFor(t: Text, s: State, k: nat)
    requires k < |t|
  {
    var before, after := Recognised(t[..k]), Recognised(t[..k + 1]);
    match s
    case CORE_INVALID => after == CORE_INVALID && (before == CORE_START || before == CORE_SCIENTIFIC)
    case CORE_SCIENTIFIC => false
    case _ => before == s && after != s
  }

  ghost function PlacesOf(t: Text, s: State): set<nat> {
    set k: nat | k < |t| && CountsFor(t, s, k)
  }

  /** A call adds to each state's counter the number of places that count for the state. */
  lemma {:induction false} CountedPlaces(c: Counts, t: Text, s: State)
    ensures Counted(c, t)[Code(s)] == Wrap(c[Code(s)] as int + |PlacesOf(t, s)|)
    decreases |t|
  {
    hide CountsFor, Count, Recognised, Next, Code, Wrap;
    if t == [] {
      assert PlacesOf(t, s) == {};
      WrapWord(c[Code(s)]);
    } else {
      var n := |t| - 1;
      CountedPlaces(c, t[..n], s);
      PlacesGrow(t, s);
      CountedAt(Counted(c, t[..n]), t, s);
      WrapTwice(c[Code(s)] as int + |PlacesOf(t[..n], s)|, if CountsFor(t, s, n) then 1 else 0);
    }
  }

  lemma WrapWord(w: Word)
    ensures Wrap(w as int + 0) == w
  {}

  lemma PlacesGrow(t: Text, s: State)
    requires t != []
    ensures var n := |t| - 1;
            |PlacesOf(t, s)| == |PlacesOf(t[..n], s)| + if CountsFor(t, s, n) then 1 else 0
  {
    hide CountsFor;
    var n := |t| - 1;
    forall k: nat | k < n ensures CountsFor(t[..n], s, k) <==> CountsFor(t, s, k) {
      SamePlace(t, s, n, k);
    }
    var places, places0 := PlacesOf(t, s), PlacesOf(t[..n], s);
    if CountsFor(t, s, n) {
      assert places == places0 + {n};
    } else {
      assert places == places0;
    }
  }

  lemma SamePlace(t: Text, s: State, n: nat, k: nat)
    requires k < n <= |t|
    ensures CountsFor(t[..n], s, k) <==> CountsFor(t, s, k)
  {
    hide Recognised;
    assert t[..n][..k] == t[..k] && t[..n][..k + 1] == t[..k + 1];
  }

  /** One character adds one to the counter of the state for which its place counts. */
  lemma CountedAt(c: Counts, t: Text, s: State)
    requires t != []
    ensures var n := |t| - 1;
            Count(c, Recognised(t[..n]), t[n])[Code(s)] == Wrap(c[Code(s)] as int + if CountsFor(t, s, n) then 1 else 0)
  {
    var n := |t| - 1;
    assert t[..n + 1] == t;
    CodesDiffer();
    WrapWord(c[Code(s)]);
    RecognisedLast(t);
    hide Code, Wrap, Recognised;
    BumpedAt(c, CORE_INVALID, s);
    BumpedAt(c, Recognised(t[..n]), s);
    BumpedAt(Bump(c, CORE_INVALID), CORE_START, s);
  }

  lemma RecognisedLast(t: Text)
    requires t != []
    ensures Recognised(t) == Next(Recognised(t[..|t| - 1]), t[|t| - 1])
  {}

  lemma BumpedAt(c: Counts, r: State, s: State)
    ensures Bump(c, r)[Code(s)] == if r == s then Wrap(c[Code(s)] as int + 1) else c[Code(s)]
  {
    CodesDiffer();
  }

  // ----- the whole buffer -----

  /** How many of the calls returned `s`. */
  function Occurs(states: seq<State>, s: State): (n: nat)
    ensures n <= |states|
    decreases |states|
  {
    if states == [] then 0
    else Occurs(states[..|states| - 1], s) + if states[|states| - 1] == s then 1 else 0
  }

  /** Call after call: where the pointer stood, and what was returned. */
  ghost predicate Partitions(t: Text, cuts: seq<nat>, states: seq<State>) {
    && |cuts| == |states| + 1 && cuts[0] == 0
    && (forall k :: 0 <= k < |cuts| ==> cuts[k] <= |t|)
    && (forall k :: 0 <= k < |states| ==> cuts[k] < cuts[k + 1] && Consumes(t, cuts[k], cuts[k + 1], states[k]))
  }

  /** The transition counters after those calls: each counts what it looks at. */
  ghost function Tracked(c: Counts, t: Text, cuts: seq<nat>, states: seq<State>): Counts
    requires Partitions(t, cuts, states)
    decreases |states|
  {
    if states == [] then c
    else
      var n := |states| - 1;
      Counted(Tracked(c, t, cuts[..n + 1], states[..n]), Seen(t, cuts[n], cuts[n + 1], states[n]))
  }

  /** How many places count for a state, in all calls. */
  ghost function PlacesAll(t: Text, cuts: seq<nat>, states: seq<State>, s: State): nat
    requires Partitions(t, cuts, states)
    decreases |states|
  {
    if states == [] then 0
    else
      var n := |states| - 1;
      PlacesAll(t, cuts[..n + 1], states[..n], s) + |PlacesOf(Seen(t, cuts[n], cuts[n + 1], states[n]), s)|
  }

  /** A scan adds to each state's counter the number of places that count for it in all its calls. */
  lemma {:induction false} TrackedPlaces(c: Counts, t: Text, cuts: seq<nat>, states: seq<State>, s: State)
    requires Partitions(t, cuts, states)
    ensures Tracked(c, t, cuts, states)[Code(s)] == Wrap(c[Code(s)] as int + PlacesAll(t, cuts, states, s))
    decreases |states|
  {
    hide Consumes, Counted, Seen, PlacesOf, Code, Wrap;
    if states == [] {
      WrapWord(c[Code(s)]);
    } else {
      var n := |states| - 1;
      TrackedPlaces(c, t, cuts[..n + 1], states[..n], s);
      CountedPlaces(Tracked(c, t, cuts[..n + 1], states[..n]), Seen(t, cuts[n], cuts[n + 1], states[n]), s);
      WrapTwice(c[Code(s)] as int + PlacesAll(t, cuts[..n + 1], states[..n], s),
                |PlacesOf(Seen(t, cuts[n], cuts[n + 1], states[n]), s)|);
    }
  }

  /** Repeated calls take the buffer apart up to its end, and every call is counted under its state. */
  method Scan(mem: array<Byte>, finalCounts: array<Word>, trackCounts: array<Word>, ghost t: Text)
    returns (ghost cuts: seq<nat>, ghost states: seq<State>)
    requires Holds(mem, t) && finalCounts.Length == trackCounts.Length == 8 && finalCounts != trackCounts
    modifies finalCounts, trackCounts
    ensures |cuts| == |states| + 1 && Partitions(t, cuts, states) && cuts[|states|] == |t|
    ensures forall s :: finalCounts[Code(s)] == Wrap(old(finalCounts[Code(s)]) as int + Occurs(states, s))
    ensures trackCounts[..] == Tracked(old(trackCounts[..]), t, cuts, states)
  {
    hide Consumes, Counted, Seen, Wrap, Code;
    var p := 0;
    cuts, states := [0], [];
    Uncounted(old(finalCounts[..]));
    CodesDiffer();
    while mem[p] != 0
      invariant p <= |t| && Partitions(t, cuts, states) && cuts[|states|] == p
      invariant forall s :: finalCounts[Code(s)] == Wrap(old(finalCounts[Code(s)]) as int + Occurs(states, s))
      invariant trackCounts[..] == Tracked(old(trackCounts[..]), t, cuts, states)
      decreases |t| - p
    {
      var q, fstate := CoreStateTransition(mem, p, trackCounts, t);
      forall s ensures Occurs(states + [fstate], s) == Occurs(states, s) + if fstate == s then 1 else 0 {
        assert (states + [fstate])[..|states|] == states;
      }
      CountedOnce(old(finalCounts[Code(fstate)]), Occurs(states, fstate));
      finalCounts[Code(fstate)] := Wrap(finalCounts[Code(fstate)] as int + 1);
      TrackedMore(old(trackCounts[..]), t, cuts, states, q, fstate);
      p := q;
      cuts, states := cuts + [q], states + [fstate];
    }
  }

  lemma TrackedMore(c: Counts, t: Text, cuts: seq<nat>, states: seq<State>, q: nat, s: State)
    requires Partitions(t, cuts, states) && cuts[|states|] < q <= |t| && Consumes(t, cuts[|states|], q, s)
    ensures Partitions(t, cuts + [q], states + [s])
    ensures Tracked(c, t, cuts + [q], states + [s])
        == Counted(Tracked(c, t, cuts, states), Seen(t, cuts[|states|], q, s))
  {
    hide Consumes, Counted, Seen;
    assert (cuts + [q])[..|cuts|] == cuts && (states + [s])[..|states|] == states;
  }

  lemma CodesDiffer()
    ensures forall s, s' :: Code(s) == Code(s') ==> s == s'
  {}

  lemma Uncounted(c: Counts)
    ensures forall s :: Wrap(c[Code(s)] as int + Occurs([], s)) == c[Code(s)]
  {}

  lemma CountedOnce(c: Word, n: nat)
    ensures Wrap(Wrap(c as int + n) as int + 1) == Wrap(c as int + n + 1)
  {}

  /** Every call is counted once: the counters of a scan that starts from zero add up to the number of calls. */
  lemma {:induction false} CountsAddUp(states: seq<State>)
    ensures Occurs(states, CORE_START) + Occurs(states, CORE_INVALID) + Occurs(states, CORE_S1)
          + Occurs(states, CORE_S2) + Occurs(states, CORE_INT) + Occurs(states, CORE_FLOAT)
          + Occurs(states, CORE_EXPONENT) + Occurs(states, CORE_SCIENTIFIC) == |states|
    decreases |states|
  {
    if states != [] {
      CountsAddUp(states[..|states| - 1]);
    }
  }

  /** A partition's pieces make up the scanned text. */
  lemma {:induction false} PiecesMakeText(t: Text, cuts: seq<nat>, states: seq<State>)
    requires Partitions(t, cuts, states)
    ensures Pieces(t, cuts) == t[..cuts[|states|]]
    decreases |states|
  {
    hide Consumes;
    if states != [] {
      var n := |states| - 1;
      var init := cuts[..n + 1];
      assert Partitions(t, init, states[..n]);
      PiecesMakeText(t, init, states[..n]);
      assert t[..cuts[n + 1]] == t[..cuts[n]] + t[cuts[n]..cuts[n + 1]];
    }
  }

  function Pieces(t: Text, cuts: seq<nat>): Text
    requires forall k :: 0 <= k < |cuts| ==> cuts[k] <= |t|
    requires forall k :: 0 <= k < |cuts| - 1 ==> cuts[k] <= cuts[k + 1]
    decreases |cuts|
  {
    if |cuts| <= 1 then []
    else Pieces(t, cuts[..|cuts| - 1]) + t[cuts[|cuts| - 2]..cuts[|cuts| - 1]]
  }

  // ----- corruption and its undoing -----

  function XorByte(a: Byte, b: Byte): Byte {
    ByteSize();
    BitsBelow(8, XorGate, a, b);
    Bits(XorGate, a, b)
  }

  lemma ByteSize()
    ensures Pow2(8) == 0x100
  {
    assert Pow2(4) == 16 && Pow2(8) == 16 * Pow2(4);
  }

  /** Exclusive or with the same number twice changes nothing; with a number other than 0, once always does. */
  lemma {:induction false} XorTwice(a: nat, b: nat)
    ensures Bits(XorGate, Bits(XorGate, a, b), b) == a
    ensures Bits(XorGate, a, b) == a <==> b == 0
    decreases a + b
  {
    if a != 0 || b != 0 {
      XorTwice(a / 2, b / 2);
      var r := Bits(XorGate, a / 2, b / 2);
      var once := Bit(XorGate, a % 2 == 1, b % 2 == 1) + 2 * r;
      assert Bits(XorGate, a, b) == once && once / 2 == r;
    }
  }

  function CorruptedByte(x: Byte, seed: Byte): Byte {
    if x == COMMA then x else XorByte(x, seed)
  }

  /** Every step-th byte that is no comma is changed. */
  function Corrupted(mem: seq<Byte>, step: nat, seed: Byte): (r: seq<Byte>)
    requires step > 0
    ensures |r| == |mem|
  {
    seq(|mem|, i requires 0 <= i < |mem| => if R.Aligned(i, step) then CorruptedByte(mem[i], seed) else mem[i])
  }

  method Corrupt(mem: array<Byte>, step: nat, seed: Byte)
    requires step > 0
    modifies mem
    ensures mem[..] == Corrupted(old(mem[..]), step, seed)
  {
    hide XorByte, CorruptedByte;
    var p := 0;
    ghost var was := mem[..];
    while p < mem.Length
      invariant R.Aligned(p, step)
      invariant forall i: nat :: i < p && i < mem.Length ==> mem[i] == Corrupted(was, step, seed)[i]
      invariant forall i: nat :: p <= i < mem.Length ==> mem[i] == was[i]
      decreases mem.Length - p
    {
      CorruptsOne(mem[p], seed);
      if mem[p] != COMMA {
        mem[p] := XorByte(mem[p], seed);
      }
      forall i: nat | p < i < p + step ensures !R.Aligned(i, step) {
        if R.Aligned(i, step) {
          R.AlignedBelow(p, i, step);
        }
      }
      p := p + step;
    }
  }

  lemma CorruptsOne(x: Byte, seed: Byte)
    ensures CorruptedByte(x, seed) == if x == COMMA then x else XorByte(x, seed)
  {}

  /** A byte that corruption turns into a comma is not turned back. */
  lemma ByteUndone(x: Byte, seed: Byte)
    ensures CorruptedByte(CorruptedByte(x, seed), seed) == x <==> x == COMMA || seed == 0 || XorByte(x, seed) != COMMA
  {
    XorTwice(x, seed);
  }

  /**
   Corrupting twice with the same seed restores the buffer exactly when the seed is 0 or no
   byte at a corrupted place turns into a comma.
   */
  lemma UndoneIff(mem: seq<Byte>, step: nat, seed: Byte)
    requires step > 0
    ensures Corrupted(Corrupted(mem, step, seed), step, seed) == mem <==>
      seed == 0
      || forall i: nat :: i < |mem| && R.Aligned(i, step) && mem[i] != COMMA ==> XorByte(mem[i], seed) != COMMA
  {
    hide XorByte, CorruptedByte;
    var twice := Corrupted(Corrupted(mem, step, seed), step, seed);
    forall i: nat | i < |mem|
      ensures twice[i] == mem[i] <==>
        !R.Aligned(i, step) || mem[i] == COMMA || seed == 0 || XorByte(mem[i], seed) != COMMA
    {
      ByteUndone(mem[i], seed);
    }
  }

  /**
   A buffer and a seed for which the benchmark's undoing fails, though both its scans end and the step is the
   least that its caller uses: the minus sign becomes a comma.
   */
  lemma NotUndone()
    ensures var mem := [MINUS, 0];
      && Terminated(mem) && Terminated(Corrupted(mem, 0x22, 1))
      && Corrupted(Corrupted(mem, 0x22, 1), 0x22, 1) != mem
  {
    var mem := [MINUS, 0];
    assert Corrupted(mem, 0x22, 1)[1] == 0;
    hide Corrupted, XorByte;
    MinusToComma();
    UndoneIff(mem, 0x22, 1);
    assert R.Aligned(0, 0x22) && mem[0] != COMMA;
  }

  lemma MinusToComma()
    ensures XorByte(MINUS, 1) == COMMA
  {
    XorTwice(0x16, 0);
    hide Pow2;
    assert Bits(XorGate, 0x2D, 1) == 2 * Bits(XorGate, 0x16, 0);
  }

  /** One of the benchmark's scientific patterns, -87e+832, is no number: the point is missing. */
  lemma PatternRejected(rest: Text)
    ensures Recognised([MINUS, 0x38, 0x37, 0x65] + rest) == CORE_INVALID
  {
    hide Recognised;
    var c := seq(8, _ => 0);
    NothingCounted(c);
    CountedMore(c, [], MINUS);
    CountedMore(c, [MINUS], 0x38);
    CountedMore(c, [MINUS, 0x38], 0x37);
    CountedMore(c, [MINUS, 0x38, 0x37], 0x65);
    assert [] + [MINUS] == [MINUS] && [MINUS] + [0x38] == [MINUS, 0x38];
    assert [MINUS, 0x38] + [0x37] == [MINUS, 0x38, 0x37] && [MINUS, 0x38, 0x37] + [0x65] == [MINUS, 0x38, 0x37, 0x65];
    InvalidStays([MINUS, 0x38, 0x37, 0x65], rest);
  }

  // ----- the benchmark -----

  /** The bits of the first `n` final and transition counters, in the order they are checksummed. */
  function CountBits(f: Counts, t: Counts, n: nat): Crc.Bits
    requires n <= 8
  {
    if n == 0 then [] else CountBits(f, t, n - 1) + Crc.BitsOf(f[n - 1], 32) + Crc.BitsOf(t[n - 1], 32)
  }

  /** The buffer ends with a NUL somewhere. */
  ghost predicate Terminated(s: seq<Byte>) {
    0 in s
  }

  function UpToNul(s: seq<Byte>): (t: Text)
    ensures |t| <= |s| && t == s[..|t|] && (forall i :: 0 <= i < |t| ==> t[i] != 0)
    ensures 0 in s ==> |t| < |s| && s[|t|] == 0
  {
    if s == [] || s[0] == 0 then [] else [s[0]] + UpToNul(s[1..])
  }

  /**
   Scans the buffer as it is and corrupted, and undoes the corruption. The corrupted buffer
   must still end, or the second scan would leave it.
   */
  method CoreBenchState(mem: array<Byte>, seed1: Byte, seed2: Byte, step: nat, crc: Crc.Register)
    returns (r: Crc.Register, ghost first: seq<State>, ghost cuts1: seq<nat>, ghost second: seq<State>,
             ghost cuts2: seq<nat>, ghost finals: Counts, ghost tracks: Counts)
    requires step > 0 && Terminated(mem[..]) && Terminated(Corrupted(mem[..], step, seed1))
    modifies mem
    ensures mem[..] == Corrupted(Corrupted(old(mem[..]), step, seed1), step, seed2)
    ensures var text := UpToNul(old(mem[..])); Partitions(text, cuts1, first) && cuts1[|first|] == |text|
    ensures var text := UpToNul(Corrupted(old(mem[..]), step, seed1));
            Partitions(text, cuts2, second) && cuts2[|second|] == |text|
    ensures forall s :: finals[Code(s)] == Wrap(Occurs(first, s) + Occurs(second, s))
    ensures tracks == Tracked(Tracked(seq(8, _ => 0), UpToNul(old(mem[..])), cuts1, first),
                              UpToNul(Corrupted(old(mem[..]), step, seed1)), cuts2, second)
    ensures r == Crc.Fold(CountBits(finals, tracks, 8), crc)
  {
    hide Corrupted, Partitions, Occurs, Wrap, Code, CountBits, Tracked, Crc.Fold, Crc.BitsOf;
    var finalCounts, trackCounts := new Word[8](_ => 0), new Word[8](_ => 0);
    assert trackCounts[..] == seq(8, _ => 0);
    cuts1, first := Scan(mem, finalCounts, trackCounts, UpToNul(mem[..]));
    assert mem[..] == old(mem[..]);
    Corrupt(mem, step, seed1);
    ghost var corrupted := mem[..];
    assert corrupted == Corrupted(old(mem[..]), step, seed1);
    ghost var text := UpToNul(corrupted);
    cuts2, second := Scan(mem, finalCounts, trackCounts, text);
    assert mem[..] == corrupted;
    Corrupt(mem, step, seed2);
    finals, tracks := finalCounts[..], trackCounts[..];
    forall s ensures finals[Code(s)] == Wrap(Occurs(first, s) + Occurs(second, s)) {
      WrapTwice(Occurs(first, s), Occurs(second, s));
    }
    r := crc;
    NoCounts(finals, tracks, crc);
    for i := 0 to 8
      modifies {}
      invariant r == Crc.Fold(CountBits(finals, tracks, i), crc)
    {
      CountBitsGrow(finals, tracks, i, crc);
      r := Crc.CrcU32(finalCounts[i], r);
      r := Crc.CrcU32(trackCounts[i], r);
    }
  }

  lemma NoCounts(f: Counts, t: Counts, crc: Crc.Register)
    ensures Crc.Fold(CountBits(f, t, 0), crc) == crc
  {}

  lemma CountBitsGrow(f: Counts, t: Counts, n: nat, crc: Crc.Register)
    requires n < 8
    ensures Crc.Fold(CountBits(f, t, n + 1), crc)
         == Crc.Fold(Crc.BitsOf(t[n], 32), Crc.Fold(Crc.BitsOf(f[n], 32), Crc.Fold(CountBits(f, t, n), crc)))
  {
    hide Crc.BitsOf, Crc.Fold;
    Crc.FoldAppend(CountBits(f, t, n) + Crc.BitsOf(f[n], 32), Crc.BitsOf(t[n], 32), crc);
    Crc.FoldAppend(CountBits(f, t, n), Crc.BitsOf(f[n], 32), crc);
  }

  lemma WrapTwice(m: nat, n: nat)
    ensures Wrap(Wrap(Wrap(0 + m) as int + n)) == Wrap(m + n)
    ensures Wrap(Wrap(0 + m) as int + n) == Wrap(m + n)
  {}
}
