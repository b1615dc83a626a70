/**
 The benchmark's number recogniser as an automaton, and what each of its states means as a
 form of text, stated without the automaton.
 */
module TokenForms {
  import Bytes

  type Byte = Bytes.Byte

  type Text = seq<Byte>

  const COMMA: Byte := 0x2C
  const PLUS: Byte := 0x2B
  const MINUS: Byte := 0x2D
  const POINT: Byte := 0x2E

  datatype State =
    | CORE_START | CORE_INVALID | CORE_S1 | CORE_S2 | CORE_INT | CORE_FLOAT | CORE_EXPONENT | CORE_SCIENTIFIC

  predicate IsDigit(c: Byte) {
    0x30 <= c <= 0x39
  }

  predicate IsSign(c: Byte) {
    c == PLUS || c == MINUS
  }

  predicate IsE(c: Byte) {
    c == 0x45 || c == 0x65
  }

  // ----- the automaton -----

  function Next(s: State, c: Byte): State {
    match s
    case CORE_START =>
      if IsDigit(c) then CORE_INT else if IsSign(c) then CORE_S1 else if c == POINT then CORE_FLOAT else CORE_INVALID
    case CORE_S1 => if IsDigit(c) then CORE_INT else if c == POINT then CORE_FLOAT else CORE_INVALID
    case CORE_INT => if c == POINT then CORE_FLOAT else if IsDigit(c) then CORE_INT else CORE_INVALID
    case CORE_FLOAT => if IsE(c) then CORE_S2 else if IsDigit(c) then CORE_FLOAT else CORE_INVALID
    case CORE_S2 => if IsSign(c) then CORE_EXPONENT else CORE_INVALID
    case CORE_EXPONENT => if IsDigit(c) then CORE_SCIENTIFIC else CORE_INVALID
    case CORE_SCIENTIFIC => if IsDigit(c) then CORE_SCIENTIFIC else CORE_INVALID
    case CORE_INVALID => CORE_INVALID
  }

  /** The state after a text. */
  function Recognised(t: Text): State
    decreases |t|
  {
    if t == [] then CORE_START else Next(Recognised(t[..|t| - 1]), t[|t| - 1])
  }

  // ----- the forms -----

  predicate Digits(t: Text) {
    forall i :: 0 <= i < |t| ==> IsDigit(t[i])
  }

  /** Where an optional sign ends. */
  function SignEnd(t: Text): (k: nat)
    ensures k <= |t|
  {
    if t != [] && IsSign(t[0]) then 1 else 0
  }

  /** An optional sign and at least one digit. */
  predicate IntForm(t: Text) {
    SignEnd(t) < |t| && Digits(t[SignEnd(t)..])
  }

  /** An optional sign, digits, a point, digits; the digits may be missing on either side, or both. */
  predicate FloatForm(t: Text) {
    exists k: nat :: k < |t| && PointAt(t, k)
  }

  predicate PointAt(t: Text, k: nat) {
    SignEnd(t) <= k < |t| && Digits(t[SignEnd(t)..k]) && t[k] == POINT && Digits(t[k + 1..])
  }

  /** A float form followed by e, a sign, and digits: cut off after the e, after the sign, or complete. */
  predicate ScientificForm(t: Text) {
    exists k: nat :: k < |t| && ExponentAt(t, k)
  }

  predicate ExponentAt(t: Text, k: nat) {
    k < |t| - 2 && FloatForm(t[..k]) && IsE(t[k]) && IsSign(t[k + 1]) && Digits(t[k + 2..])
  }

  predicate HasForm(s: State, t: Text) {
    match s
    case CORE_START => t == []
    case CORE_S1 => |t| == 1 && IsSign(t[0])
    case CORE_INT => IntForm(t)
    case CORE_FLOAT => FloatForm(t)
    case CORE_S2 => t != [] && FloatForm(t[..|t| - 1]) && IsE(t[|t| - 1])
    case CORE_EXPONENT => |t| >= 2 && FloatForm(t[..|t| - 2]) && IsE(t[|t| - 2]) && IsSign(t[|t| - 1])
    case CORE_SCIENTIFIC => ScientificForm(t)
    case CORE_INVALID => false
  }

  /** A text that is a number, or the beginning of one. */
  predicate Viable(t: Text) {
    HasForm(CORE_START, t) || HasForm(CORE_S1, t) || HasForm(CORE_INT, t) || HasForm(CORE_FLOAT, t)
    || HasForm(CORE_S2, t) || HasForm(CORE_EXPONENT, t) || HasForm(CORE_SCIENTIFIC, t)
  }

  // ----- one more character -----

  lemma DigitsGrow(u: Text, c: Byte)
    ensures Digits(u + [c]) <==> Digits(u) && IsDigit(c)
  {
    var t := u + [c];
    assert t[|u|] == c;
    assert forall i :: 0 <= i < |u| ==> t[i] == u[i];
  }

  lemma IntGrows(u: Text, c: Byte)
    ensures IntForm(u + [c]) <==> IsDigit(c) && (u == [] || HasForm(CORE_S1, u) || IntForm(u))
  {
    var t, k := u + [c], SignEnd(u + [c]);
    if u == [] {
      assert t == [c];
    } else {
      assert t[0] == u[0] && SignEnd(u) == k;
      assert t[k..] == u[k..] + [c];
      DigitsGrow(u[k..], c);
    }
  }

  lemma FloatGrows(u: Text, c: Byte)
    ensures FloatForm(u + [c]) <==>
      (c == POINT && (u == [] || HasForm(CORE_S1, u) || IntForm(u))) || (IsDigit(c) && FloatForm(u))
  {
    hide PointAt, HasForm, IntForm, IsDigit;
    var t := u + [c];
    if FloatForm(t) {
      var k: nat :| k < |t| && PointAt(t, k);
      PointShrinks(u, c, k);
    }
    if c == POINT && (u == [] || HasForm(CORE_S1, u) || IntForm(u)) {
      PointLast(u, c);
      assert PointAt(t, |u|);
    }
    if IsDigit(c) && FloatForm(u) {
      var k: nat :| k < |u| && PointAt(u, k);
      PointStays(u, c, k);
      assert PointAt(t, k);
    }
  }

  lemma SignStays(u: Text, c: Byte)
    requires u != []
    ensures SignEnd(u + [c]) == SignEnd(u)
  {
    assert (u + [c])[0] == u[0];
  }

  lemma PointLast(u: Text, c: Byte)
    requires c == POINT && (u == [] || HasForm(CORE_S1, u) || IntForm(u))
    ensures PointAt(u + [c], |u|)
  {
    hide IsDigit;
    var t := u + [c];
    if u != [] {
      SignStays(u, c);
      assert t[SignEnd(t)..|u|] == u[SignEnd(u)..];
    }
    assert t[|u| + 1..] == [];
  }

  lemma PointStays(u: Text, c: Byte, k: nat)
    requires PointAt(u, k) && IsDigit(c)
    ensures PointAt(u + [c], k)
  {
    hide Digits, IsDigit, SignEnd;
    var t := u + [c];
    SignStays(u, c);
    assert t[SignEnd(t)..k] == u[SignEnd(u)..k] && t[k + 1..] == u[k + 1..] + [c];
    DigitsGrow(u[k + 1..], c);
  }

  lemma PointShrinks(u: Text, c: Byte, k: nat)
    requires PointAt(u + [c], k)
    ensures k == |u| ==> c == POINT && (u == [] || HasForm(CORE_S1, u) || IntForm(u))
    ensures k < |u| ==> IsDigit(c) && FloatForm(u)
  {
    hide IsDigit;
    var t := u + [c];
    if k == |u| {
      if u != [] {
        SignStays(u, c);
        assert t[SignEnd(t)..k] == u[SignEnd(u)..];
      }
    } else {
      PointEarlier(u, c, k);
      assert PointAt(u, k);
    }
  }

  lemma PointEarlier(u: Text, c: Byte, k: nat)
    requires PointAt(u + [c], k) && k < |u|
    ensures IsDigit(c) && PointAt(u, k)
  {
    hide Digits, IsDigit, SignEnd;
    var t := u + [c];
    SignStays(u, c);
    assert t[SignEnd(t)..k] == u[SignEnd(u)..k] && t[k + 1..] == u[k + 1..] + [c];
    DigitsGrow(u[k + 1..], c);
  }

  lemma ScientificGrows(u: Text, c: Byte)
    ensures ScientificForm(u + [c]) <==> IsDigit(c) && (HasForm(CORE_EXPONENT, u) || ScientificForm(u))
  {
    hide ExponentAt, HasForm, IsDigit;
    var t := u + [c];
    if ScientificForm(t) {
      var k: nat :| k < |t| && ExponentAt(t, k);
      ExponentShrinks(u, c, k);
    }
    if IsDigit(c) && HasForm(CORE_EXPONENT, u) {
      ExponentStarts(u, c);
      assert ExponentAt(t, |u| - 2);
    }
    if IsDigit(c) && ScientificForm(u) {
      var k: nat :| k < |u| && ExponentAt(u, k);
      ExponentStays(u, c, k);
      assert ExponentAt(t, k);
    }
  }

  lemma ExponentShrinks(u: Text, c: Byte, k: nat)
    requires ExponentAt(u + [c], k)
    ensures IsDigit(c) && (HasForm(CORE_EXPONENT, u) || ScientificForm(u))
  {
    hide FloatForm, IsE, IsSign, IsDigit, Digits;
    var t := u + [c];
    assert t[..k] == u[..k] && t[k + 2..] == u[k + 2..] + [c];
    DigitsGrow(u[k + 2..], c);
    if k + 2 < |u| {
      assert ExponentAt(u, k);
    }
  }

  lemma ExponentStarts(u: Text, c: Byte)
    requires HasForm(CORE_EXPONENT, u) && IsDigit(c)
    ensures |u| >= 2 && ExponentAt(u + [c], |u| - 2)
  {
    hide FloatForm, IsE, IsSign, IsDigit;
    var t, k := u + [c], |u| - 2;
    assert t[..k] == u[..k] && t[k + 2..] == [c];
  }

  lemma ExponentStays(u: Text, c: Byte, k: nat)
    requires ExponentAt(u, k) && IsDigit(c)
    ensures ExponentAt(u + [c], k)
  {
    hide FloatForm, IsE, IsSign, IsDigit, Digits;
    var t := u + [c];
    assert t[..k] == u[..k] && t[k + 2..] == u[k + 2..] + [c];
    DigitsGrow(u[k + 2..], c);
  }

  lemma PrefixForms(u: Text, c: Byte)
    ensures HasForm(CORE_S2, u + [c]) <==> FloatForm(u) && IsE(c)
    ensures HasForm(CORE_EXPONENT, u + [c]) <==> HasForm(CORE_S2, u) && IsSign(c)
    ensures HasForm(CORE_S1, u + [c]) <==> u == [] && IsSign(c)
  {
    var t := u + [c];
    assert t[..|t| - 1] == u;
    if u != [] {
      assert t[..|t| - 2] == u[..|u| - 1];
    }
  }

  /** Every state but CORE_INVALID is reached by exactly the texts of its form. */
  lemma {:induction false} StatesAreForms(t: Text, s: State)
    requires s != CORE_INVALID
    ensures Recognised(t) == s <==> HasForm(s, t)
    decreases |t|
  {
    if t == [] {
      EmptyForms();
    } else {
      var u, c := t[..|t| - 1], t[|t| - 1];
      assert t == u + [c];
      forall s' | s' != CORE_INVALID ensures Recognised(u) == s' <==> HasForm(s', u) {
        StatesAreForms(u, s');
      }
      OneStep(u, c, s);
    }
  }

  lemma EmptyForms()
    ensures forall s :: HasForm(s, []) <==> s == CORE_START
  {}

  /** The automaton's step follows the forms. */
  lemma OneStep(u: Text, c: Byte, s: State)
    requires s != CORE_INVALID
    requires forall s' :: s' != CORE_INVALID ==> (Recognised(u) == s' <==> HasForm(s', u))
    ensures Next(Recognised(u), c) == s <==> HasForm(s, u + [c])
  {
    IntGrows(u, c);
    FloatGrows(u, c);
    ScientificGrows(u, c);
    PrefixForms(u, c);
    FormNames(u);
    FormNames(u + [c]);
    hide HasForm, IntForm, FloatForm, ScientificForm, Recognised;
    match s
    case CORE_START =>
    case CORE_S1 =>
    case CORE_INT =>
    case CORE_FLOAT =>
    case CORE_S2 =>
    case CORE_EXPONENT =>
    case CORE_SCIENTIFIC =>
  }

  lemma FormNames(t: Text)
    ensures HasForm(CORE_START, t) == (t == []) && HasForm(CORE_INT, t) == IntForm(t)
    ensures HasForm(CORE_FLOAT, t) == FloatForm(t) && HasForm(CORE_SCIENTIFIC, t) == ScientificForm(t)
  {}

  /** A text is invalid exactly when it is not viable. */
  lemma InvalidIsUnviable(t: Text)
    ensures Recognised(t) == CORE_INVALID <==> !Viable(t)
  {
    forall s | s != CORE_INVALID ensures Recognised(t) == s <==> HasForm(s, t) {
      StatesAreForms(t, s);
    }
    hide HasForm, Recognised;
  }

  /** What makes a text invalid cannot be mended by more characters. */
  lemma {:induction false} InvalidStays(t: Text, u: Text)
    requires Recognised(t) == CORE_INVALID
    ensures Recognised(t + u) == CORE_INVALID
    decreases |u|
  {
    if u == [] {
      assert t + u == t;
    } else {
      var last := |u| - 1;
      InvalidStays(t, u[..last]);
      assert (t + u)[..|t + u| - 1] == t + u[..last];
    }
  }
}
