/** What the words of a hex file mean: which are numbers, and what becomes of those that are not. */
module HexTokens {
  import opened Bytes
  import opened HexText
  import opened Results

  // ----- digits -----

  /** Digits with single underscores between them. */
  predicate IsDigits(s: string) {
    && s != [] && s[0] != '_' && s[|s| - 1] != '_'
    && (forall i :: 0 <= i < |s| ==> s[i] == '_' || DigitValue(s[i]).Some?)
    && (forall i :: 0 < i < |s| ==> s[i - 1] != '_' || s[i] != '_')
  }

  function DigitOf(c: char): nat {
    match DigitValue(c)
    case Some(d) => d
    case None => 0
  }

  /**
   The value of the digits in `s` behind others of value `v`: the last one counts 1, and each one
   before 16 times as much.
   */
  function ValueOf(v: nat, s: string): nat {
    if s == [] then v
    else
      var n := |s| - 1;
      if s[n] == '_' then ValueOf(v, s[..n]) else 16 * ValueOf(v, s[..n]) + DigitOf(s[n])
  }

  lemma {:induction false} ValueFromLeft(v: nat, s: string)
    requires s != []
    ensures ValueOf(v, s) == ValueOf(if s[0] == '_' then v else 16 * v + DigitOf(s[0]), s[1..])
    decreases |s|
  {
    var n := |s| - 1;
    if n > 0 {
      ValueFromLeft(v, s[..n]);
      assert s[1..][..n - 1] == s[..n][1..] && s[1..][n - 1] == s[n];
    } else {
      assert s[..0] == [] && s[1..] == [];
    }
  }

  lemma {:induction false} DigitsIff(s: string, v: nat)
    ensures Digits(s, v) == if IsDigits(s) then Some(ValueOf(v, s)) else None
    decreases |s|
  {
    if s != [] && DigitValue(s[0]).Some? {
      ValueFromLeft(v, s);
      var v' := 16 * v + DigitOf(s[0]);
      if |s| == 1 {
        assert s[1..] == [];
      } else if s[1] == '_' {
        DigitsIff(s[2..], v');
        ValueFromLeft(v', s[1..]);
        assert s[1..][1..] == s[2..];
        SkipTwo(s);
      } else {
        DigitsIff(s[1..], v');
        SkipOne(s);
      }
    }
  }

  lemma SkipOne(s: string)
    requires |s| > 1 && DigitValue(s[0]).Some? && s[1] != '_'
    ensures IsDigits(s) <==> IsDigits(s[1..])
  {
    var t := s[1..];
    assert forall i :: 0 < i < |s| ==> s[i] == t[i - 1];
    assert forall i :: 0 <= i < |t| ==> t[i] == s[i + 1];
  }

  lemma SkipTwo(s: string)
    requires |s| > 1 && DigitValue(s[0]).Some? && s[1] == '_'
    ensures IsDigits(s) <==> IsDigits(s[2..])
  {
    var t := s[2..];
    assert forall i :: 2 <= i < |s| ==> s[i] == t[i - 2];
    assert forall i :: 0 <= i < |t| ==> t[i] == s[i + 2];
    if IsDigits(s) {
      assert |s| > 2 && s[2] != '_';
    }
  }

  // ----- numbers -----

  predicate IsSign(s: string) {
    s == "" || s == "+" || s == "-"
  }

  predicate IsPrefix(s: string) {
    s == "" || s == "0x" || s == "0X" || s == "0x_" || s == "0X_"
  }

  /** The word consists of a sign, a prefix and digits, with that value. */
  ghost predicate IsNumber(s: string, v: int) {
    exists sign, prefix, digits {:trigger IsSign(sign), IsPrefix(prefix), IsDigits(digits)} ::
      && IsSign(sign) && IsPrefix(prefix) && IsDigits(digits) && s == sign + prefix + digits
      && v == if sign == "-" then 0 - ValueOf(0, digits) else ValueOf(0, digits)
  }

  lemma UnsignedOf(prefix: string, digits: string)
    requires IsPrefix(prefix) && IsDigits(digits)
    ensures Unsigned(prefix + digits) == Some(ValueOf(0, digits))
  {
    var s := prefix + digits;
    DigitsIff(digits, 0);
    assert s[|prefix|..] == digits;
  }

  lemma UnsignedParts(s: string) returns (prefix: string, digits: string)
    requires Unsigned(s).Some?
    ensures IsPrefix(prefix) && IsDigits(digits) && s == prefix + digits
    ensures Unsigned(s) == Some(ValueOf(0, digits))
  {
    var n := if |s| >= 2 && s[0] == '0' && (s[1] == 'x' || s[1] == 'X') then if |s| > 2 && s[2] == '_' then 3 else 2
             else 0;
    prefix, digits := s[..n], s[n..];
    DigitsIff(digits, 0);
    PrefixCases(s, n);
  }

  lemma PrefixCases(s: string, n: nat)
    requires n <= |s| && n <= 3 && n != 1
    requires n >= 2 ==> s[0] == '0' && (s[1] == 'x' || s[1] == 'X')
    requires n == 3 ==> s[2] == '_'
    ensures IsPrefix(s[..n])
  {
    if n == 2 {
      assert s[..2] == [s[0], s[1]];
    } else if n == 3 {
      assert s[..3] == [s[0], s[1], s[2]];
    }
  }

  lemma ReadIsNumber(s: string, v: int)
    requires HexInt(s) == Some(v)
    ensures IsNumber(s, v)
  {
    hide Unsigned, ValueOf, IsDigits, IsPrefix;
    var sign := if s != [] && (s[0] == '-' || s[0] == '+') then [s[0]] else "";
    var prefix, digits := UnsignedParts(s[|sign|..]);
    assert s == sign + prefix + digits;
    assert IsSign(sign) && IsPrefix(prefix) && IsDigits(digits);
  }

  lemma NumberIsRead(sign: string, prefix: string, digits: string)
    requires IsSign(sign) && IsPrefix(prefix) && IsDigits(digits)
    ensures HexInt(sign + prefix + digits)
         == Some(if sign == "-" then 0 - ValueOf(0, digits) else ValueOf(0, digits))
  {
    hide Unsigned, ValueOf;
    UnsignedOf(prefix, digits);
    NoSign(prefix, digits);
    hide IsDigits, IsPrefix;
    var s := sign + prefix + digits;
    assert s == sign + (prefix + digits);
    assert s[|sign|..] == prefix + digits;
  }

  /** A word is read as a number if and only if it is one, and as that one. */
  lemma HexIntIff(s: string, v: int)
    ensures HexInt(s) == Some(v) <==> IsNumber(s, v)
  {
    hide HexInt, ValueOf, IsDigits, IsPrefix, IsSign;
    if HexInt(s) == Some(v) {
      ReadIsNumber(s, v);
    }
    if IsNumber(s, v) {
      var sign, prefix, digits :|
        && IsSign(sign) && IsPrefix(prefix) && IsDigits(digits) && s == sign + prefix + digits
        && v == if sign == "-" then 0 - ValueOf(0, digits) else ValueOf(0, digits);
      NumberIsRead(sign, prefix, digits);
    }
  }

  /** What follows a sign does not look like one. */
  lemma NoSign(prefix: string, digits: string)
    requires IsPrefix(prefix) && IsDigits(digits)
    ensures prefix + digits != [] && (prefix + digits)[0] != '-' && (prefix + digits)[0] != '+'
  {}

  // ----- words -----

  predicate Words(t: seq<string>) {
    forall i :: 0 <= i < |t| ==> t[i] != []
  }

  /** Blanks, tabs and the other spaces of a line separate its words. */
  lemma SpaceSeparates(tok: string, c: char, rest: string)
    requires tok != [] && forall x :: x in tok ==> !IsSpace(x)
    requires c == ' ' || c == '\t' || c == '\r' || c == '\n' || c as int == 11 || c as int == 12
    ensures Tokens(tok + [c] + rest) == [tok] + Tokens(rest) && Tokens([c] + rest) == Tokens(rest)
  {
    TokenEndAt(tok, [c] + rest);
    var s := tok + ([c] + rest);
    assert s == tok + [c] + rest && s[..|tok|] == tok && s[|tok|..] == [c] + rest;
    assert ([c] + rest)[1..] == rest;
  }

  /** A word that is no number has no effect. */
  lemma {:induction false} ForeignSkipped(t: seq<string>, w: string, u: seq<string>)
    requires Words(t) && Words(u) && w != [] && w[0] != '#' && forall v :: !IsNumber(w, v)
    ensures Words(t + [w] + u) && ParseTokens(t + [w] + u) == ParseTokens(t + u)
  {
    hide HexInt, IsNumber;
    if t == [] {
      assert [] + [w] + u == [w] + u && [] + u == u && ([w] + u)[1..] == u;
      if HexInt(w).Some? {
        HexIntIff(w, HexInt(w).value);
      }
    } else {
      ForeignSkipped(t[1..], w, u);
      assert (t + [w] + u)[1..] == t[1..] + [w] + u && (t + u)[1..] == t[1..] + u;
    }
  }

  /** From a comment on, a line has no effect. */
  lemma {:induction false} CommentSkipped(t: seq<string>, w: string, u: seq<string>)
    requires Words(t) && Words(u) && w != [] && w[0] == '#'
    ensures Words(t + [w] + u) && ParseTokens(t + [w] + u) == ParseTokens(t)
  {
    hide HexInt;
    if t == [] {
      assert [] + [w] + u == [w] + u;
    } else {
      CommentSkipped(t[1..], w, u);
      assert (t + [w] + u)[1..] == t[1..] + [w] + u;
    }
  }

  /** A number is a byte of the line, or makes it invalid. */
  lemma NumberFirst(w: string, v: int, u: seq<string>)
    requires Words(u) && w != [] && IsNumber(w, v)
    ensures Words([w] + u)
    ensures ParseTokens([w] + u) == if 0 <= v <= 255 then Then(Ok([v]), ParseTokens(u)) else Err(InvalidByte(w))
  {
    assert ([w] + u)[1..] == u;
    HexIntIff(w, v);
    NumberNoComment(w, v);
    hide HexInt, IsNumber;
  }

  lemma NumberNoComment(w: string, v: int)
    requires IsNumber(w, v)
    ensures w[0] != '#'
  {
    var sign, prefix, digits :|
      && IsSign(sign) && IsPrefix(prefix) && IsDigits(digits) && w == sign + prefix + digits
      && v == if sign == "-" then 0 - ValueOf(0, digits) else ValueOf(0, digits);
    assert w[0] == if sign != "" then sign[0] else if prefix != "" then prefix[0] else digits[0];
  }

  /** Two bytes with a foreign word between them. */
  lemma ForeignBetween(x: Byte, y: Byte, upper: bool, w: string)
    requires w != [] && w[0] != '#' && (forall c :: c in w ==> !IsSpace(c)) && forall v :: !IsNumber(w, v)
    ensures ParseLine(HexByte(x, upper) + " " + (w + " " + HexByte(y, upper))) == Ok([x, y])
  {
    hide HexInt, IsNumber, HexByte, ParseTokens;
    HexByteRead(x, upper);
    HexByteRead(y, upper);
    var a, b := HexByte(x, upper), HexByte(y, upper);
    HexIntIff(a, x);
    HexIntIff(b, y);
    BytesAreWords(x, upper);
    BytesAreWords(y, upper);
    FirstToken(a, w + " " + b);
    FirstToken(w, b);
    FirstToken(b, []);
    assert [a] + ([w] + [b]) == [a] + [w] + [b] && [a] + [b] == [a] + ([b] + []);
    ForeignSkipped([a], w, [b]);
    NumberFirst(a, x, [b]);
    NumberFirst(b, y, []);
    assert [b] + [] == [b];
    NoWords();
    assert [x as int] + ([y as int] + []) == [x, y];
  }

  lemma NoWords()
    ensures ParseTokens([]) == Ok([])
  {}

  lemma BytesAreWords(b: Byte, upper: bool)
    ensures HexByte(b, upper) != []
  {}
}
