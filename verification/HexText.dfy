/** The textual form of memory contents: how it is printed, how it is read, and that reading undoes printing. */
module HexText {
  import opened Bytes
  import opened Results
  import opened Words
  import LabelGenerators

  // ----- printing -----

  function Digit(d: nat, upper: bool): (c: char)
    requires d < 16
  {
    (if d < 10 then '0' as int + d else (if upper then 'A' as int else 'a' as int) + d - 10) as char
  }

  function HexByte(b: Byte, upper: bool): (s: string)
    ensures |s| == 2
  {
    [Digit(b / 16, upper), Digit(b % 16, upper)]
  }

  /** A line in front of more text. */
  function Line(s: string, rest: string): string {
    s + "\n" + rest
  }

  /** A line of the compiler's output: a word's bytes, least significant first. */
  function WordLine(w: Word): string {
    var b := BytesOf(w);
    HexByte(b[0], false) + " " + HexByte(b[1], false) + " " + HexByte(b[2], false) + " " + HexByte(b[3], false) + " "
  }

  function WordLines(p: seq<Word>): string {
    if p == [] then [] else Line(WordLine(p[0]), WordLines(p[1..]))
  }

  function ProgramText(p: seq<Word>): string {
    Line("# Program begin", Line("", WordLines(p) + Line("", Line("", "# Program end"))))
  }

  /** Bytes with single spaces between them. */
  function Joined(d: seq<Byte>): string {
    if d == [] then []
    else if |d| == 1 then HexByte(d[0], true)
    else HexByte(d[0], true) + " " + Joined(d[1..])
  }

  /** The lines of a dump, `width` bytes each; a negative width prints none. */
  function DumpLines(d: seq<Byte>, width: int): string
    requires width != 0
    decreases |d|
  {
    if d == [] || width < 0 then []
    else if |d| <= width then Line(Joined(d), "")
    else Line(Joined(d[..width]), DumpLines(d[width..], width))
  }

  function SignedDecimal(n: int): string {
    if n < 0 then "-" + LabelGenerators.Decimal(0 - n) else LabelGenerators.Decimal(n)
  }

  function StartLine(start: int, length: nat): string {
    "# Start addr: " + SignedDecimal(start) + " Length : " + LabelGenerators.Decimal(length)
  }

  function DumpText(d: seq<Byte>, start: int, width: int): string
    requires width != 0
  {
    Line("# Dump from memory",
    Line("# Format: hex bytes separated by spaces",
    Line(StartLine(start, |d|),
    Line("", DumpLines(d, width) + Line("", Line("# End of dump", ""))))))
  }

  // ----- reading -----

  predicate IsNewline(c: char) {
    c == '\n' || c == '\r'
  }

  predicate IsSpace(c: char) {
    9 <= c as int <= 13 || 28 <= c as int <= 32
  }

  function LineEnd(s: string): (e: nat)
    ensures e <= |s|
    ensures forall i :: 0 <= i < e ==> !IsNewline(s[i])
    ensures e < |s| ==> IsNewline(s[e])
  {
    if s == [] || IsNewline(s[0]) then 0 else 1 + LineEnd(s[1..])
  }

  function Lines(s: string): seq<string> {
    if s == [] then []
    else
      var e := LineEnd(s);
      if e < |s| then [s[..e]] + Lines(s[e + 1..]) else [s]
  }

  function TokenEnd(s: string): (e: nat)
    ensures e <= |s|
    ensures forall i :: 0 <= i < e ==> !IsSpace(s[i])
    ensures e < |s| ==> IsSpace(s[e])
  {
    if s == [] || IsSpace(s[0]) then 0 else 1 + TokenEnd(s[1..])
  }

  function Tokens(s: string): (t: seq<string>)
    ensures forall i :: 0 <= i < |t| ==> t[i] != []
    decreases |s|
  {
    if s == [] then []
    else if IsSpace(s[0]) then Tokens(s[1..])
    else [s[..TokenEnd(s)]] + Tokens(s[TokenEnd(s)..])
  }

  function DigitValue(c: char): Option<nat> {
    if '0' <= c <= '9' then Some(c as int - '0' as int)
    else if 'a' <= c <= 'f' then Some(c as int - 'a' as int + 10)
    else if 'A' <= c <= 'F' then Some(c as int - 'A' as int + 10)
    else None
  }

  /** Hexadecimal digits, with single underscores allowed between them; `sofar` is the value before `s`. */
  function Digits(s: string, sofar: nat): Option<nat>
    decreases |s|
  {
    if s == [] then None
    else
      match DigitValue(s[0])
      case None => None
      case Some(d) =>
        var v := 16 * sofar + d;
        if |s| == 1 then Some(v)
        else if s[1] == '_' then Digits(s[2..], v)
        else Digits(s[1..], v)
  }

  function Unsigned(s: string): Option<nat> {
    if |s| >= 2 && s[0] == '0' && (s[1] == 'x' || s[1] == 'X')
    then Digits(if |s| > 2 && s[2] == '_' then s[3..] else s[2..], 0)
    else Digits(s, 0)
  }

  /** A token's value in base 16, with optional sign and prefix. */
  function HexInt(s: string): Option<int> {
    if s != [] && s[0] == '-' then
      match Unsigned(s[1..])
      case None => None
      case Some(v) => Some(0 - v)
    else
      match Unsigned(if s != [] && s[0] == '+' then s[1..] else s)
      case None => None
      case Some(v) => Some(v)
  }

  /** A comment ends the line, what is not a number is skipped, and what is no byte is an error. */
  function ParseTokens(t: seq<string>): Result<seq<Byte>>
    requires forall i :: 0 <= i < |t| ==> t[i] != []
  {
    if t == [] || t[0][0] == '#' then Ok([])
    else
      match HexInt(t[0])
      case None => ParseTokens(t[1..])
      case Some(v) =>
        if 0 <= v <= 255 then
          var rest :- ParseTokens(t[1..]);
          Ok([v] + rest)
        else Err(InvalidByte(t[0]))
  }

  function ParseLines(l: seq<string>): Result<seq<Byte>> {
    if l == [] then Ok([])
    else
      var first :- ParseTokens(Tokens(l[0]));
      var rest :- ParseLines(l[1..]);
      Ok(first + rest)
  }

  function ParseText(s: string): Result<seq<Byte>> {
    ParseLines(Lines(s))
  }

  // ----- reading undoes printing -----

  lemma HexByteRead(b: Byte, upper: bool)
    ensures HexInt(HexByte(b, upper)) == Some(b as int)
    ensures forall c :: c in HexByte(b, upper) ==> !IsSpace(c) && !IsNewline(c) && c != '#'
  {
    DigitRead(b / 16, upper);
    DigitRead(b % 16, upper);
    var s := HexByte(b, upper);
    assert Digits(s, 0) == Digits(s[1..], b / 16) == Some(16 * (b / 16) + b % 16);
  }

  lemma DigitRead(d: nat, upper: bool)
    requires d < 16
    ensures DigitValue(Digit(d, upper)) == Some(d)
    ensures var c := Digit(d, upper);
      !IsSpace(c) && !IsNewline(c) && c != '#' && c != '_' && c != 'x' && c != 'X' && c != '-' && c != '+'
  {}

  lemma {:induction false} TokenEndAt(tok: string, rest: string)
    requires forall c :: c in tok ==> !IsSpace(c)
    requires rest == [] || IsSpace(rest[0])
    ensures TokenEnd(tok + rest) == |tok|
  {
    if tok == [] {
      assert tok + rest == rest;
    } else {
      assert (tok + rest)[1..] == tok[1..] + rest;
      TokenEndAt(tok[1..], rest);
    }
  }

  lemma FirstToken(tok: string, rest: string)
    requires tok != [] && forall c :: c in tok ==> !IsSpace(c)
    ensures Tokens(tok + " " + rest) == [tok] + Tokens(rest)
    ensures Tokens(tok) == [tok]
  {
    var s := tok + (" " + rest);
    TokenEndAt(tok, " " + rest);
    assert s == tok + " " + rest && s[..|tok|] == tok && s[|tok|..] == " " + rest;
    assert (" " + rest)[1..] == rest;
    TokenEndAt(tok, []);
    assert tok + [] == tok && tok[..|tok|] == tok && tok[|tok|..] == [];
  }

  lemma {:induction false} LineEndAt(a: string, rest: string)
    requires forall c :: c in a ==> !IsNewline(c)
    requires rest == [] || IsNewline(rest[0])
    ensures LineEnd(a + rest) == |a|
  {
    if a == [] {
      assert a + rest == rest;
    } else {
      assert (a + rest)[1..] == a[1..] + rest;
      LineEndAt(a[1..], rest);
    }
  }

  /** One more result in front. */
  function Then(first: Result<seq<Byte>>, rest: Result<seq<Byte>>): Result<seq<Byte>> {
    var a :- first;
    var b :- rest;
    Ok(a + b)
  }

  function ParseLine(s: string): Result<seq<Byte>> {
    ParseTokens(Tokens(s))
  }

  lemma FirstLine(a: string, rest: string)
    requires forall c :: c in a ==> !IsNewline(c)
    ensures ParseText(Line(a, rest)) == Then(ParseLine(a), ParseText(rest))
  {
    var s := a + ("\n" + rest);
    LineEndAt(a, "\n" + rest);
    assert s == a + "\n" + rest && s[..|a|] == a && s[|a| + 1..] == rest;
    assert ([a] + Lines(rest))[1..] == Lines(rest);
  }

  lemma Comment(s: string)
    requires s != [] && s[0] == '#'
    ensures ParseLine(s) == Ok([])
  {}

  lemma CommentLine(s: string, rest: string)
    requires s == [] || s[0] == '#'
    requires forall c :: c in s ==> !IsNewline(c)
    ensures ParseText(Line(s, rest)) == ParseText(rest)
  {
    hide ParseTokens, Tokens, ParseText;
    FirstLine(s, rest);
    if s == [] {
      EmptyLine();
    } else {
      Comment(s);
    }
    NothingThen(ParseText(rest));
  }

  lemma EmptyLine()
    ensures ParseLine([]) == Ok([])
  {}

  lemma NothingThen(r: Result<seq<Byte>>)
    ensures Then(Ok([]), r) == r
  {
    if r.Ok? {
      assert [] + r.value == r.value;
    }
  }

  lemma ByteFirst(b: Byte, upper: bool, rest: string)
    ensures ParseLine(HexByte(b, upper) + " " + rest) == Then(Ok([b]), ParseLine(rest))
    ensures ParseLine(HexByte(b, upper)) == Ok([b])
  {
    var tok := HexByte(b, upper);
    HexByteRead(b, upper);
    hide HexByte, HexInt, Tokens, IsSpace;
    FirstToken(tok, rest);
    var t := [tok] + Tokens(rest);
    assert tok[0] in tok && t[1..] == Tokens(rest) && [tok][1..] == [];
    assert ParseTokens([]) == Ok([]) && [b] + [] == [b];
  }

  lemma WordLineRead(w: Word)
    ensures ParseLine(WordLine(w)) == Ok(BytesOf(w))
    ensures forall c :: c in WordLine(w) ==> !IsNewline(c)
  {
    hide HexByte, BytesOf, ParseLine, IsNewline;
    var b := BytesOf(w);
    forall i | 0 <= i < 4 ensures forall c :: c in HexByte(b[i], false) ==> !IsNewline(c) {
      HexByteRead(b[i], false);
    }
    SpaceIsNoNewline();
    var s0, s1, s2, s3 := HexByte(b[0], false), HexByte(b[1], false), HexByte(b[2], false), HexByte(b[3], false);
    var r3 := s3 + " " + [];
    var r2 := s2 + " " + r3;
    var r1 := s1 + " " + r2;
    assert WordLine(w) == s0 + " " + r1;
    ByteFirst(b[0], false, r1);
    ByteFirst(b[1], false, r2);
    ByteFirst(b[2], false, r3);
    ByteFirst(b[3], false, []);
    EmptyLine();
    assert b == [b[0]] + ([b[1]] + ([b[2]] + ([b[3]] + [])));
  }

  lemma {:induction false} WordLinesRead(p: seq<Word>, rest: string)
    ensures ParseText(WordLines(p) + rest) == Then(Ok(ProgramBytes(p)), ParseText(rest))
    decreases |p|
  {
    hide ParseText, WordLine, BytesOf, IsNewline, ParseLine, Line;
    if p == [] {
      assert WordLines(p) + rest == rest;
      NothingThen(ParseText(rest));
    } else {
      LineAppend(WordLine(p[0]), WordLines(p[1..]), rest);
      WordLineRead(p[0]);
      FirstLine(WordLine(p[0]), WordLines(p[1..]) + rest);
      WordLinesRead(p[1..], rest);
      ThenThen(BytesOf(p[0]), ProgramBytes(p[1..]), ParseText(rest));
    }
  }

  lemma LineAppend(a: string, b: string, c: string)
    ensures Line(a, b) + c == Line(a, b + c)
  {}

  lemma ThenThen(a: seq<Byte>, b: seq<Byte>, r: Result<seq<Byte>>)
    ensures Then(Ok(a), Then(Ok(b), r)) == Then(Ok(a + b), r)
  {
    if r.Ok? {
      assert a + (b + r.value) == a + b + r.value;
    }
  }

  /** The compiler's output, read back, is the program's bytes. */
  lemma ProgramRead(p: seq<Word>)
    ensures ParseText(ProgramText(p)) == Ok(ProgramBytes(p))
  {
    var last := "# Program end";
    var tail := Line("", Line("", last));
    hide ParseText, ParseLine, WordLines, ProgramBytes, Line;
    CommentLine("", Line("", last));
    CommentLine("", last);
    Comment(last);
    LastLine(last);
    CommentLine("# Program begin", Line("", WordLines(p) + tail));
    CommentLine("", WordLines(p) + tail);
    WordLinesRead(p, tail);
    assert ProgramBytes(p) + [] == ProgramBytes(p);
  }

  /** A line that nothing ends. */
  lemma LastLine(a: string)
    requires a != [] && forall c :: c in a ==> !IsNewline(c)
    ensures ParseText(a) == ParseLine(a)
  {
    LineEndAt(a, []);
    assert a + [] == a;
    hide Tokens, ParseTokens;
    var l := [a];
    assert Lines(a) == l && l[1..] == [];
    assert ParseLines([]) == Ok([]);
    if ParseLine(a).Ok? {
      assert ParseLine(a).value + [] == ParseLine(a).value;
    }
  }

  lemma {:induction false} JoinedRead(d: seq<Byte>)
    ensures ParseLine(Joined(d)) == Ok(d)
    ensures forall c :: c in Joined(d) ==> !IsNewline(c)
    decreases |d|
  {
    hide ParseLine, HexByte, IsNewline;
    if d == [] {
      EmptyLine();
    } else if |d| == 1 {
      HexByteRead(d[0], true);
      ByteFirst(d[0], true, []);
      assert d == [d[0]];
    } else {
      HexByteRead(d[0], true);
      ByteFirst(d[0], true, Joined(d[1..]));
      JoinedRead(d[1..]);
      SpaceIsNoNewline();
      assert d == [d[0]] + d[1..];
    }
  }

  lemma SpaceIsNoNewline()
    ensures !IsNewline(' ')
  {}

  lemma {:induction false} DumpLinesRead(d: seq<Byte>, width: int, rest: string)
    requires width > 0
    ensures ParseText(DumpLines(d, width) + rest) == Then(Ok(d), ParseText(rest))
    decreases |d|
  {
    hide ParseText, ParseLine, Joined, IsNewline, Line;
    if d == [] {
      assert DumpLines(d, width) + rest == rest;
      NothingThen(ParseText(rest));
    } else if |d| <= width {
      JoinedRead(d);
      LineAppend(Joined(d), "", rest);
      assert "" + rest == rest;
      FirstLine(Joined(d), rest);
    } else {
      JoinedRead(d[..width]);
      LineAppend(Joined(d[..width]), DumpLines(d[width..], width), rest);
      FirstLine(Joined(d[..width]), DumpLines(d[width..], width) + rest);
      DumpLinesRead(d[width..], width, rest);
      ThenThen(d[..width], d[width..], ParseText(rest));
      assert d == d[..width] + d[width..];
    }
  }

  lemma StartIsComment(start: int, length: nat)
    ensures var s := StartLine(start, length); s != [] && s[0] == '#' && forall c :: c in s ==> !IsNewline(c)
  {
    var s := StartLine(start, length);
    assert s[0] == "# Start addr: "[0];
  }

  /** What a dump's text holds: its data, unless the width is negative. */
  lemma DumpRead(d: seq<Byte>, start: int, width: int)
    requires width != 0
    ensures ParseText(DumpText(d, start, width)) == Ok(if width > 0 then d else [])
  {
    hide ParseText, DumpLines, StartLine, Line;
    var tail := Line("", Line("# End of dump", ""));
    var body := DumpLines(d, width) + tail;
    StartIsComment(start, |d|);
    CommentLine("# Dump from memory",
                Line("# Format: hex bytes separated by spaces", Line(StartLine(start, |d|), Line("", body))));
    CommentLine("# Format: hex bytes separated by spaces", Line(StartLine(start, |d|), Line("", body)));
    CommentLine(StartLine(start, |d|), Line("", body));
    CommentLine("", body);
    DumpTail();
    if width > 0 {
      DumpLinesRead(d, width, tail);
      assert d + [] == d;
    } else {
      NoLines(d, width);
      assert [] + tail == tail;
    }
  }

  lemma NoLines(d: seq<Byte>, width: int)
    requires width < 0
    ensures DumpLines(d, width) == []
  {}

  lemma EmptyText()
    ensures ParseText([]) == Ok([])
  {}

  lemma DumpTail()
    ensures ParseText(Line("", Line("# End of dump", ""))) == Ok([])
  {
    hide ParseText, Line;
    EmptyText();
    CommentLine("", Line("# End of dump", ""));
    CommentLine("# End of dump", "");
  }

  /** A dump reads back as its data exactly when its lines hold at least one byte, or there is no data. */
  lemma DumpRoundTrip(d: seq<Byte>, start: int, width: int)
    requires width != 0
    ensures ParseText(DumpText(d, start, width)) == Ok(d) <==> width > 0 || d == []
  {
    hide ParseText, DumpText;
    DumpRead(d, start, width);
  }
}
