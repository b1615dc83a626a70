/** Writing and reading the textual form of memory contents, a piece at a time. */
module HexFiles {
  import opened Bytes
  import opened HexText
  import opened Results
  import opened Words

  /** The compiler's hex export: the text of its output file. */
  method SaveHex(program: seq<Word>, depth: nat) returns (r: Result<string>)
    ensures r == if |program| > depth then Err(DepthExceeded) else Ok(ProgramText(program))
  {
    hide WordLine, Line;
    if |program| > depth {
      return Err(DepthExceeded);
    }
    var text := Line("# Program begin", Line("", ""));
    ghost var tail := Line("", Line("", "# Program end"));
    assert program[0..] == program;
    LineAppend("", "", WordLines(program) + tail);
    LineAppend("# Program begin", Line("", ""), WordLines(program) + tail);
    Nothing(WordLines(program) + tail);
    for i := 0 to |program|
      invariant text + (WordLines(program[i..]) + tail) == ProgramText(program)
    {
      assert program[i..][1..] == program[i + 1..];
      LineAppend(WordLine(program[i]), WordLines(program[i + 1..]), tail);
      Written(text, WordLine(program[i]), WordLines(program[i + 1..]) + tail);
      text := text + Line(WordLine(program[i]), "");
    }
    assert program[|program|..] == [];
    Nothing(tail);
    text := text + Line("", Line("", "# Program end"));
    r := Ok(text);
  }

  lemma Nothing(s: string)
    ensures "" + s == s
  {}

  lemma Written(text: string, a: string, rest: string)
    ensures text + Line(a, rest) == text + Line(a, "") + rest
  {}

  lemma NoBytes(width: int)
    requires width != 0
    ensures DumpLines([], width) == ""
  {}

  lemma HeaderWritten(start: string, rest: string)
    ensures Line("# Dump from memory",
                 Line("# Format: hex bytes separated by spaces", Line(start, Line("", "")))) + rest
         == Line("# Dump from memory", Line("# Format: hex bytes separated by spaces", Line(start, Line("", rest))))
  {
    hide Line;
    LineAppend("", "", rest);
    Nothing(rest);
    LineAppend(start, Line("", ""), rest);
    LineAppend("# Format: hex bytes separated by spaces", Line(start, Line("", "")), rest);
    LineAppend("# Dump from memory", Line("# Format: hex bytes separated by spaces", Line(start, Line("", ""))), rest);
  }

  /** The dump tool's writer. */
  method WriteHexFile(data: seq<Byte>, startAddr: int, bytesPerLine: int) returns (r: Result<string>)
    ensures r == if bytesPerLine == 0 then Err(InvalidWidth) else Ok(DumpText(data, startAddr, bytesPerLine))
  {
    hide Joined, StartLine, Line;
    if bytesPerLine == 0 {
      return Err(InvalidWidth);
    }
    var text := Line("# Dump from memory", Line("# Format: hex bytes separated by spaces",
                Line(StartLine(startAddr, |data|), Line("", ""))));
    ghost var tail := Line("", Line("# End of dump", ""));
    var i := 0;
    HeaderWritten(StartLine(startAddr, |data|), DumpLines(data, bytesPerLine) + tail);
    NoBytes(bytesPerLine);
    assert data[0..] == data;
    while bytesPerLine > 0 && i < |data|
      invariant 0 <= i
      invariant text + (DumpLines(if i < |data| then data[i..] else [], bytesPerLine) + tail)
             == DumpText(data, startAddr, bytesPerLine)
      decreases |data| - i
    {
      var end := if |data| < i + bytesPerLine then |data| else i + bytesPerLine;
      var chunk := data[i..end];
      if i + bytesPerLine < |data| {
        assert data[i..][..bytesPerLine] == chunk && data[i..][bytesPerLine..] == data[i + bytesPerLine..];
        LineAppend(Joined(chunk), DumpLines(data[i + bytesPerLine..], bytesPerLine), tail);
      } else {
        assert data[i..] == chunk;
        LineAppend(Joined(chunk), "", tail);
        Nothing(tail);
      }
      Written(text, Joined(chunk),
              DumpLines(if i + bytesPerLine < |data| then data[i + bytesPerLine..] else [], bytesPerLine) + tail);
      text := text + Line(Joined(chunk), "");
      i := i + bytesPerLine;
    }
    Nothing(tail);
    text := text + Line("", Line("# End of dump", ""));
    r := Ok(text);
  }

  /** The tools' reader. */
  method ParseHexFile(text: string) returns (r: Result<seq<Byte>>)
    ensures r == ParseText(text)
  {
    hide Lines, Tokens, HexInt;
    var lines := Lines(text);
    var allBytes: seq<Byte> := [];
    assert lines[0..] == lines;
    NothingThen(ParseLines(lines));
    for k := 0 to |lines|
      invariant Then(Ok(allBytes), ParseLines(lines[k..])) == ParseText(text)
    {
      assert lines[k..][1..] == lines[k + 1..];
      var tokens := Tokens(lines[k]);
      var j := 0;
      ghost var rest := ParseLines(lines[k + 1..]);
      assert tokens[0..] == tokens;
      while j < |tokens|
        invariant 0 <= j <= |tokens|
        invariant Then(Ok(allBytes), Then(ParseTokens(tokens[j..]), rest)) == ParseText(text)
      {
        if tokens[j][0] == '#' {
          break;
        }
        assert tokens[j..][1..] == tokens[j + 1..];
        var value := HexInt(tokens[j]);
        if value.Some? {
          if 0 <= value.value <= 255 {
            ThenCons(value.value, ParseTokens(tokens[j + 1..]), rest, allBytes);
            allBytes := allBytes + [value.value];
          } else {
            return Err(InvalidByte(tokens[j]));
          }
        }
        j := j + 1;
      }
      NothingThen(rest);
    }
    assert lines[|lines|..] == [];
    assert allBytes + [] == allBytes;
    r := Ok(allBytes);
  }

  lemma ThenCons(b: Byte, t: Result<seq<Byte>>, rest: Result<seq<Byte>>, a: seq<Byte>)
    ensures Then(Ok(a), Then(Then(Ok([b]), t), rest)) == Then(Ok(a + [b]), Then(t, rest))
  {
    if t.Ok? && rest.Ok? {
      assert a + (([b] + t.value) + rest.value) == (a + [b]) + (t.value + rest.value);
    }
  }
}
