/** Line input as the connection's scanner splits it: lines end at LF, one CR before it is dropped. */
module Lines {
  import opened Bytes

  function DropCR(s: Text): (r: Text)
    ensures s == r || s == r + [CR]
  {
    if s != [] && s[|s| - 1] == CR then s[..|s| - 1] else s
  }

  datatype Split = NoLine | Line(text: Text, rest: Text)

  /** The next line of `s` and what follows it; an unterminated last line counts as a line. */
  function NextLine(s: Text): (r: Split)
    ensures r.NoLine? <==> s == []
    ensures r.Line? ==> |r.rest| < |s|
  {
    var i := IndexOf(s, LF);
    if s == [] then NoLine
    else if i < |s| then Line(DropCR(s[..i]), s[i + 1..])
    else Line(DropCR(s), [])
  }

  /** A line that was written with a terminating CRLF is read back whole, and what follows stays in place. */
  lemma LineReadsBack(line: Text, rest: Text)
    requires LF !in line
    ensures NextLine(line + CRLF + rest) == Line(line, rest)
  {
    var s := line + CRLF + rest;
    assert s[..|line| + 1] == line + [CR];
    assert s[|line| + 2..] == rest;
    IndexOfIs(s, LF, |line| + 1);
  }

  /** A line that ends in a bare LF is read back as well, unless a CR stands in front of the LF. */
  lemma BareLineReadsBack(line: Text, rest: Text)
    requires LF !in line && (line == [] || line[|line| - 1] != CR)
    ensures NextLine(line + [LF] + rest) == Line(line, rest)
  {
    var s := line + [LF] + rest;
    assert s[..|line|] == line;
    assert s[|line| + 1..] == rest;
    IndexOfIs(s, LF, |line|);
  }

  /** What stands behind the last line end is a line too; a CR at its end is lost. */
  lemma LastLineReadsBack(line: Text)
    requires LF !in line && line != []
    ensures line[|line| - 1] != CR ==> NextLine(line) == Line(line, [])
    ensures line[|line| - 1] == CR ==> NextLine(line) == Line(line[..|line| - 1], [])
  {
    assert line[..|line|] == line;
    IndexOfIs(line, LF, |line|);
  }

  datatype LineResult = Got(line: Text) | NoMore(err: Err)

  /** The reading side of a connection. `broken` tells whether it ends in an error or at end of file. */
  class LineReader {
    var input: Text
    const broken: bool

    constructor (input: Text, broken: bool)
      ensures this.input == input && this.broken == broken
    {
      this.input, this.broken := input, broken;
    }

    method ReadLine() returns (r: LineResult)
      modifies this
      ensures match NextLine(old(input))
              case NoLine => r == NoMore(if broken then Failed else Eof) && input == old(input)
              case Line(text, rest) => r == Got(text) && input == rest
    {
      match NextLine(input)
      case NoLine =>
        return NoMore(if broken then Failed else Eof);
      case Line(text, rest) =>
        input := rest;
        return Got(text);
    }
  }
}
