/** Decoding of dot-stuffed blocks (section 4.5.2 of RFC 5321, section 3 of RFC 1939). */
module DotDecoding {
  import opened Bytes
  import opened Lines

  /** The text of a block, the input after its closing dot line, and whether there was such a line. */
  datatype Decoded = Decoded(text: Text, rest: Text, terminated: bool)

  function Unstuff(line: Text): Text {
    if |line| > 1 && line[0] == DOT then line[1..] else line
  }

  function Decode(s: Text): Decoded
    decreases |s|
  {
    match NextLine(s)
    case NoLine => Decoded([], [], false)
    case Line(line, rest) =>
      if line == [DOT] then Decoded([], rest, true)
      else Decode(rest).(text := Unstuff(line) + (CRLF + Decode(rest).text))
  }

  /** What a reader still yields, and the error that follows it. */
  datatype Stream = Stream(content: Text, end: Err)

  /**
   * One call of a reader's Read with a buffer of `size` bytes: `got` was stored and `err` returned.
   * A failed connection may lose bytes; every other call hands out the content in order.
   */
  ghost predicate ReadStep(before: Stream, size: nat, got: Text, err: Err, after: Stream) {
    match err
    case NoErr => |got| <= size && (size > 0 ==> got != []) &&
                  before.content == got + after.content && after.end == before.end
    case Failed => got == [] && before.end == Failed
    case DiskFailed => false
    case _ => got == [] && before.content == [] && before.end == err && after == before
  }

  /** The block after some of its text has been handed out. */
  ghost predicate Advanced(before: Decoded, after: Decoded) {
    && |after.text| <= |before.text|
    && after == before.(text := before.text[|before.text| - |after.text|..])
  }

  /** A connection that ends in an error fails the block, one that merely ends does not. */
  function StreamOf(d: Decoded, broken: bool): Stream {
    Stream(d.text, if broken && !d.terminated then Failed else Eof)
  }

  lemma StepFromText(before: Decoded, broken: bool, size: nat, got: Text, err: Err, after: Decoded)
    requires after == before.(text := after.text)
    requires err == NoErr ==> before.text == got + after.text && |got| <= size && (size > 0 ==> got != [])
    requires err == Eof || err == Failed ==> got == [] && err == StreamOf(before, broken).end && after.text == []
    requires err == Eof ==> before.text == []
    requires err != LimitReached && err != DiskFailed
    ensures ReadStep(StreamOf(before, broken), size, got, err, StreamOf(after, broken))
    ensures err != Failed ==> Advanced(before, after) && |got| + |after.text| == |before.text|
  {
  }

  datatype State = SStart | SText | SCr | SEof

  class DotReader {
    const r: LineReader
    var state: State
    var line: Text
    var i: nat

    constructor (r: LineReader)
      ensures this.r == r && Valid() && Left() == Decode(r.input)
    {
      this.r, state, line, i := r, SStart, [], 0;
    }

    ghost predicate Valid()
      reads this
    {
      i <= |line|
    }

    /** The part of the block that has not been handed out. */
    ghost function Left(): Decoded
      requires Valid()
      reads this, r
    {
      var d := Decode(r.input);
      match state
      case SStart => d
      case SText => d.(text := line[i..] + (CRLF + d.text))
      case SCr => d.(text := [LF] + d.text)
      case SEof => Decoded([], r.input, true)
    }

    ghost function Pending(): Stream
      requires Valid()
      reads this, r
    {
      StreamOf(Left(), r.broken)
    }

    /** The sStart case: take the next line, unless the input or the block ends here. */
    method FetchLine() returns (err: Err)
      requires Valid() && state == SStart
      modifies this, r
      ensures Valid() && Left() == old(Left())
      ensures if old(Left().text) == []
              then err == old(Pending().end) && err != NoErr && r.input == Left().rest
              else err == NoErr && state == SText
    {
      var next := r.ReadLine();
      if next.NoMore? {
        return next.err;
      }
      if next.line == [DOT] {
        state := SEof;
        return Eof;
      }
      line, i, state := next.line, 0, SText;
      if |line| > 1 && line[0] == DOT {
        i := i + 1;
      }
      assert line[i..] == Unstuff(line);
      return NoErr;
    }

    method ReadByte() returns (b: byte, err: Err)
      requires Valid()
      modifies this, r
      ensures Valid()
      ensures if old(Left().text) == []
              then err == old(Pending().end) && Left() == old(Left()) && r.input == Left().rest
              else err == NoErr && Left() == old(Left()).(text := Left().text) && old(Left().text) == [b] + Left().text
    {
      hide Decode;
      if state == SStart {
        err := FetchLine();
        if err != NoErr {
          return 0, err;
        }
      }
      if state == SText {
        if i < |line| {
          TakeFirst(line[i..], CRLF + Decode(r.input).text);
          b, i := line[i], i + 1;
          return b, NoErr;
        }
        TakeFirst(CRLF, Decode(r.input).text);
        state := SCr;
        return CR, NoErr;
      } else if state == SCr {
        state := SStart;
        return LF, NoErr;
      }
      return 0, Eof;
    }

    method Read(b: array<byte>, size: nat) returns (n: nat, err: Err)
      requires Valid() && size <= b.Length
      modifies this, r, b
      ensures Valid() && n <= size
      ensures ReadStep(old(Pending()), size, b[..n], err, Pending())
      ensures err != Failed ==> Advanced(old(Left()), Left()) && n + |Left().text| == |old(Left()).text|
      ensures err == NoErr ==> n == size || Left().text == []
      ensures err == Eof ==> r.input == Left().rest
      ensures err == Failed ==> |old(Left().text)| < size
    {
      hide Left, ReadStep, Advanced;
      n := 0;
      ghost var whole, got: Text := Left(), [];
      while n < size
        invariant Valid() && n <= size
        invariant b[..n] == got && got + Left().text == whole.text
        invariant Left() == whole.(text := Left().text)
      {
        var c, e := ReadByte();
        if e != NoErr {
          if e != Eof || n == 0 {
            StepFromText(whole, r.broken, size, [], e, Left());
            return 0, e;
          }
          break;
        }
        Associate(got, [c], Left().text);
        got := got + [c];
        b[n] := c;
        n := n + 1;
      }
      StepFromText(whole, r.broken, size, got, NoErr, Left());
      return n, NoErr;
    }
  }
}
