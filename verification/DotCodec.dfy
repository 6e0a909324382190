/**
 * What the dot encoder and the dot decoder do to each other. Decoding an encoded text gives its normal form:
 * a line end that follows an even run of CRs gets one more CR, and an unfinished last line is ended.
 */
module DotCodec {
  import opened Bytes
  import opened Lines
  import opened DotDecoding
  import opened DotEncoding

  function TrailingCRs(s: Text): nat {
    if s == [] || s[|s| - 1] != CR then 0 else 1 + TrailingCRs(s[..|s| - 1])
  }

  predicate OddCRs(s: Text) {
    s != [] && s[|s| - 1] == CR && !OddCRs(s[..|s| - 1])
  }

  lemma {:induction false} OddCRsCounts(s: Text)
    ensures OddCRs(s) <==> TrailingCRs(s) % 2 == 1
  {
    if s != [] && s[|s| - 1] == CR {
      OddCRsCounts(s[..|s| - 1]);
    }
  }

  /** A line, given without its LF, with the line end the encoder writes for it. */
  function EndLine(line: Text): (r: Text)
    ensures r != []
  {
    if !OddCRs(line) then line + CRLF else line + [LF]
  }

  function FirstLine(x: Text): (line: Text)
    ensures LF !in line
  {
    x[..IndexOf(x, LF)]
  }

  function AfterLine(x: Text): (rest: Text)
    ensures x != [] ==> |rest| < |x|
    ensures x == FirstLine(x) + [LF] + rest || (x == FirstLine(x) && rest == [])
  {
    var i := IndexOf(x, LF);
    if i < |x| then x[i + 1..] else []
  }

  function Norm(x: Text): Text
    decreases |x|
  {
    if x == [] then [] else EndLine(FirstLine(x)) + Norm(AfterLine(x))
  }

  /** Every LF ends an odd run of CRs, and the text ends with a line end. */
  ghost predicate Canonical(x: Text) {
    && (x == [] || x[|x| - 1] == LF)
    && forall i :: 0 <= i < |x| && x[i] == LF ==> OddCRs(x[..i])
  }

  // The encoder's output line by line.

  function Stuff(line: Text): Text {
    if line != [] && line[0] == DOT then [DOT] + line else line
  }

  function StuffedLines(x: Text): Text
    decreases |x|
  {
    if x == [] then [] else Stuff(EndLine(FirstLine(x))) + StuffedLines(AfterLine(x))
  }

  /** Inside a line the encoder copies, and it remembers the parity of the CRs just written. */
  lemma {:induction false} EncodeInLine(line: Text)
    requires LF !in line && line != []
    ensures EncodeAll(SStart, line).0 == if OddCRs(line) then SCr else SText
    ensures EncodeAll(SStart, line).1 == Stuff(line)
  {
    var most, last := line[..|line| - 1], line[|line| - 1];
    assert line == most + [last];
    assert last in line;
    if most == [] {
      EncodeSingle(SStart, last);
    } else {
      EncodeInLine(most);
      EncodeOne(SStart, most, last);
    }
  }

  lemma EncodeLine(line: Text)
    requires LF !in line
    ensures EncodeAll(SStart, line + [LF]).0 == SStart
    ensures EncodeAll(SStart, line + [LF]).1 == Stuff(EndLine(line))
  {
    EncodeOne(SStart, line, LF);
    if line == [] {
      assert [] + CRLF == CRLF;
    } else {
      EncodeInLine(line);
    }
  }

  lemma EncodeEmpty()
    ensures CloseBytes(SStart) == CLOSING && Encode([]) == CLOSING
  {
  }

  lemma EncodeLastLine(line: Text)
    requires LF !in line && line != []
    ensures Encode(line) == Stuff(EndLine(line)) + CLOSING
  {
    EncodeInLine(line);
  }

  lemma {:induction false} EncodeIsStuffedLines(x: Text)
    ensures Encode(x) == StuffedLines(x) + CLOSING
    decreases |x|
  {
    hide FirstLine, AfterLine, EncodeByte, EndLine, Stuff, CloseBytes;
    if x == [] {
      EncodeEmpty();
    } else {
      var line, rest := FirstLine(x), AfterLine(x);
      if x == line {
        EncodeLastLine(x);
      } else {
        EncodeLine(line);
        EncodeAppends(SStart, line + [LF], rest);
        EncodeIsStuffedLines(rest);
        Associate(Stuff(EndLine(line)), StuffedLines(rest), CLOSING);
        Associate(Stuff(EndLine(line)), EncodeAll(SStart, rest).1, CloseBytes(EncodeAll(SStart, rest).0));
      }
    }
  }

  // Decoding it again.

  /** What the line reader will take for the line. */
  function WireLine(line: Text): (wire: Text)
    requires LF !in line
    ensures LF !in wire && EndLine(line) == wire + CRLF && Stuff(EndLine(line)) == Stuff(wire) + CRLF
  {
    if !OddCRs(line) then line
    else
      var wire := line[..|line| - 1];
      assert line == wire + [CR];
      wire
  }

  lemma UnstuffStuff(line: Text)
    ensures Unstuff(Stuff(line)) == line && Stuff(line) != [DOT]
    ensures LF !in line ==> LF !in Stuff(line)
  {
  }

  lemma {:induction false} DecodeOneLine(line: Text, s: Text)
    requires LF !in line
    ensures Decode(Stuff(EndLine(line)) + s) == Decode(s).(text := EndLine(line) + Decode(s).text)
  {
    hide Stuff, EndLine, NextLine, Unstuff;
    var wire := WireLine(line);
    UnstuffStuff(wire);
    LineReadsBack(Stuff(wire), s);
    assert wire + (CRLF + Decode(s).text) == EndLine(line) + Decode(s).text;
  }

  lemma {:induction false} DecodeStuffedLines(x: Text, rest: Text)
    ensures Decode(StuffedLines(x) + (CLOSING + rest)) == Decoded(Norm(x), rest, true)
    decreases |x|
  {
    hide Stuff, EndLine, NextLine, FirstLine, AfterLine, Unstuff;
    if x == [] {
      LineReadsBack([DOT], rest);
      assert StuffedLines(x) + (CLOSING + rest) == [DOT] + CRLF + rest;
    } else {
      DecodeStuffedLines(AfterLine(x), rest);
      DecodeOneLine(FirstLine(x), StuffedLines(AfterLine(x)) + (CLOSING + rest));
      Associate(Stuff(EndLine(FirstLine(x))), StuffedLines(AfterLine(x)), CLOSING + rest);
    }
  }

  /** Round trip on arbitrary bytes: the block decodes to the normal form and nothing of what follows is taken. */
  lemma {:induction false} RoundTrip(x: Text, rest: Text)
    ensures Decode(Encode(x) + rest) == Decoded(Norm(x), rest, true)
  {
    hide Encode, StuffedLines, Norm, Decode;
    EncodeIsStuffedLines(x);
    DecodeStuffedLines(x, rest);
    Associate(StuffedLines(x), CLOSING, rest);
  }

  // In bytes.

  /** A line with its line end is sent as it is, behind one more dot (46) if it starts with a dot; the end is a dot line. */
  lemma EncodedInBytes(line: Text, rest: Text)
    requires Free(line)
    ensures Encode(line + [13, 10] + rest)
         == (if line != [] && line[0] == 46 then [46] else []) + line + [13, 10] + Encode(rest)
    ensures Encode([]) == [46, 13, 10]
  {
    hide EncodeByte, CloseBytes, OddCRs;
    EncodeEmpty();
    var ended := line + [CR];
    assert line + [13, 10] + rest == (ended + [LF]) + rest;
    assert EndLine(ended) == line + CRLF by { OneMoreCR(line); NoTrailingCR(line); assert ended + [LF] == line + CRLF; }
    EncodeLine(ended);
    EncodeAppends(SStart, ended + [LF], rest);
    Associate(Stuff(line + CRLF), EncodeAll(SStart, rest).1, CloseBytes(EncodeAll(SStart, rest).0));
    assert Stuff(line + CRLF) == (if line != [] && line[0] == 46 then [46] else []) + line + [13, 10];
  }

  lemma NoTrailingCR(line: Text)
    requires CR !in line
    ensures !OddCRs(line)
  {
    if line != [] {
      assert line[|line| - 1] in line;
    }
  }

  /**
   * A received line loses its first byte if that is a dot and not the only one, whatever follows the dot; a line of
   * just a dot ends the block; every other line is taken as it is.
   */
  lemma DecodedInBytes(line: Text, rest: Text)
    requires LF !in line
    ensures line != [46] ==>
              Decode(line + [13, 10] + rest)
              == Decode(rest).(text := (if line != [] && line[0] == 46 then line[1..] else line) + [13, 10] + Decode(rest).text)
    ensures Decode([46, 13, 10] + rest) == Decoded([], rest, true)
    ensures Decode([]) == Decoded([], [], false)
  {
    hide NextLine, Decode;
    assert line + [13, 10] + rest == line + CRLF + rest && [46, 13, 10] + rest == [DOT] + CRLF + rest;
    LineReadsBack(line, rest);
    LineReadsBack([DOT], rest);
    DecodesFirst(line + CRLF + rest);
    DecodesFirst([DOT] + CRLF + rest);
    DecodesFirst([]);
    assert NextLine([]) == NoLine;
    if line != [46] {
      Associate(Unstuff(line), CRLF, Decode(rest).text);
    }
  }

  lemma DecodesFirst(s: Text)
    ensures Decode(s) ==
              match NextLine(s)
              case NoLine => Decoded([], [], false)
              case Line(line, rest) =>
                if line == [DOT] then Decoded([], rest, true)
                else Decode(rest).(text := Unstuff(line) + (CRLF + Decode(rest).text))
  {
  }

  lemma TrailingAfterLF(a: Text, b: Text)
    requires a != [] && a[|a| - 1] == LF
    ensures OddCRs(a + b) == OddCRs(b)
  {
    if b != [] {
      assert (a + b)[..|a + b| - 1] == a + b[..|b| - 1];
      if b[|b| - 1] == CR {
        TrailingAfterLF(a, b[..|b| - 1]);
      }
    }
  }

  /** A text is canonical when its lines are. */
  lemma CanonicalAppends(a: Text, b: Text)
    requires a != [] && a[|a| - 1] == LF
    ensures Canonical(a + b) <==> Canonical(a) && Canonical(b)
  {
    forall i | 0 <= i < |a|
      ensures (a + b)[..i] == a[..i]
    {
    }
    forall i | 0 <= i < |b|
      ensures (a + b)[|a| + i] == b[i] && OddCRs((a + b)[..|a| + i]) == OddCRs(b[..i])
    {
      assert (a + b)[..|a| + i] == a + b[..i];
      TrailingAfterLF(a, b[..i]);
    }
    if Canonical(a + b) {
      forall i | 0 <= i < |a| && a[i] == LF
        ensures OddCRs(a[..i])
      {
        assert (a + b)[i] == LF;
      }
    }
    if Canonical(a) && Canonical(b) {
      forall i | 0 <= i < |a + b| && (a + b)[i] == LF
        ensures OddCRs((a + b)[..i])
      {
        if i >= |a| {
          assert b[i - |a|] == LF;
        }
      }
    }
  }

  lemma CanonicalEmpty()
    ensures Canonical([])
  {
  }

  lemma UnfinishedIsNotCanonical(x: Text)
    requires LF !in x && x != []
    ensures !Canonical(x)
  {
    assert x[|x| - 1] in x;
  }

  lemma CanonicalLine(line: Text)
    requires LF !in line
    ensures Canonical(line + [LF]) <==> OddCRs(line)
  {
    var x := line + [LF];
    assert x[|line|] == LF && x[..|line|] == line;
  }

  lemma EndLineIsCanonical(line: Text)
    requires LF !in line
    ensures Canonical(EndLine(line)) && EndLine(line)[|EndLine(line)| - 1] == LF
  {
    if !OddCRs(line) {
      assert (line + [CR])[..|line|] == line;
      CanonicalLine(line + [CR]);
      assert line + CRLF == line + [CR] + [LF];
    } else {
      CanonicalLine(line);
    }
  }

  lemma {:induction false} NormIsCanonical(x: Text)
    ensures Canonical(Norm(x))
    decreases |x|
  {
    hide EndLine, Canonical, FirstLine, AfterLine, OddCRs;
    if x == [] {
      CanonicalEmpty();
    } else {
      NormIsCanonical(AfterLine(x));
      EndLineIsCanonical(FirstLine(x));
      CanonicalAppends(EndLine(FirstLine(x)), Norm(AfterLine(x)));
    }
  }

  /** Text comes through unchanged exactly when it is canonical. */
  lemma {:induction false} NormFixes(x: Text)
    ensures Norm(x) == x <==> Canonical(x)
    decreases |x|
  {
    hide Canonical, FirstLine, AfterLine, OddCRs;
    if x == [] {
      CanonicalEmpty();
    } else {
      var line, rest := FirstLine(x), AfterLine(x);
      if x == line {
        assert !Canonical(x) by { UnfinishedIsNotCanonical(x); }
      } else {
        CanonicalLine(line);
        CanonicalAppends(line + [LF], rest);
        NormFixes(rest);
        if OddCRs(line) {
          assert Norm(x)[|line| + 1..] == Norm(rest);
        } else {
          assert Norm(x)[|line|] == CR;
        }
      }
    }
  }

  lemma NormIdempotent(x: Text)
    ensures Norm(Norm(x)) == Norm(x)
  {
    NormIsCanonical(x);
    NormFixes(Norm(x));
  }

  /** Dot transparency: what is retrieved is what was stored, exactly for canonical text. */
  lemma Transparent(x: Text, rest: Text)
    ensures Decode(Encode(x) + rest) == Decoded(x, rest, true) <==> Canonical(x)
  {
    RoundTrip(x, rest);
    NormFixes(x);
  }

  // Blocks received from the network, in any form.

  /** The lines of a block, unstuffed. */
  function BlockLines(s: Text): seq<Text>
    decreases |s|
  {
    match NextLine(s)
    case NoLine => []
    case Line(line, rest) => if line == [DOT] then [] else [Unstuff(line)] + BlockLines(rest)
  }

  lemma NextLineHasNoLF(s: Text)
    ensures NextLine(s).Line? ==> LF !in NextLine(s).text && LF !in Unstuff(NextLine(s).text)
  {
  }

  /** A received block survives retrieval exactly if none of its lines ends in an odd number of CRs. */
  lemma {:induction false} DecodedIsCanonical(s: Text)
    ensures Canonical(Decode(s).text) <==> forall line :: line in BlockLines(s) ==> !OddCRs(line)
    decreases |s|
  {
    hide Canonical, NextLine, OddCRs;
    match NextLine(s)
    case NoLine => CanonicalEmpty();
    case Line(line, rest) =>
      if line == [DOT] {
        CanonicalEmpty();
      } else {
        var l := Unstuff(line);
        NextLineHasNoLF(s);
        DecodedIsCanonical(rest);
        OneMoreCR(l);
        CanonicalLine(l + [CR]);
        CanonicalAppends((l + [CR]) + [LF], Decode(rest).text);
        assert l + (CRLF + Decode(rest).text) == ((l + [CR]) + [LF]) + Decode(rest).text;
        assert BlockLines(s) == [l] + BlockLines(rest);
        assert forall k :: k in BlockLines(s) <==> k == l || k in BlockLines(rest);
      }
  }

  lemma OneMoreCR(line: Text)
    ensures OddCRs(line + [CR]) <==> !OddCRs(line)
  {
    assert (line + [CR])[..|line|] == line;
  }

  /** Bytes behind a line's LF do not change how the line is read. */
  lemma FirstLineKept(a: Text, b: Text)
    requires LF in a
    ensures NextLine(a + b) == Line(NextLine(a).text, NextLine(a).rest + b)
  {
    var i := IndexOf(a, LF);
    assert i < |a| by {
      assert a[..|a|] == a;
    }
    assert (a + b)[..i] == a[..i];
    IndexOfIs(a + b, LF, i);
    assert (a + b)[i + 1..] == a[i + 1..] + b;
  }

  /** What the line reader supplies to an unfinished last line. */
  function Completion(s: Text): Text {
    if s == [] || s[|s| - 1] == LF then [] else if s[|s| - 1] == CR then [LF] else CRLF
  }

  lemma CompletedLastLine(s: Text)
    requires s != [] && LF !in s
    ensures NextLine(s + Completion(s)) == NextLine(s) && LF in s + Completion(s)
  {
    assert IndexOf(s, LF) == |s| by {
      IndexOfIs(s, LF, |s|);
      assert s[..|s|] == s;
    }
    assert s[|s| - 1] in s;
    var line := NextLine(s).text;
    assert s + Completion(s) == line + CRLF + [];
    LineReadsBack(line, []);
  }

  lemma RestEndsAlike(s: Text)
    requires LF in s
    ensures Completion(NextLine(s).rest) == Completion(s)
  {
    var i := IndexOf(s, LF);
    assert i < |s| by {
      assert s[..|s|] == s;
    }
    assert s == s[..i + 1] + s[i + 1..];
  }

  lemma {:induction false} CompletedFirstLine(s: Text, end: Text)
    requires s != []
    ensures NextLine(s + Completion(s) + end)
         == Line(NextLine(s).text, NextLine(s).rest + Completion(NextLine(s).rest) + end)
  {
    hide NextLine, Completion;
    if LF in s {
      RestEndsAlike(s);
      FirstLineKept(s, Completion(s) + end);
      Associate(s, Completion(s), end);
      Associate(NextLine(s).rest, Completion(s), end);
    } else {
      CompletedLastLine(s);
      NoLineAfter(s);
      FirstLineKept(s + Completion(s), end);
    }
  }

  lemma NoLineAfter(s: Text)
    requires s != [] && LF !in s
    ensures NextLine(s).rest == [] && Completion([]) == []
  {
    IndexOfIs(s, LF, |s|);
    assert s[..|s|] == s;
  }

  /** A block cut off by the end of the connection is decoded as if its closing dot line had arrived. */
  lemma {:induction false} CutOffGoesUnnoticed(s: Text, rest: Text)
    requires !Decode(s).terminated
    ensures Decode(s + Completion(s) + (CLOSING + rest)) == Decoded(Decode(s).text, rest, true)
    decreases |s|
  {
    hide NextLine, Completion;
    if s == [] {
      EmptyCompletion();
      assert s + Completion(s) + (CLOSING + rest) == [DOT] + CRLF + rest;
      LineReadsBack([DOT], rest);
    } else {
      CompletedFirstLine(s, CLOSING + rest);
      CutOffGoesUnnoticed(NextLine(s).rest, rest);
    }
  }

  lemma EmptyCompletion()
    ensures Completion([]) == []
  {
  }
}
