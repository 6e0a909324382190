/** The readers a mail passes through: the size limiter, stored data, and the body with its prepended headers. */
module Readers {
  import opened Bytes
  import opened DotDecoding
  import opened Folding

  /** A stream cut at `n` bytes: what fits strictly is passed on, the rest is refused. */
  function Limit(s: Stream, n: nat): Stream {
    if |s.content| < n then s else Stream(s.content[..n], LimitReached)
  }

  /** A read within the limit is a read of the limited stream. */
  lemma LimitStep(before: Stream, n: nat, size: nat, got: Text, err: Err, after: Stream)
    requires n > 0 && |got| <= n
    requires ReadStep(before, if size > n then n else size, got, err, after)
    requires err == Failed ==> |before.content| < n
    requires before.end != LimitReached
    ensures ReadStep(Limit(before, n), size, got, err, Limit(after, n - |got|))
  {
    if err == NoErr {
      assert before.content[..|got|] == got;
      if |before.content| >= n {
        assert before.content[..n] == got + after.content[..n - |got|];
      }
    }
  }

  lemma RefusedStep(before: Stream, size: nat)
    ensures ReadStep(Limit(before, 0), size, [], LimitReached, Limit(before, 0))
  {
  }

  class LimitedReader {
    const r: DotReader
    var n: int

    constructor (r: DotReader, n: int)
      requires 0 <= n
      ensures this.r == r && this.n == n
    {
      this.r, this.n := r, n;
    }

    ghost predicate Valid()
      reads this, r
    {
      0 <= n && r.Valid()
    }

    ghost function Pending(): Stream
      requires Valid()
      reads this, r, r.r
    {
      Limit(r.Pending(), n)
    }

    method Read(b: array<byte>, size: nat) returns (got: nat, err: Err)
      requires Valid() && size <= b.Length
      modifies this, r, r.r, b
      ensures Valid() && got <= size
      ensures ReadStep(old(Pending()), size, b[..got], err, Pending())
      ensures err != Failed ==> Advanced(old(r.Left()), r.Left())
      ensures err != Failed ==> n - |r.Left().text| == old(n - |r.Left().text|)
      ensures err == Eof ==> r.r.input == r.Left().rest
    {
      hide r.Left, ReadStep, Limit;
      ghost var before := r.Pending();
      if n <= 0 {
        RefusedStep(before, size);
        return 0, LimitReached;
      }
      var len := if size > n then n else size;
      got, err := r.Read(b, len);
      LimitStep(before, n, size, b[..got], err, r.Pending());
      n := n - got;
    }
  }

  /** Bytes kept in memory or in a file, read from a position on, in portions of any size. */
  class StoredReader {
    const content: Text
    var pos: nat

    constructor (content: Text, pos: nat)
      ensures this.content == content && this.pos == pos
    {
      this.content, this.pos := content, pos;
    }

    ghost function Pending(): Stream
      reads this
    {
      Stream(if pos <= |content| then content[pos..] else [], Eof)
    }

    method Read(b: array<byte>, size: nat) returns (got: nat, err: Err)
      requires size <= b.Length
      modifies this, b
      ensures got <= size && (err == NoErr || err == Eof)
      ensures ReadStep(old(Pending()), size, b[..got], err, Pending())
    {
      if size == 0 {
        return 0, NoErr;
      }
      if pos >= |content| {
        return 0, Eof;
      }
      got :| 1 <= got <= size && pos + got <= |content|;
      forall k | 0 <= k < got {
        b[k] := content[pos + k];
      }
      assert b[..got] == content[pos..pos + got];
      pos := pos + got;
      return got, NoErr;
    }
  }

  datatype Source = FromDot(dot: DotReader) | FromLimited(limited: LimitedReader) | FromStore(stored: StoredReader)

  /** A mail on its way through the server: prepended header fields, newest first, in front of a reader. */
  class Body {
    var buffers: seq<Text>
    const inner: Source

    constructor (inner: Source)
      ensures this.inner == inner && buffers == []
    {
      this.inner, buffers := inner, [];
    }

    ghost function Readers(): set<object> {
      match inner
      case FromDot(d) => {d, d.r}
      case FromLimited(l) => {l, l.r, l.r.r}
      case FromStore(s) => {s}
    }

    ghost predicate Valid()
      reads Readers()
    {
      match inner
      case FromDot(d) => d.Valid()
      case FromLimited(l) => l.Valid()
      case FromStore(_) => true
    }

    ghost function InnerPending(): Stream
      requires Valid()
      reads Readers()
    {
      match inner
      case FromDot(d) => d.Pending()
      case FromLimited(l) => l.Pending()
      case FromStore(s) => s.Pending()
    }

    ghost function Pending(): Stream
      requires Valid()
      reads this, Readers()
    {
      InnerPending().(content := Concat(buffers) + InnerPending().content)
    }

    /** Where the block that is being received stands, for a body fed from the network. */
    ghost function Block(): Decoded
      requires Valid()
      reads Readers()
    {
      match inner
      case FromDot(d) => d.Left()
      case FromLimited(l) => l.r.Left()
      case FromStore(_) => Decoded([], [], true)
    }

    ghost function Input(): Text
      reads Readers()
    {
      match inner
      case FromDot(d) => d.r.input
      case FromLimited(l) => l.r.r.input
      case FromStore(_) => []
    }

    /** What the limiter still allows, beyond the text that is left. */
    ghost function Slack(): int
      requires Valid()
      reads Readers()
    {
      match inner
      case FromLimited(l) => l.n - |l.r.Left().text|
      case _ => 0
    }

    /** Writes the field into a buffer in front, folding it, and tells its length. */
    method Prepend(key: Text, value: Text) returns (n: nat)
      requires Valid()
      modifies this
      ensures Pending() == Stream(Header(key, value) + old(Pending().content), old(Pending().end))
      ensures n == |Header(key, value)|
    {
      hide InnerPending, Header, Folded;
      assert this !in Readers();
      var buffer := key + [COLON, SPACE];
      var length := |key| + 2;
      var i := 0;
      HeaderStarts(key, value);
      while i < |value|
        invariant i <= |value| && buffers == old(buffers)
        invariant buffer + Folded(value[i..], FOLD_LENGTH - length) == Header(key, value)
      {
        var line, room := value[i..], FOLD_LENGTH - length;
        FoldPointIsBest(line, room);
        var foldPoint := FindFoldPoint(line, room);
        FoldedUnrolls(line, room);
        Associate(buffer, line[..foldPoint] + CRLF, Folded(line[foldPoint..], FOLD_LENGTH));
        Associate(buffer, line[..foldPoint], CRLF);
        buffer := buffer + line[..foldPoint] + CRLF;
        assert line[foldPoint..] == value[i + foldPoint..];
        i := i + foldPoint;
        length := 0;
      }
      assert value[i..] == [];
      FoldedEmpty(FOLD_LENGTH - length);
      assert buffer + [] == buffer;
      Associate(buffer, Concat(buffers), InnerPending().content);
      buffers := [buffer] + buffers;
      assert buffers[1..] == old(buffers);
      return |buffer|;
    }

    /** What a multi-reader makes of bytes that were read before and this body. */
    method PutBack(data: Text)
      requires Valid()
      modifies this
      ensures Pending() == Stream(data + old(Pending().content), old(Pending().end))
    {
      Associate(data, Concat(buffers), InnerPending().content);
      buffers := [data] + buffers;
    }

    method ReadInner(b: array<byte>, size: nat) returns (got: nat, err: Err)
      requires Valid() && size <= b.Length && b !in Readers()
      modifies Readers(), b
      ensures Valid() && got <= size
      ensures ReadStep(old(InnerPending()), size, b[..got], err, InnerPending())
      ensures err != Failed ==> Advanced(old(Block()), Block()) && Slack() == old(Slack())
      ensures err == Eof && !inner.FromStore? ==> Input() == Block().rest
    {
      match inner
      case FromDot(d) => got, err := d.Read(b, size);
      case FromLimited(l) => got, err := l.Read(b, size);
      case FromStore(s) => got, err := s.Read(b, size);
    }

    method ReadInnerChunk(size: nat) returns (chunk: Text, err: Err)
      requires Valid()
      modifies Readers()
      ensures Valid()
      ensures ReadStep(old(InnerPending()), size, chunk, err, InnerPending())
      ensures err != Failed ==> Advanced(old(Block()), Block()) && Slack() == old(Slack())
      ensures err == Eof && !inner.FromStore? ==> Input() == Block().rest
    {
      hide ReadStep, Advanced;
      var b := new byte[size];
      var got, e := ReadInner(b, size);
      return b[..got], e;
    }

    method DropEmptyBuffers()
      modifies this
      ensures Concat(buffers) == old(Concat(buffers))
      ensures buffers != [] ==> buffers[0] != []
    {
      while buffers != [] && buffers[0] == []
        invariant Concat(buffers) == old(Concat(buffers))
        decreases |buffers|
      {
        buffers := buffers[1..];
      }
    }

    /** One read: from the front buffer if one is left, else from the inner reader. */
    method Read(size: nat) returns (chunk: Text, err: Err)
      requires Valid() && size > 0
      modifies this, Readers()
      ensures Valid()
      ensures ReadStep(old(Pending()), size, chunk, err, Pending())
      ensures err != Failed ==> Advanced(old(Block()), Block()) && Slack() == old(Slack())
      ensures err == Eof && !inner.FromStore? ==> Input() == Block().rest
    {
      hide ReadStep, Block, Slack, Input, InnerPending, Advanced, Valid;
      DropEmptyBuffers();
      if buffers != [] {
        var n := if |buffers[0]| < size then |buffers[0]| else size;
        BufferStep(InnerPending(), size, n, buffers);
        ReflAdvanced(Block());
        chunk := buffers[0][..n];
        buffers := [buffers[0][n..]] + buffers[1..];
        return chunk, NoErr;
      }
      ghost var inner := InnerPending();
      chunk, err := ReadInnerChunk(size);
      InnerStep(inner, size, chunk, err, InnerPending(), buffers);
    }
  }

  /** A read of the inner reader is a read of the whole once the buffers are used up. */
  lemma InnerStep(inner: Stream, size: nat, got: Text, err: Err, after: Stream, buffers: seq<Text>)
    requires Concat(buffers) == [] && ReadStep(inner, size, got, err, after)
    ensures ReadStep(inner.(content := Concat(buffers) + inner.content), size, got, err,
                     after.(content := Concat(buffers) + after.content))
  {
    assert Concat(buffers) + inner.content == inner.content;
    assert Concat(buffers) + after.content == after.content;
  }

  lemma Regroup(first: Text, n: nat, rest: Text, more: Text)
    requires n <= |first|
    ensures (first + rest) + more == first[..n] + ((first[n..] + rest) + more)
  {
    assert first == first[..n] + first[n..];
    Associate(first[..n], first[n..], rest);
    Associate(first[..n], first[n..] + rest, more);
  }

  lemma BufferStep(inner: Stream, size: nat, n: nat, buffers: seq<Text>)
    requires buffers != [] && buffers[0] != [] && size > 0
    requires n == if |buffers[0]| < size then |buffers[0]| else size
    ensures var after := [buffers[0][n..]] + buffers[1..];
            ReadStep(inner.(content := Concat(buffers) + inner.content), size, buffers[0][..n], NoErr,
                     inner.(content := Concat(after) + inner.content))
  {
    var after := [buffers[0][n..]] + buffers[1..];
    assert after[1..] == buffers[1..];
    Regroup(buffers[0], n, Concat(buffers[1..]), inner.content);
  }

  lemma ReflAdvanced(d: Decoded)
    ensures Advanced(d, d)
  {
  }

  lemma HeaderStarts(key: Text, value: Text)
    ensures Header(key, value) == key + [COLON, SPACE] + Folded(value[0..], FOLD_LENGTH - (|key| + 2))
  {
    assert value[0..] == value;
  }

  lemma FoldedEmpty(room: int)
    ensures Folded([], room) == []
  {
  }

  lemma FoldedUnrolls(value: Text, room: int)
    requires value != []
    ensures var p := FoldPoint(value, room);
            0 < p <= |value| && Folded(value, room) == value[..p] + CRLF + Folded(value[p..], FOLD_LENGTH)
  {
    FoldPointIsBest(value, room);
    assert Pieces(value, room)[1..] == Pieces(value[FoldPoint(value, room)..], FOLD_LENGTH);
  }
}
