/** Encoding of text as a dot-stuffed block, byte by byte (section 4.5.2 of RFC 5321, section 3 of RFC 1939). */
module DotEncoding {
  import opened Bytes
  import opened DotDecoding

  const CLOSING: Text := [DOT, CR, LF]

  /** The successor state for one byte, and what is written for it. */
  function EncodeByte(state: State, b: byte): (State, Text) {
    match state
    case SEof => (SEof, [b])
    case SCr => (if b == LF then SStart else SText, [b])
    case _ =>
      if b == CR then (SCr, [CR])
      else if b == LF then (SStart, CRLF)
      else (SText, if state == SStart && b == DOT then [DOT, DOT] else [b])
  }

  function EncodeAll(state: State, s: Text): (State, Text)
    decreases |s|
  {
    if s == [] then (state, [])
    else
      var (next, out) := EncodeByte(state, s[0]);
      var (last, more) := EncodeAll(next, s[1..]);
      (last, out + more)
  }

  function CloseBytes(state: State): Text {
    (if state == SStart then [] else if state == SText then CRLF else [LF]) + CLOSING
  }

  /** The whole block written for `s`, closing dot line included. */
  function Encode(s: Text): Text {
    EncodeAll(SStart, s).1 + CloseBytes(EncodeAll(SStart, s).0)
  }

  /** Writing in two portions is writing both at once. */
  lemma {:induction false} EncodeAppends(state: State, a: Text, b: Text)
    ensures EncodeAll(state, a + b).0 == EncodeAll(EncodeAll(state, a).0, b).0
    ensures EncodeAll(state, a + b).1 == EncodeAll(state, a).1 + EncodeAll(EncodeAll(state, a).0, b).1
    decreases |a|
  {
    if a == [] {
      assert a + b == b;
    } else {
      assert (a + b)[1..] == a[1..] + b;
      EncodeAppends(EncodeByte(state, a[0]).0, a[1..], b);
    }
  }

  lemma EncodeSingle(state: State, b: byte)
    ensures EncodeAll(state, [b]) == EncodeByte(state, b)
  {
    var (next, out) := EncodeByte(state, b);
    assert [b][1..] == [] && out + [] == out;
    assert EncodeAll(next, []) == (next, []);
  }

  lemma EncodeOne(state: State, a: Text, b: byte)
    ensures EncodeAll(state, a + [b]).0 == EncodeByte(EncodeAll(state, a).0, b).0
    ensures EncodeAll(state, a + [b]).1 == EncodeAll(state, a).1 + EncodeByte(EncodeAll(state, a).0, b).1
  {
    EncodeAppends(state, a, [b]);
    EncodeSingle(EncodeAll(state, a).0, b);
  }

  /** The buffered writer of a connection. */
  class Output {
    var out: Text

    constructor ()
      ensures out == []
    {
      out := [];
    }

    method WriteByte(b: byte)
      modifies this
      ensures out == old(out) + [b]
    {
      out := out + [b];
    }
  }

  class DotWriter {
    const w: Output
    var state: State

    constructor (w: Output)
      ensures this.w == w && state == SStart
    {
      this.w, state := w, SStart;
    }

    method WriteOne(r: byte)
      modifies this, w
      ensures state == EncodeByte(old(state), r).0
      ensures w.out == old(w.out) + EncodeByte(old(state), r).1
    {
      if state == SCr {
        state := if r == LF then SStart else SText;
      } else if state != SEof {
        if state == SStart && r == DOT {
          w.WriteByte(DOT);
        }
        state := SText;
        if r == CR {
          state := SCr;
        } else if r == LF {
          w.WriteByte(CR);
          state := SStart;
        }
      }
      w.WriteByte(r);
    }

    /** The state and the output depend on the bytes written so far, not on how they are cut into calls. */
    method Write(b: array<byte>, size: nat) returns (n: nat)
      requires size <= b.Length
      modifies this, w
      ensures n == size
      ensures state == EncodeAll(old(state), b[..size]).0
      ensures w.out == old(w.out) + EncodeAll(old(state), b[..size]).1
    {
      n := 0;
      while n < size
        invariant n <= size
        invariant state == EncodeAll(old(state), b[..n]).0
        invariant w.out == old(w.out) + EncodeAll(old(state), b[..n]).1
      {
        assert b[..n + 1] == b[..n] + [b[n]];
        EncodeOne(old(state), b[..n], b[n]);
        WriteOne(b[n]);
        n := n + 1;
      }
    }

    method Close()
      modifies w
      ensures w.out == old(w.out) + CloseBytes(state)
    {
      if state != SStart {
        if state == SText {
          w.WriteByte(CR);
        }
        w.WriteByte(LF);
      }
      w.out := w.out + CLOSING;
    }
  }
}
