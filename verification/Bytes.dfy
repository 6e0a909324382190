/** Bytes, the control characters of the text protocols, and the few facts about sequences used throughout. */
module Bytes {

  newtype byte = b: int | 0 <= b < 256

  type Text = seq<byte>

  const TAB: byte := 9
  const LF: byte := 10
  const CR: byte := 13
  const SPACE: byte := 32
  const DOT: byte := 46
  const COLON: byte := 58
  const LESS: byte := 60
  const GREATER: byte := 62

  const CRLF: Text := [CR, LF]

  datatype Option<+T> = None | Some(value: T)

  /** What ends a read or a copy: nothing yet, the end of the data, the size limit, a failed connection or disk. */
  datatype Err = NoErr | Eof | LimitReached | Failed | DiskFailed

  /** The position of the first `b` in `s`, or `|s|`. */
  function IndexOf(s: Text, b: byte): (i: nat)
    ensures i <= |s|
    ensures b !in s[..i]
    ensures i < |s| ==> s[i] == b
  {
    if s == [] || s[0] == b then 0
    else
      var j := IndexOf(s[1..], b);
      assert s[..1 + j] == [s[0]] + s[1..][..j];
      1 + j
  }

  /** `IndexOf` is determined by its contract. */
  lemma {:induction false} IndexOfIs(s: Text, b: byte, i: nat)
    requires i <= |s| && b !in s[..i] && (i < |s| ==> s[i] == b)
    ensures IndexOf(s, b) == i
  {
  }

  predicate Free(s: Text) {
    CR !in s && LF !in s
  }

  predicate IsBlank(b: byte) {
    b == SPACE || b == TAB
  }

  lemma Associate(a: Text, b: Text, c: Text)
    ensures (a + b) + c == a + (b + c)
  {
  }

  lemma TakeFirst(a: Text, t: Text)
    requires a != []
    ensures a + t == [a[0]] + (a[1..] + t)
  {
  }

  function Concat(parts: seq<Text>): Text {
    if parts == [] then [] else parts[0] + Concat(parts[1..])
  }

  lemma {:induction false} ConcatAppends(a: seq<Text>, b: seq<Text>)
    ensures Concat(a + b) == Concat(a) + Concat(b)
  {
    if a == [] {
      assert a + b == b;
    } else {
      assert (a + b)[1..] == a[1..] + b;
      ConcatAppends(a[1..], b);
    }
  }

  /** Whatever is in the first map is in the second one, unchanged. */
  ghost predicate Extends<K(!new), V>(small: map<K, V>, big: map<K, V>) {
    forall k :: k in small ==> k in big && big[k] == small[k]
  }
}
