/** Folding of long header fields (sections 2.1.1 and 2.2.3 of RFC 2822). */
module Folding {
  import opened Bytes

  const FOLD_LENGTH := 78

  predicate Continues(s: Text, i: nat) {
    i < |s| && 0x80 <= s[i] < 0xC0
  }

  /** The number of bytes that one step of a range loop over a string consumes at `i`; malformed UTF-8 counts one. */
  function RuneLength(s: Text, i: nat): (n: nat)
    requires i < |s|
    ensures 1 <= n && i + n <= |s|
    ensures forall k :: i < k < i + n ==> s[k] >= 0x80
  {
    var b := s[i];
    var low: byte := if b == 0xE0 then 0xA0 else if b == 0xF0 then 0x90 else 0x80;
    var high: byte := if b == 0xED then 0xA0 else if b == 0xF4 then 0x90 else 0xC0;
    if b < 0xC2 || b > 0xF4 || i + 1 >= |s| || !(low <= s[i + 1] < high) then 1
    else if b < 0xE0 then 2
    else if !Continues(s, i + 2) then 1
    else if b < 0xF0 then 3
    else if !Continues(s, i + 3) then 1
    else 4
  }

  predicate Ascii(s: Text) {
    forall i :: 0 <= i < |s| ==> s[i] < 0x80
  }

  /** The range loop of findFoldPoint from byte `i` on. */
  function Scan(line: Text, i: nat, candidate: nat, length: int): nat
    requires i <= |line|
    decreases |line| - i
  {
    if i == |line| then |line|
    else
      var c := if IsBlank(line[i]) then i else candidate;
      if i >= length && c > 0 then c else Scan(line, i + RuneLength(line, i), c, length)
  }

  function FoldPoint(line: Text, length: int): nat {
    if |line| > length then Scan(line, 0, 0, length) else |line|
  }

  method FindFoldPoint(line: Text, length: int) returns (p: nat)
    ensures p == FoldPoint(line, length)
  {
    if |line| > length {
      var candidate, i := 0, 0;
      while i < |line|
        invariant i <= |line|
        invariant Scan(line, i, candidate, length) == Scan(line, 0, 0, length)
        decreases |line| - i
      {
        if IsBlank(line[i]) {
          candidate := i;
        }
        if i >= length && candidate > 0 {
          return candidate;
        }
        i := i + RuneLength(line, i);
      }
    }
    return |line|;
  }

  // What the fold point is.

  /** The first position, from `i` on, at which a character starts and at least `length` bytes have passed. */
  function NextStart(line: Text, i: nat, length: int): (q: nat)
    requires i <= |line|
    ensures i <= q <= |line|
    ensures q < |line| ==> q >= length
    ensures forall k :: i <= k < q && length <= k ==> line[k] >= 0x80
    decreases |line| - i
  {
    if i == |line| || i >= length then i else NextStart(line, i + RuneLength(line, i), length)
  }

  ghost predicate NoBlankWithin(line: Text, from: int, to: int) {
    forall j :: 0 <= j < |line| && from < j < to ==> !IsBlank(line[j])
  }

  /** `p` is the last blank up to `q`, or else the first one behind it, or else the end; position 0 does not count. */
  ghost predicate BestFold(line: Text, q: nat, p: nat) {
    && 0 < p <= |line|
    && (p < |line| ==> IsBlank(line[p]))
    && (if q == |line| then p == |line| else if p <= q then NoBlankWithin(line, p, q + 1) else NoBlankWithin(line, 0, p))
  }

  /** Behind `q` the first blank is taken. */
  lemma {:induction false} ScanBehind(line: Text, i: nat, length: int)
    requires 0 < i <= |line| && length <= i && NoBlankWithin(line, 0, i)
    ensures var p := Scan(line, i, 0, length);
            i <= p <= |line| && (p < |line| ==> IsBlank(line[p])) && NoBlankWithin(line, 0, p)
    decreases |line| - i
  {
    if i < |line| && !IsBlank(line[i]) {
      ScanBehind(line, i + RuneLength(line, i), length);
    }
  }

  lemma {:induction false} ScanIsBest(line: Text, i: nat, candidate: nat, length: int)
    requires i <= |line| && line != []
    requires candidate == 0 || (0 < candidate < i && IsBlank(line[candidate]))
    requires NoBlankWithin(line, candidate, i)
    ensures BestFold(line, NextStart(line, i, length), Scan(line, i, candidate, length))
    decreases |line| - i
  {
    if i < |line| {
      var c := if IsBlank(line[i]) then i else candidate;
      var next := i + RuneLength(line, i);
      if i < length {
        ScanIsBest(line, next, c, length);
      } else if c == 0 {
        ScanBehind(line, next, length);
      }
    }
  }

  /** The fold point of any line, in terms of the first character start at or behind the limit. */
  lemma FoldPointIsBest(line: Text, length: int)
    requires line != []
    ensures if |line| <= length then FoldPoint(line, length) == |line|
            else BestFold(line, NextStart(line, 0, length), FoldPoint(line, length))
  {
    if |line| > length {
      ScanIsBest(line, 0, 0, length);
    }
  }

  /** A blank at which the line could be folded within the limit. */
  ghost predicate Usable(line: Text, length: int, j: nat) {
    0 < j < |line| && j <= length && IsBlank(line[j])
  }

  /**
   * The limit is missed although a fold point was usable exactly when a character straddles the limit and
   * is the last of the line or is followed by a blank. It is then missed by at most three bytes.
   */
  lemma OverlongExactly(line: Text, length: int, j: nat)
    requires Usable(line, length, j) && |line| > length
    ensures var q := NextStart(line, 0, length);
            && (FoldPoint(line, length) > length <==> q > length && (q == |line| || IsBlank(line[q])))
            && FoldPoint(line, length) <= length + 3
  {
    FoldPointIsBest(line, length);
    NextStartIsNear(line, 0, length);
  }

  /** Through ASCII characters the search goes byte by byte. */
  lemma {:induction false} NextStartSkips(line: Text, i: nat, to: nat, length: int)
    requires i <= to <= |line| && to <= length && Ascii(line[..to])
    ensures NextStart(line, i, length) == NextStart(line, to, length)
    decreases |line| - i
  {
    if i < to {
      assert line[..to][i] == line[i];
      NextStartSkips(line, i + 1, to, length);
    }
  }

  /** It is missed by one byte if a character of two bytes straddles it and a blank follows, whatever comes before. */
  lemma StraddledLimit(line: Text, length: nat, j: nat)
    requires 0 < length < |line| - 1 && Usable(line, length, j) && Ascii(line[..length - 1])
    requires 0xC2 <= line[length - 1] < 0xE0 && 0x80 <= line[length] < 0xC0 && IsBlank(line[length + 1])
    ensures FoldPoint(line, length) == length + 1
  {
    NextStartSkips(line, 0, length - 1, length);
    assert RuneLength(line, length - 1) == 2;
    FoldPointIsBest(line, length);
  }

  lemma {:induction false} NextStartIsNear(line: Text, i: nat, length: int)
    requires i <= |line|
    requires i <= length
    ensures NextStart(line, i, length) <= length + 3
    decreases |line| - i
  {
    if i < |line| && i < length {
      var next := i + RuneLength(line, i);
      if next <= length {
        NextStartIsNear(line, next, length);
      }
    }
  }

  lemma {:induction false} AsciiNextStart(line: Text, i: nat, length: int)
    requires Ascii(line) && i <= |line|
    ensures NextStart(line, i, length) == if length <= i then i else if length <= |line| then length else |line|
    decreases |line| - i
  {
    if i < |line| && i < length {
      AsciiNextStart(line, i + 1, length);
    }
  }

  /** In ASCII lines: the last usable blank, or, if there is none, the first blank, or the end. */
  lemma AsciiFoldPoint(line: Text, length: int)
    requires Ascii(line) && line != []
    ensures var p := FoldPoint(line, length);
            && 0 < p <= |line|
            && (p < |line| ==> IsBlank(line[p]))
            && (p <= length ==> p == |line| || NoBlankWithin(line, p, length + 1))
            && (p > length ==> NoBlankWithin(line, 0, p))
            && (|line| <= length ==> p == |line|)
  {
    FoldPointIsBest(line, length);
    AsciiNextStart(line, 0, length);
  }

  // The folded field.

  /** The physical lines of a value, the first of which has `room` bytes. */
  function Pieces(value: Text, room: int): seq<Text>
    decreases |value|
  {
    if value == [] then []
    else
      FoldPointIsBest(value, room);
      var p := FoldPoint(value, room);
      [value[..p]] + Pieces(value[p..], FOLD_LENGTH)
  }

  function EndAll(pieces: seq<Text>): Text {
    if pieces == [] then [] else pieces[0] + CRLF + EndAll(pieces[1..])
  }

  function Folded(value: Text, room: int): Text {
    EndAll(Pieces(value, room))
  }

  /** A header field as it is prepended to a mail. */
  function Header(key: Text, value: Text): Text {
    key + [COLON, SPACE] + Folded(value, FOLD_LENGTH - (|key| + 2))
  }

  /** Nothing is lost: the pieces are not empty, start with a blank except for the first, and make up the value. */
  lemma {:induction false} PiecesMakeValue(value: Text, room: int)
    ensures Concat(Pieces(value, room)) == value
    ensures forall k :: 0 <= k < |Pieces(value, room)| ==> Pieces(value, room)[k] != []
    ensures forall k :: 0 < k < |Pieces(value, room)| ==> IsBlank(Pieces(value, room)[k][0])
    decreases |value|
  {
    if value != [] {
      FoldPointIsBest(value, room);
      var p := FoldPoint(value, room);
      PiecesMakeValue(value[p..], FOLD_LENGTH);
      var more := Pieces(value[p..], FOLD_LENGTH);
      assert more != [] ==> more[0][0] == value[p..][0] by {
        assert more != [] ==> Concat(more) == more[0] + Concat(more[1..]);
      }
      assert value[..p] + value[p..] == value;
    }
  }

  /** A field of at most 78 bytes, or without a space or tab to fold at, is one line: key, colon, space, value, CRLF. */
  lemma OneLineInBytes(key: Text, value: Text)
    requires value != []
    requires |key| + 2 + |value| <= 78 || forall i :: 0 < i < |value| ==> value[i] != 32 && value[i] != 9
    ensures Header(key, value) == key + [58, 32] + value + [13, 10]
  {
    var room := FOLD_LENGTH - (|key| + 2);
    FoldPointIsBest(value, room);
    assert value[..|value|] == value && value[|value|..] == [];
    assert Pieces(value, room) == [value] + Pieces([], FOLD_LENGTH) == [value];
    assert EndAll([value]) == value + CRLF;
  }

  lemma {:induction false} LegalLinesFit(pieces: seq<Text>, value: Text, room: int)
    requires Ascii(value) && pieces == Pieces(value, room)
    ensures forall k :: 0 <= k < |pieces| ==>
              |pieces[k]| <= (if k == 0 then room else 78) || NoBlankWithin(pieces[k], 0, |pieces[k]|)
    decreases |value|
  {
    if value != [] {
      AsciiFoldPoint(value, room);
      var p := FoldPoint(value, room);
      LegalLinesFit(pieces[1..], value[p..], FOLD_LENGTH);
      assert pieces[0] == value[..p];
      assert p > room && p > 0 ==> NoBlankWithin(value[..p], 0, p);
      forall k | 1 <= k < |pieces|
        ensures |pieces[k]| <= 78 || NoBlankWithin(pieces[k], 0, |pieces[k]|)
      {
        assert pieces[k] == pieces[1..][k - 1];
      }
    }
  }

  /** Every line of an ASCII field has at most 78 bytes, unless its part of the value has no space or tab to fold at. */
  lemma LinesFitInNumbers(key: Text, value: Text, k: nat)
    requires value != [] && Ascii(value) && k < |FieldLines(key, value)|
    ensures var line := FieldLines(key, value)[k];
            || |line| <= 78
            || forall i :: (if k == 0 then |key| + 2 else 0) < i < |line| ==> line[i] != 32 && line[i] != 9
  {
    hide Pieces, Ascii, NoBlankWithin;
    var room := FOLD_LENGTH - (|key| + 2);
    var pieces := Pieces(value, room);
    LegalLinesFit(pieces, value, room);
    PiecesExist(value, room);
    if k == 0 {
      BlanksBehind(key + [COLON, SPACE], pieces[0]);
    } else {
      BlanksBehind([], pieces[k]);
      assert [] + pieces[k] == pieces[k];
    }
  }

  lemma PiecesExist(value: Text, room: int)
    requires value != []
    ensures Pieces(value, room) != []
  {
  }

  lemma BlanksBehind(start: Text, piece: Text)
    ensures NoBlankWithin(piece, 0, |piece|) ==>
              forall i :: |start| < i < |start + piece| ==> (start + piece)[i] != 32 && (start + piece)[i] != 9
  {
    assert forall i :: |start| < i < |start + piece| ==> (start + piece)[i] == piece[i - |start|];
  }

  // Characters in UTF-8 (section 3 of RFC 3629).

  /** The code points that have an encoding. */
  predicate Scalar(c: int) {
    0 <= c < 0xD800 || 0xE000 <= c < 0x11_0000
  }

  function Utf8(c: int): Text
    requires Scalar(c)
  {
    if c < 0x80 then [c as byte]
    else if c < 0x800 then [(0xC0 + c / 0x40) as byte, (0x80 + c % 0x40) as byte]
    else if c < 0x1_0000 then [(0xE0 + c / 0x1000) as byte, (0x80 + c / 0x40 % 0x40) as byte, (0x80 + c % 0x40) as byte]
    else
      [(0xF0 + c / 0x4_0000) as byte, (0x80 + c / 0x1000 % 0x40) as byte, (0x80 + c / 0x40 % 0x40) as byte,
       (0x80 + c % 0x40) as byte]
  }

  /** The range loop consumes just the bytes of an encoded character. */
  lemma CharacterIsConsumed(c: int, rest: Text)
    requires Scalar(c)
    ensures RuneLength(Utf8(c) + rest, 0) == |Utf8(c)|
  {
  }

  lemma Digits(c: int, high: int, low: int)
    requires c == high * 0x40 + low && 0 <= low < 0x40
    ensures c / 0x40 == high && c % 0x40 == low
  {
  }

  lemma TwoBytes(x: int, y: int) returns (c: int)
    requires 2 <= x < 0x20 && 0 <= y < 0x40
    ensures Scalar(c) && Utf8(c) == [(0xC0 + x) as byte, (0x80 + y) as byte]
  {
    c := x * 0x40 + y;
    Digits(c, x, y);
  }

  lemma ThreeBytes(x: int, y: int, z: int) returns (c: int)
    requires 0 <= x < 0x10 && 0 <= y < 0x40 && 0 <= z < 0x40
    requires (x == 0 ==> y >= 0x20) && (x == 0xD ==> y < 0x20)
    ensures Scalar(c) && Utf8(c) == [(0xE0 + x) as byte, (0x80 + y) as byte, (0x80 + z) as byte]
  {
    var c1 := x * 0x40 + y;
    c := c1 * 0x40 + z;
    Digits(c1, x, y);
    Digits(c, c1, z);
    assert c / 0x1000 == x;
  }

  lemma FourBytes(x: int, y: int, z: int, w: int) returns (c: int)
    requires 0 <= x <= 4 && 0 <= y < 0x40 && 0 <= z < 0x40 && 0 <= w < 0x40
    requires (x == 0 ==> y >= 0x10) && (x == 4 ==> y < 0x10)
    ensures Scalar(c) && Utf8(c) == [(0xF0 + x) as byte, (0x80 + y) as byte, (0x80 + z) as byte, (0x80 + w) as byte]
  {
    var c1 := x * 0x40 + y;
    var c2 := c1 * 0x40 + z;
    c := c2 * 0x40 + w;
    Digits(c1, x, y);
    Digits(c2, c1, z);
    Digits(c, c2, w);
    assert c / 0x1000 == c1;
    assert c / 0x4_0000 == x;
  }

  /** It consumes more than a byte only for an encoded character. */
  lemma OnlyCharactersAreConsumed(s: Text, i: nat)
    requires i < |s| && RuneLength(s, i) > 1
    ensures exists c :: Scalar(c) && Utf8(c) == s[i..i + RuneLength(s, i)]
  {
    hide Utf8;
    var n := RuneLength(s, i);
    if n == 2 {
      var c := TwoBytes(s[i] as int - 0xC0, s[i + 1] as int - 0x80);
      assert Utf8(c) == s[i..i + n];
    } else if n == 3 {
      var c := ThreeBytes(s[i] as int - 0xE0, s[i + 1] as int - 0x80, s[i + 2] as int - 0x80);
      assert Utf8(c) == s[i..i + n];
    } else {
      var c := FourBytes(s[i] as int - 0xF0, s[i + 1] as int - 0x80, s[i + 2] as int - 0x80, s[i + 3] as int - 0x80);
      assert Utf8(c) == s[i..i + n];
    }
  }

  /** A field ends with a line end unless its value is empty. */
  lemma HeaderEndsLine(key: Text, value: Text)
    ensures value != [] <==> |Header(key, value)| >= 2 && Header(key, value)[|Header(key, value)| - 2..] == CRLF
  {
    var room := FOLD_LENGTH - (|key| + 2);
    if value == [] {
      assert Header(key, value)[|Header(key, value)| - 1] == SPACE;
    } else {
      FoldPointIsBest(value, room);
      EndAllEndsLine(Pieces(value, room));
    }
  }

  lemma {:induction false} EndAllEndsLine(pieces: seq<Text>)
    requires pieces != []
    ensures |EndAll(pieces)| >= 2 && EndAll(pieces)[|EndAll(pieces)| - 2..] == CRLF
  {
    if |pieces| > 1 {
      EndAllEndsLine(pieces[1..]);
    }
  }

  // Unfolding: a line end in front of a blank is removed.

  function Unfold(s: Text): Text {
    if s == [] then []
    else if |s| >= 3 && s[0] == CR && s[1] == LF && IsBlank(s[2]) then Unfold(s[2..])
    else [s[0]] + Unfold(s[1..])
  }

  predicate FoldAt(s: Text, i: nat) {
    i + 2 < |s| && s[i] == CR && s[i + 1] == LF && IsBlank(s[i + 2])
  }

  ghost predicate HasFold(s: Text) {
    exists i: nat :: FoldAt(s, i)
  }

  lemma PartHasNoFold(a: Text, b: Text, c: Text)
    requires !HasFold(a + b + c)
    ensures !HasFold(b)
  {
    forall i: nat
      ensures FoldAt(b, i) ==> FoldAt(a + b + c, |a| + i)
    {
    }
  }

  lemma {:induction false} UnfoldsToItself(s: Text)
    requires !HasFold(s)
    ensures Unfold(s) == s
  {
    if s != [] {
      assert !FoldAt(s, 0);
      assert s[..1] + s[1..] + [] == s;
      PartHasNoFold(s[..1], s[1..], []);
      UnfoldsToItself(s[1..]);
    }
  }

  lemma FinalLineEndIsNoFold(s: Text)
    requires !HasFold(s)
    ensures !HasFold(s + CRLF)
  {
    forall i: nat
      ensures FoldAt(s + CRLF, i) ==> FoldAt(s, i)
    {
    }
  }

  /** A line end that stands in front of a blank only because of folding is removed, and nothing else. */
  lemma {:induction false} UnfoldOne(a: Text, b: Text)
    requires b != [] && IsBlank(b[0]) && !HasFold(a)
    ensures Unfold(a + (CRLF + b)) == a + Unfold(b)
  {
    var s := a + (CRLF + b);
    if a == [] {
      assert s[2..] == b;
    } else {
      assert !FoldAt(s, 0) by {
        assert !FoldAt(a, 0);
      }
      assert s[1..] == a[1..] + (CRLF + b);
      assert a[..1] + a[1..] + [] == a;
      PartHasNoFold(a[..1], a[1..], []);
      UnfoldOne(a[1..], b);
      TakeFirst(a, Unfold(b));
    }
  }

  lemma {:induction false} UnfoldShortens(s: Text)
    ensures |Unfold(s)| <= |s|
    ensures HasFold(s) ==> |Unfold(s)| < |s|
  {
    if s != [] {
      if FoldAt(s, 0) {
        UnfoldShortens(s[2..]);
      } else {
        UnfoldShortens(s[1..]);
        if i: nat :| FoldAt(s, i) {
          assert FoldAt(s[1..], i - 1);
        }
      }
    }
  }

  /** Together, two texts may have one fold more than on their own. */
  lemma {:induction false} UnfoldTogether(a: Text, b: Text)
    ensures |Unfold(a + b)| <= |Unfold(a)| + |Unfold(b)|
  {
    if a == [] {
      assert a + b == b;
    } else if FoldAt(a, 0) {
      assert (a + b)[2..] == a[2..] + b;
      UnfoldTogether(a[2..], b);
    } else if FoldAt(a + b, 0) {
      assert (a + b)[2..] == b[2 - |a|..];
      assert |a| == 1 ==> b[0] == LF;
    } else {
      assert (a + b)[1..] == a[1..] + b;
      UnfoldTogether(a[1..], b);
    }
  }

  ghost predicate Continued(pieces: seq<Text>) {
    forall k :: 0 < k < |pieces| ==> pieces[k] != [] && IsBlank(pieces[k][0])
  }

  lemma {:induction false} UnfoldPieces(pieces: seq<Text>)
    requires pieces != [] && Continued(pieces) && forall p :: p in pieces ==> !HasFold(p)
    ensures Unfold(EndAll(pieces)) == Concat(pieces) + CRLF
  {
    var first, rest := pieces[0], pieces[1..];
    if rest == [] {
      assert Concat(pieces) == first && EndAll(pieces) == first + CRLF;
      FinalLineEndIsNoFold(first);
      UnfoldsToItself(first + CRLF);
    } else {
      UnfoldPieces(rest);
      Associate(first, CRLF, EndAll(rest));
      assert EndAll(rest)[0] == rest[0][0];
      UnfoldOne(first, EndAll(rest));
      Associate(first, Concat(rest), CRLF);
    }
  }

  lemma {:induction false} UnfoldPiecesLoses(pieces: seq<Text>)
    requires pieces != [] && Continued(pieces)
    ensures |Unfold(EndAll(pieces))| <= |Concat(pieces)| + 2
    ensures (exists p :: p in pieces && HasFold(p)) ==> |Unfold(EndAll(pieces))| < |Concat(pieces)| + 2
  {
    hide HasFold;
    var first, rest := pieces[0], pieces[1..];
    UnfoldShortens(first);
    assert forall p :: p in pieces ==> p == first || p in rest;
    if rest == [] {
      assert Concat(pieces) == first && EndAll(pieces) == first + CRLF;
      UnfoldTogether(first, CRLF);
      UnfoldShortens(CRLF);
    } else {
      var more := EndAll(rest);
      assert more[0] == rest[0][0];
      Associate(first, CRLF, more);
      UnfoldTogether(first, CRLF + more);
      assert (CRLF + more)[2..] == more;
      UnfoldPiecesLoses(rest);
    }
  }

  /** The physical lines of a field with a value. */
  function FieldLines(key: Text, value: Text): seq<Text>
    requires value != []
  {
    var pieces := Pieces(value, FOLD_LENGTH - (|key| + 2));
    [key + [COLON, SPACE] + pieces[0]] + pieces[1..]
  }

  lemma FieldLinesMakeField(key: Text, value: Text)
    requires value != []
    ensures EndAll(FieldLines(key, value)) == Header(key, value)
    ensures Concat(FieldLines(key, value)) == key + [COLON, SPACE] + value
    ensures Continued(FieldLines(key, value))
  {
    var start, pieces := key + [COLON, SPACE], Pieces(value, FOLD_LENGTH - (|key| + 2));
    PiecesMakeValue(value, FOLD_LENGTH - (|key| + 2));
    Associate(start, pieces[0], Concat(pieces[1..]));
    Associate(start, pieces[0] + CRLF, EndAll(pieces[1..]));
    Associate(start, pieces[0], CRLF);
  }

  /**
   * Unfolding a field gives back the key and the value exactly if none of its physical lines holds a line end in
   * front of a blank. (Such a line end in the value is harmless if a line happens to be folded right behind it.)
   */
  lemma FieldUnfoldsExactly(key: Text, value: Text)
    requires value != []
    ensures Unfold(Header(key, value)) == key + [COLON, SPACE] + value + CRLF
       <==> forall line :: line in FieldLines(key, value) ==> !HasFold(line)
  {
    hide HasFold, Header, FieldLines;
    var lines := FieldLines(key, value);
    FieldLinesMakeField(key, value);
    LinesExist(key, value);
    UnfoldPiecesLoses(lines);
    if forall line :: line in lines ==> !HasFold(line) {
      UnfoldPieces(lines);
    }
  }

  lemma LinesExist(key: Text, value: Text)
    requires value != []
    ensures FieldLines(key, value) != []
  {
  }

  lemma {:induction false} PartsHaveNoFold(pieces: seq<Text>)
    requires !HasFold(Concat(pieces))
    ensures forall p :: p in pieces ==> !HasFold(p)
  {
    if pieces != [] {
      var first, rest := pieces[0], Concat(pieces[1..]);
      assert [] + first + rest == Concat(pieces) == first + rest + [];
      PartHasNoFold([], first, rest);
      PartHasNoFold(first, rest, []);
      PartsHaveNoFold(pieces[1..]);
    }
  }

  /** In particular, keys and values without folds of their own are given back. */
  lemma FoldedFieldUnfolds(key: Text, value: Text)
    requires value != [] && !HasFold(key + [COLON, SPACE] + value)
    ensures Unfold(Header(key, value)) == key + [COLON, SPACE] + value + CRLF
  {
    hide HasFold, Header, FieldLines;
    FieldLinesMakeField(key, value);
    PartsHaveNoFold(FieldLines(key, value));
    FieldUnfoldsExactly(key, value);
  }
}
