/** Greedy folding is optimal: no folding at blanks that keeps to the limit where it can has fewer lines. */
module FoldOptimality {
  import opened Bytes
  import opened Folding

  /** The piece keeps to the limit, or could not be folded at all. */
  ghost predicate Fits(piece: Text, room: int) {
    |piece| <= room || NoBlankWithin(piece, 0, |piece|)
  }

  /** A folding at blanks, the first line of which has `room` bytes. */
  ghost predicate Legal(pieces: seq<Text>, room: int) {
    pieces == [] || (
      && pieces[0] != []
      && Fits(pieces[0], room)
      && (|pieces| > 1 ==> pieces[1] != [] && IsBlank(pieces[1][0]))
      && Legal(pieces[1..], FOLD_LENGTH))
  }

  lemma {:induction false} PiecesAreLegal(value: Text, room: int)
    requires Ascii(value)
    ensures Legal(Pieces(value, room), room)
    decreases |value|
  {
    if value != [] {
      AsciiFoldPoint(value, room);
      var p := FoldPoint(value, room);
      PiecesAreLegal(value[p..], FOLD_LENGTH);
      PiecesMakeValue(value, room);
      var pieces := Pieces(value, room);
      assert pieces[0] == value[..p] && pieces[1..] == Pieces(value[p..], FOLD_LENGTH);
      assert Fits(value[..p], room);
    }
  }

  /** From the same or a later start, the greedy cut is not before the end of a legal piece. */
  lemma GreedyCutIsNotBehind(value: Text, skip: nat, room: int, piece: Text)
    requires Ascii(value) && piece <= value && skip < |piece| && Fits(piece, room)
    requires skip == 0 || IsBlank(value[skip])
    requires |piece| == |value| || IsBlank(value[|piece|])
    ensures skip + FoldPoint(value[skip..], room) >= |piece|
  {
    var line := value[skip..];
    AsciiFoldPoint(line, room);
    var g, target := FoldPoint(line, room), |piece| - skip;
    assert target < |line| ==> IsBlank(line[target]);
    assert forall j :: skip <= j < |piece| ==> piece[j] == line[j - skip];
    assert skip > 0 ==> !NoBlankWithin(piece, 0, |piece|);
  }

  /** A legal folding without its first piece. */
  lemma Rest(value: Text, pieces: seq<Text>, room: int)
    requires Legal(pieces, room) && Concat(pieces) == value && value != []
    ensures pieces != [] && pieces[0] != [] && pieces[0] <= value && Fits(pieces[0], room)
    ensures Legal(pieces[1..], FOLD_LENGTH) && Concat(pieces[1..]) == value[|pieces[0]|..]
    ensures |pieces[0]| == |value| || IsBlank(value[|pieces[0]|])
  {
    var first, rest := pieces[0], Concat(pieces[1..]);
    assert value == first + rest;
    assert rest == value[|first|..];
    if |pieces| > 1 {
      assert rest[0] == pieces[1][0];
    }
  }

  lemma {:induction false} GreedyStaysAhead(value: Text, skip: nat, room: int, pieces: seq<Text>)
    requires Ascii(value) && Legal(pieces, room) && Concat(pieces) == value
    requires skip <= |value| && (skip == 0 || room == FOLD_LENGTH)
    requires skip == 0 || skip == |value| || IsBlank(value[skip])
    ensures |Pieces(value[skip..], room)| <= |pieces|
    decreases |pieces|
  {
    hide Legal, Fits, FoldPoint, Concat;
    if skip < |value| {
      Rest(value, pieces, room);
      var end, line := |pieces[0]|, value[skip..];
      var rest := value[end..];
      if skip >= end {
        GreedyStaysAhead(rest, skip - end, FOLD_LENGTH, pieces[1..]);
        assert rest[skip - end..] == line;
      } else {
        AsciiFoldPoint(line, room);
        GreedyCutIsNotBehind(value, skip, room, pieces[0]);
        var cut := FoldPoint(line, room);
        assert rest[skip + cut - end..] == line[cut..];
        assert cut < |line| ==> rest[skip + cut - end] == line[cut];
        GreedyStaysAhead(rest, skip + cut - end, FOLD_LENGTH, pieces[1..]);
      }
    } else {
      assert value[skip..] == [];
    }
  }

  /** Prepending a field uses the fewest lines, among all foldings of the value at its blanks. */
  lemma GreedyIsOptimal(key: Text, value: Text, pieces: seq<Text>)
    requires Ascii(value) && Concat(pieces) == value
    requires Legal(pieces, FOLD_LENGTH - (|key| + 2))
    ensures |Pieces(value, FOLD_LENGTH - (|key| + 2))| <= |pieces|
    ensures Legal(Pieces(value, FOLD_LENGTH - (|key| + 2)), FOLD_LENGTH - (|key| + 2))
  {
    GreedyStaysAhead(value, 0, FOLD_LENGTH - (|key| + 2), pieces);
    assert value[0..] == value;
    PiecesAreLegal(value, FOLD_LENGTH - (|key| + 2));
  }
}
