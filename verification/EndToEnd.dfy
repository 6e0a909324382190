/** From the block a client sends to the block a client retrieves. */
module EndToEnd {
  import opened Bytes
  import opened DotDecoding
  import opened DotEncoding
  import opened DotCodec
  import opened Folding
  import opened Readers
  import opened Storage
  import opened Mailman
  import opened DataCommand

  /** One round of copying through a buffer of `size` bytes, after `sent` was encoded behind `out`. */
  method CopyChunk(r: StoredReader, encoder: DotWriter, size: nat, ghost start: Stream, ghost sent: Text, ghost out: Text)
    returns (chunk: Text, err: Err)
    requires size > 0 && Copied(start, sent, NoErr, r.Pending())
    requires encoder.state == EncodeAll(SStart, sent).0 && encoder.w.out == out + EncodeAll(SStart, sent).1
    modifies r, encoder, encoder.w
    ensures err == NoErr || (err == Eof && chunk == [] && sent == start.content)
    ensures err == NoErr ==> |chunk| <= size && Copied(start, sent + chunk, NoErr, r.Pending())
    ensures err == NoErr ==> |r.Pending().content| < |old(r.Pending().content)|
    ensures encoder.state == EncodeAll(SStart, sent + chunk).0 && encoder.w.out == out + EncodeAll(SStart, sent + chunk).1
  {
    hide ReadStep, Copied, EncodeAll;
    ghost var middle, state := r.Pending(), encoder.state;
    var b := new byte[size];
    var n;
    n, err := r.Read(b, size);
    CopyStep(start, sent, middle, size, b[..n], err, r.Pending());
    Progress(middle, size, b[..n], err, r.Pending());
    if err != NoErr {
      AllCopied(start, sent, r.Pending());
      assert sent + [] == sent;
      return [], err;
    }
    chunk := b[..n];
    var _ := encoder.Write(b, n);
    EncodeAppends(SStart, sent, chunk);
    Associate(out, EncodeAll(SStart, sent).1, EncodeAll(state, chunk).1);
  }

  /** How reading a blob goes: whether it can be opened, and how many bytes can be read before the disk fails. */
  datatype Access = Access(opens: bool, readable: Option<nat>) {

    predicate Fails(blob: Text) {
      readable.Some? && readable.value <= |blob|
    }

    /** What is read of the blob. */
    function Yields(blob: Text): Text {
      if Fails(blob) then blob[..readable.value] else blob
    }
  }

  /**
   * Sends a stored mail as a dot-encoded block, copying it in portions of any size. If reading fails the block is
   * closed all the same.
   */
  method Transmit(blobs: Blobs, id: Name, access: Access, w: Output) returns (ok: bool)
    modifies w
    ensures ok <==> id in blobs.fs.files && access.opens && !access.Fails(blobs.fs.files[id])
    ensures w.out == if id in blobs.fs.files && access.opens then old(w.out) + Encode(access.Yields(blobs.fs.files[id]))
                     else old(w.out)
  {
    var r := blobs.ReadOffset(id, 0, !access.opens);
    if r == null {
      return false;
    }
    hide EncodeAll, ReadStep, Copied;
    var encoder := new DotWriter(w);
    ghost var start, sent: Text := r.Pending(), [];
    var n: nat := 0;
    StartCopy(start);
    EncodeNothing();
    ok := false;
    while !ok && access.readable != Some(n)
      invariant n == |sent| && (access.readable.Some? ==> n <= access.readable.value)
      invariant if ok then sent == start.content && access.readable != Some(n) else Copied(start, sent, NoErr, r.Pending())
      invariant encoder.state == EncodeAll(SStart, sent).0
      invariant w.out == old(w.out) + EncodeAll(SStart, sent).1
      decreases !ok, |r.Pending().content|
    {
      var size: nat :| size > 0 && (access.readable.Some? ==> n + size <= access.readable.value);
      var chunk, err := CopyChunk(r, encoder, size, start, sent, old(w.out));
      ok := err != NoErr;
      assert chunk == [] ==> sent + chunk == sent;
      sent, n := sent + chunk, n + |chunk|;
    }
    if !ok {
      PartCopied(start, sent, r.Pending());
    }
    Associate(old(w.out), EncodeAll(SStart, sent).1, CloseBytes(encoder.state));
    encoder.Close();
  }

  lemma EncodeNothing()
    ensures EncodeAll(SStart, []) == (SStart, [])
  {
  }

  ghost predicate Plain(field: Field) {
    field.value != [] && Free(field.key) && Free(field.value)
  }

  lemma {:induction false} ConcatContains(pieces: seq<Text>, b: byte)
    requires b !in Concat(pieces)
    ensures forall p :: p in pieces ==> b !in p
  {
    if pieces != [] {
      assert forall c :: c in pieces[0] || c in Concat(pieces[1..]) ==> c in Concat(pieces);
      ConcatContains(pieces[1..], b);
      assert pieces == [pieces[0]] + pieces[1..];
    }
  }

  lemma {:induction false} FreeLinesAreCanonical(pieces: seq<Text>)
    requires forall p :: p in pieces ==> Free(p)
    ensures Canonical(EndAll(pieces))
    ensures pieces != [] ==> EndAll(pieces) != [] && EndAll(pieces)[|EndAll(pieces)| - 1] == LF
  {
    hide Canonical;
    if pieces == [] {
      CanonicalEmpty();
    } else {
      var first := pieces[0];
      FreeLinesAreCanonical(pieces[1..]);
      assert Free(first) && !OddCRs(first);
      EndLineIsCanonical(first);
      CanonicalAppends(EndLine(first), EndAll(pieces[1..]));
    }
  }

  lemma HeaderIsCanonical(field: Field)
    requires Plain(field)
    ensures var h := Header(field.key, field.value); Canonical(h) && h != [] && h[|h| - 1] == LF
  {
    hide Canonical;
    var start, room := field.key + [COLON, SPACE], FOLD_LENGTH - (|field.key| + 2);
    var pieces := Pieces(field.value, room);
    PiecesMakeValue(field.value, room);
    FoldPointIsBest(field.value, room);
    ConcatContains(pieces, CR);
    ConcatContains(pieces, LF);
    var lines := [start + pieces[0]] + pieces[1..];
    forall p | p in lines
      ensures Free(p)
    {
      if p != start + pieces[0] {
        assert p in pieces[1..];
      } else {
        assert pieces[0] in pieces;
      }
    }
    FreeLinesAreCanonical(lines);
    assert EndAll(lines) == Header(field.key, field.value) by {
      assert lines[1..] == pieces[1..];
      Associate(start, pieces[0], CRLF);
      Associate(start, pieces[0] + CRLF, EndAll(pieces[1..]));
    }
  }

  lemma {:induction false} PrependAllCanonical(fields: seq<Field>, text: Text)
    requires forall field :: field in fields ==> Plain(field)
    ensures Canonical(PrependAll(fields, text)) <==> Canonical(text)
  {
    hide Canonical, Header;
    if fields != [] {
      var most, last := fields[..|fields| - 1], fields[|fields| - 1];
      assert fields == most + [last];
      PrependAllCanonical(most, text);
      HeaderIsCanonical(last);
      CanonicalAppends(Header(last.key, last.value), PrependAll(most, text));
    }
  }

  /**
   * A mail is retrieved byte for byte as it was stored exactly if no line of the received block ends in an odd
   * number of CRs. The stored mail is the return path, the fields of the data hooks and those of the sender hooks, in
   * each group the newest first, the trace field, and the decoded text, whole.
   */
  lemma EndToEnd(wire: Text, envelope: Envelope, hookFields: seq<Field>, fields: seq<Field>, received: Text, rest: Text)
    requires forall field :: field in hookFields + fields + [Field(RECEIVED, received)] ==> Plain(field)
    requires Free(envelope.from.raw)
    ensures var blob := Blob(envelope, hookFields, fields, received, Decode(wire).text);
            && (Decode(Encode(blob) + rest) == Decoded(blob, rest, true)
                <==> forall line :: line in BlockLines(wire) ==> !OddCRs(line))
            && blob == Header([82, 101, 116, 117, 114, 110, 45, 80, 97, 116, 104], [60] + envelope.from.raw + [62])
                       + (NewestFirst(hookFields)
                       + (NewestFirst(fields)
                       + (Header([82, 101, 99, 101, 105, 118, 101, 100], received)
                       + Decode(wire).text)))
  {
    hide Canonical, Header, Decode, PrependAll, Plain;
    var text := Decode(wire).text;
    var path := Field(RETURN_PATH, [LESS] + envelope.from.raw + [GREATER]);
    var all := hookFields + fields + [Field(RECEIVED, received)];
    assert Plain(path) by { PathIsPlain(envelope); }
    assert forall field :: field in hookFields || field in fields || field == Field(RECEIVED, received) ==> field in all;
    HeaderIsCanonical(Field(RECEIVED, received));
    CanonicalAppends(Header(RECEIVED, received), text);
    PrependAllCanonical(fields, Header(RECEIVED, received) + text);
    PrependAllCanonical(hookFields, Cached(fields, received, text));
    HeaderIsCanonical(path);
    var mail := PrependAll(hookFields, Cached(fields, received, text));
    CanonicalAppends(ReturnPath(envelope.from), mail);
    Transparent(BlobOf(envelope.from, mail), rest);
    DecodedIsCanonical(wire);
    PrependsInOrder(fields, Header(RECEIVED, received) + text);
    PrependsInOrder(hookFields, Cached(fields, received, text));
  }

  lemma PathIsPlain(envelope: Envelope)
    requires Free(envelope.from.raw)
    ensures Plain(Field(RETURN_PATH, [LESS] + envelope.from.raw + [GREATER]))
  {
  }
}
