/** The DATA command: from the dot-encoded block on the connection to the delivery of the mail. */
module DataCommand {
  import opened Bytes
  import opened Lines
  import opened DotDecoding
  import opened Folding
  import opened Readers
  import opened Storage
  import opened Addressbook
  import opened Database
  import opened Mailman

  const EXTRA := 1024
  const RECEIVED: Text := [82, 101, 99, 101, 105, 118, 101, 100]

  datatype Field = Field(key: Text, value: Text)

  const FROM: Text := [102, 114, 111, 109, SPACE]
  const ACCENTED: Text := [0xC3, 0xA9]

  /**
   * A trace field whose first line has 79 bytes although it could be folded: the sender's address fills the line
   * and ends in an accented letter, and whatever follows the address starts with a blank.
   */
  lemma AccentMissesLimit(name: Text, tail: Text)
    requires |name| == 62 && Ascii(name) && tail != [] && IsBlank(tail[0])
    ensures var value := FROM + name + ACCENTED + tail;
            && Usable(value, FOLD_LENGTH - (|RECEIVED| + 2), 4)
            && FieldLines(RECEIVED, value)[0] == RECEIVED + [COLON, SPACE] + FROM + name + ACCENTED
            && |FieldLines(RECEIVED, value)[0]| == FOLD_LENGTH + 1
  {
    var value := FROM + name + ACCENTED + tail;
    assert value[..67] == FROM + name;
    StraddledLimit(value, 68, 4);
    assert value[..69] == FROM + name + ACCENTED;
    Associate(RECEIVED + [COLON, SPACE], FROM, name);
    Associate(RECEIVED + [COLON, SPACE], FROM + name, ACCENTED);
  }

  datatype HookResult = HookError | HookReject | HookHeaders(headers: seq<Field>)

  /** A hook on the mail: how many bytes it reads at most, and what it makes of them. */
  datatype Hook = Hook(reach: nat, judge: Text -> HookResult)

  /** The reply that confirms, one that refuses and keeps the session, or the end of the session. */
  datatype Outcome = Accepted | TooBig | Rejected | Closed

  /** The fields in front of the text, the one prepended last coming first. */
  function PrependAll(fields: seq<Field>, text: Text): Text {
    if fields == [] then text
    else Header(fields[|fields| - 1].key, fields[|fields| - 1].value) + PrependAll(fields[..|fields| - 1], text)
  }

  /** The fields as they are written, the newest first. */
  function Newest(fields: seq<Field>): seq<Text> {
    seq(|fields|, i requires 0 <= i < |fields| => Header(fields[|fields| - 1 - i].key, fields[|fields| - 1 - i].value))
  }

  function NewestFirst(fields: seq<Field>): Text {
    Concat(Newest(fields))
  }

  lemma NewestOfMore(most: seq<Field>, last: Field)
    ensures Newest(most + [last]) == [Header(last.key, last.value)] + Newest(most)
  {
  }

  /** All the fields are there, in front of the text, the one prepended last coming first. */
  lemma {:induction false} PrependsInOrder(fields: seq<Field>, text: Text)
    ensures PrependAll(fields, text) == NewestFirst(fields) + text
  {
    hide Newest, Header;
    if fields == [] {
      assert Newest([]) == [] && [] + text == text by { NoneIsNewest(); }
    } else {
      var most, last := fields[..|fields| - 1], fields[|fields| - 1];
      assert fields == most + [last];
      PrependsInOrder(most, text);
      NewestOfMore(most, last);
      assert Newest(fields)[1..] == Newest(most);
      Associate(Header(last.key, last.value), NewestFirst(most), text);
    }
  }

  lemma NoneIsNewest()
    ensures Newest([]) == []
  {
  }

  /** What follows the text follows it still, behind all the fields. */
  lemma PrependAllAppends(fields: seq<Field>, a: Text, b: Text)
    ensures PrependAll(fields, a + b) == PrependAll(fields, a) + b == NewestFirst(fields) + a + b
  {
    PrependsInOrder(fields, a + b);
    PrependsInOrder(fields, a);
    Associate(NewestFirst(fields), a, b);
  }

  /** What the size limit makes of a block with `length` bytes of text. */
  datatype Verdict = Within | Drained | Flooded

  function Judge(length: nat, maxSize: int): Verdict {
    if maxSize <= 0 || length < maxSize + EXTRA then Within
    else if length < 2 * maxSize + EXTRA then Drained
    else Flooded
  }

  method PrependFields(body: Body, fields: seq<Field>)
    requires body.Valid()
    modifies body
    ensures body.Pending() == Stream(PrependAll(fields, old(body.Pending().content)), old(body.Pending().end))
  {
    hide body.Pending;
    for i := 0 to |fields|
      invariant body.Valid()
      invariant body.Pending() == Stream(PrependAll(fields[..i], old(body.Pending().content)), old(body.Pending().end))
    {
      var _ := body.Prepend(fields[i].key, fields[i].value);
      assert fields[..i + 1][..i] == fields[..i];
    }
    assert fields[..|fields|] == fields;
  }

  lemma SameRest(before: Decoded, after: Decoded, slack: int)
    ensures forall slackBefore :: Tracked(before, slackBefore, after, slack) ==> after.rest == before.rest
  {
  }

  lemma LimitedBody(body: Body, dot: DotReader, n: nat)
    requires body.inner.FromLimited? && body.inner.limited.r == dot && body.inner.limited.n == n
    requires body.buffers == [] && dot.Valid()
    ensures body.Valid() && body.Pending() == Limit(dot.Pending(), n) && body.Block() == dot.Left()
  {
  }

  lemma LimitEnd(d: Decoded, broken: bool, n: nat, data: Text, err: Err, after: Stream)
    requires err != NoErr && err != DiskFailed && Copied(Limit(StreamOf(d, broken), n), data, err, after)
    ensures err == Eof <==> |d.text| < n && StreamOf(d, broken).end == Eof
  {
  }

  /** Reads on, but not forever, so that the input stands behind the block again. */
  method Drain(dot: DotReader, maxSize: int) returns (ok: bool)
    requires dot.Valid() && maxSize > 0
    modifies dot, dot.r
    ensures ok <==> |old(dot.Left().text)| < maxSize && old(dot.Pending().end) == Eof
    ensures ok ==> dot.r.input == old(dot.Left().rest)
  {
    hide Decode, DotReader.Left, Limit, Copied, Tracked, Body.Pending, Body.Block, Body.Slack, Body.Valid;
    ghost var d := dot.Left();
    var limited := new LimitedReader(dot, maxSize);
    var rest := new Body(FromLimited(limited));
    LimitedBody(rest, dot, maxSize);
    ghost var data;
    var err;
    data, err := Discard(rest);
    LimitEnd(d, dot.r.broken, maxSize, data, err, rest.Pending());
    SameRest(d, rest.Block(), rest.Slack());
    return err == Eof;
  }

  /** The text kept in the cache for a block that is accepted. */
  function Cached(fields: seq<Field>, received: Text, text: Text): Text {
    PrependAll(fields, Header(RECEIVED, received) + text)
  }

  /** How a block whose decoding is `d` is taken off the connection. */
  function Verdicts(d: Decoded, broken: bool, maxSize: int): Outcome {
    var fails := broken && !d.terminated;
    match Judge(|d.text|, maxSize)
    case Within => if fails then Closed else Accepted
    case Drained => if fails then Closed else TooBig
    case Flooded => Closed
  }

  /** What is read of a block behind the limiter, if there is one. */
  function Allowed(d: Decoded, broken: bool, maxSize: int): Stream {
    if maxSize > 0 then Limit(StreamOf(d, broken), maxSize + EXTRA) else StreamOf(d, broken)
  }

  /** How reading ends tells the verdict, except that a block beyond the limit may still turn out to be endless. */
  lemma EndTellsVerdict(d: Decoded, broken: bool, maxSize: int)
    ensures var s := Allowed(d, broken, maxSize);
            && (s.end == Eof <==> Verdicts(d, broken, maxSize) == Accepted)
            && (s.end == Eof ==> s.content == d.text)
            && (s.end == LimitReached ==> maxSize > 0 && Judge(|d.text|, maxSize) != Within)
            && (s.end == Failed ==> Verdicts(d, broken, maxSize) == Closed)
            && s.end != NoErr
  {
  }

  /** The limits in numbers: 1024 bytes more than the limit M are too many; from 2M + 1024 on the session ends. */
  lemma VerdictInNumbers(d: Decoded, broken: bool, maxSize: int)
    ensures broken && !d.terminated ==> Verdicts(d, broken, maxSize) == Closed
    ensures !(broken && !d.terminated) ==>
              && (Verdicts(d, broken, maxSize) == Accepted <==> maxSize <= 0 || |d.text| < maxSize + 1024)
              && (Verdicts(d, broken, maxSize) == TooBig <==> maxSize > 0 && maxSize + 1024 <= |d.text| < 2 * maxSize + 1024)
              && (Verdicts(d, broken, maxSize) == Closed <==> maxSize > 0 && 2 * maxSize + 1024 <= |d.text|)
  {
  }

  /** The decoder for a block, and the body that reads from it, through a limiter if there is a size limit. */
  method Open(conn: LineReader, maxSize: int) returns (dot: DotReader, body: Body)
    ensures fresh(dot) && fresh(body) && fresh(body.Readers() - {conn})
    ensures dot.r == conn && body.Valid()
    ensures maxSize > 0 ==> body.inner.FromLimited? && body.inner.limited.r == dot
    ensures maxSize <= 0 ==> body.inner == FromDot(dot)
    ensures body.Block() == Decode(conn.input) && body.Input() == conn.input
    ensures body.Slack() == if maxSize > 0 then maxSize + EXTRA - |Decode(conn.input).text| else 0
    ensures body.Pending() == Allowed(Decode(conn.input), conn.broken, maxSize)
  {
    hide Decode, Limit;
    dot := new DotReader(conn);
    if maxSize > 0 {
      var limited := new LimitedReader(dot, maxSize + EXTRA);
      body := new Body(FromLimited(limited));
    } else {
      body := new Body(FromDot(dot));
    }
    assert Concat([]) + body.InnerPending().content == body.InnerPending().content;
  }

  /** When the limiter refuses to go on, the whole allowance has been read from the block. */
  lemma Exhausted(body: Body, d: Decoded, maxSize: int)
    requires maxSize > 0 && body.Valid() && body.inner.FromLimited?
    requires body.Pending() == Stream([], LimitReached)
    requires Tracked(d, maxSize + EXTRA - |d.text|, body.Block(), body.Slack())
    ensures var left := body.inner.limited.r.Left();
            |left.text| == |d.text| - (maxSize + EXTRA) && left == d.(text := left.text)
  {
    hide Decode, body.inner.limited.r.Left;
    assert body.InnerPending().content == [];
  }

  /** After the limiter refused to go on, discards the rest of the block if it is not too long. */
  method Refuse(dot: DotReader, body: Body, ghost d: Decoded, maxSize: int) returns (outcome: Outcome)
    requires maxSize > 0 && body.Valid() && body.inner.FromLimited? && body.inner.limited.r == dot
    requires body.Pending() == Stream([], LimitReached)
    requires Tracked(d, maxSize + EXTRA - |d.text|, body.Block(), body.Slack())
    requires Judge(|d.text|, maxSize) != Within
    modifies dot, dot.r
    ensures outcome == Verdicts(d, dot.r.broken, maxSize)
    ensures outcome == TooBig ==> dot.r.input == d.rest
  {
    hide Decode, Limit, body.Pending, body.Block, body.Slack, Tracked, dot.Left;
    Exhausted(body, d, maxSize);
    var ok := Drain(dot, maxSize);
    return if ok then TooBig else Closed;
  }

  /** What DATA depends on besides the block, the envelope and the stores. `name` is the file in the cache. */
  datatype Setting = Setting(maxSize: int, received: Text, name: Name, disk: Disk, hooks: seq<Hook>,
                             id: ID, faults: Faults)

  /** How many bytes go into the cache before the block ends or the limiter refuses to go on. */
  function CachedSize(s: Setting, d: Decoded, broken: bool, fields: seq<Field>): nat {
    |Cached(fields, s.received, Allowed(d, broken, s.maxSize).content)|
  }

  /** How taking a block into the cache ends: as the limits have it, if there is room. */
  function Fetched(s: Setting, memoryLimit: int, d: Decoded, broken: bool, fields: seq<Field>): (o: Outcome)
    ensures o != Rejected
  {
    if Fits(memoryLimit, s.disk, CachedSize(s, d, broken, fields)) then Verdicts(d, broken, s.maxSize) else Closed
  }

  /**
   * Takes a block off the connection into the cache. As long as there is room, the outcome depends on the length of
   * the decoded text alone, not on how it arrives; unless the session ends, the input then stands right behind the
   * block.
   */
  method Fetch(s: Setting, conn: LineReader, fields: seq<Field>, cache: Cache)
    returns (outcome: Outcome, entry: CacheEntry?)
    requires s.name !in cache.fs.files
    modifies conn, cache.fs
    ensures outcome == Fetched(s, cache.memoryLimit, old(Decode(conn.input)), conn.broken, fields)
    ensures outcome == Accepted || outcome == TooBig ==> conn.input == old(Decode(conn.input)).rest
    ensures entry != null <==> outcome == Accepted
    ensures entry != null ==> fresh(entry) && fresh(entry.handle) && entry.fs == cache.fs
    ensures entry != null ==> entry.Content() == Cached(fields, s.received, old(Decode(conn.input)).text)
    ensures entry != null ==> entry.file == None || entry.file == Some(s.name)
    ensures entry != null ==> (entry.file.None? <==> |entry.Content()| < cache.memoryLimit)
    ensures (entry == null && s.disk.removes) || (entry != null && entry.file.None?) ==> cache.fs.files == old(cache.fs.files)
    ensures cache.fs.files - {s.name} == old(cache.fs.files)
  {
    hide Decode, Limit, PrependAll, Header, Allowed, Judge, Verdicts, Tracked, Fits,
         Body.Pending, Body.Block, Body.Slack, Body.Valid;
    var dot, body := Open(conn, s.maxSize);
    ghost var d := body.Block();
    EndTellsVerdict(d, conn.broken, s.maxSize);
    var _ := body.Prepend(RECEIVED, s.received);
    PrependFields(body, fields);
    var err;
    entry, err := cache.Write(body, s.name, s.disk);
    if err == NoErr {
      SameRest(d, body.Block(), body.Slack());
      return Accepted, entry;
    }
    if err == LimitReached {
      outcome := Refuse(dot, body, d, s.maxSize);
      return outcome, null;
    }
    return Closed, null;
  }

  /** The hooks in order: the first failure or refusal decides, else their fields are collected. */
  function RunHooks(hooks: seq<HookResult>, fields: seq<Field>): HookResult {
    if hooks == [] then HookHeaders(fields)
    else if hooks[0].HookHeaders? then RunHooks(hooks[1..], fields + hooks[0].headers)
    else hooks[0]
  }

  /** The fields of several results in order. */
  function FieldsOf(results: seq<HookResult>): seq<Field> {
    if results == [] then []
    else (if results[0].HookHeaders? then results[0].headers else []) + FieldsOf(results[1..])
  }

  /** If no hook fails or refuses, the fields of all are collected in order. */
  lemma {:induction false} AllAgree(results: seq<HookResult>, fields: seq<Field>)
    requires forall i :: 0 <= i < |results| ==> results[i].HookHeaders?
    ensures RunHooks(results, fields) == HookHeaders(fields + FieldsOf(results))
    decreases |results|
  {
    if results == [] {
      assert fields + [] == fields;
    } else {
      AllAgree(results[1..], fields + results[0].headers);
      assert (fields + results[0].headers) + FieldsOf(results[1..]) == fields + (results[0].headers + FieldsOf(results[1..]));
    }
  }

  /** Else the first hook that does decides. */
  lemma {:induction false} FirstRefusalDecides(results: seq<HookResult>, fields: seq<Field>, k: nat)
    requires k < |results| && !results[k].HookHeaders? && forall i :: 0 <= i < k ==> results[i].HookHeaders?
    ensures RunHooks(results, fields) == results[k]
    decreases k
  {
    if k > 0 {
      FirstRefusalDecides(results[1..], fields + results[0].headers, k - 1);
    }
  }

  /** The blob that is stored for an accepted block. */
  function Blob(envelope: Envelope, hookFields: seq<Field>, fields: seq<Field>, received: Text, text: Text): Text {
    BlobOf(envelope.from, PrependAll(hookFields, Cached(fields, received, text)))
  }

  /** What a hook gets to read. */
  function Front(mail: Text, reach: nat): Text {
    if reach < |mail| then mail[..reach] else mail
  }

  /** What the hooks make of a mail; each of them reads it from the first byte on. */
  function Judged(hooks: seq<Hook>, mail: Text): seq<HookResult> {
    if |hooks| == 0 then [] else [hooks[0].judge(Front(mail, hooks[0].reach))] + Judged(hooks[1..], mail)
  }

  /** Each hook judges the first bytes of the mail, as many as it reads. */
  lemma {:induction false} JudgedAt(hooks: seq<Hook>, mail: Text, i: nat)
    requires i < |hooks|
    ensures |Judged(hooks, mail)| == |hooks|
    ensures Judged(hooks, mail)[i] == hooks[i].judge(if |mail| <= hooks[i].reach then mail else mail[..hooks[i].reach])
    decreases |hooks|
  {
    if |hooks| > 1 {
      JudgedAt(hooks[1..], mail, if i > 0 then i - 1 else 0);
    } else {
      assert Judged(hooks[1..], mail) == [];
    }
  }

  function Checked(hooks: seq<Hook>, mail: Text): HookResult {
    RunHooks(Judged(hooks, mail), [])
  }

  /** Reads up to `reach` bytes, in portions of any size. */
  method ReadFront(reader: StoredReader, reach: nat) returns (data: Text)
    requires reader.pos == 0
    modifies reader
    ensures data == Front(reader.content, reach)
  {
    hide ReadStep, Copied;
    data := [];
    ghost var start := reader.Pending();
    StartCopy(start);
    while |data| < reach
      invariant |data| <= reach && Copied(start, data, NoErr, reader.Pending())
      decreases reach - |data|
    {
      var size: nat :| 0 < size <= reach - |data|;
      var b := new byte[size];
      ghost var middle := reader.Pending();
      var n, err := reader.Read(b, size);
      CopyStep(start, data, middle, size, b[..n], err, reader.Pending());
      Progress(middle, size, b[..n], err, reader.Pending());
      if err != NoErr {
        AllCopied(start, data, reader.Pending());
        return;
      }
      data := data + b[..n];
    }
    PartCopied(start, data, reader.Pending());
  }

  /** Runs the hooks on the cached mail; each of them gets a reader that starts at the first byte. */
  method CheckHooks(entry: CacheEntry, disk: Disk, hooks: seq<Hook>) returns (r: HookResult)
    modifies entry.handle
    ensures r == if |hooks| > 0 && entry.file.Some? && !disk.rewinds then HookError else Checked(hooks, entry.Content())
  {
    hide Front;
    var headers: seq<Field> := [];
    for i := 0 to |hooks|
      invariant RunHooks(Judged(hooks[i..], entry.Content()), headers) == Checked(hooks, entry.Content())
      invariant i > 0 ==> !(entry.file.Some? && !disk.rewinds)
    {
      var reader := entry.Reader(disk);
      if reader == null {
        return HookError;
      }
      var data := ReadFront(reader, hooks[i].reach);
      var result := hooks[i].judge(data);
      assert hooks[i..][0] == hooks[i] && hooks[i..][1..] == hooks[i + 1..];
      ghost var results := Judged(hooks[i..], entry.Content());
      assert results[0] == result && results[1..] == Judged(hooks[i + 1..], entry.Content());
      if !result.HookHeaders? {
        return result;
      }
      headers := headers + result.headers;
    }
    return HookHeaders(headers);
  }

  lemma NoHooks()
    ensures forall mail :: Checked([], mail) == HookHeaders([])
  {
  }

  lemma StoredBody(body: Body)
    requires body.inner.FromStore? && body.inner.stored.pos == 0 && body.buffers == []
    ensures body.Valid() && body.Pending() == Stream(body.inner.stored.content, Eof)
  {
  }

  /** Hands the cached mail, with the fields of the hooks in front, to the postman. */
  method Handover(entry: CacheEntry, disk: Disk, headers: seq<Field>, envelope: Envelope, postman: Postman, id: ID, f: Faults)
    returns (ok: bool, wakeUp: bool)
    requires id !in postman.blobs.fs.files
    modifies entry.handle, postman.db, postman.blobs.fs
    ensures var mail := PrependAll(headers, entry.Content());
            var t, files := old(postman.db.View()), old(postman.blobs.fs.files);
            if entry.file.Some? && !disk.rewinds then
              !ok && postman.db.View() == t && postman.blobs.fs.files == files
            else
              && (postman.db.View(), ok) == DeliverRows(t, postman.book, id, RowOf(envelope, mail), envelope.to, f)
              && postman.blobs.fs.files == BlobsAfter(files, t, id, BlobOf(envelope.from, mail), f)
    ensures wakeUp <==> ok && Route(postman.book, envelope.to).value.queue != []
  {
    hide PrependAll, DeliverRows, Route, BlobOf, BlobsAfter, RowOf, Body.Pending, Body.Valid, CacheEntry.Content;
    var reader := entry.Reader(disk);
    if reader == null {
      return false, false;
    }
    var body := new Body(FromStore(reader));
    StoredBody(body);
    PrependFields(body, headers);
    ok, wakeUp := postman.Deliver(envelope, body, id, f);
  }

  /** What DATA does: its outcome, the tables and the blobs after it, and whether the queue worker is woken up. */
  datatype Effect = Effect(outcome: Outcome, tables: Tables, blobs: map<ID, Text>, wakeUp: bool)

  function Receive(s: Setting, memoryLimit: int, d: Decoded, broken: bool, envelope: Envelope, fields: seq<Field>, book: Book,
                   t: Tables, blobs: map<ID, Text>): Effect {
    var fetched, cached := Fetched(s, memoryLimit, d, broken, fields), Cached(fields, s.received, d.text);
    var checked := Checked(s.hooks, cached);
    if fetched != Accepted then Effect(fetched, t, blobs, false)
    else if |cached| >= memoryLimit && !s.disk.rewinds then Effect(Closed, t, blobs, false)
    else if !checked.HookHeaders? then Effect(if checked == HookReject then Rejected else Closed, t, blobs, false)
    else
      var mail := PrependAll(checked.headers, cached);
      var (t1, ok) := DeliverRows(t, book, s.id, RowOf(envelope, mail), envelope.to, s.faults);
      Effect(if ok then Accepted else Closed,
             t1,
             BlobsAfter(blobs, t, s.id, BlobOf(envelope.from, mail), s.faults),
             ok && Route(book, envelope.to).value.queue != [])
  }

  /**
   * When DATA refuses a block, and keeps the session: for its size with 552, or because a hook rejects the mail. In
   * both cases nothing is stored.
   */
  lemma RefusesExactly(s: Setting, memoryLimit: int, d: Decoded, broken: bool, envelope: Envelope, fields: seq<Field>,
                       book: Book, t: Tables, blobs: map<ID, Text>)
    ensures var e := Receive(s, memoryLimit, d, broken, envelope, fields, book, t, blobs);
            var cached := Cached(fields, s.received, d.text);
            && (e.outcome == TooBig <==> Fetched(s, memoryLimit, d, broken, fields) == TooBig)
            && (e.outcome == Rejected <==>
                  && Fetched(s, memoryLimit, d, broken, fields) == Accepted
                  && (|cached| < memoryLimit || s.disk.rewinds) && Checked(s.hooks, cached) == HookReject)
            && (e.outcome == TooBig || e.outcome == Rejected ==> e.tables == t && e.blobs == blobs && !e.wakeUp)
  {
  }

  /**
   * The command as a whole. Nothing of the mail stays in the cache unless its file cannot be removed, and unless the
   * session ends the input stands right behind the block.
   */
  method Data(s: Setting, conn: LineReader, envelope: Envelope, fields: seq<Field>, cache: Cache, postman: Postman)
    returns (outcome: Outcome, wakeUp: bool)
    requires s.name !in cache.fs.files && s.id !in postman.blobs.fs.files && cache.fs != postman.blobs.fs
    modifies conn, cache.fs, postman.db, postman.blobs.fs
    ensures cache.fs.files - {s.name} == old(cache.fs.files)
    ensures s.disk.closes && s.disk.removes ==> cache.fs.files == old(cache.fs.files)
    ensures outcome == Accepted || outcome == TooBig || outcome == Rejected ==> conn.input == old(Decode(conn.input)).rest
    ensures Effect(outcome, postman.db.View(), postman.blobs.fs.files, wakeUp)
         == Receive(s, cache.memoryLimit, old(Decode(conn.input)), conn.broken, envelope, fields, postman.book,
                    old(postman.db.View()), old(postman.blobs.fs.files))
  {
    hide Decode, PrependAll, Checked, Cached, Fetched, DeliverRows, Route, BlobOf, BlobsAfter, RowOf;
    var entry;
    outcome, entry := Fetch(s, conn, fields, cache);
    if entry == null {
      return outcome, false;
    }
    var checked := CheckHooks(entry, s.disk, s.hooks);
    NoHooks();
    if !checked.HookHeaders? {
      entry.Release(s.disk);
      return if checked == HookReject then Rejected else Closed, false;
    }
    var ok;
    ok, wakeUp := Handover(entry, s.disk, checked.headers, envelope, postman, s.id, s.faults);
    entry.Release(s.disk);
    return if ok then Accepted else Closed, wakeUp;
  }
}
