/** Copying a body into memory or a file: the cache for mails being received, and the blob store. */
module Storage {
  import opened Bytes
  import opened DotDecoding
  import opened Readers

  type Name = nat

  class FileSystem {
    var files: map<Name, Text>

    constructor ()
      ensures files == map[]
    {
      files := map[];
    }

    method Remove(name: Name) returns (ok: bool)
      modifies this
      ensures ok == (name in old(files))
      ensures files == old(files) - {name}
    {
      ok := name in files;
      files := files - {name};
    }
  }

  /**
   * How the disk treats one file: whether it can be created, how many bytes it can hold, whether it can be rewound,
   * closed, and removed.
   */
  datatype Disk = Disk(creates: bool, quota: Option<nat>, rewinds: bool, closes: bool, removes: bool) {

    predicate Holds(size: int) {
      quota.None? || size <= quota.value
    }

    predicate Stores(size: int) {
      creates && Holds(size) && closes
    }
  }

  /** How far a body has been read between two points: nothing was skipped in the block that feeds it. */
  ghost predicate Tracked(before: Decoded, slackBefore: int, after: Decoded, slackAfter: int) {
    Advanced(before, after) && slackBefore == slackAfter
  }

  lemma ReflTracked(d: Decoded, slack: int)
    ensures Tracked(d, slack, d, slack)
  {
  }

  lemma TransTracked(a: Decoded, sa: int, b: Decoded, sb: int, c: Decoded, sc: int)
    requires Tracked(a, sa, b, sb) && Tracked(b, sb, c, sc)
    ensures Tracked(a, sa, c, sc)
  {
  }

  /** The state of a body's stream after reading `data` from it, ending with `err`. */
  ghost predicate Copied(before: Stream, data: Text, err: Err, after: Stream) {
    match err
    case NoErr => before.content == data + after.content && before.end == after.end
    case Eof => before.content == data && before.end == Eof && after == Stream([], Eof)
    case LimitReached => before.content == data && before.end == LimitReached && after == Stream([], LimitReached)
    case Failed => before.end == Failed
    case DiskFailed => before.content == data + after.content && before.end == after.end
  }

  lemma CopyStep(before: Stream, data: Text, middle: Stream, size: nat, chunk: Text, err: Err, after: Stream)
    requires Copied(before, data, NoErr, middle) && ReadStep(middle, size, chunk, err, after)
    ensures Copied(before, if err == NoErr then data + chunk else data, err, after)
  {
    if err == NoErr {
      Associate(data, chunk, after.content);
    }
  }

  /** One more read in a copy that has got as far as `data`. */
  method ReadMore(body: Body, size: nat, ghost start: Stream, ghost block: Decoded, ghost slack: int, ghost data: Text)
    returns (chunk: Text, err: Err)
    requires body.Valid() && size > 0
    requires Copied(start, data, NoErr, body.Pending()) && Tracked(block, slack, body.Block(), body.Slack())
    modifies body, body.Readers()
    ensures body.Valid() && err != DiskFailed
    ensures Copied(start, if err == NoErr then data + chunk else data, err, body.Pending())
    ensures err == NoErr ==> chunk != [] && |chunk| <= size && |body.Pending().content| < |old(body.Pending().content)|
    ensures err != Failed ==> Tracked(block, slack, body.Block(), body.Slack())
    ensures err == Eof ==> body.inner.FromStore? || body.Input() == body.Block().rest
  {
    hide body.Pending, body.Block, body.Slack, body.Input, ReadStep, Copied, Tracked;
    ghost var middle, b, s := body.Pending(), body.Block(), body.Slack();
    chunk, err := body.Read(size);
    CopyStep(start, data, middle, size, chunk, err, body.Pending());
    StepTracked(block, slack, b, s, err, body.Block(), body.Slack());
    Progress(middle, size, chunk, err, body.Pending());
  }

  /** Reads at most `limit` bytes; reaching the limit looks like the end of the data. */
  method CopyUpTo(body: Body, limit: int) returns (data: Text, err: Err)
    requires body.Valid()
    modifies body, body.Readers()
    ensures body.Valid()
    ensures err == NoErr ==> |data| >= limit
    ensures err != DiskFailed
    ensures err == Eof || err == LimitReached ==> |data| < limit
    ensures err == Eof ==> body.inner.FromStore? || body.Input() == body.Block().rest
    ensures Copied(old(body.Pending()), data, err, body.Pending())
    ensures err != Failed ==> Tracked(old(body.Block()), old(body.Slack()), body.Block(), body.Slack())
  {
    hide body.Pending, body.Block, body.Slack, body.Input, Copied, Tracked;
    data := [];
    ghost var start, block, slack := body.Pending(), body.Block(), body.Slack();
    StartCopy(start);
    ReflTracked(block, slack);
    while |data| < limit
      invariant body.Valid()
      invariant Copied(start, data, NoErr, body.Pending())
      invariant Tracked(block, slack, body.Block(), body.Slack())
      decreases limit - |data|
    {
      var size: nat :| 0 < size <= limit - |data|;
      var chunk, e := ReadMore(body, size, start, block, slack, data);
      if e != NoErr {
        return data, e;
      }
      data := data + chunk;
    }
    return data, NoErr;
  }

  lemma StartCopy(s: Stream)
    ensures Copied(s, [], NoErr, s)
  {
    assert s.content == [] + s.content;
  }

  lemma AllCopied(before: Stream, data: Text, after: Stream)
    requires Copied(before, data, Eof, after)
    ensures data == before.content
  {
  }

  lemma PartCopied(before: Stream, data: Text, after: Stream)
    requires Copied(before, data, NoErr, after)
    ensures |data| <= |before.content| && data == before.content[..|data|]
  {
  }

  lemma Progress(before: Stream, size: nat, chunk: Text, err: Err, after: Stream)
    requires ReadStep(before, size, chunk, err, after) && size > 0
    ensures err == NoErr ==> chunk != [] && |chunk| <= size && |after.content| < |before.content|
    ensures err != DiskFailed
  {
  }

  lemma StepTracked(a: Decoded, sa: int, b: Decoded, sb: int, err: Err, c: Decoded, sc: int)
    requires Tracked(a, sa, b, sb)
    requires err != Failed ==> Advanced(b, c) && sc == sb
    ensures err != Failed ==> Tracked(a, sa, c, sc)
  {
  }

  /** One write to the file; if there is not enough room it fills the disk up. */
  method Append(fs: FileSystem, name: Name, chunk: Text, disk: Disk) returns (ok: bool)
    requires name in fs.files && disk.Holds(|fs.files[name]|)
    modifies fs
    ensures ok <==> disk.Holds(|old(fs.files[name]) + chunk|)
    ensures var whole := old(fs.files[name]) + chunk;
            fs.files == old(fs.files)[name := if ok then whole else whole[..disk.quota.value]]
  {
    var kept := fs.files[name];
    ok := disk.Holds(|kept| + |chunk|);
    if ok {
      fs.files := fs.files[name := kept + chunk];
    } else {
      var room := disk.quota.value - |kept|;
      assert kept + chunk[..room] == (kept + chunk)[..disk.quota.value];
      fs.files := fs.files[name := kept + chunk[..room]];
    }
  }

  /**
   * Writes all of the body to the file, in portions of any size, as long as the disk has room.
   */
  method CopyToFile(body: Body, fs: FileSystem, name: Name, disk: Disk) returns (ghost data: Text, err: Err)
    requires body.Valid() && fs !in body.Readers() && name in fs.files && fs.files[name] == []
    modifies body, body.Readers(), fs
    ensures body.Valid()
    ensures err != NoErr && Copied(old(body.Pending()), data, err, body.Pending())
    ensures err != DiskFailed ==> disk.Holds(|data|) && fs.files == old(fs.files)[name := data]
    ensures err == DiskFailed ==>
              disk.quota.Some? && disk.quota.value < |data|
              && fs.files == old(fs.files)[name := data[..disk.quota.value]]
    ensures err == Eof ==> body.inner.FromStore? || body.Input() == body.Block().rest
    ensures err != Failed ==> Tracked(old(body.Block()), old(body.Slack()), body.Block(), body.Slack())
  {
    hide body.Pending, body.Block, body.Slack, body.Input, Copied, Tracked;
    data := [];
    ghost var start, block, slack := body.Pending(), body.Block(), body.Slack();
    StartCopy(start);
    ReflTracked(block, slack);
    while true
      invariant body.Valid()
      invariant Copied(start, data, NoErr, body.Pending())
      invariant Tracked(block, slack, body.Block(), body.Slack())
      invariant disk.Holds(|data|) && fs.files == old(fs.files)[name := data]
      decreases |body.Pending().content|
    {
      var size: nat :| 0 < size;
      var chunk, e := ReadMore(body, size, start, block, slack, data);
      if e != NoErr {
        return data, e;
      }
      var ok := Append(fs, name, chunk, disk);
      data := data + chunk;
      if !ok {
        CopyStops(start, data, body.Pending());
        return data, DiskFailed;
      }
    }
  }

  lemma CopyStops(before: Stream, data: Text, after: Stream)
    requires Copied(before, data, NoErr, after)
    ensures Copied(before, data, DiskFailed, after)
  {
  }

  /** Reads the body to its end, or to its failure, and keeps nothing. */
  method Discard(body: Body) returns (ghost data: Text, err: Err)
    requires body.Valid()
    modifies body, body.Readers()
    ensures body.Valid()
    ensures err != NoErr && err != DiskFailed && Copied(old(body.Pending()), data, err, body.Pending())
    ensures err == Eof ==> body.inner.FromStore? || body.Input() == body.Block().rest
    ensures err != Failed ==> Tracked(old(body.Block()), old(body.Slack()), body.Block(), body.Slack())
  {
    hide body.Pending, body.Block, body.Slack, body.Input, Copied, Tracked;
    data := [];
    ghost var start, block, slack := body.Pending(), body.Block(), body.Slack();
    StartCopy(start);
    ReflTracked(block, slack);
    while true
      invariant body.Valid()
      invariant Copied(start, data, NoErr, body.Pending())
      invariant Tracked(block, slack, body.Block(), body.Slack())
      decreases |body.Pending().content|
    {
      var size: nat :| 0 < size;
      var chunk, e := ReadMore(body, size, start, block, slack, data);
      if e != NoErr {
        return data, e;
      }
      data := data + chunk;
    }
  }

  /** A mail that was received: in memory, or in a file with one shared handle. */
  class CacheEntry {
    const memory: Text
    const file: Option<Name>
    const handle: StoredReader
    const fs: FileSystem

    constructor (memory: Text, file: Option<Name>, handle: StoredReader, fs: FileSystem)
      ensures this.memory == memory && this.file == file && this.handle == handle && this.fs == fs
    {
      this.memory, this.file, this.handle, this.fs := memory, file, handle, fs;
    }

    ghost function Content(): Text {
      if file.Some? then handle.content else memory
    }

    /** Starts over at the first byte, however far earlier readers got; null if the file cannot be rewound. */
    method Reader(disk: Disk) returns (r: StoredReader?)
      modifies handle
      ensures r == null <==> file.Some? && !disk.rewinds
      ensures r != null ==> r.content == Content() && r.pos == 0 && (r == handle || fresh(r))
    {
      if file.Some? {
        if !disk.rewinds {
          return null;
        }
        handle.pos := 0;
        return handle;
      }
      r := new StoredReader(memory, 0);
    }

    /** Closes the file and then removes it; what cannot be closed is not removed. */
    method Release(disk: Disk)
      modifies fs
      ensures fs.files == if file.Some? && disk.closes && disk.removes then old(fs.files) - {file.value} else old(fs.files)
    {
      if file.Some? && disk.closes && disk.removes {
        var _ := fs.Remove(file.value);
      }
    }
  }

  /** How a copy of a stream that ends with `end` may end, if there is enough room or not. */
  ghost predicate CopyEnds(err: Err, end: Err, room: bool) {
    match err
    case NoErr => end == Eof && room
    case Eof => false
    case LimitReached => end == LimitReached && room
    case Failed => end == Failed
    case DiskFailed => !room
  }

  lemma EndOfCopy(before: Stream, data: Text, err: Err, after: Stream, disk: Disk)
    requires err != NoErr && Copied(before, data, err, after)
    requires if err == DiskFailed then !disk.Holds(|data|) else disk.Holds(|data|)
    ensures CopyEnds(if err == Eof then NoErr else err, before.end, disk.Holds(|before.content|))
    ensures err == Eof ==> data == before.content
    ensures err == LimitReached ==> after == Stream([], LimitReached)
  {
  }

  /** Whether there is room for a mail of this size, in memory or else in a file. */
  predicate Fits(memoryLimit: int, disk: Disk, size: int) {
    size < memoryLimit || (disk.creates && disk.Holds(size))
  }

  class Cache {
    const fs: FileSystem
    const memoryLimit: int

    constructor (fs: FileSystem, memoryLimit: int)
      ensures this.fs == fs && this.memoryLimit == memoryLimit
    {
      this.fs, this.memoryLimit := fs, memoryLimit;
    }

    /** Copies the body to its file, which it removes again if that fails. */
    method Keep(body: Body, name: Name, disk: Disk) returns (entry: CacheEntry?, err: Err)
      requires body.Valid() && fs !in body.Readers() && name in fs.files && fs.files[name] == []
      modifies body, body.Readers(), fs
      ensures body.Valid()
      ensures entry != null <==> err == NoErr
      ensures CopyEnds(err, old(body.Pending().end), disk.Holds(|old(body.Pending().content)|))
      ensures entry != null ==> fresh(entry) && fresh(entry.handle) && entry.fs == fs && entry.file == Some(name)
      ensures entry != null ==> entry.Content() == old(body.Pending().content)
      ensures fs.files - {name} == old(fs.files) - {name}
      ensures entry == null && disk.removes ==> name !in fs.files
      ensures err == NoErr ==> body.inner.FromStore? || body.Input() == body.Block().rest
      ensures err == LimitReached ==> body.Pending() == Stream([], LimitReached)
      ensures err != Failed ==> Tracked(old(body.Block()), old(body.Slack()), body.Block(), body.Slack())
    {
      hide Body.Pending, Body.Block, Body.Slack, Body.Input, Tracked, Copied, CopyEnds;
      ghost var whole := body.Pending();
      ghost var data;
      var e;
      data, e := CopyToFile(body, fs, name, disk);
      EndOfCopy(whole, data, e, body.Pending(), disk);
      if e != Eof {
        if disk.removes {
          var _ := fs.Remove(name);
        }
        return null, e;
      }
      var handle := new StoredReader(fs.files[name], |fs.files[name]|);
      entry := new CacheEntry([], Some(name), handle, fs);
      return entry, NoErr;
    }

    /** The file part of Write: `memory` was read from the body already. */
    method Spill(body: Body, memory: Text, name: Name, disk: Disk) returns (entry: CacheEntry?, err: Err)
      requires body.Valid() && fs !in body.Readers() && name !in fs.files
      modifies body, body.Readers(), fs
      ensures body.Valid()
      ensures entry != null <==> err == NoErr
      ensures CopyEnds(err, old(body.Pending().end), disk.creates && disk.Holds(|memory + old(body.Pending().content)|))
      ensures entry != null ==> fresh(entry) && fresh(entry.handle) && entry.fs == fs && entry.file == Some(name)
      ensures entry != null ==> entry.Content() == memory + old(body.Pending().content)
      ensures fs.files - {name} == old(fs.files)
      ensures entry == null && disk.removes ==> fs.files == old(fs.files)
      ensures err == NoErr ==> body.inner.FromStore? || body.Input() == body.Block().rest
      ensures err == LimitReached ==> body.Pending() == Stream([], LimitReached)
      ensures err != Failed && err != DiskFailed ==> Tracked(old(body.Block()), old(body.Slack()), body.Block(), body.Slack())
    {
      hide Body.Pending, Body.Block, Body.Slack, Body.Input, Tracked;
      if !disk.creates {
        return null, DiskFailed;
      }
      fs.files := fs.files[name := []];
      body.PutBack(memory);
      entry, err := Keep(body, name, disk);
    }

    /** Takes the whole body, whatever its size and the limit, if there is room; after a failure the file is removed. */
    method Write(body: Body, name: Name, disk: Disk) returns (entry: CacheEntry?, err: Err)
      requires body.Valid() && fs !in body.Readers() && name !in fs.files
      modifies body, body.Readers(), fs
      ensures body.Valid()
      ensures entry != null <==> err == NoErr
      ensures CopyEnds(err, old(body.Pending().end), Fits(memoryLimit, disk, |old(body.Pending().content)|))
      ensures entry != null ==> fresh(entry) && fresh(entry.handle) && entry.fs == fs
      ensures entry != null ==> entry.Content() == old(body.Pending().content)
      ensures entry != null ==> (entry.file.None? <==> |entry.Content()| < memoryLimit)
      ensures entry != null ==> entry.file == None || entry.file == Some(name)
      ensures fs.files - {name} == old(fs.files)
      ensures (entry == null && disk.removes) || (entry != null && entry.file.None?) ==> fs.files == old(fs.files)
      ensures err == NoErr ==> body.inner.FromStore? || body.Input() == body.Block().rest
      ensures err == LimitReached ==> body.Pending() == Stream([], LimitReached)
      ensures err != Failed && err != DiskFailed ==> Tracked(old(body.Block()), old(body.Slack()), body.Block(), body.Slack())
    {
      hide Body.Pending, Body.Block, Body.Slack, Body.Input, Tracked;
      ghost var start, block, slack := body.Pending(), body.Block(), body.Slack();
      var memory, e := CopyUpTo(body, memoryLimit);
      if e == Eof {
        var none := new StoredReader([], 0);
        entry := new CacheEntry(memory, None, none, fs);
        return entry, NoErr;
      }
      if e != NoErr {
        return null, e;
      }
      ghost var b, s := body.Block(), body.Slack();
      assert start.content == memory + body.Pending().content;
      entry, err := Spill(body, memory, name, disk);
      if err != Failed && err != DiskFailed {
        TransTracked(block, slack, b, s, body.Block(), body.Slack());
      }
    }
  }

  /** The files after a blob was written, completely or not. */
  function Written(files: map<Name, Text>, id: Name, content: Text, disk: Disk): map<Name, Text> {
    if !disk.creates then files
    else if disk.Holds(|content|) then files[id := content]
    else if disk.removes then files
    else files[id := content[..disk.quota.value]]
  }

  /** The blob store: one file for each mail. */
  class Blobs {
    const fs: FileSystem

    constructor (fs: FileSystem)
      ensures this.fs == fs
    {
      this.fs := fs;
    }

    /** Stores the body, unless the disk fails; what was written of a blob that failed is removed if possible. */
    method Write(id: Name, body: Body, disk: Disk) returns (size: int, ok: bool)
      requires body.Valid() && fs !in body.Readers() && id !in fs.files
      modifies body, body.Readers(), fs
      ensures body.Valid()
      ensures ok <==> old(body.Pending().end) == Eof && disk.Stores(|old(body.Pending().content)|)
      ensures ok ==> size == |old(body.Pending().content)|
      ensures old(body.Pending().end) == Eof ==> fs.files == Written(old(fs.files), id, old(body.Pending().content), disk)
      ensures old(body.Pending().end) != Eof && disk.removes ==> fs.files == old(fs.files)
      ensures fs.files - {id} == old(fs.files)
    {
      hide Body.Pending, Body.Block, Body.Slack, Body.Input, Tracked, Copied;
      if !disk.creates {
        return -1, false;
      }
      fs.files := fs.files[id := []];
      ghost var whole := body.Pending();
      ghost var data;
      var e;
      data, e := CopyToFile(body, fs, id, disk);
      EndOfCopy(whole, data, e, body.Pending(), disk);
      PartOfCopy(whole, data, e, body.Pending(), disk);
      if e != Eof {
        var _ := Delete(id, disk.removes);
        return -1, false;
      }
      return |fs.files[id]|, disk.closes;
    }

    method Delete(id: Name, removes: bool) returns (ok: bool)
      modifies fs
      ensures ok == (removes && id in old(fs.files))
      ensures fs.files == if removes then old(fs.files) - {id} else old(fs.files)
    {
      if !removes {
        return false;
      }
      ok := fs.Remove(id);
    }

    /** Opens the blob and skips to the offset; `fault` says that one of these fails. */
    method ReadOffset(id: Name, offset: int, fault: bool) returns (r: StoredReader?)
      ensures r == null <==> fault || id !in fs.files
      ensures r != null ==> fresh(r) && r.content == fs.files[id] && r.pos == if offset > 0 then offset else 0
    {
      if fault || id !in fs.files {
        return null;
      }
      r := new StoredReader(fs.files[id], if offset > 0 then offset else 0);
    }
  }

  /** What a full disk has kept is the beginning of the stream. */
  lemma PartOfCopy(before: Stream, data: Text, err: Err, after: Stream, disk: Disk)
    requires err != NoErr && Copied(before, data, err, after)
    requires err == DiskFailed ==> disk.quota.Some? && disk.quota.value < |data|
    ensures err == DiskFailed ==> data[..disk.quota.value] == before.content[..disk.quota.value]
  {
  }
}
