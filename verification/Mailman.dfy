/** Delivery of an accepted mail: blob, mail row, entries and queue row, in this order; and cleaning up. */
module Mailman {
  import opened Bytes
  import opened Addressbook
  import opened Database
  import opened Folding
  import opened Readers
  import opened Storage

  const RETURN_PATH: Text := [82, 101, 116, 117, 114, 110, 45, 80, 97, 116, 104]

  datatype Envelope = Envelope(date: int, from: Address, to: seq<Address>)

  /** How the disk treats the blob, and which of the transactions the database engine fails. */
  datatype Faults = Faults(disk: Disk, mail: bool, entries: bool, queue: bool)

  function ReturnPath(from: Address): Text {
    Header(RETURN_PATH, [LESS] + from.raw + [GREATER])
  }

  datatype Routes = Routes(mailboxes: seq<int>, queue: seq<Address>)

  function Routed(r: Routes, entry: Entry): Routes {
    if entry.Local? then r.(mailboxes := r.mailboxes + [entry.mailbox]) else r.(queue := r.queue + [entry.address])
  }

  /** The mailboxes and the outbound addresses for the recipients; None if one is unknown. */
  function Route(book: Book, to: seq<Address>): Option<Routes> {
    if to == [] then Some(Routes([], []))
    else
      match (Route(book, to[..|to| - 1]), book.Lookup(to[|to| - 1]))
      case (Some(r), Some(entry)) => Some(Routed(r, entry))
      case _ => None
  }

  /** The tables after the inserts behind a mail row, and whether all of them succeeded. */
  function RegisterRows(t: Tables, id: ID, r: Routes, f: Faults): (Tables, bool) {
    var t1 := if r.mailboxes == [] then Some(t) else if f.entries then None else t.AddEntries(id, r.mailboxes);
    if t1.None? then (t, false)
    else if r.queue == [] then (t1.value, true)
    else if f.queue || t1.value.AddToQueue(id, r.queue).None? then (t1.value, false)
    else (t1.value.AddToQueue(id, r.queue).value, true)
  }

  /** The tables after a delivery, and whether it succeeded. */
  function DeliverRows(t: Tables, book: Book, id: ID, row: MailRow, to: seq<Address>, f: Faults): (Tables, bool) {
    if !f.disk.Stores(row.size) || f.mail || t.AddMail(id, row).None? then (t, false)
    else
      match Route(book, to)
      case None => (t.AddMail(id, row).value, false)
      case Some(r) => RegisterRows(t.AddMail(id, row).value, id, r, f)
  }

  /** The blobs after a delivery; the blob is removed again, if possible, when it or its mail row cannot be stored. */
  function BlobsAfter(blobs: map<ID, Text>, t: Tables, id: ID, blob: Text, f: Faults): map<ID, Text> {
    var written := Written(blobs, id, blob, f.disk);
    if f.disk.Stores(|blob|) && (f.mail || id in t.mails) && f.disk.removes then written - {id} else written
  }

  /** The positions of the recipients that have the mailbox. */
  function Boxed(book: Book, to: seq<Address>, mailbox: int): set<nat> {
    set i: nat | i < |to| && book.Lookup(to[i]) == Some(Local(mailbox))
  }

  /** The positions of the recipients that are forwarded to the address, or are it. */
  function Outbound(book: Book, to: seq<Address>, address: Address): set<nat> {
    set i: nat | i < |to| && (book.Lookup(to[i]) == Some(Forward(address)) || book.Lookup(to[i]) == Some(Remote(address)))
  }

  lemma OneMoreBoxed(book: Book, most: seq<Address>, last: Address, m: int)
    ensures |Boxed(book, most + [last], m)| == |Boxed(book, most, m)| + if book.Lookup(last) == Some(Local(m)) then 1 else 0
  {
    hide Book.Lookup;
    assert Boxed(book, most + [last], m)
        == Boxed(book, most, m) + if book.Lookup(last) == Some(Local(m)) then {|most|} else {};
  }

  lemma OneMoreOutbound(book: Book, most: seq<Address>, last: Address, q: Address)
    ensures |Outbound(book, most + [last], q)| == |Outbound(book, most, q)|
                                                  + if book.Lookup(last) in {Some(Forward(q)), Some(Remote(q))} then 1 else 0
  {
    hide Book.Lookup;
    assert Outbound(book, most + [last], q)
        == Outbound(book, most, q) + if book.Lookup(last) in {Some(Forward(q)), Some(Remote(q))} then {|most|} else {};
  }

  lemma AllKnownGrows(book: Book, most: seq<Address>, last: Address)
    ensures (forall a :: a in most + [last] ==> book.Lookup(a).Some?) <==>
            (forall a :: a in most ==> book.Lookup(a).Some?) && book.Lookup(last).Some?
  {
    hide Book.Lookup;
    assert forall a :: a in most + [last] <==> a in most || a == last;
  }

  lemma RoutedAdds(r: Routes, entry: Entry, m: int, q: Address)
    ensures multiset(Routed(r, entry).mailboxes)[m] == multiset(r.mailboxes)[m] + if entry == Local(m) then 1 else 0
    ensures multiset(Routed(r, entry).queue)[q] == multiset(r.queue)[q] + if entry in {Forward(q), Remote(q)} then 1 else 0
  {
  }

  /** Every recipient is routed exactly once: as often as a mailbox or an outbound address is looked up it is listed. */
  lemma {:induction false} RouteConserves(book: Book, to: seq<Address>)
    ensures Route(book, to).Some? <==> forall a :: a in to ==> book.Lookup(a).Some?
    ensures Route(book, to).Some? ==>
              var r := Route(book, to).value;
              && (forall m :: multiset(r.mailboxes)[m] == |Boxed(book, to, m)|)
              && (forall q :: multiset(r.queue)[q] == |Outbound(book, to, q)|)
  {
    if to == [] {
    } else {
      hide Boxed, Outbound, Routed, Book.Lookup;
      var most, last := to[..|to| - 1], to[|to| - 1];
      RouteConserves(book, most);
      AllKnownGrows(book, most, last);
      assert to == most + [last];
      if Route(book, to).Some? {
        var r, entry := Route(book, most).value, book.Lookup(last).value;
        forall m
          ensures multiset(Routed(r, entry).mailboxes)[m] == |Boxed(book, to, m)|
        {
          OneMoreBoxed(book, most, last, m);
          RoutedAdds(r, entry, m, last);
        }
        forall q
          ensures multiset(Routed(r, entry).queue)[q] == |Outbound(book, to, q)|
        {
          OneMoreOutbound(book, most, last, q);
          RoutedAdds(r, entry, 0, q);
        }
      }
    }
  }

  lemma RoutedBehind(r: Routes, q: Routes, entry: Entry)
    ensures Routed(Routes(r.mailboxes + q.mailboxes, r.queue + q.queue), entry)
         == Routes(r.mailboxes + Routed(q, entry).mailboxes, r.queue + Routed(q, entry).queue)
  {
    if entry.Local? {
      assert r.mailboxes + q.mailboxes + [entry.mailbox] == r.mailboxes + (q.mailboxes + [entry.mailbox]);
    } else {
      assert r.queue + q.queue + [entry.address] == r.queue + (q.queue + [entry.address]);
    }
  }

  lemma {:induction false} RouteJoins(book: Book, a: seq<Address>, b: seq<Address>)
    ensures Route(book, a + b) ==
              match (Route(book, a), Route(book, b))
              case (Some(r), Some(q)) => Some(Routes(r.mailboxes + q.mailboxes, r.queue + q.queue))
              case _ => None
  {
    hide Book.Lookup;
    if b == [] {
      assert a + b == a;
      if Route(book, a).Some? {
        var r := Route(book, a).value;
        assert r == Routes(r.mailboxes + [], r.queue + []);
      }
    } else {
      var most, last := b[..|b| - 1], b[|b| - 1];
      assert (a + b)[..|a + b| - 1] == a + most && (a + b)[|a + b| - 1] == last;
      RouteJoins(book, a, most);
      if Route(book, a).Some? && Route(book, most).Some? && book.Lookup(last).Some? {
        RoutedBehind(Route(book, a).value, Route(book, most).value, book.Lookup(last).value);
      }
    }
  }

  /** What a single recipient adds. */
  function RoutesOf(entry: Entry): Routes {
    match entry
    case Local(mailbox) => Routes([mailbox], [])
    case Forward(address) => Routes([], [address])
    case Remote(address) => Routes([], [address])
  }

  lemma RouteOne(book: Book, addr: Address)
    ensures Route(book, []) == Some(Routes([], []))
    ensures Route(book, [addr]) == if book.Lookup(addr).None? then None else Some(RoutesOf(book.Lookup(addr).value))
  {
    hide Book.Lookup;
    assert [addr][..0] == [] && Route(book, []) == Some(Routes([], []));
    if book.Lookup(addr).Some? {
      var entry := book.Lookup(addr).value;
      assert Route(book, [addr]) == Some(Routed(Routes([], []), entry));
      assert [] + RoutesOf(entry).mailboxes == RoutesOf(entry).mailboxes && [] + RoutesOf(entry).queue == RoutesOf(entry).queue;
    }
  }

  /** Mailboxes and outbound addresses are in the order of the recipients they belong to. */
  lemma RouteKeepsOrder(book: Book, a: seq<Address>, addr: Address, b: seq<Address>)
    requires Route(book, a + [addr] + b).Some?
    ensures Route(book, a).Some? && book.Lookup(addr).Some? && Route(book, b).Some?
    ensures var r, before, behind := Route(book, a + [addr] + b).value, Route(book, a).value, Route(book, b).value;
            var entry := book.Lookup(addr).value;
            && r.mailboxes == before.mailboxes + (if entry.Local? then [entry.mailbox] else []) + behind.mailboxes
            && r.queue == before.queue + (if entry.Local? then [] else [entry.address]) + behind.queue
  {
    hide Route, Book.Lookup;
    RouteOne(book, addr);
    RouteJoins(book, a, [addr]);
    RouteJoins(book, a + [addr], b);
  }

  /**
   * For a new mail id, a delivery succeeds exactly if nothing fails, every recipient is known, and no two
   * recipients share a mailbox. It then adds just the mail, its entries, and its queue row.
   */
  lemma DeliverySucceedsExactly(t: Tables, book: Book, id: ID, row: MailRow, to: seq<Address>, f: Faults)
    requires id !in t.mails && id !in t.queue && forall e :: e in t.entries ==> e.1 != id
    ensures DeliverRows(t, book, id, row, to, f).1 <==>
            && f.disk.Stores(row.size)
            && !f.mail
            && Route(book, to).Some?
            && (Route(book, to).value.mailboxes != [] ==> !f.entries && Distinct(Route(book, to).value.mailboxes))
            && (Route(book, to).value.queue != [] ==> !f.queue)
    ensures DeliverRows(t, book, id, row, to, f).1 ==>
              var r, u := Route(book, to).value, DeliverRows(t, book, id, row, to, f).0;
              && u.mails == t.mails[id := row]
              && u.entries == t.entries + Keys(id, r.mailboxes)
              && u.queue == if r.queue == [] then t.queue else t.queue[id := QueueRow(0, 0, r.queue)]
  {
    if Route(book, to).Some? && id !in t.mails {
      AddEntriesExactly(t.AddMail(id, row).value, id, Route(book, to).value.mailboxes);
    }
  }

  /**
   * What a delivery leaves in the tables, whatever fails: nothing of the mail if its blob or its row is not stored; just
   * the row if a recipient is unknown or the entries cannot be inserted; row and entries if the queue row cannot.
   */
  lemma DeliveryLeavesExactly(t: Tables, book: Book, id: ID, row: MailRow, to: seq<Address>, f: Faults)
    requires id !in t.mails && id !in t.queue && forall e :: e in t.entries ==> e.1 != id
    ensures DeliverRows(t, book, id, row, to, f).0 ==
              if !f.disk.Stores(row.size) || f.mail then t
              else if Route(book, to).None? then Tables(t.mails[id := row], t.entries, t.queue)
              else
                var r := Route(book, to).value;
                if r.mailboxes != [] && (f.entries || !Distinct(r.mailboxes)) then
                  Tables(t.mails[id := row], t.entries, t.queue)
                else if r.queue == [] || f.queue then Tables(t.mails[id := row], t.entries + Keys(id, r.mailboxes), t.queue)
                else Tables(t.mails[id := row], t.entries + Keys(id, r.mailboxes), t.queue[id := QueueRow(0, 0, r.queue)])
  {
    if Route(book, to).Some? {
      hide Distinct, Keys, Route;
      var r := Route(book, to).value;
      AddEntriesExactly(t.AddMail(id, row).value, id, r.mailboxes);
      NoKeys(t.entries, id);
    }
  }

  lemma NoKeys(entries: set<(int, ID)>, id: ID)
    ensures Keys(id, []) == {} && entries + Keys(id, []) == entries
  {
  }

  /** Whether it succeeds or not, a delivery takes nothing away. */
  lemma DeliveryOnlyAdds(t: Tables, book: Book, id: ID, row: MailRow, to: seq<Address>, f: Faults)
    ensures var u := DeliverRows(t, book, id, row, to, f).0;
            Extends(t.mails, u.mails) && t.entries <= u.entries && Extends(t.queue, u.queue)
  {
    if t.AddMail(id, row).Some? && Route(book, to).Some? {
      AddEntriesExactly(t.AddMail(id, row).value, id, Route(book, to).value.mailboxes);
    }
  }

  lemma BlobsOnlyGrow(blobs: map<ID, Text>, t: Tables, id: ID, blob: Text, f: Faults)
    requires id !in blobs
    ensures Extends(blobs, BlobsAfter(blobs, t, id, blob, f))
    ensures forall other :: other in BlobsAfter(blobs, t, id, blob, f) && other !in blobs ==> other == id
  {
  }

  /**
   * What a delivery leaves in the blob store: the whole blob, unless it cannot be created, or does not fit, or its row is
   * refused; in the last two cases what is there is removed if possible. A file that cannot be closed stays.
   */
  lemma BlobLeftExactly(blobs: map<ID, Text>, t: Tables, id: ID, blob: Text, f: Faults)
    requires id !in blobs && id !in t.mails
    ensures BlobsAfter(blobs, t, id, blob, f) ==
              if !f.disk.creates then blobs
              else if f.disk.quota.Some? && f.disk.quota.value < |blob| then
                if f.disk.removes then blobs else blobs[id := blob[..f.disk.quota.value]]
              else if f.disk.closes && f.mail && f.disk.removes then blobs
              else blobs[id := blob]
  {
    assert blobs[id := blob] - {id} == blobs;
  }

  lemma {:induction false} RouteFails(book: Book, to: seq<Address>, i: nat)
    requires i <= |to| && Route(book, to[..i]).None?
    ensures Route(book, to).None?
    decreases |to|
  {
    if i < |to| {
      var most := to[..|to| - 1];
      assert most[..i] == to[..i];
      RouteFails(book, most, i);
    } else {
      assert to[..i] == to;
    }
  }

  /** The blob of a mail: the return path in front of the text that is delivered. */
  function BlobOf(from: Address, text: Text): Text {
    ReturnPath(from) + text
  }

  function RowOf(envelope: Envelope, text: Text): MailRow {
    MailRow(envelope.date, envelope.from, |BlobOf(envelope.from, text)|, |ReturnPath(envelope.from)|)
  }

  /** The stored size counts the whole blob; from the stored offset on the blob is the text alone. */
  lemma OffsetSkipsReturnPath(envelope: Envelope, text: Text)
    ensures var row, blob := RowOf(envelope, text), BlobOf(envelope.from, text);
            && row.size == |blob| == row.offset + |text| && blob[row.offset..] == text
            && row.date == envelope.date && row.from == envelope.from
  {
  }

  /** The return path in bytes, for addresses that fit into the line or have no blanks: `Return-Path: <addr>` and CRLF. */
  lemma ReturnPathInBytes(from: Address)
    requires |from.raw| <= 63 || forall b :: b in from.raw ==> b != 32 && b != 9
    ensures ReturnPath(from)
         == [82, 101, 116, 117, 114, 110, 45, 80, 97, 116, 104, 58, 32, 60] + from.raw + [62, 13, 10]
  {
    var value := [LESS] + from.raw + [GREATER];
    forall i | 0 < i <= |from.raw|
      ensures value[i] in from.raw
    {
      assert value[i] == from.raw[i - 1];
    }
    OneLineInBytes(RETURN_PATH, value);
  }

  class Postman {
    const db: DB
    const blobs: Blobs
    const book: Book

    constructor (db: DB, blobs: Blobs, book: Book)
      ensures this.db == db && this.blobs == blobs && this.book == book
    {
      this.db, this.blobs, this.book := db, blobs, book;
    }

    /** The switch over the kinds of the recipients' entries. */
    method RouteAll(to: seq<Address>) returns (routes: Option<Routes>)
      ensures routes == Route(book, to)
    {
      var mailboxes: seq<int>, queue: seq<Address> := [], [];
      for i := 0 to |to|
        invariant Route(book, to[..i]) == Some(Routes(mailboxes, queue))
      {
        assert to[..i + 1][..i] == to[..i];
        match book.Lookup(to[i])
        case None =>
          RouteFails(book, to, i + 1);
          return None;
        case Some(Local(mailbox)) =>
          mailboxes := mailboxes + [mailbox];
        case Some(entry) =>
          queue := queue + [entry.address];
      }
      assert to[..|to|] == to;
      return Some(Routes(mailboxes, queue));
    }

    /** The inserts behind the mail row; each is a transaction of its own. */
    method Register(id: ID, routes: Routes, f: Faults) returns (ok: bool, wakeUp: bool)
      modifies db
      ensures (db.View(), ok) == RegisterRows(old(db.View()), id, routes, f)
      ensures wakeUp <==> ok && routes.queue != []
    {
      if routes.mailboxes != [] {
        ok := db.AddEntries(id, routes.mailboxes, f.entries);
        if !ok {
          return false, false;
        }
      }
      if routes.queue != [] {
        ok := db.AddToQueue(id, routes.queue, f.queue);
        return ok, ok;
      }
      return true, false;
    }

    /**
     * Stores the mail and registers it with its recipients. If the mail row is not added the blob is removed; if a
     * recipient is unknown or a later insert fails, blob and row stay for the cleaner.
     */
    method Deliver(envelope: Envelope, body: Body, id: ID, f: Faults) returns (ok: bool, wakeUp: bool)
      requires body.Valid() && db !in body.Readers() && blobs.fs !in body.Readers() && id !in blobs.fs.files
      modifies db, blobs.fs, body, body.Readers()
      ensures old(body.Pending().end) != Eof ==>
                && !ok && db.View() == old(db.View())
                && blobs.fs.files - {id} == old(blobs.fs.files) && (f.disk.removes ==> blobs.fs.files == old(blobs.fs.files))
      ensures old(body.Pending().end) == Eof ==>
                var text := old(body.Pending().content);
                && (db.View(), ok) == DeliverRows(old(db.View()), book, id, RowOf(envelope, text), envelope.to, f)
                && blobs.fs.files == BlobsAfter(old(blobs.fs.files), old(db.View()), id, BlobOf(envelope.from, text), f)
      ensures wakeUp <==> ok && Route(book, envelope.to).value.queue != []
    {
      hide body.Pending, body.Valid, Header, Route, RegisterRows;
      var offset := body.Prepend(RETURN_PATH, [LESS] + envelope.from.raw + [GREATER]);
      var size, stored := blobs.Write(id, body, f.disk);
      if !stored {
        return false, false;
      }
      ok := db.AddMail(id, MailRow(envelope.date, envelope.from, size, offset), f.mail);
      if !ok {
        var _ := blobs.Delete(id, f.disk.removes);
        return false, false;
      }
      var routes := RouteAll(envelope.to);
      if routes == None {
        return false, false;
      }
      ok, wakeUp := Register(id, routes.value, f);
    }
  }

  /** How a collection goes: whether its transaction fails, and which blobs cannot be removed. */
  datatype Sweep = Sweep(fault: bool, stuck: set<ID>)

  function Swept(blobs: map<ID, Text>, orphans: set<ID>, sweep: Sweep): map<ID, Text> {
    blobs - (orphans - sweep.stuck)
  }

  /** Removes the mails without entries and queue row, first the rows, then the blobs as far as possible. */
  method Clean(db: DB, blobs: Blobs, sweep: Sweep) returns (ok: bool)
    modifies db, blobs.fs
    ensures ok <==> !sweep.fault
    ensures db.View() == if ok then old(db.View()).DeleteOrphans() else old(db.View())
    ensures blobs.fs.files == if ok then Swept(old(blobs.fs.files), old(db.View()).Orphans(), sweep) else old(blobs.fs.files)
  {
    var mails: seq<ID>;
    mails, ok := db.DeleteOrphans(sweep.fault);
    if !ok {
      return false;
    }
    for i := 0 to |mails|
      invariant blobs.fs.files == Swept(old(blobs.fs.files), Ids(mails[..i]), sweep)
      invariant db.View() == old(db.View()).DeleteOrphans()
    {
      assert mails[..i + 1] == mails[..i] + [mails[i]];
      assert Ids(mails[..i + 1]) == Ids(mails[..i]) + {mails[i]};
      var _ := blobs.Delete(mails[i], mails[i] !in sweep.stuck);
    }
    assert mails[..|mails|] == mails;
  }
}
