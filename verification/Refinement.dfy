/**
 * The steps of the interleaved systems are the transactions and the disk operations of the methods: a method that
 * delivers, cleans up, executes a POP3 command or attempts, when nothing interrupts it, does what a run of these
 * steps does, whatever fails on the way.
 */
module Refinement {
  import opened Bytes
  import opened Addressbook
  import opened Database
  import opened Mailman
  import opened Maildrop
  import opened MailSystem
  import opened QueueAttempt
  import opened Storage
  import Pop3
  import QueueProtocol

  // A delivery.

  ghost predicate Unknown(s: State, id: ID) {
    && id !in s.used && id !in s.deliveries && id !in s.blobs && id !in s.t.mails && id !in s.t.queue
    && forall e :: e in s.t.entries ==> e.1 != id
  }

  lemma UnusedIsUnknown(s: State, id: ID)
    requires StoreInv(s) && id !in s.used
    ensures Unknown(s, id)
  {
    assert IdInv(s, id);
    assert forall e :: e in s.t.entries ==> EntryInv(s, e);
  }

  /** The steps of a delivery, in order, according to which of them fail. */
  function DeliverySteps(book: Book, id: ID, envelope: Envelope, text: Text, f: Faults): seq<Action> {
    var blob, routes := BlobOf(envelope.from, text), Route(book, envelope.to);
    if !f.disk.creates then []
    else if !f.disk.Holds(|blob|) then [StoreFails(id, blob[..f.disk.quota.value], f.disk.removes)] + []
    else if !f.disk.closes then [StoreFails(id, blob, false)] + []
    else
      [StoreBlob(id, blob)]
      + ([InsertMail(id, envelope.date, envelope.from, |ReturnPath(envelope.from)|, routes, f.mail)]
      + if f.mail then [UndoBlob(id, f.disk.removes)] + []
        else if routes.None? then []
        else RegisterSteps(id, routes.value, f))
  }

  function RegisterSteps(id: ID, r: Routes, f: Faults): seq<Action> {
    [InsertEntries(id, f.entries)]
    + if r.mailboxes != [] && (f.entries || !Distinct(r.mailboxes)) then [] else [InsertQueue(id, f.queue)] + []
  }

  lemma RegisterIsSteps(s: State, id: ID, r: Routes, f: Faults)
    requires id in s.deliveries && s.deliveries[id] == Rowed(r)
    requires id !in s.t.queue && forall e :: e in s.t.entries ==> e.1 != id
    ensures Runs(s, RegisterSteps(id, r, f))
    ensures Exec(s, RegisterSteps(id, r, f)) == Over(s.(t := RegisterRows(s.t, id, r, f).0), id)
  {
    hide After, Enabled, Distinct;
    var enter, enqueue := InsertEntries(id, f.entries), InsertQueue(id, f.queue);
    EnterStep(s, id, r, f.entries);
    var s1 := After(s, enter);
    if r.mailboxes != [] && (f.entries || !Distinct(r.mailboxes)) {
      StepFirst(s, enter, []);
    } else {
      EnqueueStep(s1, id, r, f.queue);
      assert s1.deliveries - {id} == s.deliveries - {id};
      StepFirst(s1, enqueue, []);
      StepFirst(s, enter, [enqueue] + []);
    }
  }

  lemma EnterStep(s: State, id: ID, r: Routes, fault: bool)
    requires id in s.deliveries && s.deliveries[id] == Rowed(r)
    requires forall e :: e in s.t.entries ==> e.1 != id
    ensures Enabled(s, InsertEntries(id, fault))
    ensures s.t.AddEntries(id, r.mailboxes).Some? <==> Distinct(r.mailboxes)
    ensures s.t.AddEntries(id, r.mailboxes).Some? ==> s.t.AddEntries(id, r.mailboxes).value.queue == s.t.queue
    ensures r.mailboxes == [] ==> s.t.AddEntries(id, r.mailboxes) == Some(s.t)
    ensures After(s, InsertEntries(id, fault)) ==
              if r.mailboxes != [] && (fault || !Distinct(r.mailboxes)) then Over(s, id)
              else At(s.(t := s.t.AddEntries(id, r.mailboxes).value), id, Entered(r))
  {
    AddEntriesExactly(s.t, id, r.mailboxes);
  }

  lemma EnqueueStep(s: State, id: ID, r: Routes, fault: bool)
    requires id in s.deliveries && s.deliveries[id] == Entered(r) && id !in s.t.queue
    ensures Enabled(s, InsertQueue(id, fault))
    ensures After(s, InsertQueue(id, fault)) ==
              Over(if r.queue == [] || fault then s else s.(t := s.t.AddToQueue(id, r.queue).value), id)
  {
  }

  lemma BlobAndRow(s: State, id: ID, envelope: Envelope, text: Text, routes: Option<Routes>, fault: bool)
    requires Unknown(s, id)
    ensures var store := StoreBlob(id, BlobOf(envelope.from, text));
            var row := InsertMail(id, envelope.date, envelope.from, |ReturnPath(envelope.from)|, routes, fault);
            var stored := s.(used := s.used + {id}, blobs := s.blobs[id := BlobOf(envelope.from, text)]);
            var rowed := stored.(t := s.t.(mails := s.t.mails[id := RowOf(envelope, text)]));
            && Enabled(s, store) && Enabled(After(s, store), row)
            && After(After(s, store), row) ==
                 if fault then At(stored, id, Undoing) else if routes.None? then rowed else At(rowed, id, Rowed(routes.value))
  {
    hide ReturnPath, BlobOf;
    var s1 := After(s, StoreBlob(id, BlobOf(envelope.from, text)));
    assert s1.deliveries == s.deliveries[id := Stored];
    assert s1.deliveries - {id} == s.deliveries;
    assert s1.deliveries[id := Undoing] == s.deliveries[id := Undoing];
    assert routes.Some? ==> s1.deliveries[id := Rowed(routes.value)] == s.deliveries[id := Rowed(routes.value)];
  }

  /**
   * An uninterrupted delivery under a new id is a run of the system with the effect that Deliver has. A blob that is
   * left without a mail row is one that could not be removed.
   */
  lemma DeliverIsSteps(s: State, book: Book, id: ID, envelope: Envelope, text: Text, f: Faults)
    requires StoreInv(s) && id !in s.used
    ensures var steps, blob := DeliverySteps(book, id, envelope, text, f), BlobOf(envelope.from, text);
            var t := DeliverRows(s.t, book, id, RowOf(envelope, text), envelope.to, f).0;
            var blobs := BlobsAfter(s.blobs, s.t, id, blob, f);
            && Runs(s, steps)
            && Exec(s, steps) == s.(
                 t := t, blobs := blobs, used := if f.disk.creates then s.used + {id} else s.used,
                 spilled := s.spilled + if id in blobs && id !in t.mails then {id} else {})
  {
    hide StoreInv, Enabled, After, Route, BlobOf, ReturnPath, RegisterRows, RegisterSteps;
    UnusedIsUnknown(s, id);
    var blob := BlobOf(envelope.from, text);
    if !f.disk.creates {
      assert s.spilled + {} == s.spilled;
    } else if !f.disk.Stores(|blob|) {
      var part := if f.disk.Holds(|blob|) then blob else blob[..f.disk.quota.value];
      var removes := !f.disk.Holds(|blob|) && f.disk.removes;
      StoreFailsStep(s, id, part, removes);
      StepFirst(s, StoreFails(id, part, removes), []);
      assert DeliverySteps(book, id, envelope, text, f) == [StoreFails(id, part, removes)] + [];
      assert s.spilled + {} == s.spilled;
    } else {
      DeliverBlobIsSteps(s, book, id, envelope, text, f);
      assert s.blobs[id := blob] - {id} == s.blobs;
      if Route(book, envelope.to).Some? {
        var row := s.t.(mails := s.t.mails[id := RowOf(envelope, text)]);
        RegisterKeepsMails(row, id, Route(book, envelope.to).value, f);
      }
    }
  }

  lemma RegisterKeepsMails(t: Tables, id: ID, r: Routes, f: Faults)
    ensures RegisterRows(t, id, r, f).0.mails == t.mails
  {
    AddEntriesExactly(t, id, r.mailboxes);
  }

  lemma StoreFailsStep(s: State, id: ID, part: Text, deleted: bool)
    requires Unknown(s, id)
    ensures Enabled(s, StoreFails(id, part, deleted))
    ensures After(s, StoreFails(id, part, deleted)) ==
              s.(used := s.used + {id}, blobs := if deleted then s.blobs else s.blobs[id := part],
                 spilled := if deleted then s.spilled else s.spilled + {id})
  {
    assert s.blobs[id := part] - {id} == s.blobs;
  }

  /** The part of a delivery whose blob is stored. */
  lemma DeliverBlobIsSteps(s: State, book: Book, id: ID, envelope: Envelope, text: Text, f: Faults)
    requires Unknown(s, id) && f.disk.Stores(|BlobOf(envelope.from, text)|)
    ensures var steps, blob := DeliverySteps(book, id, envelope, text, f), BlobOf(envelope.from, text);
            && Runs(s, steps)
            && Exec(s, steps) == s.(
                 t := DeliverRows(s.t, book, id, RowOf(envelope, text), envelope.to, f).0,
                 blobs := if f.mail && f.disk.removes then s.blobs else s.blobs[id := blob],
                 used := s.used + {id}, spilled := s.spilled + if f.mail && !f.disk.removes then {id} else {})
  {
    hide Enabled, After, Route, BlobOf, ReturnPath, RegisterRows, RegisterSteps;
    var routes := Route(book, envelope.to);
    var store := StoreBlob(id, BlobOf(envelope.from, text));
    var row := InsertMail(id, envelope.date, envelope.from, |ReturnPath(envelope.from)|, routes, f.mail);
    BlobAndRow(s, id, envelope, text, routes, f.mail);
    var s1 := After(s, store);
    var s2 := After(s1, row);
    var more := DeliverySteps(book, id, envelope, text, f)[2..];
    assert s.spilled + {} == s.spilled;
    if f.mail {
      UndoStep(s2, id, f.disk.removes);
      assert s2.blobs - {id} == s.blobs && s2.deliveries - {id} == s.deliveries;
      StepFirst(s2, UndoBlob(id, f.disk.removes), []);
      assert more == [UndoBlob(id, f.disk.removes)] + [];
    } else if routes.None? {
      assert more == [];
    } else {
      RegisterIsSteps(s2, id, routes.value, f);
      assert s2.deliveries - {id} == s.deliveries;
      assert more == RegisterSteps(id, routes.value, f);
    }
    StepFirst(s1, row, more);
    StepFirst(s, store, [row] + more);
    assert DeliverySteps(book, id, envelope, text, f) == [store] + ([row] + more);
  }

  lemma UndoStep(s: State, id: ID, deleted: bool)
    requires id in s.deliveries && s.deliveries[id] == Undoing
    ensures Enabled(s, UndoBlob(id, deleted))
    ensures After(s, UndoBlob(id, deleted)) ==
              s.(deliveries := s.deliveries - {id}, blobs := if deleted then s.blobs - {id} else s.blobs,
                 spilled := if deleted then s.spilled else s.spilled + {id})
  {
  }

  // Cleaning up and quitting.

  function RemoveSteps(mails: seq<ID>, stuck: set<ID>, last: seq<Action>): seq<Action> {
    if mails == [] then last else [RemoveBlob(mails[0], mails[0] !in stuck)] + RemoveSteps(mails[1..], stuck, last)
  }

  /** The blobs are removed, except for those that stick. */
  function Removed(s: State, ids: set<ID>, stuck: set<ID>): State {
    s.(pending := s.pending - ids, blobs := s.blobs - (ids - stuck), spilled := s.spilled + ids * stuck)
  }

  lemma RemovedMore(s: State, id: ID, ids: set<ID>, stuck: set<ID>)
    requires id in s.pending
    ensures Enabled(s, RemoveBlob(id, id !in stuck))
    ensures Removed(After(s, RemoveBlob(id, id !in stuck)), ids, stuck) == Removed(s, {id} + ids, stuck)
  {
    var u := After(s, RemoveBlob(id, id !in stuck));
    assert u.pending - ids == s.pending - ({id} + ids);
    assert u.blobs - (ids - stuck) == s.blobs - ({id} + ids - stuck);
    assert u.spilled + ids * stuck == s.spilled + ({id} + ids) * stuck;
  }

  lemma {:induction false} RemovesBlobs(s: State, mails: seq<ID>, stuck: set<ID>, last: seq<Action>)
    requires Distinct(mails) && Ids(mails) <= s.pending
    ensures Runs(s, RemoveSteps(mails, stuck, last)) <==> Runs(Removed(s, Ids(mails), stuck), last)
    ensures Exec(s, RemoveSteps(mails, stuck, last)) == Exec(Removed(s, Ids(mails), stuck), last)
    decreases |mails|
  {
    if mails == [] {
      assert s.pending - Ids(mails) == s.pending && s.blobs - (Ids(mails) - stuck) == s.blobs;
      assert s.spilled + Ids(mails) * stuck == s.spilled;
    } else {
      hide Enabled, Removed;
      var id, rest := mails[0], mails[1..];
      assert mails == [id] + rest && id in Ids(mails);
      assert Ids(mails) == {id} + Ids(rest);
      assert id !in rest;
      StepFirst(s, RemoveBlob(id, id !in stuck), RemoveSteps(rest, stuck, last));
      RemovedMore(s, id, Ids(rest), stuck);
      var s1 := After(s, RemoveBlob(id, id !in stuck));
      assert s1.pending == s.pending - {id};
      RemovesBlobs(s1, rest, stuck, last);
    }
  }

  /**
   * An uninterrupted collection, with what follows it, deletes the rows of all orphans and their blobs, as far as
   * these can be removed. If its transaction fails it is no step at all.
   */
  lemma CleanIsSteps(s: State, mails: seq<ID>, sweep: Sweep, last: seq<Action>)
    requires StoreInv(s) && Distinct(mails) && Ids(mails) == s.t.Orphans() && !sweep.fault
    ensures var steps := [Collect] + RemoveSteps(mails, sweep.stuck, last);
            var u := s.(t := s.t.DeleteOrphans(), blobs := Swept(s.blobs, s.t.Orphans(), sweep),
                        spilled := s.spilled + s.t.Orphans() * sweep.stuck,
                        raced := s.raced + s.t.Orphans() * s.deliveries.Keys);
            && (Runs(s, steps) <==> Runs(u, last))
            && Exec(s, steps) == Exec(u, last)
  {
    var s1 := After(s, Collect);
    StepFirst(s, Collect, RemoveSteps(mails, sweep.stuck, last));
    RemovesBlobs(s1, mails, sweep.stuck, last);
    forall id | id in s.t.Orphans()
      ensures id !in s.pending
    {
      assert IdInv(s, id);
    }
    assert s1.pending - Ids(mails) == s.pending;
  }

  /** The steps of QUIT in the transaction, with the end of the session, according to which of its transactions fail. */
  function QuitSteps(p: nat, fault: bool, sweep: Sweep, mails: seq<ID>): seq<Action> {
    if fault then [Leave(p)] + []
    else
      [DeleteMarked(p)]
      + if sweep.fault then [Leave(p)] + [] else [Collect] + RemoveSteps(mails, sweep.stuck, [Leave(p)] + [])
  }

  /**
   * An uninterrupted QUIT is a run of the system: it leaves the tables and the blobs that the method leaves, and ends
   * the session and its lock.
   */
  lemma QuitIsSteps(s: State, p: nat, fault: bool, sweep: Sweep, mails: seq<ID>)
    requires Inv(s) && InTransaction(s, p) && Distinct(mails)
    requires Ids(mails) == s.t.DeleteEntries(s.pops[p].drop.MarkedMails(), s.pops[p].drop.id).Orphans()
    ensures Runs(s, QuitSteps(p, fault, sweep, mails))
    ensures var u, drop := Exec(s, QuitSteps(p, fault, sweep, mails)), s.pops[p].drop;
            && u.pops == s.pops - {p} && u.locks == s.locks - {drop.id}
            && (u.t, u.blobs) == (if fault then (s.t, s.blobs) else Pop3.AfterQuit(drop, sweep, s.t, s.blobs))
            && u.spilled == s.spilled + (if fault || sweep.fault then {} else Ids(mails) * sweep.stuck)
            && u.deliveries == s.deliveries && u.pending == s.pending && u.leaked == s.leaked
  {
    hide Inv, StoreInv, Enabled, After, InTransaction, Drop.MarkedMails, Tables.DeleteEntries,
         Tables.Orphans, Tables.DeleteOrphans, Distinct, Ids, RemoveSteps;
    DeleteMarkedStep(s, p);
    var drop := s.pops[p].drop;
    assert s.spilled + {} == s.spilled;
    if fault {
      LeaveStep(s, p);
      StepFirst(s, Leave(p), []);
    } else {
      assert StoreInv(s) by { InvIsStoreInv(s); }
      StoreKept(s, DeleteMarked(p));
      var s1 := After(s, DeleteMarked(p));
      assert s1.pops - {p} == s.pops - {p};
      if sweep.fault {
        StepFirst(s, DeleteMarked(p), [Leave(p)] + []);
        LeaveStep(s1, p);
        StepFirst(s1, Leave(p), []);
      } else {
        StepFirst(s, DeleteMarked(p), [Collect] + RemoveSteps(mails, sweep.stuck, [Leave(p)] + []));
        CleanIsSteps(s1, mails, sweep, [Leave(p)] + []);
        var s2 := s1.(t := s1.t.DeleteOrphans(), blobs := Swept(s1.blobs, s1.t.Orphans(), sweep),
                      spilled := s1.spilled + s1.t.Orphans() * sweep.stuck,
                      raced := s1.raced + s1.t.Orphans() * s1.deliveries.Keys);
        LeaveStep(s2, p);
        StepFirst(s2, Leave(p), []);
      }
    }
  }

  lemma DeleteMarkedStep(s: State, p: nat)
    requires InTransaction(s, p)
    ensures p in s.pops && s.pops[p].drop.state == STransaction && s.pops[p].standing == Talking && Enabled(s, DeleteMarked(p))
    ensures var drop := s.pops[p].drop;
            After(s, DeleteMarked(p)) ==
              s.(t := s.t.DeleteEntries(drop.MarkedMails(), drop.id), pops := s.pops[p := Pop(drop, Quitting)])
  {
  }

  lemma LeaveStep(s: State, p: nat)
    requires p in s.pops && !s.pops[p].standing.Locked? && s.pops[p].drop.state == STransaction
    ensures Enabled(s, Leave(p))
    ensures After(s, Leave(p)) == s.(locks := s.locks - {s.pops[p].drop.id}, pops := s.pops - {p})
  {
  }

  // The other POP3 commands.

  function SessionIn(s: State, p: nat, drop: Drop): State {
    s.(pops := s.pops[p := Pop(drop, Talking)])
  }

  /** The steps of PASS for a listing of the maildrop, if it comes to that. */
  function PassSteps(p: nat, id: int, r: Pop3.Result, known: bool, list: seq<Item>): seq<Action> {
    if r == Pop3.Replied(true) then [LockDrop(p, id)] + ([TakeSnapshot(p, list)] + [])
    else if r == Pop3.Fail && known then [LockDrop(p, id)] + ([SnapshotFails(p)] + [])
    else []
  }

  lemma OpenSteps(s: State, p: nat, id: int, list: seq<Item>)
    requires Enabled(s, LockDrop(p, id)) && s.t.NewestFirst(id, list)
    ensures var steps := [LockDrop(p, id)] + ([TakeSnapshot(p, list)] + []);
            && Runs(s, steps)
            && Exec(s, steps) == SessionIn(s, p, s.pops[p].drop.Opened(id, list, Total(list))).(locks := s.locks + {id})
  {
    hide Tables.NewestFirst, Total, Drop.Opened;
    var s1 := After(s, LockDrop(p, id));
    assert s1.pops == s.pops[p := Pop(s.pops[p].drop, Locked(id))];
    StepFirst(s1, TakeSnapshot(p, list), []);
    StepFirst(s, LockDrop(p, id), [TakeSnapshot(p, list)] + []);
  }

  lemma LeakSteps(s: State, p: nat, id: int)
    requires Enabled(s, LockDrop(p, id))
    ensures var steps := [LockDrop(p, id)] + ([SnapshotFails(p)] + []);
            && Runs(s, steps)
            && Exec(s, steps) == s.(pops := s.pops - {p}, locks := s.locks + {id}, leaked := s.leaked + {id})
  {
    var s1 := After(s, LockDrop(p, id));
    assert s1.pops == s.pops[p := Pop(s.pops[p].drop, Locked(id))] && s1.pops - {p} == s.pops - {p};
    StepFirst(s1, SnapshotFails(p), []);
    StepFirst(s, LockDrop(p, id), [SnapshotFails(p)] + []);
  }

  /** An uninterrupted PASS is a run of the system, in which the session takes its lock and its snapshot, or leaks the lock. */
  lemma PassIsSteps(s: State, p: nat, c: Pop3.Command, list: seq<Item>)
    requires p in s.pops && s.pops[p].standing.Talking? && c.Pass?
    requires var login := c.logins(s.pops[p].drop.name); login.Known? ==> s.t.NewestFirst(login.id, list)
    ensures var drop := s.pops[p].drop;
            var login := c.logins(drop.name);
            var id := if login.Known? then login.id else 0;
            var (next, r, _) := Pop3.Step(Pop3.Found(s.locks, list, s.blobs), drop, c);
            var steps := PassSteps(p, id, r, login.Known?, list);
            && Runs(s, steps)
            && Exec(s, steps) ==
                 if r == Pop3.Replied(true) then SessionIn(s, p, next).(locks := s.locks + {id})
                 else if r == Pop3.Fail && login.Known? then
                   s.(pops := s.pops - {p}, locks := s.locks + {id}, leaked := s.leaked + {id})
                 else s
  {
    var drop := s.pops[p].drop;
    var login := c.logins(drop.name);
    var (next, r, _) := Pop3.Step(Pop3.Found(s.locks, list, s.blobs), drop, c);
    if r == Pop3.Replied(true) {
      hide After, Enabled, Tables.NewestFirst, Total, Drop.Opened;
      OpenSteps(s, p, login.id, list);
    } else if r == Pop3.Fail && login.Known? {
      hide After, Enabled, Tables.NewestFirst, Total, Drop.Opened;
      LeakSteps(s, p, login.id);
    }
  }

  /**
   * USER, DELE and RSET, where they are accepted, are one step each, and no other command but PASS and QUIT changes
   * the session.
   */
  lemma CommandIsStep(s: State, p: nat, c: Pop3.Command, list: seq<Item>)
    requires p in s.pops && s.pops[p].standing.Talking? && !c.Pass? && !c.Quit?
    ensures var drop := s.pops[p].drop;
            var next := Pop3.Step(Pop3.Found(s.locks, list, s.blobs), drop, c).0;
            || (next == drop && SessionIn(s, p, next) == s)
            || (c.User? && Enabled(s, Name(p, c.names[0])) && After(s, Name(p, c.names[0])) == SessionIn(s, p, next))
            || (c.Dele? && Enabled(s, Mark(p, c.args.number.value - 1))
                && After(s, Mark(p, c.args.number.value - 1)) == SessionIn(s, p, next))
            || (c.Rset? && Enabled(s, Unmark(p)) && After(s, Unmark(p)) == SessionIn(s, p, next))
  {
    hide Drop.Accounted, Drop.Marked, Drop.Unmarked, Drop.Lines;
    assert s.pops[p := Pop(s.pops[p].drop, Talking)] == s.pops;
  }

  lemma InvIsStoreInv(s: State)
    requires Inv(s)
    ensures StoreInv(s)
  {
  }

  // An attempt of the queue worker.

  /** The queue after an attempt. */
  ghost function Attempted(t: Tables, id: ID, attempt: Try): Tables
    requires id in t.queue
  {
    match Tried(t.queue[id], attempt)
    case None => t.DeleteFromQueue(id)
    case Some(row) => t.(queue := t.queue[id := row])
  }

  /** For the mail store, an attempt is a rescheduling, a removal from the queue, or nothing. */
  lemma AttemptIsStep(s: State, id: ID, attempt: Try)
    requires id in s.t.queue
    ensures var t := Attempted(s.t, id, attempt);
            || After(s, Dequeue(id)) == s.(t := t)
            || (exists date :: attempt.now < date && After(s, Reschedule(id, attempt.sorted.pending, date)) == s.(t := t))
            || s == s.(t := t)
  {
    var row := s.t.queue[id];
    var next := Tried(row, attempt);
    assert s.t.queue[id := row] == s.t.queue;
    if next.Some? && next.value != row {
      assert After(s, Reschedule(id, attempt.sorted.pending, next.value.date)) == s.(t := Attempted(s.t, id, attempt));
    }
  }

  /** The dates of the rows, which are all that the wake-up protocol knows of them. */
  function Dates(t: Tables): map<ID, int> {
    map id | id in t.queue :: t.queue[id].date
  }

  ghost function FateOf(row: QueueRow, attempt: Try): QueueProtocol.Fate {
    match Tried(row, attempt)
    case None => QueueProtocol.Gone
    case Some(r) => if r == row then QueueProtocol.Same else QueueProtocol.Later(r.date)
  }

  /** The worker reads a row of the queue exactly if it is one that PeekQueue may answer. */
  lemma HeadIsPeek(p: QueueProtocol.State, w: nat, t: Tables, id: ID)
    requires QueueProtocol.IsReady(p, w) && p.rows == Dates(t)
    ensures QueueProtocol.Enabled(p, QueueProtocol.Peek(w, Some(id))) <==> t.IsHead(id)
    ensures QueueProtocol.Enabled(p, QueueProtocol.Peek(w, None)) <==> t.queue == map[]
  {
    assert forall other :: other in t.queue <==> other in Dates(t);
    assert t.queue == map[] <==> t.queue.Keys == {};
    assert Dates(t) == map[] <==> Dates(t).Keys == {};
    assert Dates(t).Keys == t.queue.Keys;
    if t.IsHead(id) {
      forall other | other in p.rows
        ensures p.rows[id] <= p.rows[other]
      {
      }
    }
    if QueueProtocol.Enabled(p, QueueProtocol.Peek(w, Some(id))) {
      forall other | other in t.queue
        ensures t.queue[id].date <= t.queue[other].date
      {
        assert p.rows[id] <= p.rows[other];
      }
    }
  }

  /** For the wake-up protocol, an attempt is the end of the worker's attempt with the corresponding fate. */
  lemma AttemptIsFinish(p: QueueProtocol.State, w: nat, t: Tables, id: ID, attempt: Try)
    requires w in p.c.workers && p.c.workers[w] == QueueProtocol.Attempting(id)
    requires id in t.queue && p.rows == Dates(t)
    ensures var fate := FateOf(t.queue[id], attempt);
            && QueueProtocol.Enabled(p, QueueProtocol.Finish(w, fate))
            && QueueProtocol.After(p, QueueProtocol.Finish(w, fate)).rows == Dates(Attempted(t, id, attempt))
  {
    hide Tried;
  }

  /** The row stays at the head of the queue exactly if its mail is gone, the change fails, or the servers leave it stuck. */
  lemma FateIsSameExactly(row: QueueRow, attempt: Try)
    requires Makes(row, attempt)
    ensures FateOf(row, attempt) == QueueProtocol.Same <==>
            !attempt.mailThere || attempt.fault || Stuck(row, attempt.net, attempt.blobThere)
  {
    hide Makes, Stuck, Tried;
    RowStaysExactly(row, attempt);
  }
}
