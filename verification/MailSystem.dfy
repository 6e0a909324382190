/**
 * The mail store under concurrency: any number of deliveries, POP3 sessions and cleaners, and the queue worker,
 * interleaved in any order. Each database transaction, each blob operation and each use of the lock table is
 * one step.
 */
module MailSystem {
  import opened Bytes
  import opened Addressbook
  import opened Database
  import opened Mailman
  import opened Maildrop

  /** How far a delivery has come. */
  datatype Stage =
    | Stored                     // the blob is written, the mail row is not
    | Undoing                    // the mail row was refused, the blob is to be deleted
    | Rowed(routes: Routes)      // the mail row is there
    | Entered(routes: Routes)    // so are the entries
  {
    predicate Unrowed() {
      Stored? || Undoing?
    }
  }

  /** Where a POP3 session stands, besides its view of the maildrop. */
  datatype Standing = Talking | Locked(id: int) | Quitting

  datatype Pop = Pop(drop: Drop, standing: Standing) {

    /** The maildrop whose lock the session owns. */
    function Holds(): Option<int> {
      if standing.Locked? then Some(standing.id) else if drop.state == STransaction then Some(drop.id) else None
    }
  }

  /** A delivery is known by the id of its mail. `used` are the ids given out so far; ids are never reused. */
  datatype State = State(
    t: Tables,
    blobs: map<ID, Text>,
    used: set<ID>,
    deliveries: map<ID, Stage>,
    pending: set<ID>,        // orphans whose rows are deleted and whose blobs are to be deleted by some cleaner
    spilled: set<ID>,        // blobs that could not be deleted
    raced: set<ID>,          // mails collected while their delivery was going on
    pops: map<nat, Pop>,
    locks: set<int>,
    leaked: set<int>)        // locks of sessions that failed to take their snapshot

  const INIT := State(Tables(map[], {}, map[]), map[], {}, map[], {}, {}, {}, map[], {}, {})

  datatype Action =
    // deliveries
    | StoreBlob(id: ID, content: Text)
    | StoreFails(id: ID, part: Text, deleted: bool)
    | InsertMail(id: ID, date: int, from: Address, offset: int, routes: Option<Routes>, fault: bool)
    | UndoBlob(id: ID, deleted: bool)
    | InsertEntries(id: ID, fault: bool)
    | InsertQueue(id: ID, fault: bool)
    // cleaners
    | Collect
    | RemoveBlob(id: ID, deleted: bool)
    // the queue worker
    | Reschedule(id: ID, to: seq<Address>, date: int)
    | Dequeue(id: ID)
    // POP3 sessions
    | Connect(p: nat)
    | Name(p: nat, name: Text)
    | LockDrop(p: nat, box: int)
    | TakeSnapshot(p: nat, list: seq<Item>)
    | SnapshotFails(p: nat)
    | Mark(p: nat, n: int)
    | Unmark(p: nat)
    | DeleteMarked(p: nat)
    | Leave(p: nat)

  ghost predicate Enabled(s: State, a: Action) {
    match a
    case StoreBlob(id, _) => id !in s.used
    case StoreFails(id, _, _) => id !in s.used
    case InsertMail(id, _, _, _, _, _) => id in s.deliveries && s.deliveries[id].Stored? && id in s.blobs
    case UndoBlob(id, _) => id in s.deliveries && s.deliveries[id].Undoing?
    case InsertEntries(id, _) => id in s.deliveries && s.deliveries[id].Rowed?
    case InsertQueue(id, _) => id in s.deliveries && s.deliveries[id].Entered?
    case RemoveBlob(id, _) => id in s.pending
    case Connect(p) => p !in s.pops
    case Name(p, _) => p in s.pops && s.pops[p].standing.Talking? && s.pops[p].drop.state != STransaction
    case LockDrop(p, box) => p in s.pops && s.pops[p].standing.Talking? && s.pops[p].drop.state == SUser && box !in s.locks
    case TakeSnapshot(p, list) => p in s.pops && s.pops[p].standing.Locked? && s.t.NewestFirst(s.pops[p].standing.id, list)
    case SnapshotFails(p) => p in s.pops && s.pops[p].standing.Locked?
    case Mark(p, _) => InTransaction(s, p)
    case Unmark(p) => InTransaction(s, p)
    case DeleteMarked(p) => InTransaction(s, p)
    case Leave(p) => p in s.pops && !s.pops[p].standing.Locked?
    case _ => true
  }

  /** A session that is in its transaction and has not begun to quit. */
  predicate InTransaction(s: State, p: nat) {
    p in s.pops && s.pops[p].standing.Talking? && s.pops[p].drop.state == STransaction
  }

  /** Removes a blob, or fails to. */
  function WithoutBlob(s: State, id: ID, deleted: bool): State {
    if deleted then s.(blobs := s.blobs - {id}) else s.(spilled := s.spilled + {id})
  }

  function Over(s: State, id: ID): State {
    s.(deliveries := s.deliveries - {id})
  }

  function At(s: State, id: ID, stage: Stage): State {
    s.(deliveries := s.deliveries[id := stage])
  }

  function Deliver(s: State, a: Action): State {
    match a
    case StoreBlob(id, content) =>
      At(s.(used := s.used + {id}, blobs := s.blobs[id := content]), id, Stored)
    case StoreFails(id, part, deleted) =>
      WithoutBlob(s.(used := s.used + {id}, blobs := s.blobs[id := part]), id, deleted)
    case InsertMail(id, date, from, offset, routes, fault) =>
      if id !in s.blobs then s
      else
        var t := s.t.AddMail(id, MailRow(date, from, |s.blobs[id]|, offset));
        if fault || t.None? then At(s, id, Undoing)
        else if routes.None? then Over(s.(t := t.value), id)
        else At(s.(t := t.value), id, Rowed(routes.value))
    case UndoBlob(id, deleted) => WithoutBlob(Over(s, id), id, deleted)
    case InsertEntries(id, fault) =>
      if id !in s.deliveries || !s.deliveries[id].Rowed? then s
      else
        var routes := s.deliveries[id].routes;
        var t := s.t.AddEntries(id, routes.mailboxes);
        if routes.mailboxes != [] && (fault || t.None?) then Over(s, id)
        else At(s.(t := if t.None? then s.t else t.value), id, Entered(routes))
    case InsertQueue(id, fault) =>
      if id !in s.deliveries || !s.deliveries[id].Entered? then s
      else
        var routes := s.deliveries[id].routes;
        var t := s.t.AddToQueue(id, routes.queue);
        if routes.queue == [] || fault || t.None? then Over(s, id) else Over(s.(t := t.value), id)
    case _ => s
  }

  function Housekeep(s: State, a: Action): State {
    match a
    case Collect =>
      var orphans := s.t.Orphans();
      s.(t := s.t.DeleteOrphans(), pending := s.pending + orphans, raced := s.raced + orphans * s.deliveries.Keys)
    case RemoveBlob(id, deleted) => WithoutBlob(s.(pending := s.pending - {id}), id, deleted)
    case Reschedule(id, to, date) => s.(t := s.t.UpdateQueue(id, to, date))
    case Dequeue(id) => s.(t := s.t.DeleteFromQueue(id))
    case _ => s
  }

  function Talk(s: State, a: Action): State {
    match a
    case Connect(p) => s.(pops := s.pops[p := Pop(FRESH, Talking)])
    case Name(p, name) => if p !in s.pops then s else s.(pops := s.pops[p := Pop(s.pops[p].drop.Named(name), Talking)])
    case LockDrop(p, box) =>
      if p !in s.pops then s
      else s.(locks := s.locks + {box}, pops := s.pops[p := Pop(s.pops[p].drop, Locked(box))])
    case TakeSnapshot(p, list) =>
      if p !in s.pops || !s.pops[p].standing.Locked? then s
      else s.(pops := s.pops[p := Pop(s.pops[p].drop.Opened(s.pops[p].standing.id, list, Total(list)), Talking)])
    case SnapshotFails(p) =>
      if p !in s.pops || !s.pops[p].standing.Locked? then s
      else s.(leaked := s.leaked + {s.pops[p].standing.id}, pops := s.pops - {p})
    case Mark(p, n) => if p !in s.pops then s else s.(pops := s.pops[p := Pop(s.pops[p].drop.Marked(n), Talking)])
    case Unmark(p) => if p !in s.pops then s else s.(pops := s.pops[p := Pop(s.pops[p].drop.Unmarked(), Talking)])
    case DeleteMarked(p) =>
      if p !in s.pops then s
      else
        var drop := s.pops[p].drop;
        s.(t := s.t.DeleteEntries(drop.MarkedMails(), drop.id), pops := s.pops[p := Pop(drop, Quitting)])
    case Leave(p) =>
      if p !in s.pops then s
      else
        var drop := s.pops[p].drop;
        s.(locks := if drop.state == STransaction then s.locks - {drop.id} else s.locks, pops := s.pops - {p})
    case _ => s
  }

  predicate IsDelivery(a: Action) {
    a.StoreBlob? || a.StoreFails? || a.InsertMail? || a.UndoBlob? || a.InsertEntries? || a.InsertQueue?
  }

  predicate IsHousekeeping(a: Action) {
    a.Collect? || a.RemoveBlob? || a.Reschedule? || a.Dequeue?
  }

  function After(s: State, a: Action): State {
    if IsDelivery(a) then Deliver(s, a) else if IsHousekeeping(a) then Housekeep(s, a) else Talk(s, a)
  }

  /** The actions can be taken one after the other from `s`. */
  ghost predicate Runs(s: State, actions: seq<Action>)
    decreases |actions|
  {
    actions == [] || (Enabled(s, actions[0]) && Runs(After(s, actions[0]), actions[1..]))
  }

  function Exec(s: State, actions: seq<Action>): State
    decreases |actions|
  {
    if actions == [] then s else Exec(After(s, actions[0]), actions[1..])
  }

  // The invariant.

  ghost predicate Unrowed(s: State, id: ID) {
    id in s.deliveries && s.deliveries[id].Unrowed()
  }

  /** What is known of a mail id: a blob is there for a reason, and a row has its blob. */
  ghost predicate IdInv(s: State, id: ID) {
    var rowed, unrowed, queued := id in s.t.mails, Unrowed(s, id), id in s.t.queue;
    && (rowed || queued || id in s.blobs || id in s.deliveries || id in s.pending || id in s.spilled || id in s.raced
        ==> id in s.used)
    && (id in s.blobs <==> rowed || unrowed || id in s.pending || id in s.spilled)
    && (rowed ==> s.t.mails[id].size == |s.blobs[id]| && !unrowed && id !in s.pending && id !in s.spilled && id !in s.raced)
    && (unrowed ==> id !in s.pending && id !in s.spilled && id !in s.raced && !queued)
    && !(id in s.pending && id in s.spilled)
    && (queued || (id in s.deliveries && !unrowed) ==> rowed || id in s.raced)
  }

  ghost predicate EntryInv(s: State, e: (int, ID)) {
    e in s.t.entries ==> e.1 in s.used && !Unrowed(s, e.1) && (e.1 in s.t.mails || e.1 in s.raced)
  }

  /** Rows, blobs and deliveries fit together. */
  ghost predicate StoreInv(s: State) {
    (forall id :: IdInv(s, id)) && forall e :: EntryInv(s, e)
  }

  ghost predicate Owns(s: State, p: nat, box: int) {
    p in s.pops && s.pops[p].Holds() == Some(box)
  }

  ghost predicate Owned(s: State, box: int) {
    exists p :: Owns(s, p, box)
  }

  ghost predicate PopInv(s: State, p: nat) {
    p in s.pops ==> s.pops[p].drop.Accounted() && (s.pops[p].standing.Locked? ==> s.pops[p].drop.state == SUser)
  }

  /** Each lock in the table has exactly one owner, or has been leaked. */
  ghost predicate LockInv(s: State) {
    && (forall p :: PopInv(s, p))
    && (forall box :: box in s.locks <==> Owned(s, box) || box in s.leaked)
    && (forall box :: !(Owned(s, box) && box in s.leaked))
    && (forall p, q, box :: Owns(s, p, box) && Owns(s, q, box) ==> p == q)
  }

  /** A mail of a snapshot is there: its entry, its row, and a blob of the size that was listed. */
  ghost predicate Retrievable(s: State, drop: Drop, i: nat)
    requires i < |drop.entries|
  {
    var mail := drop.entries[i].mail;
    && (drop.id, mail) in s.t.entries
    && mail in s.t.mails
    && mail in s.blobs
    && |s.blobs[mail]| == drop.entries[i].size
  }

  ghost predicate Safe(s: State, drop: Drop) {
    && (forall i :: 0 <= i < |drop.entries| ==> Retrievable(s, drop, i))
    && (forall i, j :: 0 <= i < j < |drop.entries| ==> drop.entries[i].mail != drop.entries[j].mail)
  }

  ghost predicate SnapshotInv(s: State) {
    forall p :: InTransaction(s, p) ==> Safe(s, s.pops[p].drop)
  }

  ghost predicate Inv(s: State) {
    StoreInv(s) && LockInv(s) && SnapshotInv(s)
  }

  // Preservation of the store invariant.

  lemma BlobStepKeepsId(s: State, a: Action, id: ID)
    requires (a.StoreBlob? || a.StoreFails? || a.UndoBlob?) && Enabled(s, a) && IdInv(s, id) && IdInv(s, a.id)
    ensures IdInv(After(s, a), id)
  {
  }

  lemma InsertMailKeepsId(s: State, a: Action, id: ID)
    requires a.InsertMail? && Enabled(s, a) && IdInv(s, id) && IdInv(s, a.id)
    ensures IdInv(After(s, a), id)
  {
  }

  lemma InsertEntriesKeepsId(s: State, a: Action, id: ID)
    requires a.InsertEntries? && Enabled(s, a) && IdInv(s, id) && IdInv(s, a.id)
    ensures IdInv(After(s, a), id)
  {
    AddEntriesExactly(s.t, a.id, s.deliveries[a.id].routes.mailboxes);
  }

  lemma InsertQueueKeepsId(s: State, a: Action, id: ID)
    requires a.InsertQueue? && Enabled(s, a) && IdInv(s, id) && IdInv(s, a.id)
    ensures IdInv(After(s, a), id)
  {
  }

  lemma DeliveryKeepsId(s: State, a: Action, id: ID)
    requires IsDelivery(a) && Enabled(s, a) && IdInv(s, id) && IdInv(s, a.id)
    ensures IdInv(After(s, a), id)
  {
    hide Enabled, IdInv, After;
    if a.StoreBlob? || a.StoreFails? || a.UndoBlob? {
      BlobStepKeepsId(s, a, id);
    } else if a.InsertMail? {
      InsertMailKeepsId(s, a, id);
    } else if a.InsertEntries? {
      InsertEntriesKeepsId(s, a, id);
    } else {
      InsertQueueKeepsId(s, a, id);
    }
  }

  lemma InsertEntriesKeepsEntry(s: State, a: Action, e: (int, ID))
    requires a.InsertEntries? && Enabled(s, a) && EntryInv(s, e) && IdInv(s, a.id)
    ensures EntryInv(After(s, a), e)
  {
    AddEntriesExactly(s.t, a.id, s.deliveries[a.id].routes.mailboxes);
  }

  lemma DeliveryKeepsEntry(s: State, a: Action, e: (int, ID))
    requires IsDelivery(a) && Enabled(s, a) && EntryInv(s, e) && IdInv(s, a.id) && IdInv(s, e.1)
    ensures EntryInv(After(s, a), e)
  {
    if a.InsertEntries? {
      hide Enabled, IdInv, EntryInv, After;
      InsertEntriesKeepsEntry(s, a, e);
    }
  }

  lemma HousekeepingKeepsId(s: State, a: Action, id: ID)
    requires IsHousekeeping(a) && Enabled(s, a) && IdInv(s, id)
    ensures IdInv(After(s, a), id)
  {
  }

  lemma HousekeepingKeepsEntry(s: State, a: Action, e: (int, ID))
    requires IsHousekeeping(a) && Enabled(s, a) && EntryInv(s, e)
    ensures EntryInv(After(s, a), e)
  {
    assert e in s.t.entries ==> s.t.Listed(e.1);
  }

  lemma StoreKept(s: State, a: Action)
    requires StoreInv(s) && Enabled(s, a)
    ensures StoreInv(After(s, a))
  {
    hide IdInv, EntryInv, Enabled;
    var u := After(s, a);
    if IsDelivery(a) {
      forall id ensures IdInv(u, id) { DeliveryKeepsId(s, a, id); }
      forall e ensures EntryInv(u, e) { DeliveryKeepsEntry(s, a, e); }
    } else if IsHousekeeping(a) {
      forall id ensures IdInv(u, id) { HousekeepingKeepsId(s, a, id); }
      forall e ensures EntryInv(u, e) { HousekeepingKeepsEntry(s, a, e); }
    } else {
      forall id ensures IdInv(u, id) { TalkKeepsId(s, a, id); }
      forall e ensures EntryInv(u, e) { TalkKeepsEntry(s, a, e); }
    }
  }

  lemma TalkKeepsId(s: State, a: Action, id: ID)
    requires !IsDelivery(a) && !IsHousekeeping(a) && IdInv(s, id)
    ensures IdInv(After(s, a), id)
  {
  }

  lemma TalkKeepsEntry(s: State, a: Action, e: (int, ID))
    requires !IsDelivery(a) && !IsHousekeeping(a) && EntryInv(s, e)
    ensures EntryInv(After(s, a), e)
  {
  }

  // Preservation of the lock invariant.

  lemma TalkKeepsPop(s: State, a: Action, p: nat)
    requires !IsDelivery(a) && !IsHousekeeping(a) && Enabled(s, a) && PopInv(s, p)
    ensures PopInv(After(s, a), p)
  {
    hide Drop.Accounted, Drop.Marked, Drop.Unmarked;
    FreshIsAccounted();
    if p in s.pops {
      StepsAreAccounted(s.pops[p].drop);
    }
  }

  /** Who owns what after a step of the session `a.p`. */
  lemma TalkChangesOwner(s: State, a: Action, p: nat, box: int)
    requires !IsDelivery(a) && !IsHousekeeping(a) && Enabled(s, a) && PopInv(s, a.p)
    ensures Owns(After(s, a), p, box) <==>
            if a.LockDrop? && p == a.p then box == a.box
            else if (a.SnapshotFails? || a.Leave?) && p == a.p then false
            else Owns(s, p, box)
  {
    hide Drop.Accounted;
  }

  lemma TalkChangesLocks(s: State, a: Action)
    requires !IsDelivery(a) && !IsHousekeeping(a) && Enabled(s, a) && PopInv(s, a.p)
    ensures After(s, a).locks == if a.LockDrop? then s.locks + {a.box}
                                 else if a.Leave? then s.locks - (set box | box in s.locks && Owns(s, a.p, box))
                                 else s.locks
    ensures After(s, a).leaked == if a.SnapshotFails? then s.leaked + {s.pops[a.p].standing.id} else s.leaked
    ensures a.SnapshotFails? ==> forall box :: Owns(s, a.p, box) <==> box == s.pops[a.p].standing.id
    ensures a.LockDrop? ==> a.box !in s.locks && forall box :: !Owns(s, a.p, box)
  {
    hide Drop.Accounted;
  }

  lemma TalkKeepsLocks(s: State, a: Action)
    requires !IsDelivery(a) && !IsHousekeeping(a) && Enabled(s, a) && LockInv(s)
    ensures LockInv(After(s, a))
  {
    hide Owns, PopInv, After, Enabled, Owned;
    var u := After(s, a);
    assert PopInv(s, a.p);
    TalkChangesLocks(s, a);
    forall p ensures PopInv(u, p) { TalkKeepsPop(s, a, p); }
    forall p, q, box | Owns(u, p, box) && Owns(u, q, box)
      ensures p == q
    {
      TalkChangesOwner(s, a, p, box);
      TalkChangesOwner(s, a, q, box);
      OwnerIsOwner(s, p, box);
      OwnerIsOwner(s, q, box);
    }
    forall box
      ensures (box in u.locks <==> Owned(u, box) || box in u.leaked) && !(Owned(u, box) && box in u.leaked)
    {
      TalkKeepsBox(s, a, box);
    }
  }

  lemma OwnerIsOwner(s: State, p: nat, box: int)
    ensures Owns(s, p, box) ==> Owned(s, box)
  {
  }

  lemma TalkKeepsBox(s: State, a: Action, box: int)
    requires !IsDelivery(a) && !IsHousekeeping(a) && Enabled(s, a) && LockInv(s)
    ensures var u := After(s, a); (box in u.locks <==> Owned(u, box) || box in u.leaked) && !(Owned(u, box) && box in u.leaked)
  {
    hide Owns, PopInv, After, Enabled;
    var u := After(s, a);
    assert PopInv(s, a.p);
    TalkChangesLocks(s, a);
    forall p
      ensures Owns(u, p, box) <==>
              if a.LockDrop? && p == a.p then box == a.box
              else if (a.SnapshotFails? || a.Leave?) && p == a.p then false
              else Owns(s, p, box)
    {
      TalkChangesOwner(s, a, p, box);
    }
    assert Owned(s, box) ==> box in s.locks;
    assert Owns(s, a.p, box) ==> Owned(s, box);
    if a.LockDrop? && box == a.box {
      assert Owns(u, a.p, box);
    } else if p :| Owns(s, p, box) {
      assert Owns(u, p, box) || (p == a.p && (a.SnapshotFails? || a.Leave?));
      assert p == a.p && (a.SnapshotFails? || a.Leave?) ==> !Owned(u, box);
    }
  }

  lemma OthersKeepLocks(s: State, a: Action)
    requires IsDelivery(a) || IsHousekeeping(a)
    requires LockInv(s)
    ensures After(s, a).pops == s.pops && After(s, a).locks == s.locks && After(s, a).leaked == s.leaked
    ensures LockInv(After(s, a))
  {
    var u := After(s, a);
    assert u.pops == s.pops && u.locks == s.locks && u.leaked == s.leaked;
    SamePopsSameLocks(s, u);
  }

  lemma SamePopsSameLocks(s: State, u: State)
    requires u.pops == s.pops && u.locks == s.locks && u.leaked == s.leaked && LockInv(s)
    ensures LockInv(u)
  {
    hide Drop.Accounted;
    forall p ensures PopInv(u, p) { assert PopInv(s, p); }
    forall p, box ensures Owns(u, p, box) <==> Owns(s, p, box) {}
    forall box ensures Owned(u, box) <==> Owned(s, box) {
      if p :| Owns(u, p, box) { assert Owns(s, p, box); }
      if p :| Owns(s, p, box) { assert Owns(u, p, box); }
    }
  }

  // Preservation of the snapshots.

  /** No step takes away a mail of a snapshot, except the deletion by a session on the same mailbox. */
  lemma MailKept(s: State, a: Action, drop: Drop, i: nat)
    requires i < |drop.entries| && Retrievable(s, drop, i) && Enabled(s, a)
    requires IdInv(s, drop.entries[i].mail) && (IsDelivery(a) ==> IdInv(s, a.id))
    requires a.DeleteMarked? ==> s.pops[a.p].drop.id != drop.id
    ensures Retrievable(After(s, a), drop, i)
  {
    hide Drop.Accounted, Drop.MarkedMails;
    assert s.t.Listed(drop.entries[i].mail);
    if a.InsertEntries? {
      AddEntriesExactly(s.t, a.id, s.deliveries[a.id].routes.mailboxes);
    }
  }

  /** A listing taken from the tables is safe at this moment. */
  lemma SnapshotIsSafe(s: State, drop: Drop)
    requires StoreInv(s) && s.t.NewestFirst(drop.id, drop.entries)
    ensures Safe(s, drop)
  {
    forall i | 0 <= i < |drop.entries|
      ensures Retrievable(s, drop, i)
    {
      var mail := drop.entries[i].mail;
      assert mail in Mails(drop.entries);
      assert IdInv(s, mail);
    }
  }

  lemma OthersKeepPops(s: State, a: Action)
    requires IsDelivery(a) || IsHousekeeping(a)
    ensures After(s, a).pops == s.pops
  {
  }

  /** The snapshot of the session in `u`, the state after `a`, was taken just now or was there before. */
  ghost predicate ListedBefore(s: State, a: Action, p: nat, u: State)
    requires p in u.pops
  {
    var drop := u.pops[p].drop;
    if a.TakeSnapshot? && a.p == p then s.t.NewestFirst(drop.id, drop.entries) && u.t == s.t && u.blobs == s.blobs
    else
      && InTransaction(s, p) && !(a.DeleteMarked? && a.p == p)
      && s.pops[p].drop.id == drop.id && s.pops[p].drop.entries == drop.entries
  }

  lemma SessionBeforeTalk(s: State, a: Action, p: nat)
    requires !IsDelivery(a) && !IsHousekeeping(a) && Enabled(s, a) && InTransaction(After(s, a), p)
    ensures ListedBefore(s, a, p, After(s, a))
  {
    hide Drop.Accounted, Drop.MarkedMails, Tables.NewestFirst;
  }

  /** A session in its transaction either took its snapshot just now or was in it before, with the same snapshot. */
  lemma SessionBefore(s: State, a: Action, p: nat)
    requires Enabled(s, a) && InTransaction(After(s, a), p)
    ensures ListedBefore(s, a, p, After(s, a))
  {
    hide Enabled, After;
    if IsDelivery(a) || IsHousekeeping(a) {
      OthersKeepPops(s, a);
    } else {
      SessionBeforeTalk(s, a, p);
    }
  }

  lemma DropsDiffer(s: State, p: nat, q: nat)
    requires LockInv(s) && InTransaction(s, p) && InTransaction(s, q) && p != q
    ensures s.pops[p].drop.id != s.pops[q].drop.id
  {
    assert Owns(s, p, s.pops[p].drop.id) && Owns(s, q, s.pops[q].drop.id);
  }

  lemma SnapshotsKept(s: State, a: Action)
    requires Inv(s) && Enabled(s, a)
    ensures SnapshotInv(After(s, a))
  {
    hide Enabled, IdInv, EntryInv, LockInv, Retrievable, After;
    var u := After(s, a);
    forall p | InTransaction(u, p)
      ensures Safe(u, u.pops[p].drop)
    {
      var drop := u.pops[p].drop;
      SessionBefore(s, a, p);
      if a.TakeSnapshot? && a.p == p {
        SnapshotIsSafe(s, drop);
        SameStoreSameSafety(s, u, drop);
      } else {
        var before := s.pops[p].drop;
        if a.DeleteMarked? {
          QuitterInTransaction(s, a);
          DropsDiffer(s, p, a.p);
        }
        forall i | 0 <= i < |drop.entries|
          ensures Retrievable(u, drop, i)
        {
          SameMail(s, before, drop, i);
          MailKept(s, a, drop, i);
        }
      }
    }
  }

  lemma QuitterInTransaction(s: State, a: Action)
    requires a.DeleteMarked? && Enabled(s, a)
    ensures InTransaction(s, a.p)
  {
  }

  lemma SameMail(s: State, a: Drop, b: Drop, i: nat)
    requires a.id == b.id && a.entries == b.entries && i < |a.entries| && Retrievable(s, a, i)
    ensures Retrievable(s, b, i)
  {
  }

  lemma SameStoreSameSafety(s: State, u: State, drop: Drop)
    requires u.t == s.t && u.blobs == s.blobs && Safe(s, drop)
    ensures Safe(u, drop)
  {
    forall i | 0 <= i < |drop.entries|
      ensures Retrievable(u, drop, i)
    {
      assert Retrievable(s, drop, i);
    }
  }

  // The theorem over all runs.

  lemma StepKeepsInv(s: State, a: Action)
    requires Inv(s) && Enabled(s, a)
    ensures Inv(After(s, a))
  {
    hide StoreInv, LockInv, SnapshotInv, Enabled, After;
    StoreKept(s, a);
    SnapshotsKept(s, a);
    if IsDelivery(a) || IsHousekeeping(a) {
      OthersKeepLocks(s, a);
    } else {
      TalkKeepsLocks(s, a);
    }
  }

  lemma {:induction false} RunKeepsInv(s: State, actions: seq<Action>)
    requires Inv(s) && Runs(s, actions)
    ensures Inv(Exec(s, actions))
    decreases |actions|
  {
    hide Inv, Enabled, After;
    if actions != [] {
      StepKeepsInv(s, actions[0]);
      RunKeepsInv(After(s, actions[0]), actions[1..]);
    }
  }

  lemma InitIsGood()
    ensures Inv(INIT)
  {
  }

  lemma Reached(actions: seq<Action>)
    requires Runs(INIT, actions)
    ensures Inv(Exec(INIT, actions))
  {
    InitIsGood();
    RunKeepsInv(INIT, actions);
  }

  /**
   * Whatever else goes on, every message that a session in its transaction can name is still there: its entry,
   * its row, and a blob of exactly the size in its listing.
   */
  lemma SnapshotSafety(actions: seq<Action>, p: nat, n: int)
    requires Runs(INIT, actions) && InTransaction(Exec(INIT, actions), p)
    requires Exec(INIT, actions).pops[p].drop.Exists(n)
    ensures var s := Exec(INIT, actions);
            var drop := s.pops[p].drop;
            var mail := drop.entries[n].mail;
            && (drop.id, mail) in s.t.entries && mail in s.t.mails
            && mail in s.blobs && |s.blobs[mail]| == drop.entries[n].size
  {
    Reached(actions);
    var s := Exec(INIT, actions);
    assert Safe(s, s.pops[p].drop);
    assert Retrievable(s, s.pops[p].drop, n);
  }

  /** QUIT deletes from the mailbox exactly the marked messages; the rest of the snapshot and later mails stay. */
  lemma QuitIsExact(actions: seq<Action>, p: nat, e: (int, ID))
    requires Runs(INIT, actions) && InTransaction(Exec(INIT, actions), p)
    ensures var s := Exec(INIT, actions);
            var drop := s.pops[p].drop;
            && (e in After(s, DeleteMarked(p)).t.entries <==>
                && e in s.t.entries
                && !(e.0 == drop.id && exists n :: 0 <= n < |drop.entries| && n in drop.marks && drop.entries[n].mail == e.1))
            && (forall n :: 0 <= n < |drop.entries| ==>
                ((drop.id, drop.entries[n].mail) in After(s, DeleteMarked(p)).t.entries <==> n !in drop.marks))
  {
    Reached(actions);
    var s := Exec(INIT, actions);
    var drop := s.pops[p].drop;
    assert PopInv(s, p) && Safe(s, drop);
    forall n | 0 <= n < |drop.entries|
      ensures drop.entries[n].mail in drop.MarkedMails() <==> n in drop.marks
      ensures (drop.id, drop.entries[n].mail) in s.t.entries
    {
      assert Retrievable(s, drop, n);
    }
  }

  lemma {:induction false} OneMoreStep(s: State, most: seq<Action>, a: Action)
    ensures Exec(s, most + [a]) == After(Exec(s, most), a)
    ensures Runs(s, most + [a]) <==> Runs(s, most) && Enabled(Exec(s, most), a)
    decreases |most|
  {
    hide After, Enabled;
    if most == [] {
      assert most + [a] == [a] && [a][1..] == [];
    } else {
      assert (most + [a])[1..] == most[1..] + [a];
      OneMoreStep(After(s, most[0]), most[1..], a);
    }
  }

  // What became of a run, told from its steps.

  /** The `k`th step is the failure of a session to take its snapshot of the maildrop that it has locked. */
  ghost predicate Leaks(actions: seq<Action>, k: nat, box: int)
    requires k < |actions|
  {
    var s, a := Exec(INIT, actions[..k]), actions[k];
    a.SnapshotFails? && a.p in s.pops && s.pops[a.p].standing == Locked(box)
  }

  ghost predicate LeaksSomewhere(actions: seq<Action>, box: int) {
    exists k: nat :: k < |actions| && Leaks(actions, k, box)
  }

  /** The step fails to remove a blob. */
  predicate Sticks(a: Action) {
    (a.StoreFails? || a.UndoBlob? || a.RemoveBlob?) && !a.deleted
  }

  lemma StepOnLeaks(s: State, a: Action, box: int)
    requires Enabled(s, a)
    ensures box in After(s, a).leaked <==>
            box in s.leaked || (a.SnapshotFails? && a.p in s.pops && s.pops[a.p].standing == Locked(box))
  {
  }

  lemma OneMoreLeaks(most: seq<Action>, a: Action, box: int)
    ensures var s := Exec(INIT, most);
            LeaksSomewhere(most + [a], box) <==>
            LeaksSomewhere(most, box) || (a.SnapshotFails? && a.p in s.pops && s.pops[a.p].standing == Locked(box))
  {
    hide Exec;
    var actions := most + [a];
    assert actions[..|most|] == most && actions[|most|] == a;
    assert forall k: nat :: k < |most| ==> actions[..k] == most[..k] && actions[k] == most[k];
    assert forall k: nat :: k < |most| ==> (Leaks(actions, k, box) <==> Leaks(most, k, box));
    assert Leaks(actions, |most|, box) <==>
           var s := Exec(INIT, most); a.SnapshotFails? && a.p in s.pops && s.pops[a.p].standing == Locked(box);
  }

  /** A lock is leaked exactly by a session that fails to take its snapshot. */
  lemma {:induction false} LeaksExactly(actions: seq<Action>, box: int)
    requires Runs(INIT, actions)
    ensures box in Exec(INIT, actions).leaked <==> LeaksSomewhere(actions, box)
    decreases |actions|
  {
    if actions != [] {
      hide After, Enabled, Runs, Exec, LeaksSomewhere;
      var most, a := actions[..|actions| - 1], actions[|actions| - 1];
      assert actions == most + [a];
      OneMoreStep(INIT, most, a);
      LeaksExactly(most, box);
      StepOnLeaks(Exec(INIT, most), a, box);
      OneMoreLeaks(most, a, box);
    }
  }

  lemma StepOnSpills(s: State, a: Action)
    requires Enabled(s, a)
    ensures After(s, a).spilled == {} <==> s.spilled == {} && !Sticks(a)
  {
  }

  /** Blobs are spilled exactly by failures to remove one. */
  lemma {:induction false} SpillsExactly(s: State, actions: seq<Action>)
    requires Runs(s, actions)
    ensures Exec(s, actions).spilled == {} <==> s.spilled == {} && forall a :: a in actions ==> !Sticks(a)
    decreases |actions|
  {
    if actions != [] {
      hide After, Enabled, Sticks;
      var a, rest := actions[0], actions[1..];
      assert actions == [a] + rest;
      StepOnSpills(s, a);
      SpillsExactly(After(s, a), rest);
    }
  }

  lemma LocksAreHeldOrLeaked(actions: seq<Action>)
    requires Runs(INIT, actions)
    ensures var s := Exec(INIT, actions);
            && (forall p, q :: p in s.pops && q in s.pops && p != q && s.pops[p].Holds().Some? ==>
                  s.pops[p].Holds() != s.pops[q].Holds())
            && (forall box :: box in s.locks - s.leaked <==> exists p :: p in s.pops && s.pops[p].Holds() == Some(box))
            && s.leaked <= s.locks
  {
    Reached(actions);
    var s := Exec(INIT, actions);
    forall p, q | p in s.pops && q in s.pops && p != q && s.pops[p].Holds().Some?
      ensures s.pops[p].Holds() != s.pops[q].Holds()
    {
      var box := s.pops[p].Holds().value;
      assert Owns(s, p, box);
      assert s.pops[q].Holds() == Some(box) ==> Owns(s, q, box);
    }
    forall box
      ensures box in s.locks - s.leaked <==> exists p :: p in s.pops && s.pops[p].Holds() == Some(box)
    {
      if p :| p in s.pops && s.pops[p].Holds() == Some(box) {
        assert Owns(s, p, box);
      }
      if Owned(s, box) {
        var p :| Owns(s, p, box);
      }
    }
    forall box | box in s.leaked
      ensures box in s.locks
    {
    }
  }

  lemma {:induction false} LeakStays(s: State, actions: seq<Action>, box: int)
    requires Inv(s) && Runs(s, actions) && box in s.leaked
    ensures box in Exec(s, actions).leaked && forall p :: !Enabled(Exec(s, actions), LockDrop(p, box))
    decreases |actions|
  {
    if actions == [] {
      assert box in s.locks;
    } else {
      StepKeepsInv(s, actions[0]);
      LeakedStays(s, actions[0]);
      LeakStays(After(s, actions[0]), actions[1..], box);
    }
  }

  /**
   * No two sessions hold the same maildrop, and a maildrop is locked exactly if a session holds it or some session
   * failed to take its snapshot of it, but not both. If no session did, the table is exactly the maildrops held.
   */
  lemma MaildropExclusion(actions: seq<Action>)
    requires Runs(INIT, actions)
    ensures var s := Exec(INIT, actions);
            && (forall p, q :: p in s.pops && q in s.pops && p != q && s.pops[p].Holds().Some? ==>
                  s.pops[p].Holds() != s.pops[q].Holds())
            && (forall box :: box in s.locks <==> Owned(s, box) || LeaksSomewhere(actions, box))
            && (forall box :: !(Owned(s, box) && LeaksSomewhere(actions, box)))
            && ((forall a :: a in actions ==> !a.SnapshotFails?) ==> forall box :: box in s.locks <==> Owned(s, box))
  {
    hide Exec, Runs, LeaksSomewhere, Owned, StoreInv, SnapshotInv;
    LocksAreHeldOrLeaked(actions);
    Reached(actions);
    forall box
      ensures box in Exec(INIT, actions).leaked <==> LeaksSomewhere(actions, box)
      ensures (forall a :: a in actions ==> !a.SnapshotFails?) ==> !LeaksSomewhere(actions, box)
    {
      LeaksExactly(actions, box);
      NoFailureNoLeak(actions, box);
    }
  }

  lemma NoFailureNoLeak(actions: seq<Action>, box: int)
    ensures (forall a :: a in actions ==> !a.SnapshotFails?) ==> !LeaksSomewhere(actions, box)
  {
    forall k: nat | k < |actions| && Leaks(actions, k, box)
      ensures actions[k] in actions && actions[k].SnapshotFails?
    {
    }
  }

  /** Once a session fails to take its snapshot of a maildrop, the maildrop can never be opened again. */
  lemma LeakIsForever(actions: seq<Action>, k: nat, box: int)
    requires Runs(INIT, actions) && k < |actions| && Leaks(actions, k, box)
    ensures box in Exec(INIT, actions).locks && forall p :: !Enabled(Exec(INIT, actions), LockDrop(p, box))
  {
    LeaksExactly(actions, box);
    assert LeaksSomewhere(actions, box);
    Reached(actions);
    LeakStays(Exec(INIT, actions), [], box);
  }

  lemma LeakedStays(s: State, a: Action)
    ensures s.leaked <= After(s, a).leaked && s.raced <= After(s, a).raced
  {
  }

  // Garbage collection.

  /**
   * Every mail row has its blob, of the size in the row; an entry or a queue row is without a mail row exactly
   * if the mail was collected while it was being delivered; and a blob without a row is one that a delivery
   * or a cleaner is about to deal with, or that could not be deleted.
   */
  lemma StoreIsConsistent(actions: seq<Action>)
    requires Runs(INIT, actions)
    ensures var s := Exec(INIT, actions);
            && (forall id :: id in s.t.mails ==> id in s.blobs && s.t.mails[id].size == |s.blobs[id]|)
            && (forall e :: e in s.t.entries ==> (e.1 !in s.t.mails <==> e.1 in s.raced))
            && (forall id :: id in s.t.queue ==> (id !in s.t.mails <==> id in s.raced))
            && (forall id :: id in s.blobs && id !in s.t.mails <==> Unrowed(s, id) || id in s.pending || id in s.spilled)
  {
    Reached(actions);
    var s := Exec(INIT, actions);
    forall id
      ensures id in s.t.mails ==> id in s.blobs && s.t.mails[id].size == |s.blobs[id]|
      ensures id in s.t.queue ==> (id !in s.t.mails <==> id in s.raced)
      ensures id in s.blobs && id !in s.t.mails <==> Unrowed(s, id) || id in s.pending || id in s.spilled
    {
      assert IdInv(s, id);
    }
    forall e | e in s.t.entries
      ensures e.1 !in s.t.mails <==> e.1 in s.raced
    {
      assert EntryInv(s, e) && IdInv(s, e.1);
    }
  }

  /** When no delivery and no cleaner is at work, blobs and mail rows correspond exactly if every deletion succeeded. */
  lemma QuietStoreHasNoLeftovers(actions: seq<Action>)
    requires Runs(INIT, actions)
    requires var s := Exec(INIT, actions); s.deliveries == map[] && s.pending == {}
    ensures var s := Exec(INIT, actions);
            s.blobs.Keys == s.t.mails.Keys <==> forall a :: a in actions ==> !Sticks(a)
  {
    SpillsExactly(INIT, actions);
    StoreIsConsistent(actions);
    Reached(actions);
    var s := Exec(INIT, actions);
    forall id | id in s.spilled
      ensures id in s.blobs && id !in s.t.mails
    {
      assert IdInv(s, id);
    }
    if s.blobs.Keys == s.t.mails.Keys {
      assert forall id :: id in s.spilled ==> id in s.blobs.Keys;
    }
  }

  /** A collection takes exactly the mails that are in no mailbox and not queued. */
  lemma CollectsExactlyOrphans(s: State, id: ID)
    requires StoreInv(s)
    ensures id in After(s, Collect).t.mails <==> id in s.t.mails && (s.t.Listed(id) || id in s.t.queue)
    ensures id in After(s, Collect).pending <==> id in s.pending || (id in s.t.mails && id !in After(s, Collect).t.mails)
    ensures After(s, Collect).t.entries == s.t.entries && After(s, Collect).t.queue == s.t.queue
    ensures After(s, Collect).blobs == s.blobs
  {
    assert IdInv(s, id);
  }

  // The window in which a delivery is in danger.

  /** A delivery that has not made its last insert has no queue row, and before the insert of its entries it has none. */
  ghost predicate StageAt(s: State, id: ID) {
    id in s.deliveries ==> id !in s.t.queue && (s.deliveries[id].Rowed? ==> !s.t.Listed(id))
  }

  ghost predicate StageInv(s: State) {
    forall id :: StageAt(s, id)
  }

  lemma UnrowedIsUnlisted(s: State, id: ID)
    requires StoreInv(s) && (Unrowed(s, id) || id !in s.used)
    ensures !s.t.Listed(id) && id !in s.t.queue
  {
    assert IdInv(s, id);
    assert forall e :: e in s.t.entries ==> EntryInv(s, e);
  }

  lemma DeliveryKeepsStage(s: State, a: Action, id: ID)
    requires IsDelivery(a) && Enabled(s, a) && StageAt(s, id)
    requires id == a.id && (Unrowed(s, id) || id !in s.used) ==> !s.t.Listed(id) && id !in s.t.queue
    ensures StageAt(After(s, a), id)
  {
    if a.InsertEntries? {
      AddEntriesExactly(s.t, a.id, s.deliveries[a.id].routes.mailboxes);
    }
  }

  lemma OthersKeepStage(s: State, a: Action, id: ID)
    requires !IsDelivery(a) && Enabled(s, a) && StageAt(s, id)
    ensures StageAt(After(s, a), id)
  {
    hide Drop.Accounted, Drop.MarkedMails, Tables.Orphans, Tables.NewestFirst;
  }

  lemma StagesKept(s: State, a: Action)
    requires StoreInv(s) && StageInv(s) && Enabled(s, a)
    ensures StageInv(After(s, a))
  {
    hide StoreInv, Enabled, After, StageAt, IsDelivery, Unrowed, Tables.Listed;
    forall id
      ensures StageAt(After(s, a), id)
    {
      assert StageAt(s, id);
      if IsDelivery(a) {
        if Unrowed(s, id) || id !in s.used {
          UnrowedIsUnlisted(s, id);
        }
        DeliveryKeepsStage(s, a, id);
      } else {
        OthersKeepStage(s, a, id);
      }
    }
  }

  /** The mail row is there, and neither entries nor a queue row hold it. */
  predicate AtRisk(s: State, id: ID) {
    id in s.deliveries && (s.deliveries[id].Rowed? || (s.deliveries[id].Entered? && !s.t.Listed(id)))
  }

  lemma CollectHitsTheRisky(s: State, id: ID)
    requires StoreInv(s) && StageInv(s)
    ensures id in After(s, Collect).raced <==> id in s.raced || AtRisk(s, id)
  {
    assert IdInv(s, id) && StageAt(s, id);
  }

  lemma RacedOnlyByCollect(s: State, a: Action)
    requires !a.Collect?
    ensures After(s, a).raced == s.raced
  {
  }

  /** The `k`th step is a collection, and the delivery of the mail is at risk when it happens. */
  ghost predicate Disturbs(actions: seq<Action>, k: nat, id: ID)
    requires k < |actions|
  {
    actions[k].Collect? && AtRisk(Exec(INIT, actions[..k]), id)
  }

  ghost predicate Disturbed(actions: seq<Action>, id: ID) {
    exists k: nat :: k < |actions| && Disturbs(actions, k, id)
  }

  lemma OneMoreDisturbs(most: seq<Action>, a: Action, id: ID)
    ensures Disturbed(most + [a], id) <==> Disturbed(most, id) || (a.Collect? && AtRisk(Exec(INIT, most), id))
  {
    hide AtRisk, Exec;
    var actions := most + [a];
    assert actions[..|most|] == most;
    assert forall k: nat :: k < |most| ==> actions[..k] == most[..k] && actions[k] == most[k];
    assert forall k: nat :: k < |most| ==> (Disturbs(actions, k, id) <==> Disturbs(most, k, id));
    assert Disturbs(actions, |most|, id) <==> a.Collect? && AtRisk(Exec(INIT, most), id);
  }

  lemma {:induction false} RacesOfRun(actions: seq<Action>, id: ID)
    requires Runs(INIT, actions)
    ensures StageInv(Exec(INIT, actions))
    ensures id in Exec(INIT, actions).raced <==> Disturbed(actions, id)
    decreases |actions|
  {
    if actions == [] {
    } else {
      hide After, Enabled, Runs, Exec, AtRisk, Disturbed, StageInv, StoreInv, LockInv, SnapshotInv;
      var most, a := actions[..|actions| - 1], actions[|actions| - 1];
      assert actions == most + [a];
      OneMoreStep(INIT, most, a);
      RacesOfRun(most, id);
      Reached(most);
      var s := Exec(INIT, most);
      StagesKept(s, a);
      OneMoreDisturbs(most, a, id);
      if a.Collect? {
        CollectHitsTheRisky(s, id);
      } else {
        RacedOnlyByCollect(s, a);
      }
    }
  }

  /**
   * A mail is collected during its delivery exactly if some collection of the run happens after its mail row was
   * inserted and before its entries were, or after them when they are gone again or there are none, and before
   * the last insert.
   */
  lemma RacesExactly(actions: seq<Action>, id: ID)
    requires Runs(INIT, actions)
    ensures id in Exec(INIT, actions).raced <==>
            exists k: nat :: k < |actions| && actions[k].Collect? &&
              var s := Exec(INIT, actions[..k]);
              id in s.deliveries && (s.deliveries[id].Rowed? || (s.deliveries[id].Entered? && !s.t.Listed(id)))
  {
    RacesOfRun(actions, id);
    if k: nat :| k < |actions| && Disturbs(actions, k, id) {
      assert AtRisk(Exec(INIT, actions[..k]), id);
    }
    forall k: nat | k < |actions| && actions[k].Collect? && AtRisk(Exec(INIT, actions[..k]), id)
      ensures Disturbed(actions, id)
    {
      assert Disturbs(actions, k, id);
    }
  }

  /** An entry or a queue row is without its mail exactly if there was such a collection. */
  lemma DanglingExactly(actions: seq<Action>, id: ID)
    requires Runs(INIT, actions)
    requires Exec(INIT, actions).t.Listed(id) || id in Exec(INIT, actions).t.queue
    ensures id !in Exec(INIT, actions).t.mails <==>
            exists k: nat :: k < |actions| && actions[k].Collect? &&
              var s := Exec(INIT, actions[..k]);
              id in s.deliveries && (s.deliveries[id].Rowed? || (s.deliveries[id].Entered? && !s.t.Listed(id)))
  {
    hide After, Enabled, Runs, Exec;
    RacesExactly(actions, id);
    StoreIsConsistent(actions);
  }

  /** A queue row without its mail is never given it back. */
  lemma {:induction false} GoneForGood(s: State, actions: seq<Action>, id: ID)
    requires Inv(s) && Runs(s, actions)
    requires id in s.raced || (id in s.t.queue && id !in s.t.mails)
    ensures id in Exec(s, actions).raced && id !in Exec(s, actions).t.mails
    decreases |actions|
  {
    assert IdInv(s, id);
    if actions != [] {
      hide Inv, IdInv, Enabled, After;
      StepKeepsInv(s, actions[0]);
      LeakedStays(s, actions[0]);
      GoneForGood(After(s, actions[0]), actions[1..], id);
    }
  }

  ghost predicate Calm(actions: seq<Action>) {
    forall id :: !Disturbed(actions, id)
  }

  /** In a calm run every entry and every queue row refers to a mail row and its blob. */
  lemma CalmRunsKeepReferences(actions: seq<Action>)
    requires Runs(INIT, actions) && Calm(actions)
    ensures var s := Exec(INIT, actions);
            && (forall e :: e in s.t.entries ==> e.1 in s.t.mails && e.1 in s.blobs)
            && (forall id :: id in s.t.queue ==> id in s.t.mails && id in s.blobs)
  {
    hide Disturbed;
    StoreIsConsistent(actions);
    forall id
      ensures id !in Exec(INIT, actions).raced
    {
      RacesOfRun(actions, id);
    }
  }

  /** So it is if no collection happens at all between the mail row of a delivery and its last insert. */
  lemma UndisturbedRunsKeepReferences(actions: seq<Action>)
    requires Runs(INIT, actions)
    requires forall k: nat, id :: k < |actions| && actions[k].Collect? && id in Exec(INIT, actions[..k]).deliveries ==>
               Exec(INIT, actions[..k]).deliveries[id].Unrowed()
    ensures var s := Exec(INIT, actions);
            && (forall e :: e in s.t.entries ==> e.1 in s.t.mails && e.1 in s.blobs)
            && (forall id :: id in s.t.queue ==> id in s.t.mails && id in s.blobs)
  {
    forall id, k: nat | k < |actions|
      ensures !Disturbs(actions, k, id)
    {
    }
    CalmRunsKeepReferences(actions);
  }

  lemma StepFirst(s: State, a: Action, actions: seq<Action>)
    ensures Runs(s, [a] + actions) <==> Enabled(s, a) && Runs(After(s, a), actions)
    ensures Exec(s, [a] + actions) == Exec(After(s, a), actions)
  {
    assert ([a] + actions)[1..] == actions;
  }

  const LOCAL := Routes([7], [])

  /** The state after the blob and the mail row are written: the mail is an orphan, though it is being delivered. */
  lemma HalfDelivered(from: Address, content: Text)
    ensures var store, row := StoreBlob(0, content), InsertMail(0, 0, from, 0, Some(LOCAL), false);
            var s := After(After(INIT, store), row);
            && Enabled(INIT, store) && Enabled(After(INIT, store), row)
            && s == State(Tables(map[0 := MailRow(0, from, |content|, 0)], {}, map[]), map[0 := content], {0},
                          map[0 := Rowed(LOCAL)], {}, {}, {}, map[], {}, {})
            && s.t.Orphans() == {0}
  {
    var s1 := After(INIT, StoreBlob(0, content));
    assert s1.used == {0} && s1.blobs == map[0 := content] && s1.deliveries == map[0 := Stored];
  }

  lemma DeliveredTooLate(s: State)
    requires s.t.mails.Keys == {0} && s.t.entries == {} && s.t.queue == map[] && s.t.Orphans() == {0}
    requires s.deliveries == map[0 := Rowed(LOCAL)]
    ensures var s3 := After(s, Collect);
            var s4 := After(s3, InsertEntries(0, false));
            var s5 := After(s4, InsertQueue(0, false));
            && Enabled(s3, InsertEntries(0, false)) && Enabled(s4, InsertQueue(0, false))
            && s5.deliveries == map[] && (7, 0) in s5.t.entries && s5.t.Joined(7) == {}
  {
    var s3 := After(s, Collect);
    assert s3.t.mails == map[] && s3.t.entries == {};
    AddEntriesExactly(s3.t, 0, [7]);
    var s4 := After(s3, InsertEntries(0, false));
    assert s4.t.entries == {(7, 0)} && s4.deliveries == map[0 := Entered(LOCAL)];
  }

  /** A run in which a delivery succeeds and its mail is gone: it is entered in mailbox 7, which lists nothing. */
  lemma RaceLosesMail(from: Address, content: Text)
    ensures exists actions :: Runs(INIT, actions) && !Calm(actions) &&
              var s := Exec(INIT, actions);
              s.deliveries == map[] && (7, 0) in s.t.entries && s.t.Joined(7) == {}
  {
    hide After, Enabled, Tables.Orphans, Calm;
    var store, row := StoreBlob(0, content), InsertMail(0, 0, from, 0, Some(LOCAL), false);
    var enter, finish := InsertEntries(0, false), InsertQueue(0, false);
    var s1 := After(INIT, store);
    var s2 := After(s1, row);
    var s3 := After(s2, Collect);
    var s4 := After(s3, enter);
    HalfDelivered(from, content);
    DeliveredTooLate(s2);
    CollectIsEnabled(s2);
    StepFirst(s4, finish, []);
    StepFirst(s3, enter, [finish] + []);
    StepFirst(s2, Collect, [enter] + ([finish] + []));
    StepFirst(s1, row, [Collect] + ([enter] + ([finish] + [])));
    StepFirst(INIT, store, [row] + ([Collect] + ([enter] + ([finish] + []))));
    LossIsNotCalm([store] + ([row] + ([Collect] + ([enter] + ([finish] + [])))), 7, 0);
  }

  lemma LossIsNotCalm(actions: seq<Action>, box: int, id: ID)
    requires Runs(INIT, actions)
    requires var t := Exec(INIT, actions).t; (box, id) in t.entries && t.Joined(box) == {}
    ensures !Calm(actions)
  {
    var t := Exec(INIT, actions).t;
    assert id in t.mails ==> id in t.Joined(box);
    assert id !in t.mails;
    if Calm(actions) {
      CalmRunsKeepReferences(actions);
    }
  }

  lemma CollectIsEnabled(s: State)
    ensures Enabled(s, Collect)
  {
  }
}
