/** The relational state: mails, the entries of mailboxes, and the outbound queue. */
module Database {
  import opened Bytes
  import opened Addressbook

  type ID = nat

  datatype MailRow = MailRow(date: int, from: Address, size: int, offset: int)

  datatype QueueRow = QueueRow(date: int, attempts: nat, to: seq<Address>)

  /** An entry of a mailbox listing. */
  datatype Item = Item(mail: ID, size: int)

  const LISTING_LIMIT := 1000

  /** The tables; an entry is a pair of a mailbox and a mail. */
  datatype Tables = Tables(mails: map<ID, MailRow>, entries: set<(int, ID)>, queue: map<ID, QueueRow>) {

    // The effect of each transaction; None if a primary key is violated.

    function AddMail(id: ID, row: MailRow): Option<Tables> {
      if id in mails then None else Some(this.(mails := mails[id := row]))
    }

    function AddEntries(id: ID, mailboxes: seq<int>): Option<Tables> {
      if mailboxes == [] then Some(this)
      else
        match AddEntries(id, mailboxes[..|mailboxes| - 1])
        case None => None
        case Some(t) =>
          var key := (mailboxes[|mailboxes| - 1], id);
          if key in t.entries then None else Some(t.(entries := t.entries + {key}))
    }

    function DeleteEntries(ids: set<ID>, mailbox: int): Tables {
      this.(entries := set e | e in entries && !(e.0 == mailbox && e.1 in ids))
    }

    function AddToQueue(id: ID, to: seq<Address>): Option<Tables> {
      if id in queue then None else Some(this.(queue := queue[id := QueueRow(0, 0, to)]))
    }

    function UpdateQueue(id: ID, to: seq<Address>, date: int): Tables {
      if id in queue then this.(queue := queue[id := QueueRow(date, queue[id].attempts + 1, to)]) else this
    }

    function DeleteFromQueue(id: ID): Tables {
      this.(queue := queue - {id})
    }

    predicate Listed(id: ID) {
      exists e :: e in entries && e.1 == id
    }

    function Orphans(): set<ID> {
      set id | id in mails && !Listed(id) && id !in queue
    }

    function DeleteOrphans(): Tables {
      this.(mails := mails - Orphans())
    }

    // Queries.

    /** The mails joined with the entries of a mailbox. */
    function Joined(mailbox: int): set<ID> {
      set id | id in mails && (mailbox, id) in entries
    }

    predicate Precedes(a: ID, b: ID) {
      a in mails && b in mails && mails[a].date >= mails[b].date
    }

    /** A list of the newest mails of a mailbox, newest first, ties in any order. */
    ghost predicate NewestFirst(mailbox: int, list: seq<Item>) {
      && Mails(list) <= Joined(mailbox)
      && (forall i :: 0 <= i < |list| ==> list[i].size == mails[list[i].mail].size)
      && (forall i, j :: 0 <= i < j < |list| ==> list[i].mail != list[j].mail && Precedes(list[i].mail, list[j].mail))
      && (forall i, id :: 0 <= i < |list| && id in Joined(mailbox) - Mails(list) ==> Precedes(list[i].mail, id))
    }

    /** A possible answer to the listing query. */
    ghost predicate Listing(mailbox: int, list: seq<Item>) {
      && NewestFirst(mailbox, list)
      && (|list| == LISTING_LIMIT || (|list| < LISTING_LIMIT && Mails(list) == Joined(mailbox)))
    }

    /** The number of rows that the query has. */
    function Due(mailbox: int): nat {
      if |Joined(mailbox)| < LISTING_LIMIT then |Joined(mailbox)| else LISTING_LIMIT
    }

    /** What is fetched of a listing before fetching breaks off after `cut` rows. */
    ghost predicate Snapshot(mailbox: int, list: seq<Item>, cut: nat) {
      NewestFirst(mailbox, list) && |list| == if cut < Due(mailbox) then cut else Due(mailbox)
    }

    /** The rows with the earliest date. */
    ghost predicate IsHead(id: ID) {
      id in queue && forall other :: other in queue ==> queue[id].date <= queue[other].date
    }
  }

  function Mails(list: seq<Item>): (ids: set<ID>)
    ensures forall i :: 0 <= i < |list| ==> list[i].mail in ids
  {
    set item | item in list :: item.mail
  }

  lemma NothingListed(t: Tables, mailbox: int)
    ensures t.NewestFirst(mailbox, []) && Mails([]) == {} && Total([]) == 0
  {
  }

  lemma JoinedIs(t: Tables, mailbox: int, ids: set<ID>)
    requires ids == set id | id in t.mails && (mailbox, id) in t.entries
    ensures ids == t.Joined(mailbox) && ids <= t.mails.Keys
  {
  }

  lemma IsNewest(t: Tables, id: ID, rest: set<ID>)
    requires rest <= t.mails.Keys && id in rest && forall other :: other in rest ==> t.mails[id].date >= t.mails[other].date
    ensures forall other :: other in rest ==> t.Precedes(id, other)
  {
  }

  lemma FetchRow(t: Tables, mailbox: int, list: seq<Item>, rest: set<ID>, id: ID)
    requires t.NewestFirst(mailbox, list) && rest == t.Joined(mailbox) - Mails(list) && rest <= t.mails.Keys
    requires id in rest && forall other :: other in rest ==> t.mails[id].date >= t.mails[other].date
    ensures var longer := list + [Item(id, t.mails[id].size)];
            && t.NewestFirst(mailbox, longer) && rest - {id} == t.Joined(mailbox) - Mails(longer)
            && |rest - {id}| == |rest| - 1 && Total(longer) == Total(list) + t.mails[id].size
  {
    hide Tables.NewestFirst, Tables.Precedes, Tables.Joined, Mails;
    IsNewest(t, id, rest);
    TotalAppends(list, Item(id, t.mails[id].size));
    ExtendListing(t, mailbox, list, id);
  }

  lemma FetchedAll(t: Tables, mailbox: int, list: seq<Item>, rest: set<ID>, cut: nat)
    requires t.NewestFirst(mailbox, list) && |list| + |rest| == |t.Joined(mailbox)|
    requires |list| <= LISTING_LIMIT && |list| <= cut && (rest == {} || |list| == LISTING_LIMIT || |list| == cut)
    ensures t.Snapshot(mailbox, list, cut)
  {
  }

  lemma MailsGrow(list: seq<Item>, item: Item)
    ensures Mails(list + [item]) == Mails(list) + {item.mail}
  {
    assert forall x :: x in list + [item] <==> x in list || x == item;
  }

  lemma ExtendListing(t: Tables, mailbox: int, list: seq<Item>, id: ID)
    requires t.NewestFirst(mailbox, list) && id in t.Joined(mailbox) - Mails(list)
    requires forall other :: other in t.Joined(mailbox) - Mails(list) ==> t.Precedes(id, other)
    ensures t.NewestFirst(mailbox, list + [Item(id, t.mails[id].size)])
    ensures Mails(list + [Item(id, t.mails[id].size)]) == Mails(list) + {id}
  {
    hide Tables.Precedes;
    var item := Item(id, t.mails[id].size);
    var longer := list + [item];
    MailsGrow(list, item);
    forall i | 0 <= i < |list|
      ensures longer[i] == list[i] && list[i].mail in Mails(list) && t.Precedes(list[i].mail, id)
    {
    }
    forall i, j | 0 <= i < j < |longer|
      ensures longer[i].mail != longer[j].mail && t.Precedes(longer[i].mail, longer[j].mail)
    {
      assert longer[i] == list[i];
      if j < |list| {
        assert longer[j] == list[j];
      }
    }
    forall i, other | 0 <= i < |longer| && other in t.Joined(mailbox) - Mails(longer)
      ensures t.Precedes(longer[i].mail, other)
    {
      assert other in t.Joined(mailbox) - Mails(list);
      if i < |list| {
        assert longer[i] == list[i];
      }
    }
  }

  lemma NotAmong(list: seq<Item>, mail: ID)
    requires forall i :: 0 <= i < |list| ==> list[i].mail != mail
    ensures mail !in Mails(list)
  {
  }

  lemma {:induction false} ListedOnce(list: seq<Item>)
    requires forall i, j :: 0 <= i < j < |list| ==> list[i].mail != list[j].mail
    ensures |Mails(list)| == |list|
  {
    if list == [] {
      assert Mails(list) == {};
    } else {
      hide Mails;
      var most, last := list[..|list| - 1], list[|list| - 1];
      assert list == most + [last];
      ListedOnce(most);
      NotAmong(most, last.mail);
      MailsGrow(most, last);
    }
  }

  /** A list of the newest mails is the whole listing exactly if it has as many rows as the query. */
  lemma ListingExactly(t: Tables, mailbox: int, list: seq<Item>)
    requires t.NewestFirst(mailbox, list)
    ensures t.Listing(mailbox, list) <==> |list| == t.Due(mailbox)
    ensures |list| <= |t.Joined(mailbox)|
  {
    ListedOnce(list);
    var rest := t.Joined(mailbox) - Mails(list);
    assert t.Joined(mailbox) == Mails(list) + rest;
    assert |t.Joined(mailbox)| == |list| + |rest|;
  }

  /** What is fetched is the whole listing exactly if fetching does not break off before the last row that is due. */
  lemma SnapshotIsWholeExactly(t: Tables, mailbox: int, list: seq<Item>, cut: nat)
    requires t.Snapshot(mailbox, list, cut)
    ensures t.Listing(mailbox, list) <==> t.Due(mailbox) <= cut
  {
    ListingExactly(t, mailbox, list);
  }

  /** The listing in numbers: no mail of the mailbox that is left out is newer than one that is listed, and 1000 are enough. */
  lemma ListingInNumbers(t: Tables, mailbox: int, list: seq<Item>)
    requires t.Listing(mailbox, list)
    ensures forall i :: 0 <= i < |list| ==>
              (mailbox, list[i].mail) in t.entries && list[i].mail in t.mails && list[i].size == t.mails[list[i].mail].size
    ensures forall i, j :: 0 <= i < j < |list| ==> t.mails[list[i].mail].date >= t.mails[list[j].mail].date
    ensures forall i, id :: 0 <= i < |list| && (mailbox, id) in t.entries && id in t.mails && id !in Mails(list) ==>
              t.mails[list[i].mail].date >= t.mails[id].date
    ensures |list| <= 1000
    ensures |list| < 1000 ==> forall id :: (mailbox, id) in t.entries && id in t.mails ==> id in Mails(list)
  {
    forall i | 0 <= i < |list|
      ensures list[i].mail in t.Joined(mailbox)
    {
      assert list[i].mail in Mails(list);
    }
    forall i, j | 0 <= i < j < |list|
      ensures t.mails[list[i].mail].date >= t.mails[list[j].mail].date
    {
      assert t.Precedes(list[i].mail, list[j].mail);
    }
    forall i, id | 0 <= i < |list| && (mailbox, id) in t.entries && id in t.mails && id !in Mails(list)
      ensures t.mails[list[i].mail].date >= t.mails[id].date
    {
      assert id in t.Joined(mailbox) - Mails(list);
      assert t.Precedes(list[i].mail, id);
    }
    forall id | |list| < 1000 && (mailbox, id) in t.entries && id in t.mails
      ensures id in Mails(list)
    {
      assert id in t.Joined(mailbox);
    }
  }

  function Ids(s: seq<ID>): set<ID> {
    set id | id in s
  }

  predicate Distinct(s: seq<int>) {
    forall i, j :: 0 <= i < j < |s| ==> s[i] != s[j]
  }

  lemma DistinctGrows(most: seq<int>, last: int)
    ensures Distinct(most + [last]) <==> Distinct(most) && last !in most
  {
    var s := most + [last];
    assert forall i :: 0 <= i < |most| ==> s[i] == most[i];
    assert s[|most|] == last;
  }

  /** The keys of the entries of a mail. */
  function Keys(id: ID, mailboxes: seq<int>): set<(int, ID)> {
    set m | m in mailboxes :: (m, id)
  }

  lemma KeysGrow(id: ID, most: seq<int>, last: int)
    ensures Keys(id, most + [last]) == Keys(id, most) + {(last, id)}
    ensures (last, id) in Keys(id, most) <==> last in most
  {
    assert forall m :: m in most + [last] <==> m in most || m == last;
  }

  ghost predicate NoneAmong(entries: set<(int, ID)>, id: ID, mailboxes: seq<int>) {
    forall m :: m in mailboxes ==> (m, id) !in entries
  }

  lemma NoneAmongMore(entries: set<(int, ID)>, id: ID, most: seq<int>, last: int)
    ensures NoneAmong(entries, id, most + [last]) <==> NoneAmong(entries, id, most) && (last, id) !in entries
  {
    assert forall m :: m in most + [last] <==> m in most || m == last;
  }

  /** Adding entries succeeds exactly for distinct mailboxes without an entry for the mail; it adds just these. */
  lemma {:induction false} AddEntriesExactly(t: Tables, id: ID, mailboxes: seq<int>)
    ensures t.AddEntries(id, mailboxes).Some? <==> Distinct(mailboxes) && NoneAmong(t.entries, id, mailboxes)
    ensures t.AddEntries(id, mailboxes).Some? ==>
            t.AddEntries(id, mailboxes).value == t.(entries := t.entries + Keys(id, mailboxes))
  {
    if mailboxes == [] {
      assert t.entries == t.entries + Keys(id, mailboxes);
    } else {
      hide Distinct, NoneAmong, Keys;
      var most, last := mailboxes[..|mailboxes| - 1], mailboxes[|mailboxes| - 1];
      AddEntriesExactly(t, id, most);
      assert mailboxes == most + [last];
      DistinctGrows(most, last);
      NoneAmongMore(t.entries, id, most, last);
      KeysGrow(id, most, last);
      assert t.entries + Keys(id, most) + {(last, id)} == t.entries + Keys(id, mailboxes);
    }
  }

  /** One pass collects everything: nothing is left that a second pass could take. */
  lemma CollectingIsComplete(t: Tables)
    ensures t.DeleteOrphans().Orphans() == {}
    ensures forall id :: id in t.mails && (t.Listed(id) || id in t.queue) ==> id in t.DeleteOrphans().mails
  {
    var u := t.DeleteOrphans();
    forall id | id in u.mails
      ensures u.Listed(id) || id in u.queue
    {
      assert id in t.mails && id !in t.Orphans();
      assert t.Listed(id) ==> u.Listed(id);
    }
  }

  // Extremes of finite sets, for the ordered queries.

  lemma {:induction false} NewestExists(mails: map<ID, MailRow>, ids: set<ID>)
    requires ids != {} && ids <= mails.Keys
    ensures exists id :: id in ids && forall other :: other in ids ==> mails[id].date >= mails[other].date
    decreases |ids|
  {
    var x :| x in ids;
    if ids != {x} {
      assert ids == {x} + (ids - {x});
      NewestExists(mails, ids - {x});
      var y :| y in ids - {x} && forall other :: other in ids - {x} ==> mails[y].date >= mails[other].date;
      var best := if mails[x].date >= mails[y].date then x else y;
      assert forall other :: other in ids ==> other == x || other in ids - {x};
      assert best in ids;
    }
  }

  lemma {:induction false} HeadExists(queue: map<ID, QueueRow>, ids: set<ID>)
    requires ids != {} && ids <= queue.Keys
    ensures exists id :: id in ids && forall other :: other in ids ==> queue[id].date <= queue[other].date
    decreases |ids|
  {
    var x :| x in ids;
    if ids != {x} {
      assert ids == {x} + (ids - {x});
      HeadExists(queue, ids - {x});
      var y :| y in ids - {x} && forall other :: other in ids - {x} ==> queue[y].date <= queue[other].date;
      var best := if queue[x].date <= queue[y].date then x else y;
      assert forall other :: other in ids ==> other == x || other in ids - {x};
      assert best in ids;
    }
  }

  /**
   * The database. A transaction either happens as a whole or not at all; `fault` says that the engine itself
   * fails it.
   */
  class DB {
    var mails: map<ID, MailRow>
    var entries: set<(int, ID)>
    var queue: map<ID, QueueRow>

    constructor ()
      ensures View() == Tables(map[], {}, map[])
    {
      mails, entries, queue := map[], {}, map[];
    }

    ghost function View(): Tables
      reads this
    {
      Tables(mails, entries, queue)
    }

    method AddMail(id: ID, row: MailRow, fault: bool) returns (ok: bool)
      modifies this
      ensures ok <==> !fault && old(View()).AddMail(id, row).Some?
      ensures View() == if ok then old(View()).AddMail(id, row).value else old(View())
    {
      if fault || id in mails {
        return false;
      }
      mails := mails[id := row];
      return true;
    }

    method Mail(id: ID, fault: bool) returns (row: Option<MailRow>)
      ensures row == if fault || id !in mails then None else Some(mails[id])
    {
      return if fault || id !in mails then None else Some(mails[id]);
    }

    method AddEntries(id: ID, mailboxes: seq<int>, fault: bool) returns (ok: bool)
      modifies this
      ensures ok <==> !fault && old(View()).AddEntries(id, mailboxes).Some?
      ensures View() == if ok then old(View()).AddEntries(id, mailboxes).value else old(View())
    {
      var tx := entries;
      for i := 0 to |mailboxes|
        invariant View() == old(View())
        invariant View().AddEntries(id, mailboxes[..i]) == Some(View().(entries := tx))
      {
        assert mailboxes[..i + 1][..i] == mailboxes[..i];
        if (mailboxes[i], id) in tx {
          AddEntriesFails(View(), id, mailboxes, i + 1);
          return false;
        }
        tx := tx + {(mailboxes[i], id)};
      }
      assert mailboxes[..|mailboxes|] == mailboxes;
      if fault {
        return false;
      }
      entries := tx;
      return true;
    }

    method DeleteEntries(ids: seq<ID>, mailbox: int, fault: bool) returns (ok: bool)
      modifies this
      ensures ok <==> !fault
      ensures View() == if ok then old(View()).DeleteEntries(Ids(ids), mailbox) else old(View())
    {
      var tx := entries;
      for i := 0 to |ids|
        invariant View() == old(View())
        invariant tx == View().DeleteEntries(Ids(ids[..i]), mailbox).entries
      {
        assert ids[..i + 1] == ids[..i] + [ids[i]];
        tx := tx - {(mailbox, ids[i])};
      }
      assert ids[..|ids|] == ids;
      if fault {
        return false;
      }
      entries := tx;
      return true;
    }

    /**
     * The listing of a mailbox and the sum of its sizes. Fetching may break off after `cut` rows; the listing is then
     * short, and no one is told.
     */
    method Entries(mailbox: int, fault: bool, cut: nat) returns (list: seq<Item>, total: int, ok: bool)
      ensures ok <==> !fault
      ensures if ok then View().Snapshot(mailbox, list, cut) && total == Total(list) else list == [] && total == 0
    {
      hide Tables.NewestFirst, Tables.Precedes, Tables.Joined, Tables.Snapshot, Mails, Total;
      list, total := [], 0;
      if fault {
        return list, total, false;
      }
      var rest := set id | id in mails && (mailbox, id) in entries;
      ghost var t := View();
      NothingListed(t, mailbox);
      assert rest == t.Joined(mailbox) by { JoinedIs(t, mailbox, rest); }
      assert rest <= mails.Keys by { JoinedIs(t, mailbox, rest); }
      while rest != {} && |list| < LISTING_LIMIT && |list| < cut
        invariant t.NewestFirst(mailbox, list) && rest == t.Joined(mailbox) - Mails(list) && rest <= mails.Keys
        invariant |list| <= LISTING_LIMIT && |list| <= cut && |list| + |rest| == |t.Joined(mailbox)|
        invariant total == Total(list)
        decreases rest
      {
        NewestExists(mails, rest);
        var id :| id in rest && forall other :: other in rest ==> mails[id].date >= mails[other].date;
        FetchRow(t, mailbox, list, rest, id);
        list, total, rest := list + [Item(id, mails[id].size)], total + mails[id].size, rest - {id};
      }
      FetchedAll(t, mailbox, list, rest, cut);
      return list, total, true;
    }

    method PeekQueue(fault: bool) returns (head: Option<ID>, ok: bool)
      ensures ok <==> !fault
      ensures ok ==> if queue == map[] then head == None else head.Some? && View().IsHead(head.value)
      ensures ok && head.Some? ==> head.value in queue && forall id :: id in queue ==> queue[head.value].date <= queue[id].date
    {
      if fault {
        return None, false;
      }
      if queue == map[] {
        return None, true;
      }
      assert queue.Keys == {} ==> queue == map[];
      HeadExists(queue, queue.Keys);
      var id :| id in queue && forall other :: other in queue ==> queue[id].date <= queue[other].date;
      return Some(id), true;
    }

    method AddToQueue(id: ID, to: seq<Address>, fault: bool) returns (ok: bool)
      modifies this
      ensures ok <==> !fault && old(View()).AddToQueue(id, to).Some?
      ensures View() == if ok then old(View()).AddToQueue(id, to).value else old(View())
    {
      if fault || id in queue {
        return false;
      }
      queue := queue[id := QueueRow(0, 0, to)];
      return true;
    }

    method UpdateQueue(id: ID, to: seq<Address>, date: int, fault: bool) returns (ok: bool)
      modifies this
      ensures ok <==> !fault
      ensures View() == if ok then old(View()).UpdateQueue(id, to, date) else old(View())
    {
      if fault {
        return false;
      }
      if id in queue {
        queue := queue[id := QueueRow(date, queue[id].attempts + 1, to)];
      }
      return true;
    }

    method DeleteFromQueue(id: ID, fault: bool) returns (ok: bool)
      modifies this
      ensures ok <==> !fault
      ensures View() == if ok then old(View()).DeleteFromQueue(id) else old(View())
    {
      if fault {
        return false;
      }
      queue := queue - {id};
      return true;
    }

    method DeleteOrphans(fault: bool) returns (orphans: seq<ID>, ok: bool)
      modifies this
      ensures ok <==> !fault
      ensures ok ==> Ids(orphans) == old(View()).Orphans()
      ensures View() == if ok then old(View()).DeleteOrphans() else old(View())
    {
      orphans := [];
      var found := set id | id in mails && !(exists e :: e in entries && e.1 == id) && id !in queue;
      ghost var all := View().Orphans();
      while found != {}
        invariant View() == old(View())
        invariant found + Ids(orphans) == all
        decreases found
      {
        var id :| id in found;
        orphans, found := orphans + [id], found - {id};
      }
      var tx := mails;
      for i := 0 to |orphans|
        invariant View() == old(View())
        invariant tx == mails - Ids(orphans[..i])
      {
        assert orphans[..i + 1] == orphans[..i] + [orphans[i]];
        tx := tx - {orphans[i]};
      }
      assert orphans[..|orphans|] == orphans;
      if fault {
        return [], false;
      }
      mails := tx;
      return orphans, true;
    }
  }

  lemma {:induction false} AddEntriesFails(t: Tables, id: ID, mailboxes: seq<int>, i: nat)
    requires i <= |mailboxes| && t.AddEntries(id, mailboxes[..i]).None?
    ensures t.AddEntries(id, mailboxes).None?
    decreases |mailboxes|
  {
    if i < |mailboxes| {
      var most := mailboxes[..|mailboxes| - 1];
      assert most[..i] == mailboxes[..i];
      AddEntriesFails(t, id, most, i);
    } else {
      assert mailboxes[..i] == mailboxes;
    }
  }

  function Total(list: seq<Item>): int {
    if list == [] then 0 else list[0].size + Total(list[1..])
  }

  lemma {:induction false} TotalAppends(list: seq<Item>, item: Item)
    ensures Total(list + [item]) == Total(list) + item.size
  {
    if list == [] {
      assert list + [item] == [item];
    } else {
      assert (list + [item])[1..] == list[1..] + [item];
      TotalAppends(list[1..], item);
    }
  }
}
