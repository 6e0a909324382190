/** One attempt of the queue worker to deliver a mail to remote servers, and the schedule of further attempts. */
module QueueAttempt {
  import opened Bytes
  import opened Addressbook
  import opened Database
  import opened DotDecoding
  import opened Readers
  import opened Storage

  /** A server's answer to a recipient: taken, refused for good (550), refused otherwise, or the connection broke. */
  datatype Rcpt = Taken | Refused | Deferred | BrokenOff

  /**
   * How the servers of a domain behave in an attempt, and whether the blob can be opened for it. `rcpts` are the
   * answers in order; then it breaks off. `mailAccepted` is the server's reply to the mail itself.
   */
  datatype Contact =
    | Unreachable
    | Session(opens: bool, greeted: bool, rcpts: seq<Rcpt>, dataAccepted: bool, copied: bool, mailAccepted: bool)

  /** The recipients of a domain after an attempt. */
  datatype Sorted = Sorted(delivered: seq<Address>, undeliverable: seq<Address>, pending: seq<Address>) {
    ghost function All(): multiset<Address> {
      multiset(delivered) + multiset(undeliverable) + multiset(pending)
    }
  }

  function Answer(rcpts: seq<Rcpt>, i: nat): Rcpt {
    if i < |rcpts| then rcpts[i] else BrokenOff
  }

  /** The recipients that got a certain answer, in order. */
  function Pick(to: seq<Address>, rcpts: seq<Rcpt>, answer: Rcpt): seq<Address> {
    if to == [] then []
    else Pick(to[..|to| - 1], rcpts, answer) + if Answer(rcpts, |to| - 1) == answer then [to[|to| - 1]] else []
  }

  function SortOut(to: seq<Address>, rcpts: seq<Rcpt>): Sorted {
    Sorted(Pick(to, rcpts, Taken), Pick(to, rcpts, Refused), Pick(to, rcpts, Deferred))
  }

  predicate Completes(c: Contact, n: nat) {
    && c.Session? && c.opens && c.greeted && c.dataAccepted && c.copied
    && forall i :: 0 <= i < n ==> Answer(c.rcpts, i) != BrokenOff
  }

  /** Only a session that completes counts; otherwise all recipients of the domain stay pending. */
  function Contacted(c: Contact, blobThere: bool, to: seq<Address>): Sorted {
    if blobThere && Completes(c, |to|) then SortOut(to, c.rcpts) else Sorted([], [], to)
  }

  /** The client does not look at the reply to the mail: recipients count as delivered though it is refused. */
  lemma RefusedMailCountsAsDelivered(c: Contact, blobThere: bool, to: seq<Address>, accepted: bool)
    requires c.Session?
    ensures Contacted(c.(mailAccepted := accepted), blobThere, to) == Contacted(c, blobThere, to)
    ensures blobThere && Completes(c, |to|) ==>
              Contacted(c.(mailAccepted := false), blobThere, to).delivered == Pick(to, c.rcpts, Taken)
  {
    assert Completes(c.(mailAccepted := accepted), |to|) == Completes(c, |to|);
    assert Completes(c.(mailAccepted := false), |to|) == Completes(c, |to|);
  }

  lemma PickNothing(rcpts: seq<Rcpt>)
    ensures SortOut([], rcpts) == Sorted([], [], [])
  {
  }

  lemma PickStep(most: seq<Address>, last: Address, rcpts: seq<Rcpt>, answer: Rcpt, a: Address)
    ensures multiset(Pick(most + [last], rcpts, answer))[a]
         == multiset(Pick(most, rcpts, answer))[a] + if Answer(rcpts, |most|) == answer && last == a then 1 else 0
  {
    assert (most + [last])[..|most|] == most;
  }

  lemma {:induction false} SortOutConserves(to: seq<Address>, rcpts: seq<Rcpt>, a: Address)
    requires forall i :: 0 <= i < |to| ==> Answer(rcpts, i) != BrokenOff
    ensures SortOut(to, rcpts).All()[a] == multiset(to)[a]
  {
    hide Pick;
    if to == [] {
      PickNothing(rcpts);
    } else {
      var most, last := to[..|to| - 1], to[|to| - 1];
      SortOutConserves(most, rcpts, a);
      assert to == most + [last];
      PickStep(most, last, rcpts, Taken, a);
      PickStep(most, last, rcpts, Refused, a);
      PickStep(most, last, rcpts, Deferred, a);
    }
  }

  /** The places of the recipient among those that got the answer. */
  function Places(to: seq<Address>, rcpts: seq<Rcpt>, answer: Rcpt, a: Address): set<nat> {
    set i: nat | i < |to| && to[i] == a && i < |rcpts| && rcpts[i] == answer
  }

  lemma PlacesGrow(most: seq<Address>, last: Address, rcpts: seq<Rcpt>, answer: Rcpt, a: Address)
    requires answer != BrokenOff
    ensures |Places(most + [last], rcpts, answer, a)|
         == |Places(most, rcpts, answer, a)| + if Answer(rcpts, |most|) == answer && last == a then 1 else 0
  {
    var more := if Answer(rcpts, |most|) == answer && last == a then {|most|} else {};
    assert Places(most + [last], rcpts, answer, a) == Places(most, rcpts, answer, a) + more;
  }

  lemma NoPlaces(rcpts: seq<Rcpt>, answer: Rcpt, a: Address)
    ensures Places([], rcpts, answer, a) == {} && Pick([], rcpts, answer) == []
  {
  }

  /** Each recipient is filed under just the answer that the server gave to it. */
  lemma {:induction false} PickExactly(to: seq<Address>, rcpts: seq<Rcpt>, answer: Rcpt, a: Address)
    requires answer != BrokenOff
    ensures multiset(Pick(to, rcpts, answer))[a] == |Places(to, rcpts, answer, a)|
  {
    hide Pick, Places;
    if to == [] {
      NoPlaces(rcpts, answer, a);
    } else {
      var most, last := to[..|to| - 1], to[|to| - 1];
      assert to == most + [last];
      PickExactly(most, rcpts, answer, a);
      PickStep(most, last, rcpts, answer, a);
      PlacesGrow(most, last, rcpts, answer, a);
    }
  }

  lemma CompletesExactly(c: Contact, n: nat)
    ensures Completes(c, n) <==>
            && c.Session? && c.opens && c.greeted && c.dataAccepted && c.copied
            && n <= |c.rcpts| && forall i :: 0 <= i < n ==> c.rcpts[i] != BrokenOff
  {
    if c.Session? && n > |c.rcpts| {
      assert Answer(c.rcpts, |c.rcpts|) == BrokenOff;
    }
    if c.Session? && n <= |c.rcpts| {
      assert forall i :: 0 <= i < n ==> Answer(c.rcpts, i) == c.rcpts[i];
    }
  }

  /** What a session comes to: unless all of it succeeds, everyone stays pending; else everyone is filed by the answer. */
  lemma ContactExactly(c: Contact, blobThere: bool, to: seq<Address>, a: Address)
    ensures var one := Contacted(c, blobThere, to);
            if blobThere && c.Session? && c.opens && c.greeted && c.dataAccepted && c.copied
               && |to| <= |c.rcpts| && (forall i :: 0 <= i < |to| ==> c.rcpts[i] != BrokenOff) then
              && multiset(one.delivered)[a] == |Places(to, c.rcpts, Taken, a)|
              && multiset(one.undeliverable)[a] == |Places(to, c.rcpts, Refused, a)|
              && multiset(one.pending)[a] == |Places(to, c.rcpts, Deferred, a)|
            else
              one == Sorted([], [], to)
  {
    hide Pick, Places, Completes;
    CompletesExactly(c, |to|);
    if c.Session? {
      PickExactly(to, c.rcpts, Taken, a);
      PickExactly(to, c.rcpts, Refused, a);
      PickExactly(to, c.rcpts, Deferred, a);
    }
  }

  lemma ContactConserves(c: Contact, blobThere: bool, to: seq<Address>, a: Address)
    ensures Contacted(c, blobThere, to).All()[a] == multiset(to)[a]
  {
    if blobThere && Completes(c, |to|) {
      SortOutConserves(to, c.rcpts, a);
    }
  }

  class Client {
    var delivered: seq<Address>
    var undeliverable: seq<Address>
    var pending: seq<Address>

    constructor ()
      ensures View() == Sorted([], [], [])
    {
      delivered, undeliverable, pending := [], [], [];
    }

    ghost function View(): Sorted
      reads this
    {
      Sorted(delivered, undeliverable, pending)
    }

    /** The dialogue with the server; `data` is what it was sent as the text of the mail. */
    method Send(c: Contact, r: StoredReader, to: seq<Address>) returns (ok: bool, data: Text)
      requires View() == Sorted([], [], []) && c.Session? && c.opens
      modifies this, r
      ensures ok <==> Completes(c, |to|)
      ensures ok ==> View() == SortOut(to, c.rcpts) && data == old(r.Pending().content)
    {
      data := [];
      if !c.greeted {
        return false, data;
      }
      for i := 0 to |to|
        invariant View() == SortOut(to[..i], c.rcpts) && r.Pending() == old(r.Pending())
        invariant forall k :: 0 <= k < i ==> Answer(c.rcpts, k) != BrokenOff
      {
        assert to[..i + 1][..i] == to[..i];
        match Answer(c.rcpts, i)
        case Refused => undeliverable := undeliverable + [to[i]];
        case Deferred => pending := pending + [to[i]];
        case BrokenOff => return false, data;
        case Taken => delivered := delivered + [to[i]];
      }
      assert to[..|to|] == to;
      if !c.dataAccepted {
        return false, data;
      }
      data := ReadAll(r);
      return c.copied, data;
    }
  }

  method ReadAll(r: StoredReader) returns (data: Text)
    modifies r
    ensures data == old(r.Pending().content)
  {
    hide ReadStep, Copied;
    data := [];
    ghost var start := r.Pending();
    StartCopy(start);
    while true
      invariant Copied(start, data, NoErr, r.Pending())
      decreases |r.Pending().content|
    {
      var size: nat :| size > 0;
      var b := new byte[size];
      ghost var middle := r.Pending();
      var n, err := r.Read(b, size);
      CopyStep(start, data, middle, size, b[..n], err, r.Pending());
      Progress(middle, size, b[..n], err, r.Pending());
      if err != NoErr {
        AllCopied(start, data, r.Pending());
        return data;
      }
      data := data + b[..n];
    }
  }

  // Grouping by domain.

  function InDomain(to: seq<Address>, domain: Text): seq<Address> {
    if to == [] then []
    else InDomain(to[..|to| - 1], domain) + if to[|to| - 1].domain == domain then [to[|to| - 1]] else []
  }

  lemma InDomainOne(addr: Address, domain: Text)
    ensures InDomain([], domain) == []
    ensures InDomain([addr], domain) == if addr.domain == domain then [addr] else []
  {
    assert [addr][..0] == [];
  }

  lemma {:induction false} InDomainJoins(a: seq<Address>, b: seq<Address>, domain: Text)
    ensures InDomain(a + b, domain) == InDomain(a, domain) + InDomain(b, domain)
  {
    if b == [] {
      assert a + b == a;
      assert InDomain(b, domain) == [];
    } else {
      var most, last := b[..|b| - 1], b[|b| - 1];
      var one := if last.domain == domain then [last] else [];
      assert (a + b)[..|a + b| - 1] == a + most;
      assert InDomain(a + b, domain) == InDomain(a + most, domain) + one;
      InDomainJoins(a, most, domain);
      assert InDomain(b, domain) == InDomain(most, domain) + one;
    }
  }

  /** The recipients of a domain are in the order in which they are among all. */
  lemma InDomainKeepsOrder(a: seq<Address>, addr: Address, b: seq<Address>, domain: Text)
    ensures InDomain(a + [addr] + b, domain) ==
              InDomain(a, domain) + (if addr.domain == domain then [addr] else []) + InDomain(b, domain)
    ensures InDomain([], domain) == []
  {
    hide InDomain;
    InDomainOne(addr, domain);
    InDomainJoins(a, [addr], domain);
    InDomainJoins(a + [addr], b, domain);
  }

  lemma {:induction false} InDomainCounts(to: seq<Address>, domain: Text, a: Address)
    ensures multiset(InDomain(to, domain))[a] == if a.domain == domain then multiset(to)[a] else 0
  {
    if to != [] {
      InDomainCounts(to[..|to| - 1], domain, a);
      assert to == to[..|to| - 1] + [to[|to| - 1]];
    }
  }

  lemma {:induction false} DomainListed(to: seq<Address>, d: Text)
    ensures InDomain(to, d) != [] <==> exists a :: a in to && a.domain == d
  {
    if to != [] {
      DomainListed(to[..|to| - 1], d);
      assert to == to[..|to| - 1] + [to[|to| - 1]];
    }
  }

  /** The addresses before position `i`, by their domains. */
  ghost predicate Grouped(to: seq<Address>, i: nat, domains: map<Text, seq<Address>>)
    requires i <= |to|
  {
    forall d :: InDomain(to[..i], d) == if d in domains then domains[d] else []
  }

  lemma GroupedNext(to: seq<Address>, i: nat, domains: map<Text, seq<Address>>)
    requires i < |to| && Grouped(to, i, domains)
    ensures var d := to[i].domain;
            Grouped(to, i + 1, domains[d := (if d in domains then domains[d] else []) + [to[i]]])
  {
    assert to[..i + 1] == to[..i] + [to[i]];
    forall d
      ensures InDomain(to[..i + 1], d) == InDomain(to[..i], d) + if to[i].domain == d then [to[i]] else []
    {
      assert to[..i + 1][..i] == to[..i];
    }
  }

  method AddressesByDomain(to: seq<Address>) returns (domains: map<Text, seq<Address>>)
    ensures forall d :: d in domains <==> InDomain(to, d) != []
    ensures forall d :: d in domains ==> domains[d] == InDomain(to, d)
  {
    hide Grouped;
    domains := map[];
    assert Grouped(to, 0, domains) by { NothingGrouped(to); }
    for i := 0 to |to|
      invariant Grouped(to, i, domains)
      invariant forall d :: d in domains ==> domains[d] != []
    {
      var addr := to[i];
      GroupedNext(to, i, domains);
      domains := domains[addr.domain := (if addr.domain in domains then domains[addr.domain] else []) + [addr]];
    }
    AllGrouped(to, domains);
  }

  lemma NothingGrouped(to: seq<Address>)
    ensures Grouped(to, 0, map[])
  {
  }

  lemma {:induction false} AllGrouped(to: seq<Address>, domains: map<Text, seq<Address>>)
    requires Grouped(to, |to|, domains)
    ensures forall d :: InDomain(to, d) == if d in domains then domains[d] else []
  {
    assert to[..|to|] == to;
  }

  // The schedule.

  const MAX_ATTEMPTS := 30

  /** The pause before the next attempt, in minutes; None if there is none. */
  function Pause(attempt: int): Option<int> {
    if attempt < 5 then Some(10) else if attempt < 10 then Some(30) else if attempt < MAX_ATTEMPTS then Some(60) else None
  }

  /** What becomes of the row: None if it is deleted. */
  function RowAfter(row: QueueRow, sorted: Sorted, now: int): Option<QueueRow> {
    if sorted.pending != [] && Pause(row.attempts + 1).Some? then
      Some(QueueRow(now + Pause(row.attempts + 1).value, row.attempts + 1, sorted.pending))
    else if sorted.pending == [] && sorted.undeliverable == [] then None
    else Some(row)
  }

  function OfDomain(to: seq<Address>, net: Text -> Contact, blobThere: bool, domain: Text): Sorted {
    Contacted(net(domain), blobThere, InDomain(to, domain))
  }

  /** `a` appears in each list as often as its domain's session put it there. */
  ghost predicate SortedAt(to: seq<Address>, net: Text -> Contact, blobThere: bool, sorted: Sorted, a: Address) {
    var one := OfDomain(to, net, blobThere, a.domain);
    && multiset(sorted.delivered)[a] == multiset(one.delivered)[a]
    && multiset(sorted.undeliverable)[a] == multiset(one.undeliverable)[a]
    && multiset(sorted.pending)[a] == multiset(one.pending)[a]
  }

  /** The recipients of an attempt: each address gets what its domain's session gave it. */
  ghost predicate SortedBy(to: seq<Address>, net: Text -> Contact, blobThere: bool, sorted: Sorted) {
    forall a :: SortedAt(to, net, blobThere, sorted, a)
  }

  /** No recipient is lost, and none is invented, whatever the servers do. */
  lemma AttemptConserves(to: seq<Address>, net: Text -> Contact, blobThere: bool, sorted: Sorted)
    requires SortedBy(to, net, blobThere, sorted)
    ensures sorted.All() == multiset(to)
    ensures multiset(sorted.pending) <= multiset(to)
  {
    forall a
      ensures sorted.All()[a] == multiset(to)[a]
    {
      assert SortedAt(to, net, blobThere, sorted, a);
      InDomainCounts(to, a.domain, a);
      ContactConserves(net(a.domain), blobThere, InDomain(to, a.domain), a);
    }
    assert sorted.All() == multiset(to);
  }

  ghost predicate Absent(sorted: Sorted, a: Address) {
    sorted.All()[a] == 0
  }

  /** `SortedBy` while the domains in `rest` have not been contacted. */
  ghost predicate SortedSoFar(to: seq<Address>, net: Text -> Contact, blobThere: bool, sorted: Sorted, rest: set<Text>) {
    forall a: Address :: if a.domain in rest then Absent(sorted, a) else SortedAt(to, net, blobThere, sorted, a)
  }

  function Join(a: Sorted, b: Sorted): Sorted {
    Sorted(a.delivered + b.delivered, a.undeliverable + b.undeliverable, a.pending + b.pending)
  }

  lemma OtherDomainsAbsent(to: seq<Address>, net: Text -> Contact, blobThere: bool, d: Text, a: Address)
    ensures d != a.domain || a !in to ==> Absent(OfDomain(to, net, blobThere, d), a)
  {
    InDomainCounts(to, d, a);
    ContactConserves(net(d), blobThere, InDomain(to, d), a);
  }

  lemma NothingSorted(to: seq<Address>, net: Text -> Contact, blobThere: bool, domains: set<Text>)
    requires forall a :: a in to ==> a.domain in domains
    ensures SortedSoFar(to, net, blobThere, Sorted([], [], []), domains)
  {
    forall a: Address
      ensures a.domain !in domains ==> SortedAt(to, net, blobThere, Sorted([], [], []), a)
    {
      OtherDomainsAbsent(to, net, blobThere, a.domain, a);
    }
  }

  lemma JoinAt(to: seq<Address>, net: Text -> Contact, blobThere: bool, sorted: Sorted, d: Text, a: Address)
    requires if d == a.domain then Absent(sorted, a) else Absent(OfDomain(to, net, blobThere, d), a)
    ensures d == a.domain ==> SortedAt(to, net, blobThere, Join(sorted, OfDomain(to, net, blobThere, d)), a)
    ensures d != a.domain && SortedAt(to, net, blobThere, sorted, a) ==>
              SortedAt(to, net, blobThere, Join(sorted, OfDomain(to, net, blobThere, d)), a)
    ensures d != a.domain && Absent(sorted, a) ==> Absent(Join(sorted, OfDomain(to, net, blobThere, d)), a)
  {
    hide OfDomain;
  }

  /** The result for a domain only concerns addresses of this domain. */
  lemma JoinDomain(to: seq<Address>, net: Text -> Contact, blobThere: bool, sorted: Sorted, rest: set<Text>, d: Text)
    requires SortedSoFar(to, net, blobThere, sorted, rest) && d in rest
    ensures SortedSoFar(to, net, blobThere, Join(sorted, OfDomain(to, net, blobThere, d)), rest - {d})
  {
    hide Absent, SortedAt, Join, OfDomain;
    var joined := Join(sorted, OfDomain(to, net, blobThere, d));
    forall a: Address
      ensures if a.domain in rest - {d} then Absent(joined, a) else SortedAt(to, net, blobThere, joined, a)
    {
      OtherDomainsAbsent(to, net, blobThere, d, a);
      JoinAt(to, net, blobThere, sorted, d, a);
    }
  }

  /** One domain: its recipients sorted, and what its server was sent if the session completed. */
  method AttemptDomain(blobs: Blobs, id: ID, offset: int, c: Contact, to: seq<Address>)
    returns (one: Sorted, data: Option<Text>)
    ensures one == Contacted(c, id in blobs.fs.files, to)
    ensures data.Some? <==> id in blobs.fs.files && Completes(c, |to|)
    ensures data.Some? && 0 <= offset <= |blobs.fs.files[id]| ==> data.value == blobs.fs.files[id][offset..]
  {
    if c == Unreachable {
      return Sorted([], [], to), None;
    }
    var r := blobs.ReadOffset(id, offset, !c.opens);
    if r == null {
      return Sorted([], [], to), None;
    }
    var client := new Client();
    var ok, sent := client.Send(c, r, to);
    if !ok {
      return Sorted([], [], to), None;
    }
    return Sorted(client.delivered, client.undeliverable, client.pending), Some(sent);
  }

  /** Contacts the domains of the recipients, in any order. */
  method AttemptAll(blobs: Blobs, id: ID, offset: int, net: Text -> Contact, to: seq<Address>)
    returns (sorted: Sorted, sent: map<Text, Text>)
    ensures SortedBy(to, net, id in blobs.fs.files, sorted)
    ensures forall d :: d in sent <==> id in blobs.fs.files && InDomain(to, d) != [] && Completes(net(d), |InDomain(to, d)|)
    ensures forall d :: d in sent && 0 <= offset <= |blobs.fs.files[id]| ==> sent[d] == blobs.fs.files[id][offset..]
  {
    hide SortedSoFar, SortedBy, Contacted, Completes;
    var domains := AddressesByDomain(to);
    sorted, sent := Sorted([], [], []), map[];
    var rest := domains.Keys;
    ghost var there := id in blobs.fs.files;
    forall a | a in to
      ensures a.domain in domains
    {
      DomainListed(to, a.domain);
    }
    NothingSorted(to, net, there, rest);
    while rest != {}
      invariant rest <= domains.Keys && SortedSoFar(to, net, there, sorted, rest)
      invariant forall d :: d in sent <==> d in domains && d !in rest && there && Completes(net(d), |domains[d]|)
      invariant forall d :: d in sent && 0 <= offset <= |blobs.fs.files[id]| ==> sent[d] == blobs.fs.files[id][offset..]
      decreases rest
    {
      var d :| d in rest;
      JoinDomain(to, net, there, sorted, rest, d);
      var one, data := AttemptDomain(blobs, id, offset, net(d), domains[d]);
      sorted := Join(sorted, one);
      if data.Some? {
        sent := sent[d := data.value];
      }
      rest := rest - {d};
    }
    AllSorted(to, net, there, sorted);
  }

  lemma AllSorted(to: seq<Address>, net: Text -> Contact, blobThere: bool, sorted: Sorted)
    requires SortedSoFar(to, net, blobThere, sorted, {})
    ensures SortedBy(to, net, blobThere, sorted)
  {
  }

  /**
   * An attempt: whether there is a mail row that can be read, how the servers behave, whether there is a blob, what
   * comes of it, when, and whether the transaction that would change the row fails.
   */
  datatype Try = Try(mailThere: bool, net: Text -> Contact, blobThere: bool, sorted: Sorted, now: int, fault: bool)

  /** Without a mail row no server is contacted; else each address gets what its domain's session gave it. */
  ghost predicate Makes(row: QueueRow, t: Try) {
    if t.mailThere then SortedBy(row.to, t.net, t.blobThere, t.sorted) else t.sorted == Sorted([], [], [])
  }

  /** The row after an attempt: None if it is deleted. */
  ghost function Tried(row: QueueRow, t: Try): Option<QueueRow> {
    if !t.mailThere || t.fault then Some(row) else RowAfter(row, t.sorted, t.now)
  }

  /**
   * The attempt as a whole. The row is rewritten for the pending recipients while attempts are left, deleted if
   * all recipients got the mail, and otherwise left as it is, to be taken up again at once.
   */
  method Do(db: DB, blobs: Blobs, id: ID, net: Text -> Contact, now: int, mailFault: bool, fault: bool)
    returns (sorted: Sorted, sent: map<Text, Text>)
    requires id in db.queue
    modifies db
    ensures var row := old(db.queue[id]);
            var t := Try(!mailFault && id in old(db.mails), net, id in blobs.fs.files, sorted, now, fault);
            && Makes(row, t)
            && db.View() == match Tried(row, t)
                            case None => old(db.View()).DeleteFromQueue(id)
                            case Some(next) => old(db.View()).(queue := old(db.queue)[id := next])
    ensures id in blobs.fs.files && id in db.mails && 0 <= db.mails[id].offset <= |blobs.fs.files[id]| ==>
              forall d :: d in sent ==> sent[d] == blobs.fs.files[id][db.mails[id].offset..]
  {
    hide SortedBy;
    var elem := db.queue[id];
    sorted, sent := Sorted([], [], []), map[];
    var mail := db.Mail(id, mailFault);
    assert db.queue[id := elem] == db.queue;
    if mail.None? {
      return;
    }
    sorted, sent := AttemptAll(blobs, id, mail.value.offset, net, elem.to);
    var undeliverable, pending := sorted.undeliverable, sorted.pending;
    if pending != [] {
      var pause := Pause(elem.attempts + 1);
      if pause.Some? {
        var _ := db.UpdateQueue(id, pending, now + pause.value, fault);
      } else {
        undeliverable, pending := undeliverable + pending, [];
      }
    }
    if pending == [] && undeliverable == [] {
      var _ := db.DeleteFromQueue(id, fault);
    }
    assert old(db.queue)[id := elem] == old(db.queue);
  }

  // What the servers' behaviour makes of the row.

  /** Some recipient of the domain stays pending: the session does not complete, or an answer is not final. */
  ghost predicate LeavesPending(c: Contact, blobThere: bool, n: nat) {
    !(blobThere && Completes(c, n)) || exists i :: 0 <= i < n && Answer(c.rcpts, i) == Deferred
  }

  /** The session completes, and some recipient of the domain is refused for good. */
  ghost predicate LeavesRefused(c: Contact, blobThere: bool, n: nat) {
    blobThere && Completes(c, n) && exists i :: 0 <= i < n && Answer(c.rcpts, i) == Refused
  }

  ghost predicate SomePending(to: seq<Address>, net: Text -> Contact, blobThere: bool) {
    exists d :: InDomain(to, d) != [] && LeavesPending(net(d), blobThere, |InDomain(to, d)|)
  }

  ghost predicate SomeRefused(to: seq<Address>, net: Text -> Contact, blobThere: bool) {
    exists d :: InDomain(to, d) != [] && LeavesRefused(net(d), blobThere, |InDomain(to, d)|)
  }

  lemma {:induction false} PickIsEmpty(to: seq<Address>, rcpts: seq<Rcpt>, answer: Rcpt)
    ensures Pick(to, rcpts, answer) == [] <==> forall i :: 0 <= i < |to| ==> Answer(rcpts, i) != answer
  {
    if to != [] {
      PickIsEmpty(to[..|to| - 1], rcpts, answer);
    }
  }

  lemma ContactLeaves(c: Contact, blobThere: bool, to: seq<Address>)
    requires to != []
    ensures Contacted(c, blobThere, to).pending != [] <==> LeavesPending(c, blobThere, |to|)
    ensures Contacted(c, blobThere, to).undeliverable != [] <==> LeavesRefused(c, blobThere, |to|)
  {
    if blobThere && Completes(c, |to|) {
      PickIsEmpty(to, c.rcpts, Deferred);
      PickIsEmpty(to, c.rcpts, Refused);
    }
  }

  /** The lists of an attempt are empty or not according to what the servers of the domains do. */
  lemma AttemptLeaves(to: seq<Address>, net: Text -> Contact, blobThere: bool, sorted: Sorted)
    requires SortedBy(to, net, blobThere, sorted)
    ensures sorted.pending != [] <==> SomePending(to, net, blobThere)
    ensures sorted.undeliverable != [] <==> SomeRefused(to, net, blobThere)
  {
    hide Contacted, LeavesPending, LeavesRefused;
    forall d | InDomain(to, d) != []
      ensures OfDomain(to, net, blobThere, d).pending != [] <==> LeavesPending(net(d), blobThere, |InDomain(to, d)|)
      ensures OfDomain(to, net, blobThere, d).undeliverable != [] <==> LeavesRefused(net(d), blobThere, |InDomain(to, d)|)
    {
      ContactLeaves(net(d), blobThere, InDomain(to, d));
    }
    if sorted.pending != [] {
      var a := sorted.pending[0];
      assert SortedAt(to, net, blobThere, sorted, a);
      OwnDomain(to, net, blobThere, a.domain, a);
    }
    if sorted.undeliverable != [] {
      var a := sorted.undeliverable[0];
      assert SortedAt(to, net, blobThere, sorted, a);
      OwnDomain(to, net, blobThere, a.domain, a);
    }
    forall d | InDomain(to, d) != []
      ensures OfDomain(to, net, blobThere, d).pending != [] ==> sorted.pending != []
      ensures OfDomain(to, net, blobThere, d).undeliverable != [] ==> sorted.undeliverable != []
    {
      var one := OfDomain(to, net, blobThere, d);
      if one.pending != [] {
        OwnDomain(to, net, blobThere, d, one.pending[0]);
        assert SortedAt(to, net, blobThere, sorted, one.pending[0]);
      }
      if one.undeliverable != [] {
        OwnDomain(to, net, blobThere, d, one.undeliverable[0]);
        assert SortedAt(to, net, blobThere, sorted, one.undeliverable[0]);
      }
    }
  }

  /** An address that a domain's session sorted is of this domain, and a recipient. */
  lemma OwnDomain(to: seq<Address>, net: Text -> Contact, blobThere: bool, d: Text, a: Address)
    requires OfDomain(to, net, blobThere, d).All()[a] > 0
    ensures a.domain == d && InDomain(to, d) != []
  {
    ContactConserves(net(d), blobThere, InDomain(to, d), a);
    InDomainCounts(to, d, a);
  }

  /** The row does not change: someone is refused and no one is pending, or the attempts are used up. */
  ghost predicate Stuck(row: QueueRow, net: Text -> Contact, blobThere: bool) {
    if row.attempts < MAX_ATTEMPTS - 1 then SomeRefused(row.to, net, blobThere) && !SomePending(row.to, net, blobThere)
    else SomeRefused(row.to, net, blobThere) || SomePending(row.to, net, blobThere)
  }

  /**
   * An attempt deletes the row exactly if it is made and recorded and no server refuses or puts off a recipient still
   * in it.
   */
  lemma RowLeavesExactly(row: QueueRow, t: Try)
    requires Makes(row, t)
    ensures Tried(row, t).None? <==>
            t.mailThere && !t.fault && !SomePending(row.to, t.net, t.blobThere) && !SomeRefused(row.to, t.net, t.blobThere)
    ensures Tried(row, t).None? <==> t.mailThere && !t.fault && multiset(t.sorted.delivered) == multiset(row.to)
  {
    hide SortedBy, SomePending, SomeRefused;
    if t.mailThere {
      var sorted := t.sorted;
      AttemptLeaves(row.to, t.net, t.blobThere, sorted);
      AttemptConserves(row.to, t.net, t.blobThere, sorted);
      assert |sorted.All()| == |sorted.delivered| + |sorted.undeliverable| + |sorted.pending|;
      assert sorted.undeliverable == [] && sorted.pending == [] ==> sorted.All() == multiset(sorted.delivered);
    }
  }

  /** The row stays: its mail is gone, or the change fails, or the servers leave it stuck. */
  ghost predicate Stays(row: QueueRow, t: Try) {
    !t.mailThere || t.fault || Stuck(row, t.net, t.blobThere)
  }

  /** An attempt leaves the row as it is, due at once and without counting, in exactly these cases. */
  lemma RowStaysExactly(row: QueueRow, t: Try)
    requires Makes(row, t)
    ensures Tried(row, t) == Some(row) <==> !t.mailThere || t.fault || Stuck(row, t.net, t.blobThere)
  {
    hide SortedBy, SomePending, SomeRefused;
    if t.mailThere {
      AttemptLeaves(row.to, t.net, t.blobThere, t.sorted);
    }
  }

  // Over all attempts of a mail.

  /** The attempts can be made one after the other, beginning with this row, as long as it is there. */
  ghost predicate Tries(row: QueueRow, tries: seq<Try>)
    decreases |tries|
  {
    tries == [] || (
      && Makes(row, tries[0])
      && (if Tried(row, tries[0]).Some? then Tries(Tried(row, tries[0]).value, tries[1..]) else tries[1..] == []))
  }

  ghost function LastRow(row: QueueRow, tries: seq<Try>): Option<QueueRow>
    decreases |tries|
  {
    if tries == [] then Some(row)
    else
      match Tried(row, tries[0])
      case None => None
      case Some(next) => LastRow(next, tries[1..])
  }

  /** The pauses that were scheduled, in sum. */
  ghost function Waited(row: QueueRow, tries: seq<Try>): int
    decreases |tries|
  {
    if tries == [] then 0
    else
      match Tried(row, tries[0])
      case None => 0
      case Some(next) => (if next != row then next.date - tries[0].now else 0) + Waited(next, tries[1..])
  }

  /** The sum of the pauses after the attempts up to `n`. */
  function Budget(n: nat): int {
    if n == 0 then 0 else Budget(n - 1) + match Pause(n) case Some(p) => p case None => 0
  }

  /** Four pauses of 10 minutes, then five of 30, then twenty of 60. */
  function Minutes(n: nat): int {
    if n <= 4 then 10 * n else if n <= 9 then 40 + 30 * (n - 4) else 190 + 60 * (n - 9)
  }

  lemma {:induction false} BudgetInMinutes(n: nat)
    requires n <= 29
    ensures Budget(n) == if n <= 4 then 10 * n else if n <= 9 then 40 + 30 * (n - 4) else 190 + 60 * (n - 9)
  {
    if n > 0 {
      BudgetInMinutes(n - 1);
    }
  }

  lemma {:induction false} BudgetGrows(m: nat, n: nat)
    requires m <= n
    ensures Budget(m) <= Budget(n)
  {
    if m < n {
      BudgetGrows(m, n - 1);
    }
  }

  lemma TryOnce(row: QueueRow, t: Try)
    requires row.attempts <= 29 && Makes(row, t)
    ensures Tried(row, t).Some? ==>
              var next := Tried(row, t).value;
              && row.attempts <= next.attempts <= 29
              && multiset(next.to) <= multiset(row.to)
              && (if next != row then next.date - t.now else 0) == Budget(next.attempts) - Budget(row.attempts)
  {
    hide SortedBy;
    if t.mailThere {
      AttemptConserves(row.to, t.net, t.blobThere, t.sorted);
      assert multiset(t.sorted.pending) <= t.sorted.All();
    }
  }

  lemma {:induction false} RetriesKeepToBudget(row: QueueRow, tries: seq<Try>)
    requires row.attempts <= 29 && Tries(row, tries)
    ensures LastRow(row, tries).Some? ==>
              var last := LastRow(row, tries).value;
              && row.attempts <= last.attempts <= 29
              && multiset(last.to) <= multiset(row.to)
              && Waited(row, tries) == Budget(last.attempts) - Budget(row.attempts)
    ensures Waited(row, tries) <= Budget(29) - Budget(row.attempts)
    decreases |tries|
  {
    hide Tried, Makes, Budget;
    BudgetGrows(row.attempts, 29);
    if tries != [] {
      var next := Tried(row, tries[0]);
      TryOnce(row, tries[0]);
      if next.Some? {
        RetriesKeepToBudget(next.value, tries[1..]);
      }
    }
  }

  /**
   * A row is rescheduled at most 29 times: its attempts never exceed 29, the pauses in sum are just those of the
   * attempts it made, so at most 1390 minutes, and only recipients it started with are ever tried again.
   */
  lemma RetriesAreBounded(row: QueueRow, tries: seq<Try>)
    requires row.attempts <= 29 && Tries(row, tries)
    ensures LastRow(row, tries).Some? ==>
              var last := LastRow(row, tries).value;
              && row.attempts <= last.attempts <= 29
              && multiset(last.to) <= multiset(row.to)
              && Waited(row, tries) == Minutes(last.attempts) - Minutes(row.attempts)
    ensures Waited(row, tries) <= 1390 - Minutes(row.attempts)
  {
    RetriesKeepToBudget(row, tries);
    BudgetInMinutes(row.attempts);
    BudgetInMinutes(29);
    if LastRow(row, tries).Some? {
      BudgetInMinutes(LastRow(row, tries).value.attempts);
    }
  }

  // Who gets the mail.

  /** The recipients that were delivered in attempts that changed the row or deleted it. */
  ghost function Served(row: QueueRow, tries: seq<Try>): multiset<Address>
    decreases |tries|
  {
    if tries == [] then multiset{}
    else
      (if Tried(row, tries[0]) == Some(row) then multiset{} else multiset(tries[0].sorted.delivered))
      + if Tried(row, tries[0]).None? then multiset{} else Served(Tried(row, tries[0]).value, tries[1..])
  }

  /** The recipients that were refused in attempts that rescheduled the row; they are not in it any more. */
  ghost function Forgotten(row: QueueRow, tries: seq<Try>): multiset<Address>
    decreases |tries|
  {
    if tries == [] then multiset{}
    else
      (if Tried(row, tries[0]) == Some(row) then multiset{} else multiset(tries[0].sorted.undeliverable))
      + if Tried(row, tries[0]).None? then multiset{} else Forgotten(Tried(row, tries[0]).value, tries[1..])
  }

  /** In some attempt that rescheduled the row a server refused a recipient. */
  ghost predicate RefusedOnTheWay(row: QueueRow, tries: seq<Try>)
    decreases |tries|
  {
    tries != [] && (
      || (Tried(row, tries[0]) != Some(row) && SomeRefused(row.to, tries[0].net, tries[0].blobThere))
      || (Tried(row, tries[0]).Some? && RefusedOnTheWay(Tried(row, tries[0]).value, tries[1..])))
  }

  ghost function Remaining(row: Option<QueueRow>): multiset<Address> {
    if row.None? then multiset{} else multiset(row.value.to)
  }

  lemma TryConserves(row: QueueRow, t: Try)
    requires Makes(row, t) && Tried(row, t) != Some(row)
    ensures multiset(row.to) == multiset(t.sorted.delivered) + multiset(t.sorted.undeliverable) + Remaining(Tried(row, t))
  {
    AttemptConserves(row.to, t.net, t.blobThere, t.sorted);
    assert t.sorted.pending == [] ==> multiset(t.sorted.pending) == multiset{};
  }

  /** Over any attempts: every original recipient was served, or was refused and forgotten, or is still in the row. */
  lemma {:induction false} RecipientsAreAccountedFor(row: QueueRow, tries: seq<Try>)
    requires Tries(row, tries)
    ensures multiset(row.to) == Served(row, tries) + Forgotten(row, tries) + Remaining(LastRow(row, tries))
    decreases |tries|
  {
    hide Makes, Tried;
    if tries != [] {
      var next := Tried(row, tries[0]);
      if next.Some? {
        RecipientsAreAccountedFor(next.value, tries[1..]);
      }
      if next != Some(row) {
        TryConserves(row, tries[0]);
      }
    }
  }

  lemma {:induction false} ForgottenAreRefused(row: QueueRow, tries: seq<Try>)
    requires Tries(row, tries)
    ensures Forgotten(row, tries) != multiset{} <==> RefusedOnTheWay(row, tries)
    decreases |tries|
  {
    hide Makes, Tried, SomeRefused, SomePending;
    if tries != [] {
      var t := tries[0];
      if Tried(row, t) != Some(row) {
        TryRefuses(row, t);
      }
      if Tried(row, t).Some? {
        ForgottenAreRefused(Tried(row, t).value, tries[1..]);
      }
    }
  }

  lemma TryRefuses(row: QueueRow, t: Try)
    requires Makes(row, t) && Tried(row, t) != Some(row)
    ensures multiset(t.sorted.undeliverable) != multiset{} <==> SomeRefused(row.to, t.net, t.blobThere)
  {
    AttemptLeaves(row.to, t.net, t.blobThere, t.sorted);
    assert |multiset(t.sorted.undeliverable)| == |t.sorted.undeliverable|;
  }

  /** A mail leaves the queue with all recipients served exactly if no one was refused in an attempt that rescheduled it. */
  lemma LeavesServedExactly(row: QueueRow, tries: seq<Try>)
    requires Tries(row, tries) && LastRow(row, tries).None?
    ensures Served(row, tries) == multiset(row.to) <==> !RefusedOnTheWay(row, tries)
  {
    RecipientsAreAccountedFor(row, tries);
    ForgottenAreRefused(row, tries);
    var served, forgotten := Served(row, tries), Forgotten(row, tries);
    assert |multiset(row.to)| == |served| + |forgotten|;
    assert forgotten == multiset{} <==> |forgotten| == 0;
  }

  lemma {:induction false} AttemptsGrow(row: QueueRow, tries: seq<Try>)
    ensures LastRow(row, tries).Some? ==> LastRow(row, tries).value.attempts >= row.attempts
    decreases |tries|
  {
    if tries != [] && Tried(row, tries[0]).Some? {
      AttemptsGrow(Tried(row, tries[0]).value, tries[1..]);
    }
  }

  /** A row is as it was after any number of attempts exactly if it stayed in each of them. */
  lemma {:induction false} StaysForeverExactly(row: QueueRow, tries: seq<Try>)
    requires Tries(row, tries)
    ensures LastRow(row, tries) == Some(row) <==> forall i :: 0 <= i < |tries| ==> Stays(row, tries[i])
    decreases |tries|
  {
    hide Makes, Stuck, Tried;
    if tries != [] {
      var t, rest := tries[0], tries[1..];
      assert tries == [t] + rest;
      RowStaysExactly(row, t);
      if Tried(row, t) == Some(row) {
        StaysForeverExactly(row, rest);
      } else if Tried(row, t).Some? {
        ChangeCounts(row, t);
        AttemptsGrow(Tried(row, t).value, rest);
      }
    }
  }

  lemma ChangeCounts(row: QueueRow, t: Try)
    ensures Tried(row, t).Some? && Tried(row, t) != Some(row) ==> Tried(row, t).value.attempts == row.attempts + 1
  {
  }

  /** A refused recipient keeps its row in the queue as long as no one else is pending: the sessions all complete. */
  lemma RefusedStaysForever(row: QueueRow, tries: seq<Try>)
    requires Tries(row, tries)
    requires forall i :: 0 <= i < |tries| ==>
               SomeRefused(row.to, tries[i].net, tries[i].blobThere) && !SomePending(row.to, tries[i].net, tries[i].blobThere)
    ensures LastRow(row, tries) == Some(row)
  {
    StaysForeverExactly(row, tries);
  }

  /** How often the attempts deliver to an address. */
  ghost function Deliveries(tries: seq<Try>, a: Address): nat {
    if tries == [] then 0 else multiset(tries[0].sorted.delivered)[a] + Deliveries(tries[1..], a)
  }

  /** A row whose mail is gone stays in the queue through any number of attempts, and none of them delivers anything. */
  lemma {:induction false} DanglingStaysForever(row: QueueRow, tries: seq<Try>, a: Address)
    requires Tries(row, tries) && forall i :: 0 <= i < |tries| ==> !tries[i].mailThere
    ensures LastRow(row, tries) == Some(row) && Deliveries(tries, a) == 0
    decreases |tries|
  {
    if tries != [] {
      assert multiset(tries[0].sorted.delivered) == multiset{};
      DanglingStaysForever(row, tries[1..], a);
    }
  }

  /** While a row is stuck, or its change fails, the others get the mail again with each attempt. */
  lemma {:induction false} StuckRowRepeats(row: QueueRow, tries: seq<Try>, net: Text -> Contact, a: Address)
    requires Tries(row, tries)
    requires forall i :: 0 <= i < |tries| ==>
               && tries[i].mailThere && tries[i].net == net && tries[i].blobThere
               && (tries[i].fault || Stuck(row, net, true))
    ensures Deliveries(tries, a) == |tries| * multiset(OfDomain(row.to, net, true, a.domain).delivered)[a]
    decreases |tries|
  {
    hide Stuck, OfDomain, SortedBy, Tried;
    var k := multiset(OfDomain(row.to, net, true, a.domain).delivered)[a];
    if tries == [] {
      assert 0 * k == 0;
    } else {
      var t := tries[0];
      RowStaysExactly(row, t);
      DeliveredAt(row.to, net, t.sorted, a);
      StuckRowRepeats(row, tries[1..], net, a);
      Product(|tries|, k);
    }
  }

  lemma DeliveredAt(to: seq<Address>, net: Text -> Contact, sorted: Sorted, a: Address)
    requires SortedBy(to, net, true, sorted)
    ensures multiset(sorted.delivered)[a] == multiset(OfDomain(to, net, true, a.domain).delivered)[a]
  {
    assert SortedAt(to, net, true, sorted, a);
  }

  lemma Product(n: nat, k: nat)
    requires n > 0
    ensures k + (n - 1) * k == n * k
  {
  }

  // A mail that leaves the queue although one of its recipients never got it.

  const REFUSES_ONE := Session(true, true, [Refused, Deferred], true, true, true)
  const TAKES_ONE := Session(true, true, [Taken], true, true, true)

  function If(answer: bool, a: Address): seq<Address> {
    if answer then [a] else []
  }

  lemma PickOne(a: Address, rcpts: seq<Rcpt>)
    ensures forall answer :: Pick([a], rcpts, answer) == If(Answer(rcpts, 0) == answer, a)
  {
    assert [a][..0] == [];
  }

  lemma PickTwo(a: Address, b: Address, rcpts: seq<Rcpt>)
    ensures forall answer ::
              Pick([a, b], rcpts, answer) == If(Answer(rcpts, 0) == answer, a) + If(Answer(rcpts, 1) == answer, b)
  {
    PickOne(a, rcpts);
    assert [a, b][..1] == [a];
  }

  lemma {:induction false} OneDomain(to: seq<Address>, d: Text, other: Text)
    requires forall a :: a in to ==> a.domain == d
    ensures InDomain(to, other) == if other == d then to else []
  {
    if to != [] {
      OneDomain(to[..|to| - 1], d, other);
      assert to == to[..|to| - 1] + [to[|to| - 1]];
    }
  }

  lemma OneSession(to: seq<Address>, d: Text, c: Contact)
    requires (forall a :: a in to ==> a.domain == d) && Completes(c, |to|)
    ensures SortedBy(to, _ => c, true, SortOut(to, c.rcpts))
  {
    hide SortOut;
    var net := _ => c;
    var sorted := SortOut(to, c.rcpts);
    forall a: Address
      ensures SortedAt(to, net, true, sorted, a)
    {
      OneDomain(to, d, a.domain);
      if a.domain != d {
        OtherDomainsAbsent(to, net, true, d, a);
        OneDomain(to, d, d);
        PickNothing(c.rcpts);
      }
    }
  }

  function RefusingOne(a: Address, b: Address, now: int): Try {
    Try(true, _ => REFUSES_ONE, true, Sorted([], [a], [b]), now, false)
  }

  function TakingOne(b: Address, now: int): Try {
    Try(true, _ => TAKES_ONE, true, Sorted([b], [], []), now, false)
  }

  lemma RefusesOne(a: Address, b: Address, date: int, now: int)
    requires a.domain == b.domain
    ensures var t := RefusingOne(a, b, now);
            && Makes(QueueRow(date, 0, [a, b]), t)
            && Tried(QueueRow(date, 0, [a, b]), t) == Some(QueueRow(now + 10, 1, [b]))
  {
    PickTwo(a, b, REFUSES_ONE.rcpts);
    assert SortOut([a, b], REFUSES_ONE.rcpts) == Sorted([], [a], [b]);
    OneSession([a, b], a.domain, REFUSES_ONE);
  }

  lemma TakesOne(row: QueueRow, b: Address, now: int)
    requires row.to == [b]
    ensures var t := TakingOne(b, now); Makes(row, t) && Tried(row, t) == None
  {
    PickOne(b, TAKES_ONE.rcpts);
    assert SortOut([b], TAKES_ONE.rcpts) == Sorted([b], [], []);
    OneSession([b], b.domain, TAKES_ONE);
  }

  /**
   * The first recipient is refused while the second is put off, so only the second is kept in the row. Once it is
   * served the mail leaves the queue, and the first never got it.
   */
  lemma RefusedIsForgotten(a: Address, b: Address, date: int, now: int, later: int)
    requires a != b && a.domain == b.domain
    ensures var row, tries := QueueRow(date, 0, [a, b]), [RefusingOne(a, b, now), TakingOne(b, later)];
            && Tries(row, tries) && LastRow(row, tries).None?
            && Served(row, tries) == multiset{b} && Forgotten(row, tries) == multiset{a}
  {
    hide Makes, Tried, Tries, LastRow, Served, Forgotten;
    var row, next := QueueRow(date, 0, [a, b]), QueueRow(now + 10, 1, [b]);
    var t1, t2 := RefusingOne(a, b, now), TakingOne(b, later);
    RefusesOne(a, b, date, now);
    TakesOne(next, b, later);
    NoTry(next);
    FirstTry(next, t2, []);
    FirstTry(row, t1, [t2] + []);
    assert [t1, t2] == [t1] + ([t2] + []);
    assert multiset([a]) == multiset{a} && multiset([b]) == multiset{b};
  }

  lemma NoTry(row: QueueRow)
    ensures Tries(row, []) && LastRow(row, []) == Some(row)
    ensures Served(row, []) == multiset{} && Forgotten(row, []) == multiset{}
  {
  }

  lemma FirstTry(row: QueueRow, t: Try, rest: seq<Try>)
    requires Tried(row, t) != Some(row)
    ensures Tries(row, [t] + rest) <==>
            Makes(row, t)
            && if Tried(row, t).Some? then Tries(Tried(row, t).value, rest) else rest == []
    ensures LastRow(row, [t] + rest) == if Tried(row, t).Some? then LastRow(Tried(row, t).value, rest) else None
    ensures Served(row, [t] + rest)
         == multiset(t.sorted.delivered) + if Tried(row, t).Some? then Served(Tried(row, t).value, rest) else multiset{}
    ensures Forgotten(row, [t] + rest)
         == multiset(t.sorted.undeliverable) + if Tried(row, t).Some? then Forgotten(Tried(row, t).value, rest) else multiset{}
  {
    hide Makes, Tried;
    assert ([t] + rest)[1..] == rest;
  }
}
