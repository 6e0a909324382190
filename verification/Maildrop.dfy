/** A POP3 session's view of a mailbox (RFC 1939): the snapshot taken at login, the marks, and the octet counts. */
module Maildrop {
  import opened Bytes
  import opened Database

  datatype Phase = SInit | SUser | STransaction

  /** The marks are positions in the snapshot, counted from 0. */
  datatype Drop = Drop(state: Phase, name: Text, id: int, entries: seq<Item>, marks: set<nat>, size: int, sizeDel: int) {

    predicate Exists(n: int) {
      0 <= n < |entries| && n !in marks
    }

    function Named(name: Text): Drop {
      this.(name := name, state := SUser)
    }

    function Opened(id: int, entries: seq<Item>, size: int): Drop {
      this.(id := id, entries := entries, size := size, marks := {}, state := STransaction)
    }

    function Marked(n: int): Drop {
      if Exists(n) then this.(marks := marks + {n}, sizeDel := sizeDel + entries[n].size) else this
    }

    function Unmarked(): Drop {
      if marks == {} then this else this.(marks := {}, sizeDel := 0)
    }

    /** The mails that QUIT deletes. */
    function MarkedMails(): set<ID> {
      MailsAt(marks)
    }

    function MailsAt(positions: set<nat>): set<ID> {
      set n | n in positions && 0 <= n < |entries| :: entries[n].mail
    }

    // What is listed.

    /** One line for each message not marked: its number, counted from 1, and its size. */
    function Lines(upTo: nat): seq<(int, int)>
      requires upTo <= |entries|
    {
      if upTo == 0 then []
      else Lines(upTo - 1) + if upTo - 1 in marks then [] else [(upTo, entries[upTo - 1].size)]
    }

    function HeaderCount(): int {
      |entries| - |marks|
    }

    function HeaderOctets(): int {
      size - sizeDel
    }

    // The accounting.

    function MarkedSize(upTo: nat): int
      requires upTo <= |entries|
    {
      if upTo == 0 then 0 else MarkedSize(upTo - 1) + if upTo - 1 in marks then entries[upTo - 1].size else 0
    }

    ghost predicate Accounted() {
      && (forall n :: n in marks ==> 0 <= n < |entries|)
      && size == Total(entries)
      && sizeDel == MarkedSize(|entries|)
      && (state != STransaction ==> marks == {} && entries == [] && sizeDel == 0)
    }
  }

  const FRESH := Drop(SInit, [], 0, [], {}, 0, 0)

  lemma FreshIsAccounted()
    ensures FRESH.Accounted()
  {
  }

  lemma {:induction false} MarkingAdds(d: Drop, n: int, upTo: nat)
    requires d.Exists(n) && upTo <= |d.entries|
    ensures d.Marked(n).MarkedSize(upTo) == d.MarkedSize(upTo) + if n < upTo then d.entries[n].size else 0
  {
    if upTo > 0 {
      MarkingAdds(d, n, upTo - 1);
    }
  }

  lemma {:induction false} NothingMarked(d: Drop, upTo: nat)
    requires d.marks == {} && upTo <= |d.entries|
    ensures d.MarkedSize(upTo) == 0
  {
    if upTo > 0 {
      NothingMarked(d, upTo - 1);
    }
  }

  /** Every step of a session, taken in its state, keeps the accounting right. */
  lemma StepsAreAccounted(d: Drop)
    requires d.Accounted()
    ensures d.state == STransaction ==> forall n :: d.Marked(n).Accounted()
    ensures d.Unmarked().Accounted()
    ensures d.state != STransaction ==> forall name :: d.Named(name).Accounted()
    ensures d.state != STransaction ==> forall id, entries :: d.Opened(id, entries, Total(entries)).Accounted()
  {
    forall n
      ensures d.state == STransaction ==> d.Marked(n).Accounted()
    {
      if d.Exists(n) {
        MarkingAdds(d, n, |d.entries|);
      }
    }
    NothingMarked(d.Unmarked().(marks := {}), |d.entries|);
    forall name | d.state != STransaction
      ensures d.Named(name).Accounted()
    {
      SameMarks(d, d.Named(name), |d.entries|);
    }
    forall id, entries | d.state != STransaction
      ensures d.Opened(id, entries, Total(entries)).Accounted()
    {
      NothingMarked(d.Opened(id, entries, Total(entries)), |entries|);
    }
  }

  /** Outside of a transaction there is no snapshot that a failure to take one could spoil. */
  lemma NothingOpened(d: Drop)
    requires d.Accounted()
    ensures d.state != STransaction ==> d.(entries := [], size := 0) == d
  {
  }

  lemma {:induction false} SameMarks(a: Drop, b: Drop, upTo: nat)
    requires a.entries == b.entries && a.marks == b.marks && upTo <= |a.entries|
    ensures a.MarkedSize(upTo) == b.MarkedSize(upTo)
  {
    if upTo > 0 {
      SameMarks(a, b, upTo - 1);
    }
  }

  function Octets(lines: seq<(int, int)>): int {
    if lines == [] then 0 else Octets(lines[..|lines| - 1]) + lines[|lines| - 1].1
  }

  function TotalUpTo(list: seq<Item>, upTo: nat): int
    requires upTo <= |list|
  {
    if upTo == 0 then 0 else TotalUpTo(list, upTo - 1) + list[upTo - 1].size
  }

  lemma {:induction false} TotalIsTotalUpTo(list: seq<Item>, upTo: nat)
    requires upTo <= |list|
    ensures TotalUpTo(list, upTo) == Total(list[..upTo])
  {
    if upTo > 0 {
      TotalIsTotalUpTo(list, upTo - 1);
      TotalAppends(list[..upTo - 1], list[upTo - 1]);
      assert list[..upTo] == list[..upTo - 1] + [list[upTo - 1]];
    }
  }

  lemma {:induction false} LinesUpTo(d: Drop, upTo: nat)
    requires upTo <= |d.entries|
    ensures |d.Lines(upTo)| == upTo - |set n | n in d.marks && 0 <= n < upTo|
    ensures Octets(d.Lines(upTo)) == TotalUpTo(d.entries, upTo) - d.MarkedSize(upTo)
  {
    var s := set n | n in d.marks && 0 <= n < upTo;
    if upTo == 0 {
      assert s == {};
    } else {
      LinesUpTo(d, upTo - 1);
      var t := set n | n in d.marks && 0 <= n < upTo - 1;
      var lines := d.Lines(upTo);
      if upTo - 1 in d.marks {
        assert s == t + {upTo - 1};
        assert lines == d.Lines(upTo - 1);
      } else {
        assert s == t;
        assert lines[..|lines| - 1] == d.Lines(upTo - 1);
      }
    }
  }

  /** The header of a listing agrees with the lines below it. */
  lemma ListingAddsUp(d: Drop)
    requires d.Accounted()
    ensures d.HeaderCount() == |d.Lines(|d.entries|)|
    ensures d.HeaderOctets() == Octets(d.Lines(|d.entries|))
  {
    LinesUpTo(d, |d.entries|);
    TotalIsTotalUpTo(d.entries, |d.entries|);
    assert d.entries[..|d.entries|] == d.entries;
    assert (set n | n in d.marks && 0 <= n < |d.entries|) == d.marks;
  }

  /** Exactly the messages without a mark are listed, with their numbers and sizes, in order. */
  lemma {:induction false} LinesAreTheUnmarked(d: Drop, upTo: nat, line: (int, int))
    requires upTo <= |d.entries|
    ensures line in d.Lines(upTo) <==>
            0 < line.0 <= upTo && d.Exists(line.0 - 1) && d.entries[line.0 - 1].size == line.1
  {
    if upTo > 0 {
      LinesAreTheUnmarked(d, upTo - 1, line);
    }
  }

  /** The lines are in the order of their numbers. */
  lemma {:induction false} LinesIncrease(d: Drop, upTo: nat)
    requires upTo <= |d.entries|
    ensures forall i, j :: 0 <= i < j < |d.Lines(upTo)| ==> d.Lines(upTo)[i].0 < d.Lines(upTo)[j].0
  {
    if upTo > 0 {
      LinesIncrease(d, upTo - 1);
      forall line | line in d.Lines(upTo - 1)
        ensures line.0 < upTo
      {
        LinesAreTheUnmarked(d, upTo - 1, line);
      }
    }
  }

  lemma OneMoreMail(d: Drop, positions: set<nat>, n: int)
    requires 0 <= n < |d.entries|
    ensures d.MailsAt(positions + {n}) == d.MailsAt(positions) + {d.entries[n].mail}
  {
  }

  /** Looks up the marked mails, in any order. */
  method CollectMarked(entries: seq<Item>, marks: set<nat>, ghost d: Drop) returns (mails: seq<ID>)
    requires d.Accounted() && d.entries == entries && d.marks == marks
    ensures Ids(mails) == d.MarkedMails()
  {
    mails := [];
    var rest := marks;
    while rest != {}
      invariant rest <= marks
      invariant Ids(mails) == d.MailsAt(marks - rest)
      decreases rest
    {
      var n :| n in rest;
      OneMoreMail(d, marks - rest, n);
      assert marks - rest + {n} == marks - (rest - {n});
      assert Ids(mails + [entries[n].mail]) == Ids(mails) + {entries[n].mail};
      mails, rest := mails + [entries[n].mail], rest - {n};
    }
    assert marks - rest == marks;
  }

  /** The snapshot's entries are still there, and each mail is in it once. */
  ghost predicate StillThere(t: Tables, d: Drop) {
    && (forall n :: 0 <= n < |d.entries| ==> (d.id, d.entries[n].mail) in t.entries)
    && (forall m, n :: 0 <= m < n < |d.entries| ==> d.entries[m].mail != d.entries[n].mail)
  }

  /**
   * Deleting the marked mails of a snapshot leaves the others of the mailbox, those that came later, and all other
   * mailboxes alone.
   */
  lemma QuitDeletesTheMarked(t: Tables, d: Drop, e: (int, ID))
    requires d.Accounted() && StillThere(t, d)
    ensures e in t.DeleteEntries(d.MarkedMails(), d.id).entries <==>
            e in t.entries && !(e.0 == d.id && exists n :: n in d.marks && d.entries[n].mail == e.1)
    ensures forall n :: 0 <= n < |d.entries| ==>
              ((d.id, d.entries[n].mail) in t.DeleteEntries(d.MarkedMails(), d.id).entries <==> n !in d.marks)
  {
    forall n | 0 <= n < |d.entries|
      ensures d.entries[n].mail in d.MarkedMails() <==> n in d.marks
    {
    }
  }
}
