/** The POP3 handlers over a mutable session, the table of locked maildrops, and the life of a session. */
module Pop3 {
  import opened Bytes
  import opened Database
  import opened DotCodec
  import opened DotDecoding
  import opened DotEncoding
  import opened Maildrop
  import opened Storage
  import opened EndToEnd
  import opened Mailman

  class Locks {
    var entries: set<int>

    constructor ()
      ensures entries == {}
    {
      entries := {};
    }

    method Lock(key: int) returns (ok: bool)
      modifies this
      ensures ok <==> key !in old(entries)
      ensures entries == old(entries) + {key}
    {
      if key in entries {
        assert entries == entries + {key};
        return false;
      }
      entries := entries + {key};
      return true;
    }

    method Unlock(key: int)
      modifies this
      ensures entries == old(entries) - {key}
    {
      entries := entries - {key};
    }
  }

  /** The arguments of a command: how many there are, and the number that the first one denotes, if it is one. */
  datatype Args = Args(count: nat, number: Option<int>)

  datatype Login = Broken | Wrong | Known(id: int)

  /**
   * A command, together with what the database and the blob store do when it is executed. `logins` is what the
   * database answers to the password, for each name.
   */
  datatype Command =
    | User(names: seq<Text>)
    | Pass(count: nat, logins: Text -> Login, fault: bool, cut: nat)
    | List(args: Args)
    | Retr(args: Args, access: Access)
    | Dele(args: Args)
    | Rset
    | Quit(fault: bool, sweep: Sweep)
    | Other(result: Result)    // changes nothing in the session: STAT, UIDL, NOOP, CAPA, STLS, and unknown commands

  datatype Result = Replied(positive: bool) | BadSequence | InvalidSyntax | Close | Fail

  // What a session is, apart from its fields.

  /** The listing of all messages, the line for one, or a message that is sent. */
  datatype Answer =
    | Listing(count: int, octets: int, lines: seq<(int, int)>)
    | Single(number: int, size: int)
    | Message(text: Text)

  /** The blocks of the messages among the answers, as they are written. */
  function Blocks(answers: seq<Answer>): Text {
    if answers == [] then []
    else
      var last := answers[|answers| - 1];
      Blocks(answers[..|answers| - 1]) + if last.Message? then Encode(last.text) else []
  }

  /** What a session finds: the maildrops locked by others, the listing it is given at login, and the blobs. */
  datatype Found = Found(locked: set<int>, list: seq<Item>, blobs: map<Name, Text>)

  /** Whether a message is selected: one of the snapshot without a mark. */
  function Selects(d: Drop, args: Args): Result {
    if d.state != STransaction then BadSequence
    else if args.count != 1 || args.number.None? then InvalidSyntax
    else Replied(d.Exists(args.number.value - 1))
  }

  /** The view after a command, its result, and its answer, if there is one. */
  function Step(g: Found, d: Drop, c: Command): (Drop, Result, seq<Answer>) {
    match c
    case User(names) =>
      if d.state == STransaction then (d, BadSequence, [])
      else if |names| != 1 then (d, InvalidSyntax, [])
      else (d.Named(names[0]), Replied(true), [])
    case Pass(count, logins, fault, _) =>
      var login := logins(d.name);
      if d.state != SUser then (d, BadSequence, [])
      else if count != 1 then (d, InvalidSyntax, [])
      else if login == Broken then (d, Fail, [])
      else if login == Wrong || login.id in g.locked then (d, Replied(false), [])
      else if fault then (d, Fail, [])
      else (d.Opened(login.id, g.list, Total(g.list)), Replied(true), [])
    case List(args) =>
      if d.state == STransaction && args.count == 0 then
        (d, Replied(true), [Listing(d.HeaderCount(), d.HeaderOctets(), d.Lines(|d.entries|))])
      else if Selects(d, args) == Replied(true) then
        (d, Replied(true), [Single(args.number.value - 1, d.entries[args.number.value - 1].size)])
      else (d, Selects(d, args), [])
    case Retr(args, access) =>
      if Selects(d, args) != Replied(true) then (d, Selects(d, args), [])
      else
        var mail := d.entries[args.number.value - 1].mail;
        if mail !in g.blobs || !access.opens then (d, Fail, [])
        else (d, if access.Fails(g.blobs[mail]) then Fail else Replied(true), [Message(access.Yields(g.blobs[mail]))])
    case Dele(args) =>
      (if Selects(d, args) == Replied(true) then d.Marked(args.number.value - 1) else d, Selects(d, args), [])
    case Rset => if d.state == STransaction then (d.Unmarked(), Replied(true), []) else (d, BadSequence, [])
    case Quit(fault, _) => (d, if d.state == STransaction && fault then Fail else Close, [])
    case Other(result) => (d, result, [])
  }

  /** How a session was left: without a QUIT, after deleting its marked mails, with its lock still held, or otherwise. */
  datatype End = HungUp | Deleted(sweep: Sweep) | Leaked(id: int) | Closed

  datatype Run = Run(drop: Drop, end: End, answers: seq<Answer>)

  /** What a command that ends the session leaves behind. */
  function EndOf(d: Drop, c: Command, r: Result): End {
    if c.Quit? && d.state == STransaction && r == Close then Deleted(c.sweep)
    else if c.Pass? && r == Fail && c.logins(d.name).Known? then Leaked(c.logins(d.name).id)
    else Closed
  }

  function Exec(g: Found, d: Drop, answers: seq<Answer>, commands: seq<Command>): Run
    decreases |commands|
  {
    if commands == [] then Run(d, HungUp, answers)
    else
      var (next, r, more) := Step(g, d, commands[0]);
      if r == Close || r == Fail then Run(next, EndOf(d, commands[0], r), answers + more)
      else Exec(g, next, answers + more, commands[1..])
  }

  /** After how many rows fetching broke off in the PASS that opened the maildrop. */
  function OpeningCut(g: Found, d: Drop, commands: seq<Command>): nat
    decreases |commands|
  {
    if commands == [] then 0
    else
      var (next, r, _) := Step(g, d, commands[0]);
      if commands[0].Pass? && r == Replied(true) then commands[0].cut
      else if r == Close || r == Fail then 0
      else OpeningCut(g, next, commands[1..])
  }

  /** The session after the first `k` commands. */
  function Before(g: Found, commands: seq<Command>, k: nat): Run
    requires k <= |commands|
  {
    Exec(g, FRESH, [], commands[..k])
  }

  lemma {:induction false} ExecAppends(g: Found, d: Drop, answers: seq<Answer>, commands: seq<Command>, c: Command)
    ensures var run := Exec(g, d, answers, commands);
            var (next, r, more) := Step(g, run.drop, c);
            Exec(g, d, answers, commands + [c]) ==
              if run.end != HungUp then run
              else Run(next, if r == Close || r == Fail then EndOf(run.drop, c, r) else HungUp, run.answers + more)
    decreases |commands|
  {
    hide Step, EndOf;
    if commands == [] {
      assert commands + [c] == [c] && [c][1..] == [];
    } else {
      assert (commands + [c])[1..] == commands[1..] + [c];
      var (next, r, more) := Step(g, d, commands[0]);
      if r != Close && r != Fail {
        ExecAppends(g, next, answers + more, commands[1..], c);
      } else {
        EndIsNotHungUp(d, commands[0], r);
      }
    }
  }

  lemma EndIsNotHungUp(d: Drop, c: Command, r: Result)
    ensures EndOf(d, c, r) != HungUp
  {
  }

  /** The `k`th command is a QUIT that is executed in the transaction and whose database transaction succeeds. */
  ghost predicate Quits(g: Found, commands: seq<Command>, k: nat)
    requires k < |commands|
  {
    && Before(g, commands, k).end == HungUp && Before(g, commands, k).drop.state == STransaction
    && commands[k].Quit? && !commands[k].fault
  }

  /** Mails are deleted exactly if some command of the session is such a QUIT; a session that just ends deletes none. */
  lemma {:induction false} DeletesExactly(g: Found, commands: seq<Command>)
    ensures Exec(g, FRESH, [], commands).end.Deleted? <==> exists k: nat :: k < |commands| && Quits(g, commands, k)
    ensures (forall c :: c in commands ==> !c.Quit?) ==> !Exec(g, FRESH, [], commands).end.Deleted?
    decreases |commands|
  {
    if commands != [] {
      hide Step, Exec, EndOf;
      var most, c := commands[..|commands| - 1], commands[|commands| - 1];
      assert commands == most + [c];
      DeletesExactly(g, most);
      ExecAppends(g, FRESH, [], most, c);
      var run := Exec(g, FRESH, [], most);
      QuitEnds(g, run.drop, c);
      assert forall k: nat :: k < |most| ==> commands[..k] == most[..k] && commands[k] == most[k];
      assert commands[..|most|] == most;
      assert forall k: nat :: k < |most| ==> (Quits(g, commands, k) <==> Quits(g, most, k));
      assert Quits(g, commands, |most|) <==> run.end == HungUp && run.drop.state == STransaction && c.Quit? && !c.fault;
    } else {
      assert Exec(g, FRESH, [], commands).end == HungUp;
    }
  }

  lemma QuitEnds(g: Found, d: Drop, c: Command)
    ensures var (_, r, _) := Step(g, d, c);
            (r == Close || r == Fail) && EndOf(d, c, r).Deleted? <==> d.state == STransaction && c.Quit? && !c.fault
  {
  }

  /** The `k`th command is a PASS with a right password for a free maildrop, of which no listing can be had. */
  ghost predicate Leaks(g: Found, commands: seq<Command>, k: nat, id: int)
    requires k < |commands|
  {
    && Before(g, commands, k).end == HungUp && Before(g, commands, k).drop.state == SUser
    && commands[k].Pass? && commands[k].count == 1 && commands[k].logins(Before(g, commands, k).drop.name) == Known(id)
    && id !in g.locked && commands[k].fault
  }

  /** A lock is left behind exactly by a session that reaches such a PASS. */
  lemma {:induction false} LeaksExactly(g: Found, commands: seq<Command>, id: int)
    ensures Exec(g, FRESH, [], commands).end == Leaked(id) <==> exists k: nat :: k < |commands| && Leaks(g, commands, k, id)
    decreases |commands|
  {
    if commands != [] {
      hide Step, Exec, EndOf;
      var most, c := commands[..|commands| - 1], commands[|commands| - 1];
      assert commands == most + [c];
      LeaksExactly(g, most, id);
      ExecAppends(g, FRESH, [], most, c);
      var run := Exec(g, FRESH, [], most);
      PassLeaks(g, run.drop, c, id);
      assert forall k: nat :: k < |most| ==> commands[..k] == most[..k] && commands[k] == most[k];
      assert commands[..|most|] == most;
      assert forall k: nat :: k < |most| ==> (Leaks(g, commands, k, id) <==> Leaks(g, most, k, id));
      assert Leaks(g, commands, |most|, id) <==>
             run.end == HungUp && run.drop.state == SUser
             && c.Pass? && c.count == 1 && c.logins(run.drop.name) == Known(id) && id !in g.locked && c.fault;
    } else {
      assert Exec(g, FRESH, [], commands).end == HungUp;
    }
  }

  lemma PassLeaks(g: Found, d: Drop, c: Command, id: int)
    ensures var (_, r, _) := Step(g, d, c);
            (r == Close || r == Fail) && EndOf(d, c, r) == Leaked(id) <==>
            d.state == SUser && c.Pass? && c.count == 1 && c.logins(d.name) == Known(id) && id !in g.locked && c.fault
  {
  }

  /** The `k`th command is a DELE of the message, in the transaction, and no RSET comes after it. */
  ghost predicate Marks(g: Found, commands: seq<Command>, k: nat, n: nat)
    requires k < |commands|
  {
    && Before(g, commands, k).drop.state == STransaction
    && commands[k] == Dele(Args(1, Some(n + 1)))
    && forall j :: k < j < |commands| ==> !commands[j].Rset?
  }

  lemma StepOnMarks(g: Found, d: Drop, c: Command)
    requires d.state != STransaction ==> d.marks == {} && d.entries == []
    requires d.state == STransaction ==> d.entries == g.list && forall n :: n in d.marks ==> n < |g.list|
    ensures var next := Step(g, d, c).0;
            && (next.state != STransaction ==> next.marks == {} && next.entries == [])
            && (next.state == STransaction ==> next.entries == g.list)
            && (d.state == STransaction ==> next.state == STransaction)
            && (next.state == STransaction ==>
                  forall n: nat :: n in next.marks <==>
                    d.state == STransaction && n < |g.list|
                    && ((n in d.marks && !c.Rset?) || c == Dele(Args(1, Some(n + 1)))))
  {
  }

  ghost predicate MarkedIn(g: Found, commands: seq<Command>, n: nat) {
    exists k: nat :: k < |commands| && Marks(g, commands, k, n)
  }

  /**
   * As long as the session goes on, the messages marked in the transaction are those for which there was a DELE in
   * it without a RSET behind.
   */
  lemma {:induction false} MarksExactly(g: Found, commands: seq<Command>)
    requires Exec(g, FRESH, [], commands).end == HungUp
    ensures var d := Exec(g, FRESH, [], commands).drop;
            && (d.state != STransaction ==> d.marks == {} && d.entries == [])
            && (d.state == STransaction ==>
                  d.entries == g.list && forall n: nat :: n in d.marks <==> n < |g.list| && MarkedIn(g, commands, n))
    decreases |commands|
  {
    if commands != [] {
      hide Step, Exec, EndOf, MarkedIn;
      var most, c := commands[..|commands| - 1], commands[|commands| - 1];
      assert commands == most + [c];
      ExecAppends(g, FRESH, [], most, c);
      MarksExactly(g, most);
      var before := Exec(g, FRESH, [], most).drop;
      StepOnMarks(g, before, c);
      forall n: nat
        ensures MarkedIn(g, commands, n) <==>
                (!c.Rset? && MarkedIn(g, most, n)) || (before.state == STransaction && c == Dele(Args(1, Some(n + 1))))
      {
        OneMoreMarks(g, most, c, n);
      }
      if before.state != STransaction {
        forall n: nat
          ensures !MarkedIn(g, most, n)
        {
          NoMarksBefore(g, most, n);
        }
      }
    } else {
      assert Exec(g, FRESH, [], commands).drop == FRESH;
    }
  }

  lemma OneMoreMarks(g: Found, most: seq<Command>, c: Command, n: nat)
    ensures MarkedIn(g, most + [c], n) <==>
            (!c.Rset? && MarkedIn(g, most, n))
            || (Exec(g, FRESH, [], most).drop.state == STransaction && c == Dele(Args(1, Some(n + 1))))
  {
    hide Exec;
    var commands := most + [c];
    assert forall k: nat :: k < |most| ==> commands[..k] == most[..k] && commands[k] == most[k];
    assert commands[..|most|] == most && commands[|most|] == c;
    assert forall k: nat :: k < |most| ==> (Marks(g, commands, k, n) <==> Marks(g, most, k, n) && !c.Rset?);
    assert Marks(g, commands, |most|, n) <==>
           Exec(g, FRESH, [], most).drop.state == STransaction && c == Dele(Args(1, Some(n + 1)));
  }

  /** A session that is not in the transaction now never was. */
  lemma {:induction false} NoMarksBefore(g: Found, commands: seq<Command>, n: nat)
    requires Exec(g, FRESH, [], commands).drop.state != STransaction
    ensures !MarkedIn(g, commands, n)
    decreases |commands|
  {
    if commands != [] {
      hide Step, Exec, EndOf;
      var most, c := commands[..|commands| - 1], commands[|commands| - 1];
      assert commands == most + [c];
      ExecAppends(g, FRESH, [], most, c);
      if Exec(g, FRESH, [], most).drop.state == STransaction {
        TransactionStays(g, Exec(g, FRESH, [], most).drop, c);
      }
      NoMarksBefore(g, most, n);
      OneMoreMarks(g, most, c, n);
    }
  }

  // What single commands answer.

  /** RETR sends exactly the message with this number, if it has no mark; it never changes the session. */
  lemma RetrSendsTheMessage(g: Found, d: Drop, k: int, access: Access)
    requires d.state == STransaction
    ensures var (next, r, answers) := Step(g, d, Retr(Args(1, Some(k)), access));
            && next == d
            && (1 <= k <= |d.entries| && k - 1 !in d.marks && d.entries[k - 1].mail in g.blobs
                && access == Access(true, None) ==>
                  r == Replied(true) && answers == [Message(g.blobs[d.entries[k - 1].mail])])
            && (!(1 <= k <= |d.entries| && k - 1 !in d.marks) ==> r == Replied(false) && answers == [])
            && (1 <= k <= |d.entries| && k - 1 !in d.marks && (d.entries[k - 1].mail !in g.blobs || !access.opens) ==>
                  r == Fail && answers == [])
  {
  }

  /** If the disk fails while a message is read, its first bytes are sent, and the session ends. */
  lemma RetrSendsAPart(g: Found, d: Drop, k: int, readable: nat)
    requires d.state == STransaction && 1 <= k <= |d.entries| && k - 1 !in d.marks && d.entries[k - 1].mail in g.blobs
    requires readable <= |g.blobs[d.entries[k - 1].mail]|
    ensures Step(g, d, Retr(Args(1, Some(k)), Access(true, Some(readable))))
         == (d, Fail, [Message(g.blobs[d.entries[k - 1].mail][..readable])])
  {
  }

  /** LIST with a number tells the size of the message with this number, but a number that is one less. */
  lemma ListTellsTheSize(g: Found, d: Drop, k: int)
    requires d.state == STransaction
    ensures Step(g, d, List(Args(1, Some(k)))) ==
              if 1 <= k <= |d.entries| && k - 1 !in d.marks then (d, Replied(true), [Single(k - 1, d.entries[k - 1].size)])
              else (d, Replied(false), [])
    ensures Step(g, d, List(Args(0, None))).2 ==
              [Listing(|d.entries| - |d.marks|, d.size - d.sizeDel, d.Lines(|d.entries|))]
  {
  }

  /** Before the transaction the commands of the transaction are refused, and in it USER and PASS are. */
  lemma CommandsHaveTheirState(g: Found, d: Drop, c: Command)
    ensures d.state != STransaction && (c.List? || c.Retr? || c.Dele? || c.Rset?) ==> Step(g, d, c) == (d, BadSequence, [])
    ensures d.state == STransaction && (c.User? || c.Pass?) ==> Step(g, d, c) == (d, BadSequence, [])
    ensures d.state == SInit && c.Pass? ==> Step(g, d, c) == (d, BadSequence, [])
  {
  }

  /**
   * In a session: what is written for RETR of a message without a mark decodes to the normal form of the blob of that
   * message in the listing taken at login.
   */
  lemma RetrInSession(g: Found, commands: seq<Command>, k: nat, rest: Text)
    requires var run := Exec(g, FRESH, [], commands);
             run.end == HungUp && run.drop.state == STransaction && !MarkedIn(g, commands, k)
    requires k < |g.list| && g.list[k].mail in g.blobs
    ensures var run, retr := Exec(g, FRESH, [], commands), Retr(Args(1, Some(k + 1)), Access(true, None));
            var more := Exec(g, FRESH, [], commands + [retr]);
            && more == Run(run.drop, HungUp, run.answers + [Message(g.blobs[g.list[k].mail])])
            && Blocks(more.answers) == Blocks(run.answers) + Encode(g.blobs[g.list[k].mail])
            && Decode(Encode(g.blobs[g.list[k].mail]) + rest) == Decoded(Norm(g.blobs[g.list[k].mail]), rest, true)
  {
    hide Step, Exec, MarkedIn, Encode, Decode, Norm;
    var run, c, blob := Exec(g, FRESH, [], commands), Retr(Args(1, Some(k + 1)), Access(true, None)), g.blobs[g.list[k].mail];
    MarksExactly(g, commands);
    RetrSendsTheMessage(g, run.drop, k + 1, Access(true, None));
    ExecAppends(g, FRESH, [], commands, c);
    BlocksAppend(run.answers, [Message(blob)]);
    assert [Message(blob)][..0] == [] && Blocks([]) == [] && [] + Encode(blob) == Encode(blob);
    RoundTrip(blob, rest);
  }

  /**
   * As long as each mail row has its blob, every message of the listing can be retrieved, and the size in its line is
   * the number of bytes of its blob.
   */
  lemma RetrMatchesTheListing(t: Tables, g: Found, d: Drop, k: nat)
    requires d.state == STransaction && t.NewestFirst(d.id, d.entries)
    requires forall id :: id in t.mails ==> id in g.blobs && t.mails[id].size == |g.blobs[id]|
    requires k < |d.entries| && k !in d.marks
    ensures var mail := d.entries[k].mail;
            && (d.id, mail) in t.entries && mail in g.blobs
            && (k + 1, |g.blobs[mail]|) in d.Lines(|d.entries|)
            && Step(g, d, Retr(Args(1, Some(k + 1)), Access(true, None))).2 == [Message(g.blobs[mail])]
  {
    var mail := d.entries[k].mail;
    assert mail in Mails(d.entries) && mail in t.Joined(d.id);
    LinesAreTheUnmarked(d, |d.entries|, (k + 1, |g.blobs[mail]|));
    RetrSendsTheMessage(g, d, k + 1, Access(true, None));
  }

  /** After USER the name is that of the last USER with one argument. */
  ghost predicate Names(commands: seq<Command>, k: nat, name: Text)
    requires k < |commands|
  {
    && commands[k] == User([name])
    && forall j :: k < j < |commands| && commands[j].User? ==> |commands[j].names| != 1
  }

  ghost predicate NamedIn(commands: seq<Command>, name: Text) {
    exists k: nat :: k < |commands| && Names(commands, k, name)
  }

  lemma OneMoreName(most: seq<Command>, c: Command, name: Text)
    ensures NamedIn(most, name) && !(c.User? && |c.names| == 1) ==> NamedIn(most + [c], name)
    ensures c == User([name]) ==> NamedIn(most + [c], name)
  {
    var commands := most + [c];
    if c == User([name]) {
      assert Names(commands, |most|, name);
    }
    if k: nat :| k < |most| && Names(most, k, name) {
      assert commands[k] == most[k];
      if !(c.User? && |c.names| == 1) {
        assert Names(commands, k, name);
      }
    }
  }

  /** PASS is answered for the name of the last USER that was accepted. */
  lemma {:induction false} LastUserCounts(g: Found, commands: seq<Command>)
    requires Exec(g, FRESH, [], commands).end == HungUp
    ensures var d := Exec(g, FRESH, [], commands).drop;
            && (d.state == SUser ==> NamedIn(commands, d.name))
            && (d.state == SInit ==> forall c :: c in commands && c.User? ==> |c.names| != 1)
    decreases |commands|
  {
    if commands != [] {
      hide Step, Exec, EndOf, NamedIn;
      var most, c := commands[..|commands| - 1], commands[|commands| - 1];
      assert commands == most + [c];
      ExecAppends(g, FRESH, [], most, c);
      LastUserCounts(g, most);
      var before := Exec(g, FRESH, [], most).drop;
      UserSetsName(g, before, c);
      OneMoreName(most, c, Step(g, before, c).0.name);
      assert forall x :: x in commands <==> x in most || x == c;
    } else {
      assert Exec(g, FRESH, [], commands).drop == FRESH;
    }
  }

  lemma UserSetsName(g: Found, d: Drop, c: Command)
    ensures var next := Step(g, d, c).0;
            && (d.state != STransaction && c.User? && |c.names| == 1 ==> next.state == SUser && c == User([next.name]))
            && (!(c.User? && |c.names| == 1) ==> next.name == d.name && (next.state == d.state || next.state == STransaction))
            && (d.state == STransaction ==> next.state == STransaction)
  {
    if c.User? && |c.names| == 1 {
      assert c.names == [c.names[0]];
    }
  }

  // The handlers.

  class Session {
    var state: Phase
    var name: Text
    var id: int
    var entries: seq<Item>
    var marks: set<nat>
    var size: int
    var sizeDel: int
    const w: Output

    constructor (w: Output)
      ensures View() == FRESH && this.w == w
    {
      state, name, id, entries, marks, size, sizeDel := SInit, [], 0, [], {}, 0, 0;
      this.w := w;
    }

    function View(): Drop
      reads this
    {
      Drop(state, name, id, entries, marks, size, sizeDel)
    }

    method User(args: seq<Text>) returns (r: Result)
      modifies this
      ensures r == if old(state) == STransaction then BadSequence else if |args| != 1 then InvalidSyntax else Replied(true)
      ensures View() == if r == Replied(true) then old(View()).Named(args[0]) else old(View())
    {
      if state != SInit && state != SUser {
        return BadSequence;
      }
      if |args| != 1 {
        return InvalidSyntax;
      }
      name, state := args[0], SUser;
      return Replied(true);
    }

    /** Locks the maildrop and takes the snapshot; if the snapshot fails, the lock stays. */
    method Pass(count: nat, logins: Text -> Login, fault: bool, cut: nat, locks: Locks, db: DB) returns (r: Result)
      modifies this, locks
      ensures var login := logins(old(name));
              r == if old(state) != SUser then BadSequence
                   else if count != 1 then InvalidSyntax
                   else if login == Broken then Fail
                   else if login == Wrong || login.id in old(locks.entries) then Replied(false)
                   else if fault then Fail
                   else Replied(true)
      ensures var login := logins(old(name));
              if r == Replied(true) then
                && db.View().Snapshot(login.id, entries, cut)
                && View() == old(View()).Opened(login.id, entries, Total(entries))
              else View() == if r == Fail && login.Known? then old(View()).(entries := [], size := 0) else old(View())
      ensures var login := logins(old(name));
              locks.entries == old(locks.entries) +
                if r == Replied(true) || (r == Fail && login.Known?) then {login.id} else {}
    {
      hide Tables.Snapshot;
      if state != SUser {
        return BadSequence;
      }
      if count != 1 {
        return InvalidSyntax;
      }
      var login := logins(name);
      if login == Broken {
        return Fail;
      }
      if login == Wrong {
        return Replied(false);
      }
      var locked := locks.Lock(login.id);
      if !locked {
        return Replied(false);
      }
      var list, total, ok := db.Entries(login.id, fault, cut);
      entries, size := list, total;
      if !ok {
        return Fail;
      }
      id, marks := login.id, {};
      state := STransaction;
      return Replied(true);
    }

    /** The listing of all messages: count, octets, and a line for each message without a mark. */
    method ListAll() returns (r: Result, count: int, octets: int, lines: seq<(int, int)>)
      ensures r == if state == STransaction then Replied(true) else BadSequence
      ensures r == Replied(true) ==>
                count == View().HeaderCount() && octets == View().HeaderOctets() && lines == View().Lines(|entries|)
    {
      if state != STransaction {
        return BadSequence, 0, 0, [];
      }
      count, octets, lines := |entries| - |marks|, size - sizeDel, [];
      for i := 0 to |entries|
        invariant lines == View().Lines(i)
      {
        if i in marks {
          continue;
        }
        lines := lines + [(i + 1, entries[i].size)];
      }
      r := Replied(true);
    }

    /** The number of an existing message without a mark, counted from 0. */
    method Select(args: Args) returns (r: Result, n: int)
      ensures r == if state != STransaction then BadSequence
                   else if args.count != 1 || args.number.None? then InvalidSyntax
                   else Replied(View().Exists(args.number.value - 1))
      ensures r == Replied(true) ==> n == args.number.value - 1
    {
      if state != STransaction {
        return BadSequence, 0;
      }
      if args.count != 1 || args.number.None? {
        return InvalidSyntax, 0;
      }
      n := args.number.value - 1;
      if n < 0 || n >= |entries| || n in marks {
        return Replied(false), n;
      }
      return Replied(true), n;
    }

    method Dele(args: Args) returns (r: Result)
      modifies this
      ensures r == if old(state) != STransaction then BadSequence
                   else if args.count != 1 || args.number.None? then InvalidSyntax
                   else Replied(old(View()).Exists(args.number.value - 1))
      ensures View() == if r == Replied(true) then old(View()).Marked(args.number.value - 1) else old(View())
    {
      var n;
      r, n := Select(args);
      if r == Replied(true) {
        marks := marks + {n};
        sizeDel := sizeDel + entries[n].size;
      }
    }

    method Rset() returns (r: Result)
      modifies this
      ensures r == if old(state) == STransaction then Replied(true) else BadSequence
      ensures View() == if r == Replied(true) then old(View()).Unmarked() else old(View())
    {
      if state != STransaction {
        return BadSequence;
      }
      if |marks| > 0 {
        marks := {};
        sizeDel := 0;
      }
      return Replied(true);
    }

    /** Sends the stored mail, or what can be read of it. */
    method Retr(args: Args, access: Access, blobs: Blobs) returns (r: Result, answers: seq<Answer>)
      modifies w
      ensures (View(), r, answers) == Step(Found({}, [], blobs.fs.files), View(), Command.Retr(args, access))
      ensures w.out == old(w.out) + Blocks(answers)
    {
      var n;
      r, n := Select(args);
      answers := [];
      if r == Replied(true) {
        var mail := entries[n].mail;
        var ok := Transmit(blobs, mail, access, w);
        if mail in blobs.fs.files && access.opens {
          answers := [Message(access.Yields(blobs.fs.files[mail]))];
          assert answers[..0] == [];
        }
        if !ok {
          return Fail, answers;
        }
      }
    }

    /** The listing of all messages or the line for one; the latter tells the number counted from 0. */
    method List(args: Args) returns (r: Result, answers: seq<Answer>)
      ensures (View(), r, answers) == Step(Found({}, [], map[]), View(), Command.List(args))
      ensures Blocks(answers) == []
    {
      if state == STransaction && args.count == 0 {
        var count, octets, lines;
        r, count, octets, lines := ListAll();
        answers := [Listing(count, octets, lines)];
        assert answers[..0] == [];
        return;
      }
      var n;
      r, n := Select(args);
      answers := if r == Replied(true) then [Single(n, entries[n].size)] else [];
      assert answers != [] ==> answers[..0] == [];
    }

    /** Deletes the marked mails of the mailbox, and cleans up; without a transaction it only closes the session. */
    method Quit(fault: bool, sweep: Sweep, db: DB, blobs: Blobs) returns (r: Result)
      requires View().Accounted()
      modifies db, blobs.fs
      ensures r == if state == STransaction && fault then Fail else Close
      ensures (db.View(), blobs.fs.files) ==
                if state == STransaction && !fault then AfterQuit(View(), sweep, old(db.View()), old(blobs.fs.files))
                else (old(db.View()), old(blobs.fs.files))
    {
      if state == STransaction {
        var mails := CollectMarked(entries, marks, View());
        var ok := db.DeleteEntries(mails, id, fault);
        if !ok {
          return Fail;
        }
        var _ := Clean(db, blobs, sweep);
      }
      return Close;
    }
  }

  /** Tables and blobs after the marked mails were deleted and orphans collected, as far as that went. */
  function AfterQuit(d: Drop, sweep: Sweep, t0: Tables, blobs: map<Name, Text>): (Tables, map<Name, Text>) {
    var t := t0.DeleteEntries(d.MarkedMails(), d.id);
    if sweep.fault then (t, blobs) else (t.DeleteOrphans(), Swept(blobs, t.Orphans(), sweep))
  }

  /**
   * What QUIT leaves: all entries but those of the marked messages in the session's own mailbox; of the mails, if the
   * collection succeeds, just those that are still in some mailbox or queued, and of the blobs just those that do not
   * belong to a collected mail or cannot be removed.
   */
  lemma QuitLeavesExactly(d: Drop, sweep: Sweep, t: Tables, blobs: map<Name, Text>)
    requires d.Accounted()
    ensures var (u, rest) := AfterQuit(d, sweep, t, blobs);
            && u.queue == t.queue && Extends(u.mails, t.mails) && Extends(rest, blobs)
            && (forall e :: e in u.entries <==>
                  e in t.entries && !(e.0 == d.id && exists n :: n in d.marks && d.entries[n].mail == e.1))
            && (forall id :: id in u.mails <==>
                  id in t.mails && (sweep.fault || id in t.queue || exists e :: e in u.entries && e.1 == id))
            && (forall id :: id in rest <==> id in blobs && (id !in t.mails || id in u.mails || id in sweep.stuck))
  {
    var u0 := t.DeleteEntries(d.MarkedMails(), d.id);
    assert forall id :: u0.Listed(id) <==> exists e :: e in u0.entries && e.1 == id;
  }

  /** Where a session stands, compared with the locks, the tables and the blobs at its beginning. */
  ghost predicate Standing(s: Session, end: End, locks: Locks, db: DB, blobs: Blobs,
                           locks0: set<int>, t0: Tables, blobs0: map<Name, Text>)
    reads s, locks, db, blobs.fs
  {
    && s.View().Accounted()
    && locks.entries == locks0 + (if s.state == STransaction then {s.id} else {}) + (if end.Leaked? then {end.id} else {})
    && (s.state == STransaction ==> s.id !in locks0)
    && (end.Leaked? ==> s.state != STransaction && end.id !in locks0)
    && (end.Deleted? ==> s.state == STransaction)
    && (db.View(), blobs.fs.files) == if end.Deleted? then AfterQuit(s.View(), end.sweep, t0, blobs0) else (t0, blobs0)
  }

  /** Every command keeps the accounting right. */
  lemma StepIsAccounted(g: Found, d: Drop, c: Command)
    requires d.Accounted()
    ensures Step(g, d, c).0.Accounted()
  {
    hide Drop.Accounted, Drop.Marked, Drop.Unmarked, Drop.Lines;
    StepsAreAccounted(d);
  }

  lemma PlainStep(g: Found, d: Drop, c: Command)
    requires !c.Pass? && !c.Quit?
    ensures var next := Step(g, d, c).0;
            next.id == d.id && next.entries == d.entries && (next.state == STransaction <==> d.state == STransaction)
    ensures EndOf(d, c, Step(g, d, c).1) == Closed
  {
  }

  /** Calls the handler for a command that only concerns the session itself. */
  method DispatchPlain(c: Command, s: Session, blobs: Blobs, ghost g: Found) returns (r: Result, answers: seq<Answer>)
    requires !c.Pass? && !c.Quit? && g.blobs == blobs.fs.files
    modifies s, s.w
    ensures (s.View(), r, answers) == Step(g, old(s.View()), c)
    ensures s.w.out == old(s.w.out) + Blocks(answers)
  {
    hide Drop.Accounted, Drop.MarkedMails, Drop.Lines, Encode;
    r, answers := Replied(true), [];
    match c {
      case User(names) => r := s.User(names);
      case List(args) => r, answers := s.List(args);
      case Retr(args, access) => r, answers := s.Retr(args, access, blobs);
      case Dele(args) => r := s.Dele(args);
      case Rset => r := s.Rset();
      case Other(result) => r := result;
      case _ => assert false;
    }
  }

  /** Calls the handler for a command, and tells how the session goes on. */
  method Dispatch(c: Command, s: Session, locks: Locks, db: DB, blobs: Blobs,
                  ghost locks0: set<int>, ghost t0: Tables, ghost blobs0: map<Name, Text>)
    returns (r: Result, answers: seq<Answer>)
    requires Standing(s, HungUp, locks, db, blobs, locks0, t0, blobs0)
    modifies s, s.w, locks, db, blobs.fs
    ensures (s.View(), r, answers) == Step(Found(locks0, s.entries, blobs0), old(s.View()), c)
    ensures s.w.out == old(s.w.out) + Blocks(answers)
    ensures c.Pass? && r == Replied(true) ==> t0.Snapshot(s.id, s.entries, c.cut)
    ensures Standing(s, if r == Close || r == Fail then EndOf(old(s.View()), c, r) else HungUp,
                     locks, db, blobs, locks0, t0, blobs0)
  {
    hide Drop.Accounted, Drop.MarkedMails, Drop.Lines, Tables.Snapshot, AfterQuit;
    ghost var before := s.View();
    NothingOpened(before);
    if c.Pass? {
      r := s.Pass(c.count, c.logins, c.fault, c.cut, locks, db);
      answers := [];
      StepIsAccounted(Found(locks0, s.entries, blobs0), before, c);
    } else if c.Quit? {
      r := s.Quit(c.fault, c.sweep, db, blobs);
      answers := [];
    } else {
      hide Step, EndOf;
      ghost var g := Found(locks0, s.entries, blobs0);
      r, answers := DispatchPlain(c, s, blobs, g);
      StepIsAccounted(g, before, c);
      PlainStep(g, before, c);
    }
  }

  /** Before the transaction it does not matter what the listing is going to be. */
  lemma AnyListing(g: Found, h: Found, d: Drop, c: Command)
    requires g.locked == h.locked && g.blobs == h.blobs
    requires Step(g, d, c).0.state != STransaction
    ensures Step(g, d, c) == Step(h, d, c)
  {
  }

  lemma TransactionStays(g: Found, d: Drop, c: Command)
    requires d.state == STransaction
    ensures Step(g, d, c).0.state == STransaction && Step(g, d, c).0.entries == d.entries
  {
  }

  /** The run so far, as seen from where the session stands. */
  ghost predicate Follows(locks0: set<int>, blobs0: map<Name, Text>, commands: seq<Command>,
                          d: Drop, answers: seq<Answer>, rest: seq<Command>) {
    forall list :: (d.state == STransaction ==> list == d.entries) ==>
      Exec(Found(locks0, list, blobs0), FRESH, [], commands) == Exec(Found(locks0, list, blobs0), d, answers, rest)
  }

  lemma FollowsNext(locks0: set<int>, blobs0: map<Name, Text>, commands: seq<Command>,
                    d: Drop, answers: seq<Answer>, rest: seq<Command>, next: Drop, r: Result, more: seq<Answer>)
    requires Follows(locks0, blobs0, commands, d, answers, rest) && rest != []
    requires (next, r, more) == Step(Found(locks0, next.entries, blobs0), d, rest[0])
    ensures if r == Close || r == Fail then
              Exec(Found(locks0, next.entries, blobs0), FRESH, [], commands) == Run(next, EndOf(d, rest[0], r), answers + more)
            else Follows(locks0, blobs0, commands, next, answers + more, rest[1..])
  {
    hide Step, EndOf;
    var found := Found(locks0, next.entries, blobs0);
    if d.state == STransaction {
      TransactionStays(found, d, rest[0]);
    }
    forall list | next.state == STransaction ==> list == next.entries
      ensures Step(Found(locks0, list, blobs0), d, rest[0]) == (next, r, more)
    {
      if next.state != STransaction {
        AnyListing(found, Found(locks0, list, blobs0), d, rest[0]);
      }
    }
  }

  /** In the transaction the entries are what the PASS that opened it could fetch; before it, no PASS has. */
  ghost predicate OpenedBy(locks0: set<int>, t0: Tables, blobs0: map<Name, Text>, commands: seq<Command>,
                           d: Drop, rest: seq<Command>) {
    if d.state == STransaction then
      t0.Snapshot(d.id, d.entries, OpeningCut(Found(locks0, d.entries, blobs0), FRESH, commands))
    else
      forall list ::
        OpeningCut(Found(locks0, list, blobs0), FRESH, commands) == OpeningCut(Found(locks0, list, blobs0), d, rest)
  }

  /**
   * A maildrop is opened exactly by a PASS after USER, with a right password for that name, if it is free and can be
   * listed.
   */
  lemma OpensExactly(g: Found, d: Drop, c: Command)
    ensures var (next, r, _) := Step(g, d, c);
            && (d.state != STransaction && next.state == STransaction <==> c.Pass? && r == Replied(true))
            && (c.Pass? && r == Replied(true) <==>
                  && c.Pass? && d.state == SUser && c.count == 1 && c.logins(d.name).Known? && c.logins(d.name).id !in g.locked
                  && !c.fault)
            && (c.Pass? && r == Replied(true) ==>
                  next.id == c.logins(d.name).id && next.entries == g.list && next.marks == {})
            && (d.state == STransaction ==> next.id == d.id && next.entries == d.entries && next.state == STransaction)
  {
  }

  lemma OpenedNext(locks0: set<int>, t0: Tables, blobs0: map<Name, Text>, commands: seq<Command>,
                   d: Drop, rest: seq<Command>, next: Drop, r: Result, more: seq<Answer>)
    requires OpenedBy(locks0, t0, blobs0, commands, d, rest) && rest != []
    requires (next, r, more) == Step(Found(locks0, next.entries, blobs0), d, rest[0])
    requires rest[0].Pass? && r == Replied(true) ==> t0.Snapshot(next.id, next.entries, rest[0].cut)
    ensures next.state == STransaction || (r != Close && r != Fail) ==>
              OpenedBy(locks0, t0, blobs0, commands, next, rest[1..])
  {
    hide Step, Tables.Snapshot;
    var found := Found(locks0, next.entries, blobs0);
    OpensExactly(found, d, rest[0]);
    if next.state != STransaction {
      forall list
        ensures Step(Found(locks0, list, blobs0), d, rest[0]) == (next, r, more)
      {
        AnyListing(found, Found(locks0, list, blobs0), d, rest[0]);
      }
    }
  }

  /**
   * A whole session over the commands of a client, up to the end of its input: its view, its end and its answers are
   * those of the run of the commands, for the listing that it took. The marked mails of the listing are deleted
   * exactly if the run ends so, and nothing else happens to the stores; the maildrop is locked during the transaction
   * and released at its end, except that the lock of a failed snapshot is never released.
   */
  method Handle(commands: seq<Command>, w: Output, locks: Locks, db: DB, blobs: Blobs)
    returns (end: End, s: Session, answers: seq<Answer>)
    modifies w, locks, db, blobs.fs
    ensures fresh(s) && s.View().Accounted()
    ensures Run(s.View(), end, answers) == Exec(Found(old(locks.entries), s.entries, old(blobs.fs.files)), FRESH, [], commands)
    ensures w.out == old(w.out) + Blocks(answers)
    ensures s.state == STransaction ==> s.id !in old(locks.entries)
    ensures s.state == STransaction ==>
              var cut := OpeningCut(Found(old(locks.entries), s.entries, old(blobs.fs.files)), FRESH, commands);
              && old(db.View()).Snapshot(s.id, s.entries, cut)
              && (old(db.View()).Listing(s.id, s.entries) <==> old(db.View()).Due(s.id) <= cut)
    ensures end.Leaked? ==> end.id !in old(locks.entries)
    ensures locks.entries == old(locks.entries) + if end.Leaked? then {end.id} else {}
    ensures (db.View(), blobs.fs.files) ==
              if end.Deleted? then AfterQuit(s.View(), end.sweep, old(db.View()), old(blobs.fs.files))
              else (old(db.View()), old(blobs.fs.files))
  {
    hide Drop.Accounted, Drop.MarkedMails, Tables.Snapshot, AfterQuit, Step, Exec, EndOf, Follows, OpenedBy, OpeningCut, Blocks;
    ghost var locks0, t0, blobs0 := locks.entries, db.View(), blobs.fs.files;
    FreshIsAccounted();
    s := new Session(w);
    end, answers := HungUp, [];
    var i := 0;
    RunBegins(locks0, blobs0, commands);
    while i < |commands|
      invariant i <= |commands| && s.w == w
      invariant Standing(s, HungUp, locks, db, blobs, locks0, t0, blobs0)
      invariant Follows(locks0, blobs0, commands, s.View(), answers, commands[i..])
      invariant OpenedBy(locks0, t0, blobs0, commands, s.View(), commands[i..])
      invariant w.out == old(w.out) + Blocks(answers)
    {
      var before := s.View();
      assert commands[i..][0] == commands[i] && commands[i..][1..] == commands[i + 1..];
      var r, more := Dispatch(commands[i], s, locks, db, blobs, locks0, t0, blobs0);
      FollowsNext(locks0, blobs0, commands, before, answers, commands[i..], s.View(), r, more);
      OpenedNext(locks0, t0, blobs0, commands, before, commands[i..], s.View(), r, more);
      BlocksAppend(answers, more);
      Associate(old(w.out), Blocks(answers), Blocks(more));
      answers := answers + more;
      if r == Close || r == Fail {
        end := EndOf(before, commands[i], r);
        OpenedWhole(locks0, t0, blobs0, commands, s.View(), commands[i + 1..]);
        break;
      }
      i := i + 1;
    }
    if i == |commands| {
      assert commands[i..] == [];
      RunEnds(locks0, blobs0, commands, s.View(), answers);
      OpenedWhole(locks0, t0, blobs0, commands, s.View(), []);
    }
    if s.state == STransaction {
      locks.Unlock(s.id);
    }
  }

  lemma RunBegins(locks0: set<int>, blobs0: map<Name, Text>, commands: seq<Command>)
    ensures Follows(locks0, blobs0, commands, FRESH, [], commands) && commands[0..] == commands && Blocks([]) == []
    ensures forall t0 :: OpenedBy(locks0, t0, blobs0, commands, FRESH, commands)
  {
  }

  lemma OpenedWhole(locks0: set<int>, t0: Tables, blobs0: map<Name, Text>, commands: seq<Command>,
                    d: Drop, rest: seq<Command>)
    ensures d.state == STransaction && OpenedBy(locks0, t0, blobs0, commands, d, rest) ==>
              var cut := OpeningCut(Found(locks0, d.entries, blobs0), FRESH, commands);
              t0.Snapshot(d.id, d.entries, cut) && (t0.Listing(d.id, d.entries) <==> t0.Due(d.id) <= cut)
  {
    hide OpeningCut;
    if d.state == STransaction && OpenedBy(locks0, t0, blobs0, commands, d, rest) {
      SnapshotIsWholeExactly(t0, d.id, d.entries, OpeningCut(Found(locks0, d.entries, blobs0), FRESH, commands));
    }
  }

  lemma RunEnds(locks0: set<int>, blobs0: map<Name, Text>, commands: seq<Command>, d: Drop, answers: seq<Answer>)
    ensures Follows(locks0, blobs0, commands, d, answers, []) ==>
              Exec(Found(locks0, d.entries, blobs0), FRESH, [], commands) == Run(d, HungUp, answers)
  {
  }

  lemma {:induction false} BlocksAppend(a: seq<Answer>, b: seq<Answer>)
    ensures Blocks(a + b) == Blocks(a) + Blocks(b)
  {
    if b == [] {
      assert a + b == a && Blocks(a) + [] == Blocks(a);
    } else {
      var most, last := b[..|b| - 1], b[|b| - 1];
      assert (a + b)[..|a + b| - 1] == a + most;
      BlocksAppend(a, most);
      Associate(Blocks(a), Blocks(most), if last.Message? then Encode(last.text) else []);
    }
  }
}
