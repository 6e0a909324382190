/** The SMTP session: what every sequence of commands keeps (sections 4.1.1 and 4.1.4 of RFC 5321). */
module Smtp {
  import opened Bytes
  import opened Addressbook
  import opened Database
  import opened Mailman
  import opened DataCommand
  import DotDecoding
  import Lines
  import Storage

  const MAX_RECIPIENTS := 100

  datatype Phase = SInit | SHelo | SMail | SRcpt

  /** The argument of MAIL or RCPT: an address, one of the faults that are answered, or another error. */
  datatype Path = Malformed | BadAddress | TooLong | OtherError | Parsed(address: Address)

  /** The declared size of a mail, if it is given at all and is a number. */
  datatype Declared = Unstated | NotANumber | Stated(size: int)

  datatype Login = BadSyntax | BrokenOff | Denied | Granted(mailbox: int)

  /** The commands, with what the parser, the hooks, the database and the delivery make of them. */
  datatype Event =
    | Helo
    | Rset
    | Mail(path: Path, declared: Declared, hooks: seq<HookResult>)
    | Rcpt(path: Path)
    | Data(outcome: Outcome)
    | Auth(login: Login)
    | Quit
    | Other(result: Result)    // changes nothing in the session: NOOP, VRFY, STARTTLS, and unknown commands

  /** A positive or negative reply of the handler, one of the complaints of the command loop, or the end. */
  datatype Result = Replied(positive: bool) | Complained | Close

  function PathResult(path: Path): Result {
    if path == OtherError then Close else Complained
  }

  /** The state of a session. The mailbox is that of the authenticated user. */
  datatype View = View(state: Phase, from: Option<Address>, to: seq<Address>, headers: seq<Field>, mailbox: Option<int>) {

    /** Authenticated users send from addresses of their own, others from addresses that are not ours. */
    predicate MaySend(book: Book, from: Address) {
      match (book.Lookup(from), mailbox)
      case (None, _) => false
      case (Some(Local(box)), Some(mine)) => box == mine
      case (Some(entry), None) => !entry.Local?
      case _ => false
    }

    /** Only authenticated users may send to addresses elsewhere. */
    predicate MayReach(book: Book, to: Address) {
      match book.Lookup(to)
      case None => false
      case Some(entry) => mailbox.Some? || !entry.Remote?
    }

    function Step(book: Book, maxSize: int, e: Event): (View, Result) {
      match e
      case Helo => (this.(state := SHelo), Replied(true))
      case Rset =>
        (this.(state := if state == SInit then SInit else SHelo, from := None, to := [], headers := []), Replied(true))
      case Mail(path, declared, hooks) =>
        if state != SHelo && state != SMail then (this, Complained)
        else if !path.Parsed? then (this, PathResult(path))
        else if !MaySend(book, path.address) then (this, Replied(false))
        else if maxSize > 0 && declared == NotANumber then (this, Complained)
        else if maxSize > 0 && declared.Stated? && declared.size > maxSize then (this, Replied(false))
        else
          match RunHooks(hooks, []) {
            case HookError => (this, Close)
            case HookReject => (this, Replied(false))
            case HookHeaders(fields) => (this.(state := SMail, from := Some(path.address), headers := fields), Replied(true))
          }
      case Rcpt(path) =>
        if state != SMail && state != SRcpt then (this, Complained)
        else if |to| > MAX_RECIPIENTS then (this, Replied(false))
        else if !path.Parsed? then (this, PathResult(path))
        else if !MayReach(book, path.address) then (this, Replied(false))
        else (this.(state := SRcpt, to := to + [path.address]), Replied(true))
      case Data(outcome) =>
        if state != SRcpt then (this, Complained)
        else
          match outcome {
            case Accepted => (this.(state := SHelo), Replied(true))
            case Closed => (this, Close)
            case _ => (this, Replied(false))
          }
      case Auth(login) =>
        if state != SHelo then (this, Complained)
        else
          match login {
            case BadSyntax => (this, Complained)
            case BrokenOff => (this, Close)
            case Denied => (this, Replied(false))
            case Granted(box) => (this.(mailbox := Some(box)), Replied(true))
          }
      case Quit => (this, Close)
      case Other(result) => (this, result)
    }

    /** What holds of a session at any time. */
    ghost predicate Inv(book: Book) {
      && (state == SMail || state == SRcpt ==> from.Some? && MaySend(book, from.value))
      && (state == SRcpt ==> to != [])
      && |to| <= MAX_RECIPIENTS + 1
      && (forall a :: a in to ==> MayReach(book, a))
    }
  }

  const START := View(SInit, None, [], [], None)

  /** The session after a number of commands; it does nothing more once it is closed. */
  function Exec(book: Book, maxSize: int, s: View, events: seq<Event>): View
    decreases |events|
  {
    if events == [] then s
    else
      var (next, r) := s.Step(book, maxSize, events[0]);
      if r == Close then next else Exec(book, maxSize, next, events[1..])
  }

  /** Whether one of the commands ends the session. */
  predicate Ends(book: Book, maxSize: int, s: View, events: seq<Event>)
    decreases |events|
  {
    events != [] &&
    var (next, r) := s.Step(book, maxSize, events[0]);
    r == Close || Ends(book, maxSize, next, events[1..])
  }

  /** One more command, in a session that goes on. */
  lemma {:induction false} ExecAppends(book: Book, maxSize: int, s: View, events: seq<Event>, e: Event)
    requires !Ends(book, maxSize, s, events)
    ensures var last := Exec(book, maxSize, s, events).Step(book, maxSize, e);
            && Exec(book, maxSize, s, events + [e]) == last.0
            && (Ends(book, maxSize, s, events + [e]) <==> last.1 == Close)
    decreases |events|
  {
    hide View.Step;
    if events == [] {
      assert Exec(book, maxSize, s.Step(book, maxSize, e).0, []) == s.Step(book, maxSize, e).0;
      assert [e][1..] == [] && events + [e] == [e];
    } else {
      assert (events + [e])[1..] == events[1..] + [e];
      ExecAppends(book, maxSize, s.Step(book, maxSize, events[0]).0, events[1..], e);
    }
  }

  lemma StepKeepsInv(book: Book, maxSize: int, s: View, e: Event)
    requires s.Inv(book)
    ensures s.Step(book, maxSize, e).0.Inv(book)
  {
  }

  /**
   * In every session: a sender that is set for a mail is authorised, there are recipients when DATA is allowed,
   * there are never more than 101, and each of them is known and, if it is elsewhere, the user is authenticated.
   */
  lemma {:induction false} SessionsAreAuthorised(book: Book, maxSize: int, s: View, events: seq<Event>)
    requires s.Inv(book)
    ensures Exec(book, maxSize, s, events).Inv(book)
    decreases |events|
  {
    if events != [] {
      StepKeepsInv(book, maxSize, s, events[0]);
      SessionsAreAuthorised(book, maxSize, s.Step(book, maxSize, events[0]).0, events[1..]);
    }
  }

  // When commands are confirmed, in terms of the addressbook.

  /** No hook fails or refuses. */
  predicate AllGiveFields(hooks: seq<HookResult>) {
    forall i :: 0 <= i < |hooks| ==> hooks[i].HookHeaders?
  }

  /**
   * MAIL is confirmed exactly after HELO or another MAIL, for an address that the user owns or, without a login, one
   * that is not ours, for a size within the limit, and if all hooks agree. It then sets sender and fields, and
   * otherwise changes nothing.
   */
  lemma MailIsConfirmedExactly(book: Book, maxSize: int, s: View, path: Path, declared: Declared, hooks: seq<HookResult>)
    ensures var (next, r) := s.Step(book, maxSize, Mail(path, declared, hooks));
            && (r == Replied(true) <==>
                  && (s.state == SHelo || s.state == SMail)
                  && path.Parsed?
                  && (if s.mailbox.Some? then book.Lookup(path.address) == Some(Local(s.mailbox.value))
                      else book.Lookup(path.address).Some? && !book.Lookup(path.address).value.Local?)
                  && (maxSize > 0 ==> declared == Unstated || (declared.Stated? && declared.size <= maxSize))
                  && AllGiveFields(hooks))
            && next == if r == Replied(true) then
                         s.(state := SMail, from := Some(path.address), headers := FieldsOf(hooks))
                       else s
  {
    if AllGiveFields(hooks) {
      AllAgree(hooks, []);
      assert [] + FieldsOf(hooks) == FieldsOf(hooks);
    } else {
      SomeRefuses(hooks, []);
    }
  }

  lemma {:induction false} SomeRefuses(hooks: seq<HookResult>, fields: seq<Field>)
    requires !AllGiveFields(hooks)
    ensures !RunHooks(hooks, fields).HookHeaders?
    decreases |hooks|
  {
    if hooks[0].HookHeaders? {
      assert !AllGiveFields(hooks[1..]) by {
        var i :| 0 <= i < |hooks| && !hooks[i].HookHeaders?;
        assert hooks[1..][i - 1] == hooks[i];
      }
      SomeRefuses(hooks[1..], fields + hooks[0].headers);
    }
  }

  /**
   * RCPT is confirmed exactly after MAIL, as long as there are no more than 100 recipients, for an address that is
   * known and, without a login, not elsewhere. It then adds the recipient, and otherwise changes nothing.
   */
  lemma RcptIsConfirmedExactly(book: Book, maxSize: int, s: View, path: Path)
    ensures var (next, r) := s.Step(book, maxSize, Rcpt(path));
            && (r == Replied(true) <==>
                  && (s.state == SMail || s.state == SRcpt)
                  && |s.to| <= 100
                  && path.Parsed?
                  && book.Lookup(path.address).Some?
                  && (s.mailbox.None? ==> !book.Lookup(path.address).value.Remote?))
            && next == if r == Replied(true) then s.(state := SRcpt, to := s.to + [path.address]) else s
  {
  }

  /** The other commands: what they need, what they change, and what they leave. */
  lemma OtherCommandsExactly(book: Book, maxSize: int, s: View, e: Event)
    ensures e.Helo? ==> s.Step(book, maxSize, e) == (View(SHelo, s.from, s.to, s.headers, s.mailbox), Replied(true))
    ensures e.Rset? ==>
              s.Step(book, maxSize, e)
              == (View(if s.state == SInit then SInit else SHelo, None, [], [], s.mailbox), Replied(true))
    ensures e.Auth? ==>
              s.Step(book, maxSize, e).0
              == if s.state == SHelo && e.login.Granted? then View(SHelo, s.from, s.to, s.headers, Some(e.login.mailbox)) else s
    ensures e.Auth? ==> (s.Step(book, maxSize, e).1 == Replied(true) <==> s.state == SHelo && e.login.Granted?)
    ensures e.Data? ==>
              s.Step(book, maxSize, e).0
              == if s.state == SRcpt && e.outcome == Accepted then View(SHelo, s.from, s.to, s.headers, s.mailbox) else s
    ensures e.Data? ==> (s.Step(book, maxSize, e).1 == Replied(true) <==> s.state == SRcpt && e.outcome == Accepted)
    ensures e.Quit? || e.Other? ==> s.Step(book, maxSize, e).0 == s
  {
  }

  /** The command loop complains, and goes on, exactly for a command out of order or one whose argument is malformed. */
  lemma ComplainsExactly(book: Book, maxSize: int, s: View, e: Event)
    ensures s.Step(book, maxSize, e).1 == Complained <==>
            match e
            case Mail(path, declared, _) =>
              || (s.state != SHelo && s.state != SMail)
              || path == Malformed || path == BadAddress || path == TooLong
              || (path.Parsed? && s.MaySend(book, path.address) && maxSize > 0 && declared == NotANumber)
            case Rcpt(path) =>
              || (s.state != SMail && s.state != SRcpt)
              || (|s.to| <= 100 && (path == Malformed || path == BadAddress || path == TooLong))
            case Data(_) => s.state != SRcpt
            case Auth(login) => s.state != SHelo || login == BadSyntax
            case Other(result) => result == Complained
            case _ => false
  {
  }

  /** The session ends exactly by QUIT, or by an error that the command loop does not know how to answer. */
  lemma ClosesExactly(book: Book, maxSize: int, s: View, e: Event)
    ensures s.Step(book, maxSize, e).1 == Close <==>
            match e
            case Mail(path, declared, hooks) =>
              (s.state == SHelo || s.state == SMail)
              && (path == OtherError
                  || (path.Parsed? && s.MaySend(book, path.address)
                      && (maxSize > 0 ==> declared == Unstated || (declared.Stated? && declared.size <= maxSize))
                      && RunHooks(hooks, []) == HookError))
            case Rcpt(path) => (s.state == SMail || s.state == SRcpt) && |s.to| <= 100 && path == OtherError
            case Data(outcome) => s.state == SRcpt && outcome == Closed
            case Auth(login) => s.state == SHelo && login == BrokenOff
            case Quit => true
            case Other(result) => result == Close
            case _ => false
  {
  }

  /**
   * In every session that has begun a mail the sender is set; it is an address of the user who is logged in, or, if
   * no one is, an address that is not ours.
   */
  lemma SenderIsOwn(book: Book, maxSize: int, events: seq<Event>)
    ensures var s := Exec(book, maxSize, START, events);
            s.state == SMail || s.state == SRcpt ==>
              && s.from.Some?
              && (s.mailbox.Some? ==> book.Lookup(s.from.value) == Some(Local(s.mailbox.value)))
              && (s.mailbox.None? ==> book.Lookup(s.from.value).Some? && !book.Lookup(s.from.value).value.Local?)
  {
    SessionsAreAuthorised(book, maxSize, START, events);
  }

  /** Those of the addresses that a session of this user may send to. */
  function Admitted(book: Book, mailbox: Option<int>, addrs: seq<Address>): seq<Address> {
    if addrs == [] then []
    else
      (if START.(mailbox := mailbox).MayReach(book, addrs[0]) then [addrs[0]] else [])
      + Admitted(book, mailbox, addrs[1..])
  }

  function Rcpts(addrs: seq<Address>): seq<Event> {
    if addrs == [] then [] else [Rcpt(Parsed(addrs[0]))] + Rcpts(addrs[1..])
  }

  function UpTo(to: seq<Address>, n: nat): seq<Address> {
    if |to| <= n then to else to[..n]
  }

  /**
   * Of any addresses, those that may be sent to are added up to a bound of 101, one more than the constant in the
   * code.
   */
  lemma {:induction false} RecipientsUpTo(book: Book, maxSize: int, s: View, addrs: seq<Address>)
    requires (s.state == SMail || s.state == SRcpt) && |s.to| <= 101
    ensures Exec(book, maxSize, s, Rcpts(addrs)).to == UpTo(s.to + Admitted(book, s.mailbox, addrs), 101)
    decreases |addrs|
  {
    hide View.MayReach, View.Step, Exec, Admitted, UpTo;
    if addrs == [] {
      assert Rcpts(addrs) == [];
      NoCommands(book, maxSize, s);
      UpToAll(s.to, Admitted(book, s.mailbox, []));
      AdmittedFirst(book, s, addrs);
    } else {
      var a, more := addrs[0], Admitted(book, s.mailbox, addrs[1..]);
      AdmittedFirst(book, s, addrs);
      RcptStep(book, maxSize, s, a);
      FirstCommand(book, maxSize, s, Rcpt(Parsed(a)), Rcpts(addrs[1..]));
      RecipientsUpTo(book, maxSize, s.Step(book, maxSize, Rcpt(Parsed(a))).0, addrs[1..]);
      if s.MayReach(book, a) {
        assert (s.to + [a]) + more == s.to + ([a] + more);
        UpToAll(s.to, more);
        UpToAll(s.to, [a] + more);
      }
    }
  }

  lemma UpToAll(to: seq<Address>, more: seq<Address>)
    requires |to| <= 101
    ensures more == [] || |to| == 101 ==> UpTo(to + more, 101) == to
  {
    assert more == [] ==> to + more == to;
    assert |to| == 101 ==> (to + more)[..101] == to;
  }

  lemma AdmittedFirst(book: Book, s: View, addrs: seq<Address>)
    ensures Admitted(book, s.mailbox, addrs)
         == if addrs == [] then []
            else if s.MayReach(book, addrs[0]) then [addrs[0]] + Admitted(book, s.mailbox, addrs[1..])
            else Admitted(book, s.mailbox, addrs[1..])
  {
  }

  lemma NoCommands(book: Book, maxSize: int, s: View)
    ensures Exec(book, maxSize, s, []) == s
  {
  }

  lemma FirstCommand(book: Book, maxSize: int, s: View, e: Event, events: seq<Event>)
    ensures var (next, r) := s.Step(book, maxSize, e);
            Exec(book, maxSize, s, [e] + events) == if r == Close then next else Exec(book, maxSize, next, events)
  {
    assert ([e] + events)[1..] == events;
  }

  lemma RcptStep(book: Book, maxSize: int, s: View, a: Address)
    requires s.state == SMail || s.state == SRcpt
    ensures s.Step(book, maxSize, Rcpt(Parsed(a)))
         == if |s.to| <= MAX_RECIPIENTS && s.MayReach(book, a) then (s.(state := SRcpt, to := s.to + [a]), Replied(true))
            else (s, Replied(false))
  {
  }

  /** No mail that DATA hands over fails for an unknown recipient, and none is relayed for a stranger. */
  lemma DataNeverMeetsUnknownRecipients(book: Book, maxSize: int, events: seq<Event>)
    ensures var s := Exec(book, maxSize, START, events);
            && Route(book, s.to).Some?
            && (s.mailbox == None ==> forall a :: a in s.to ==> book.Lookup(a).Some? && !book.Lookup(a).value.Remote?)
  {
    SessionsAreAuthorised(book, maxSize, START, events);
    var s := Exec(book, maxSize, START, events);
    EveryRecipientIsKnown(book, s);
    forall a | a in s.to && s.mailbox == None
      ensures book.Lookup(a).Some? && !book.Lookup(a).value.Remote?
    {
      assert s.MayReach(book, a);
    }
  }

  /**
   * In a session, DATA is confirmed exactly if the block is short enough and whole, cache and blob store have room
   * for it, the hooks agree, the database works, and no two recipients share a mailbox.
   */
  lemma DataIsConfirmedExactly(book: Book, v: View, s: Setting, memoryLimit: int, d: DotDecoding.Decoded, broken: bool,
                               date: int, t: Tables, blobs: map<ID, Text>)
    requires v.Inv(book) && v.state == SRcpt
    requires s.id !in t.mails && s.id !in t.queue && forall e :: e in t.entries ==> e.1 != s.id
    ensures Route(book, v.to).Some?
    ensures Receive(s, memoryLimit, d, broken, Envelope(date, v.from.value, v.to), v.headers, book, t, blobs).outcome
            == Accepted <==>
            && Verdicts(d, broken, s.maxSize) == Accepted
            && var cached := Cached(v.headers, s.received, d.text);
            && Checked(s.hooks, cached).HookHeaders?
            && var blob := BlobOf(v.from.value, PrependAll(Checked(s.hooks, cached).headers, cached));
            && (|cached| >= memoryLimit ==> s.disk.creates && s.disk.Holds(|cached|) && s.disk.rewinds)
            && s.faults.disk.Stores(|blob|)
            && !s.faults.mail
            && (Route(book, v.to).value.mailboxes != [] ==> !s.faults.entries && Distinct(Route(book, v.to).value.mailboxes))
            && (Route(book, v.to).value.queue != [] ==> !s.faults.queue)
  {
    hide Checked, Verdicts, Allowed, DeliverRows, BlobsAfter, Route, PrependAll, Distinct, BlobOf, Cached;
    EveryRecipientIsKnown(book, v);
    EndTellsVerdict(d, broken, s.maxSize);
    var checked := Checked(s.hooks, Cached(v.headers, s.received, d.text));
    if checked.HookHeaders? {
      var envelope := Envelope(date, v.from.value, v.to);
      var mail := PrependAll(checked.headers, Cached(v.headers, s.received, d.text));
      DeliverySucceedsExactly(t, book, s.id, RowOf(envelope, mail), v.to, s.faults);
    }
  }

  lemma EveryRecipientIsKnown(book: Book, v: View)
    requires v.Inv(book)
    ensures Route(book, v.to).Some?
  {
    RouteConserves(book, v.to);
    forall a | a in v.to
      ensures book.Lookup(a).Some?
    {
      assert v.MayReach(book, a);
    }
  }

  // Whom a mail goes to.

  /** The recipients that were confirmed since the last RSET. */
  function ConfirmedSinceRset(book: Book, maxSize: int, s: View, events: seq<Event>, confirmed: seq<Address>): seq<Address>
    decreases |events|
  {
    if events == [] then confirmed
    else
      var (next, r) := s.Step(book, maxSize, events[0]);
      var now := if events[0].Rset? then []
                 else if events[0].Rcpt? && r == Replied(true) && events[0].path.Parsed? then
                   confirmed + [events[0].path.address]
                 else confirmed;
      if r == Close then now else ConfirmedSinceRset(book, maxSize, next, events[1..], now)
  }

  /** The recipients confirmed for the current mail: since the last RSET or the last confirmed MAIL. */
  function ConfirmedForMail(book: Book, maxSize: int, s: View, events: seq<Event>, confirmed: seq<Address>): seq<Address>
    decreases |events|
  {
    if events == [] then confirmed
    else
      var (next, r) := s.Step(book, maxSize, events[0]);
      var now := if events[0].Rset? || (events[0].Mail? && r == Replied(true)) then []
                 else if events[0].Rcpt? && r == Replied(true) && events[0].path.Parsed? then
                   confirmed + [events[0].path.address]
                 else confirmed;
      if r == Close then now else ConfirmedForMail(book, maxSize, next, events[1..], now)
  }

  /** The recipients that were still there when the current mail was begun. */
  function LeftOver(book: Book, maxSize: int, s: View, events: seq<Event>, left: seq<Address>): seq<Address>
    decreases |events|
  {
    if events == [] then left
    else
      var (next, r) := s.Step(book, maxSize, events[0]);
      var now := if events[0].Rset? then [] else if events[0].Mail? && r == Replied(true) then s.to else left;
      if r == Close then now else LeftOver(book, maxSize, next, events[1..], now)
  }

  /** The envelope holds exactly the recipients confirmed since the last RSET. */
  lemma {:induction false} ToIsConfirmedSinceRset(book: Book, maxSize: int, s: View, events: seq<Event>)
    ensures Exec(book, maxSize, s, events).to == ConfirmedSinceRset(book, maxSize, s, events, s.to)
    decreases |events|
  {
    if events != [] {
      ToIsConfirmedSinceRset(book, maxSize, s.Step(book, maxSize, events[0]).0, events[1..]);
    }
  }

  /** The envelope holds those left over when the current mail was begun, and then those confirmed for it. */
  lemma {:induction false} ToIsLeftOverAndConfirmed(book: Book, maxSize: int, s: View, events: seq<Event>,
                                                    left: seq<Address>, confirmed: seq<Address>)
    requires s.to == left + confirmed
    ensures Exec(book, maxSize, s, events).to
         == LeftOver(book, maxSize, s, events, left) + ConfirmedForMail(book, maxSize, s, events, confirmed)
    decreases |events|
  {
    if events != [] {
      var e := events[0];
      var (next, r) := s.Step(book, maxSize, e);
      var left' := if e.Rset? then [] else if e.Mail? && r == Replied(true) then s.to else left;
      var confirmed' := if e.Rset? || (e.Mail? && r == Replied(true)) then []
                        else if e.Rcpt? && r == Replied(true) && e.path.Parsed? then confirmed + [e.path.address]
                        else confirmed;
      assert next.to == left' + confirmed' by {
        if e.Rcpt? && r == Replied(true) {
          assert s.to + [e.path.address] == left + (confirmed + [e.path.address]);
        }
      }
      ToIsLeftOverAndConfirmed(book, maxSize, next, events[1..], left', confirmed');
    }
  }

  // The same, told from the commands.

  /** The `k`th command is executed and confirmed. */
  ghost predicate Confirms(book: Book, maxSize: int, events: seq<Event>, k: nat)
    requires k < |events|
  {
    && !Ends(book, maxSize, START, events[..k])
    && Exec(book, maxSize, START, events[..k]).Step(book, maxSize, events[k]).1 == Replied(true)
  }

  /** The `i`th command adds a recipient, and no RSET comes after it. */
  ghost predicate Adds(book: Book, maxSize: int, events: seq<Event>, i: nat)
    requires i < |events|
  {
    && events[i].Rcpt? && Confirms(book, maxSize, events, i)
    && forall k: nat :: i < k < |events| && events[k].Rset? ==> !Confirms(book, maxSize, events, k)
  }

  /** After it the `j`th command begins another mail. */
  ghost predicate Carries(book: Book, maxSize: int, events: seq<Event>, i: nat, j: nat)
    requires i < j < |events|
  {
    Adds(book, maxSize, events, i) && events[j].Mail? && Confirms(book, maxSize, events, j)
  }

  ghost predicate AnyAdds(book: Book, maxSize: int, events: seq<Event>) {
    exists i: nat :: i < |events| && Adds(book, maxSize, events, i)
  }

  ghost predicate AnyCarries(book: Book, maxSize: int, events: seq<Event>) {
    exists i: nat, j: nat :: i < j < |events| && Carries(book, maxSize, events, i, j)
  }

  lemma OneMoreConfirms(book: Book, maxSize: int, most: seq<Event>, e: Event)
    ensures forall k: nat :: k < |most| ==> (Confirms(book, maxSize, most + [e], k) <==> Confirms(book, maxSize, most, k))
    ensures Confirms(book, maxSize, most + [e], |most|) <==>
            && !Ends(book, maxSize, START, most)
            && Exec(book, maxSize, START, most).Step(book, maxSize, e).1 == Replied(true)
  {
    hide Ends, Exec, View.Step;
    assert forall k: nat :: k < |most| ==> (most + [e])[..k] == most[..k];
    assert (most + [e])[..|most|] == most;
  }

  /** The `k`th command is the last login that is granted. */
  ghost predicate LogsIn(book: Book, maxSize: int, events: seq<Event>, k: nat)
    requires k < |events|
  {
    && events[k].Auth? && Confirms(book, maxSize, events, k)
    && forall j: nat :: k < j < |events| && events[j].Auth? ==> !Confirms(book, maxSize, events, j)
  }

  /** The user of a session is that of its last login that was granted. */
  lemma {:induction false} UserIsLastLogin(book: Book, maxSize: int, events: seq<Event>)
    ensures var s := Exec(book, maxSize, START, events);
            && (s.mailbox.Some? ==>
                  exists k: nat ::
                    k < |events| && LogsIn(book, maxSize, events, k) && events[k].login == Granted(s.mailbox.value))
            && (s.mailbox.None? ==>
                  forall k: nat :: k < |events| && events[k].Auth? ==> !Confirms(book, maxSize, events, k))
    decreases |events|
  {
    if events == [] {
      assert Exec(book, maxSize, START, events) == START;
    } else {
      hide Exec, Ends, View.Step, Confirms;
      var most, e := events[..|events| - 1], events[|events| - 1];
      assert events == most + [e];
      UserIsLastLogin(book, maxSize, most);
      OneMoreConfirms(book, maxSize, most, e);
      assert forall k: nat :: k < |most| ==> events[k] == most[k];
      var before := Exec(book, maxSize, START, most);
      if Ends(book, maxSize, START, most) {
        NothingAfterEnd(book, maxSize, START, most, e, []);
      } else {
        ExecAppends(book, maxSize, START, most, e);
        LoginSetsUser(book, maxSize, before, e);
      }
      if e.Auth? && Confirms(book, maxSize, events, |most|) {
        assert LogsIn(book, maxSize, events, |most|);
      } else if k: nat :| k < |most| && LogsIn(book, maxSize, most, k) && before.mailbox.Some?
                          && most[k].login == Granted(before.mailbox.value) {
        assert LogsIn(book, maxSize, events, k);
      }
    }
  }

  lemma LoginSetsUser(book: Book, maxSize: int, s: View, e: Event)
    ensures var (next, r) := s.Step(book, maxSize, e);
            if e.Auth? && r == Replied(true) then e.login.Granted? && next.mailbox == Some(e.login.mailbox)
            else next.mailbox == s.mailbox
  {
  }

  lemma OneMoreAdds(book: Book, maxSize: int, most: seq<Event>, e: Event)
    ensures var done := Confirms(book, maxSize, most + [e], |most|);
            AnyAdds(book, maxSize, most + [e]) <==> (done && e.Rcpt?) || (AnyAdds(book, maxSize, most) && !(done && e.Rset?))
    ensures var done := Confirms(book, maxSize, most + [e], |most|);
            AnyCarries(book, maxSize, most + [e]) <==>
            if done && e.Rset? then false
            else AnyCarries(book, maxSize, most) || (done && e.Mail? && AnyAdds(book, maxSize, most))
  {
    hide Confirms;
    var events := most + [e];
    var done := Confirms(book, maxSize, events, |most|);
    OneMoreConfirms(book, maxSize, most, e);
    assert forall i: nat :: i < |most| ==> events[i] == most[i];
    forall i: nat | i < |most|
      ensures Adds(book, maxSize, events, i) <==> Adds(book, maxSize, most, i) && !(done && e.Rset?)
    {
    }
    assert Adds(book, maxSize, events, |most|) <==> done && e.Rcpt?;
    if done && e.Rset? {
    } else {
      assert forall i: nat, j: nat :: i < j < |most| ==>
               (Carries(book, maxSize, events, i, j) <==> Carries(book, maxSize, most, i, j));
      assert forall i: nat :: i < |most| ==>
               (Carries(book, maxSize, events, i, |most|) <==> Adds(book, maxSize, most, i) && done && e.Mail?);
    }
  }

  lemma {:induction false} NothingAfterEnd(book: Book, maxSize: int, s: View, events: seq<Event>, e: Event, left: seq<Address>)
    requires Ends(book, maxSize, s, events)
    ensures Exec(book, maxSize, s, events + [e]) == Exec(book, maxSize, s, events)
    ensures LeftOver(book, maxSize, s, events + [e], left) == LeftOver(book, maxSize, s, events, left)
    decreases |events|
  {
    hide View.Step;
    var (next, r) := s.Step(book, maxSize, events[0]);
    assert (events + [e])[1..] == events[1..] + [e];
    if r != Close {
      var now := if events[0].Rset? then [] else if events[0].Mail? && r == Replied(true) then s.to else left;
      NothingAfterEnd(book, maxSize, next, events[1..], e, now);
    }
  }

  lemma {:induction false} LeftOverAppends(book: Book, maxSize: int, s: View, events: seq<Event>, e: Event, left: seq<Address>)
    requires !Ends(book, maxSize, s, events)
    ensures var last := Exec(book, maxSize, s, events);
            LeftOver(book, maxSize, s, events + [e], left) ==
              if e.Rset? then []
              else if e.Mail? && last.Step(book, maxSize, e).1 == Replied(true) then last.to
              else LeftOver(book, maxSize, s, events, left)
    decreases |events|
  {
    hide View.Step;
    if events == [] {
      assert events + [e] == [e] && [e][1..] == [];
    } else {
      var (next, r) := s.Step(book, maxSize, events[0]);
      assert (events + [e])[1..] == events[1..] + [e];
      var now := if events[0].Rset? then [] else if events[0].Mail? && r == Replied(true) then s.to else left;
      LeftOverAppends(book, maxSize, next, events[1..], e, now);
    }
  }

  lemma StepOnTo(book: Book, maxSize: int, s: View, e: Event)
    ensures var (next, r) := s.Step(book, maxSize, e);
            && (e.Rset? ==> r == Replied(true) && next.to == [])
            && (e.Rcpt? && r == Replied(true) ==> next.to != [])
            && (!e.Rset? && !(e.Rcpt? && r == Replied(true)) ==> next.to == s.to)
  {
  }

  /**
   * There are recipients exactly if one was added since the last RSET; some were left over exactly if a mail was
   * begun after that.
   */
  lemma {:induction false} ToFromCommands(book: Book, maxSize: int, events: seq<Event>)
    ensures Exec(book, maxSize, START, events).to != [] <==> AnyAdds(book, maxSize, events)
    ensures LeftOver(book, maxSize, START, events, []) != [] <==> AnyCarries(book, maxSize, events)
    decreases |events|
  {
    if events == [] {
      assert Exec(book, maxSize, START, events) == START;
    } else {
      hide Exec, Ends, LeftOver, View.Step, AnyAdds, AnyCarries, Confirms;
      var most, e := events[..|events| - 1], events[|events| - 1];
      assert events == most + [e];
      ToFromCommands(book, maxSize, most);
      OneMoreConfirms(book, maxSize, most, e);
      OneMoreAdds(book, maxSize, most, e);
      if Ends(book, maxSize, START, most) {
        NothingAfterEnd(book, maxSize, START, most, e, []);
      } else {
        ExecAppends(book, maxSize, START, most, e);
        LeftOverAppends(book, maxSize, START, most, e, []);
        StepOnTo(book, maxSize, Exec(book, maxSize, START, most), e);
        CarriedWereAdded(book, maxSize, most);
      }
    }
  }

  lemma CarriedWereAdded(book: Book, maxSize: int, events: seq<Event>)
    ensures AnyCarries(book, maxSize, events) ==> AnyAdds(book, maxSize, events)
  {
    if i: nat, j: nat :| i < j < |events| && Carries(book, maxSize, events, i, j) {
      assert Adds(book, maxSize, events, i);
    }
  }

  /**
   * A mail goes to just the recipients confirmed for it exactly if no RCPT was confirmed before a confirmed MAIL
   * without a RSET after it.
   */
  lemma MailGoesWhereItShouldExactly(book: Book, maxSize: int, events: seq<Event>)
    ensures Exec(book, maxSize, START, events).to == ConfirmedForMail(book, maxSize, START, events, []) <==>
            forall i: nat, j: nat :: i < j < |events| ==> !Carries(book, maxSize, events, i, j)
  {
    hide Exec, LeftOver, ConfirmedForMail, Carries;
    ToIsLeftOverAndConfirmed(book, maxSize, START, events, [], []);
    ToFromCommands(book, maxSize, events);
    assert [] + ConfirmedForMail(book, maxSize, START, events, []) == ConfirmedForMail(book, maxSize, START, events, []);
  }

  /** A confirmed DATA does not forget the recipients: the next mail of the session goes to them as well. */
  lemma SecondMailGoesToFirstRecipients(book: Book, from: Address, a: Address, b: Address)
    requires START.MaySend(book, from) && START.MayReach(book, a) && START.MayReach(book, b)
    ensures var mail := Mail(Parsed(from), Unstated, []);
            var events := [Helo, mail, Rcpt(Parsed(a)), Data(Accepted), mail, Rcpt(Parsed(b))];
            && Exec(book, 0, START, events).state == SRcpt
            && Exec(book, 0, START, events).to == [a, b]
            && ConfirmedForMail(book, 0, START, events, []) == [b]
  {
    hide Exec, ConfirmedForMail, View.MaySend, View.MayReach;
    var mail := Mail(Parsed(from), Unstated, []);
    var s1 := START.(state := SHelo);
    var s2 := s1.(state := SMail, from := Some(from));
    var s3 := s2.(state := SRcpt, to := [a]);
    var s4 := s3.(state := SHelo);
    var s5 := s4.(state := SMail);
    var s6 := s5.(state := SRcpt, to := [a] + [b]);
    assert s2.to + [a] == [a] && [] + [b] == [b];
    assert s1.MaySend(book, from) && s4.MaySend(book, from) && s2.MayReach(book, a) && s5.MayReach(book, b) by {
      SamePermissions(book, START, s1, from);
      SamePermissions(book, START, s4, from);
      SamePermissions(book, START, s2, a);
      SamePermissions(book, START, s5, b);
    }
    var e5 := [Rcpt(Parsed(b))] + [];
    var e4 := [mail] + e5;
    var e3 := [Data(Accepted)] + e4;
    var e2 := [Rcpt(Parsed(a))] + e3;
    var e1 := [mail] + e2;
    NoStep(book, s6, [b]);
    TakeStep(book, s5, Rcpt(Parsed(b)), [], []);
    TakeStep(book, s4, mail, e5, [a]);
    TakeStep(book, s3, Data(Accepted), e4, [a]);
    TakeStep(book, s2, Rcpt(Parsed(a)), e3, []);
    TakeStep(book, s1, mail, e2, []);
    TakeStep(book, START, Helo, e1, []);
    assert [Helo] + e1 == [Helo, mail, Rcpt(Parsed(a)), Data(Accepted), mail, Rcpt(Parsed(b))];
  }

  lemma SamePermissions(book: Book, s: View, u: View, a: Address)
    requires s.mailbox == u.mailbox
    ensures s.MaySend(book, a) == u.MaySend(book, a) && s.MayReach(book, a) == u.MayReach(book, a)
  {
  }

  lemma NoStep(book: Book, s: View, confirmed: seq<Address>)
    ensures Exec(book, 0, s, []) == s && ConfirmedForMail(book, 0, s, [], confirmed) == confirmed
  {
  }

  /** The first of several commands, if it does not end the session. */
  lemma TakeStep(book: Book, s: View, e: Event, events: seq<Event>, confirmed: seq<Address>)
    requires s.Step(book, 0, e).1 == Replied(true)
    ensures Exec(book, 0, s, [e] + events) == Exec(book, 0, s.Step(book, 0, e).0, events)
    ensures ConfirmedForMail(book, 0, s, [e] + events, confirmed)
         == ConfirmedForMail(book, 0, s.Step(book, 0, e).0, events,
                             if e.Rset? || e.Mail? then []
                             else if e.Rcpt? && e.path.Parsed? then confirmed + [e.path.address]
                             else confirmed)
  {
    assert ([e] + events)[1..] == events;
  }

  // The handlers.

  class Session {
    var state: Phase
    var from: Option<Address>
    var to: seq<Address>
    var headers: seq<Field>
    var mailbox: Option<int>

    constructor ()
      ensures Current() == START
    {
      state, from, to, headers, mailbox := SInit, None, [], [], None;
    }

    ghost function Current(): View
      reads this
    {
      View(state, from, to, headers, mailbox)
    }

    method Helo() returns (r: Result)
      modifies this
      ensures (Current(), r) == old(Current()).Step(Book({}, map[]), 0, Event.Helo)
    {
      state := SHelo;
      return Replied(true);
    }

    method Rset() returns (r: Result)
      modifies this
      ensures (Current(), r) == old(Current()).Step(Book({}, map[]), 0, Event.Rset)
    {
      if state != SInit && state != SHelo {
        state := SHelo;
      }
      from, to, headers := None, [], [];
      return Replied(true);
    }

    method Mail(book: Book, maxSize: int, path: Path, declared: Declared, hooks: seq<HookResult>) returns (r: Result)
      modifies this
      ensures (Current(), r) == old(Current()).Step(book, maxSize, Event.Mail(path, declared, hooks))
    {
      if state != SHelo && state != SMail {
        return Complained;
      }
      if !path.Parsed? {
        return PathResult(path);
      }
      var entry := book.Lookup(path.address);
      if mailbox.Some? {
        if entry.None? || !entry.value.Local? || entry.value.mailbox != mailbox.value {
          return Replied(false);
        }
      } else {
        if entry.None? || entry.value.Local? {
          return Replied(false);
        }
      }
      if maxSize > 0 {
        if declared == NotANumber {
          return Complained;
        }
        if declared.Stated? && declared.size > maxSize {
          return Replied(false);
        }
      }
      var fields: seq<Field> := [];
      for i := 0 to |hooks|
        invariant Current() == old(Current())
        invariant RunHooks(hooks[i..], fields) == RunHooks(hooks, [])
      {
        assert hooks[i..][0] == hooks[i] && hooks[i..][1..] == hooks[i + 1..];
        match hooks[i]
        case HookError => return Close;
        case HookReject => return Replied(false);
        case HookHeaders(more) => fields := fields + more;
      }
      headers := fields;
      from := Some(path.address);
      state := SMail;
      return Replied(true);
    }

    method Rcpt(book: Book, path: Path) returns (r: Result)
      modifies this
      ensures (Current(), r) == old(Current()).Step(book, 0, Event.Rcpt(path))
    {
      if state != SMail && state != SRcpt {
        return Complained;
      }
      if |to| > MAX_RECIPIENTS {
        return Replied(false);
      }
      if !path.Parsed? {
        return PathResult(path);
      }
      var entry := book.Lookup(path.address);
      if entry.None? {
        return Replied(false);
      }
      if mailbox.None? && entry.value.Remote? {
        return Replied(false);
      }
      to := to + [path.address];
      state := SRcpt;
      return Replied(true);
    }

    /** The whole of DATA in a session; what becomes of the mail is in Receive. */
    method Data(s: Setting, conn: Lines.LineReader, date: int, cache: Storage.Cache, postman: Postman)
      returns (r: Result, wakeUp: bool, ghost outcome: Outcome)
      requires Current().Inv(postman.book)
      requires s.name !in cache.fs.files && s.id !in postman.blobs.fs.files && cache.fs != postman.blobs.fs
      modifies this, conn, cache.fs, postman.db, postman.blobs.fs
      ensures (Current(), r) == old(Current()).Step(postman.book, s.maxSize, Event.Data(outcome))
      ensures cache.fs.files - {s.name} == old(cache.fs.files)
      ensures s.disk.closes && s.disk.removes ==> cache.fs.files == old(cache.fs.files)
      ensures old(state) != SRcpt ==>
                && postman.db.View() == old(postman.db.View()) && postman.blobs.fs.files == old(postman.blobs.fs.files)
                && !wakeUp && outcome == Closed && conn.input == old(conn.input)
      ensures old(state) == SRcpt ==>
                && Effect(outcome, postman.db.View(), postman.blobs.fs.files, wakeUp)
                   == Receive(s, cache.memoryLimit, old(DotDecoding.Decode(conn.input)), conn.broken,
                              Envelope(date, old(from).value, old(to)), old(headers),
                              postman.book, old(postman.db.View()), old(postman.blobs.fs.files))
                && (r != Close ==> conn.input == old(DotDecoding.Decode(conn.input)).rest)
    {
      hide Receive, DotDecoding.Decode, View.MaySend, View.MayReach;
      if state != SRcpt {
        return Complained, false, Closed;
      }
      var o;
      o, wakeUp := DataCommand.Data(s, conn, Envelope(date, from.value, to), headers, cache, postman);
      outcome := o;
      match o
      case Accepted =>
        state := SHelo;
        r := Replied(true);
      case Closed => r := Close;
      case _ => r := Replied(false);
    }

    method Auth(login: Login) returns (r: Result)
      modifies this
      ensures (Current(), r) == old(Current()).Step(Book({}, map[]), 0, Event.Auth(login))
    {
      if state != SHelo {
        return Complained;
      }
      match login
      case BadSyntax => return Complained;
      case BrokenOff => return Close;
      case Denied => return Replied(false);
      case Granted(box) =>
        mailbox := Some(box);
        return Replied(true);
    }
  }

  // The command loop.

  /** A command as it arrives; DATA comes with what decides about the mail. */
  datatype Request = Command(event: Event) | Block(setting: Setting, date: int)

  predicate Becomes(request: Request, event: Event) {
    match request
    case Command(e) => event == e
    case Block(_, _) => event.Data?
  }

  /** The ids of the blobs and the names of the files in the cache are new, and each is used once. */
  ghost predicate FreshNames(requests: seq<Request>, blobs: map<ID, Text>, files: map<Storage.Name, Text>) {
    && (forall i :: 0 <= i < |requests| && requests[i].Block? ==>
          requests[i].setting.id !in blobs && requests[i].setting.name !in files)
    && (forall i, j :: 0 <= i < j < |requests| && requests[i].Block? && requests[j].Block? ==>
          requests[i].setting.id != requests[j].setting.id && requests[i].setting.name != requests[j].setting.name)
  }

  lemma FreshFirst(requests: seq<Request>, blobs: map<ID, Text>, files: map<Storage.Name, Text>)
    requires requests != [] && FreshNames(requests, blobs, files)
    ensures requests[0].Block? ==> requests[0].setting.id !in blobs && requests[0].setting.name !in files
  {
  }

  lemma FreshRest(requests: seq<Request>, blobs: map<ID, Text>, files: map<Storage.Name, Text>,
                  blobs': map<ID, Text>, files': map<Storage.Name, Text>)
    requires requests != [] && FreshNames(requests, blobs, files)
    requires forall id :: id in blobs' && id !in blobs ==> requests[0].Block? && id == requests[0].setting.id
    requires forall name :: name in files' && name !in files ==> requests[0].Block? && name == requests[0].setting.name
    ensures FreshNames(requests[1..], blobs', files')
  {
  }

  /** What does not change during a session. */
  datatype Server = Server(book: Book, maxSize: int, memoryLimit: int, broken: bool)

  /** A session and the stores in the middle of the commands, with what became of them so far. */
  datatype World = World(view: View, input: Text, tables: Tables, blobs: map<ID, Text>, wakeUps: nat,
                         events: seq<Event>, closed: bool)

  function Begin(input: Text, tables: Tables, blobs: map<ID, Text>): World {
    World(START, input, tables, blobs, 0, [], false)
  }

  function Proceed(server: Server, w: World, q: Request): World {
    match q
    case Command(e) =>
      var (next, r) := w.view.Step(server.book, server.maxSize, e);
      w.(view := next, events := w.events + [e], closed := r == Close)
    case Block(s, date) =>
      if w.view.state != SRcpt || w.view.from.None? then w.(events := w.events + [Event.Data(Closed)])
      else
        var d := DotDecoding.Decode(w.input);
        var effect := Receive(s, server.memoryLimit, d, server.broken, Envelope(date, w.view.from.value, w.view.to),
                              w.view.headers, server.book, w.tables, w.blobs);
        var e := Event.Data(effect.outcome);
        var (next, r) := w.view.Step(server.book, server.maxSize, e);
        World(next, d.rest, effect.tables, effect.blobs, w.wakeUps + (if effect.wakeUp then 1 else 0),
              w.events + [e], r == Close)
  }

  /** The session and the stores after the requests, of which none is served once the session is closed. */
  function Proceeds(server: Server, w: World, requests: seq<Request>): World
    decreases |requests|
  {
    if requests == [] || w.closed then w else Proceeds(server, Proceed(server, w, requests[0]), requests[1..])
  }

  /** The events that were recorded lead to where the session stands, and are those of the requests. */
  ghost predicate Consistent(server: Server, w: World, served: seq<Request>) {
    && w.view.Inv(server.book)
    && w.view == Exec(server.book, server.maxSize, START, w.events)
    && w.closed == Ends(server.book, server.maxSize, START, w.events)
    && |w.events| == |served| && forall i :: 0 <= i < |served| ==> Becomes(served[i], w.events[i])
  }

  lemma ProceedIsStep(server: Server, w: World, q: Request)
    requires w.view.Inv(server.book)
    ensures var e := Proceed(server, w, q).events;
            && |e| == |w.events| + 1 && e[..|w.events|] == w.events && Becomes(q, e[|w.events|])
            && (Proceed(server, w, q).view == w.view.Step(server.book, server.maxSize, e[|w.events|]).0)
            && (!w.closed ==>
                  (Proceed(server, w, q).closed <==> w.view.Step(server.book, server.maxSize, e[|w.events|]).1 == Close))
  {
    hide Receive, View.MaySend, View.MayReach, RunHooks;
  }

  lemma ProceedIsConsistent(server: Server, w: World, served: seq<Request>, q: Request)
    requires Consistent(server, w, served) && !w.closed
    ensures Consistent(server, Proceed(server, w, q), served + [q])
  {
    hide Proceed, View.Inv, View.Step, Exec, Ends, Becomes;
    ProceedIsStep(server, w, q);
    var u := Proceed(server, w, q);
    var e := u.events[|w.events|];
    assert u.events == w.events + [e];
    StepKeepsInv(server.book, server.maxSize, w.view, e);
    ExecAppends(server.book, server.maxSize, START, w.events, e);
  }

  /** Nothing that was stored before has changed. */
  ghost predicate Keeps(w: World, u: World) {
    && Extends(w.tables.mails, u.tables.mails) && w.tables.entries <= u.tables.entries
    && Extends(w.tables.queue, u.tables.queue) && Extends(w.blobs, u.blobs)
  }

  /** The mail of a confirmed block is there: its row, its entries, its queue row, and its blob. */
  ghost predicate Stored(s: Setting, envelope: Envelope, fields: seq<Field>, text: Text, r: Routes, u: World)
    requires Checked(s.hooks, Cached(fields, s.received, text)).HookHeaders?
  {
    var cached := Cached(fields, s.received, text);
    var mail := PrependAll(Checked(s.hooks, cached).headers, cached);
    && s.id in u.tables.mails && u.tables.mails[s.id] == RowOf(envelope, mail)
    && (forall m :: m in r.mailboxes ==> (m, s.id) in u.tables.entries)
    && (r.queue != [] ==> s.id in u.tables.queue && u.tables.queue[s.id] == QueueRow(0, 0, r.queue))
    && s.id in u.blobs && u.blobs[s.id] == BlobOf(envelope.from, mail)
  }

  lemma ReceiveOnlyAdds(s: Setting, memoryLimit: int, d: DotDecoding.Decoded, broken: bool, envelope: Envelope,
                        fields: seq<Field>, book: Book, t: Tables, blobs: map<ID, Text>)
    requires s.id !in blobs
    ensures var e := Receive(s, memoryLimit, d, broken, envelope, fields, book, t, blobs);
            && Extends(t.mails, e.tables.mails) && t.entries <= e.tables.entries
            && Extends(t.queue, e.tables.queue) && Extends(blobs, e.blobs)
            && forall id :: id in e.blobs && id !in blobs ==> id == s.id
  {
    hide Checked, Fetched, Cached, PrependAll, BlobOf, RowOf, Route, DeliverRows, BlobsAfter;
    var checked := Checked(s.hooks, Cached(fields, s.received, d.text));
    var mail := if checked.HookHeaders? then PrependAll(checked.headers, Cached(fields, s.received, d.text)) else [];
    DeliveryOnlyAdds(t, book, s.id, RowOf(envelope, mail), envelope.to, s.faults);
    BlobsOnlyGrow(blobs, t, s.id, BlobOf(envelope.from, mail), s.faults);
  }

  /** Calls the handler for a request. */
  method Dispatch(session: Session, q: Request, conn: Lines.LineReader, cache: Storage.Cache, postman: Postman,
                  server: Server, ghost w: World)
    returns (r: Result, wakeUp: bool)
    requires server == Server(postman.book, server.maxSize, cache.memoryLimit, conn.broken)
    requires w.view == session.Current() && w.input == conn.input
    requires w.tables == postman.db.View() && w.blobs == postman.blobs.fs.files
    requires w.view.Inv(postman.book)
    requires q.Block? ==> q.setting.maxSize == server.maxSize && q.setting.id !in w.blobs && q.setting.name !in cache.fs.files
    requires q.Command? ==> !q.event.Data?
    requires cache.fs != postman.blobs.fs
    modifies session, conn, cache.fs, postman.db, postman.blobs.fs
    ensures var u := Proceed(server, w, q);
            && u.view == session.Current() && u.tables == postman.db.View() && u.blobs == postman.blobs.fs.files
            && u.wakeUps == w.wakeUps + (if wakeUp then 1 else 0)
            && (!w.closed ==> (u.closed <==> r == Close))
            && (r != Close ==> u.input == conn.input)
    ensures forall id :: id in postman.blobs.fs.files && id !in w.blobs ==> q.Block? && id == q.setting.id
    ensures forall name :: name in cache.fs.files && name !in old(cache.fs.files) ==> q.Block? && name == q.setting.name
    ensures q.Block? && q.setting.disk.closes && q.setting.disk.removes ==> cache.fs.files == old(cache.fs.files)
    ensures q.Command? ==> cache.fs.files == old(cache.fs.files)
  {
    hide View.MaySend, View.MayReach, RunHooks, Receive, DotDecoding.Decode;
    wakeUp := false;
    if q.Block? {
      ghost var outcome;
      r, wakeUp, outcome := session.Data(q.setting, conn, q.date, cache, postman);
      if w.view.state == SRcpt {
        ReceiveOnlyAdds(q.setting, server.memoryLimit, DotDecoding.Decode(w.input), server.broken,
                        Envelope(q.date, w.view.from.value, w.view.to), w.view.headers, server.book, w.tables, w.blobs);
      }
      return;
    }
    match q.event
    case Helo => r := session.Helo();
    case Rset => r := session.Rset();
    case Mail(path, declared, hooks) => r := session.Mail(postman.book, server.maxSize, path, declared, hooks);
    case Rcpt(path) => r := session.Rcpt(postman.book, path);
    case Auth(login) => r := session.Auth(login);
    case Quit => r := Close;
    case Other(result) => r := result;
    case Data(_) => assert false;
  }

  /**
   * Serves a connection until a command ends the session or the input ends: session, tables, blobs and wake-ups are
   * those that the requests lead to. The session is at any time in a state that its commands lead to, and it leaves
   * no files in the cache that can be removed.
   */
  method Serve(requests: seq<Request>, server: Server, conn: Lines.LineReader, cache: Storage.Cache, postman: Postman)
    returns (session: Session, closed: bool, wakeUps: nat, ghost events: seq<Event>)
    requires server == Server(postman.book, server.maxSize, cache.memoryLimit, conn.broken)
    requires FreshNames(requests, postman.blobs.fs.files, cache.fs.files)
    requires forall q :: q in requests && q.Block? ==> q.setting.maxSize == server.maxSize
    requires forall q :: q in requests && q.Command? ==> !q.event.Data?
    requires cache.fs != postman.blobs.fs
    modifies conn, cache.fs, postman.db, postman.blobs.fs
    ensures var u := Proceeds(server, Begin(old(conn.input), old(postman.db.View()), old(postman.blobs.fs.files)), requests);
            && u.view == session.Current() && u.tables == postman.db.View() && u.blobs == postman.blobs.fs.files
            && u.wakeUps == wakeUps && u.events == events && u.closed == closed
    ensures |events| <= |requests| && forall i :: 0 <= i < |events| ==> Becomes(requests[i], events[i])
    ensures session.Current() == Exec(postman.book, server.maxSize, START, events)
    ensures session.Current().Inv(postman.book)
    ensures closed == Ends(postman.book, server.maxSize, START, events)
    ensures !closed ==> |events| == |requests|
    ensures (forall q :: q in requests && q.Block? ==> q.setting.disk.closes && q.setting.disk.removes) ==>
              cache.fs.files == old(cache.fs.files)
  {
    hide Proceed, View.Step, View.Inv, Exec, Ends, Becomes, FreshNames;
    session := new Session();
    closed, wakeUps := false, 0;
    ghost var w := Begin(conn.input, postman.db.View(), postman.blobs.fs.files);
    ghost var first := w;
    BeginIsConsistent(server, w);
    for i := 0 to |requests|
      invariant !closed && !w.closed && Consistent(server, w, requests[..i])
      invariant w.view == session.Current() && w.input == conn.input && w.tables == postman.db.View()
      invariant w.blobs == postman.blobs.fs.files && w.wakeUps == wakeUps
      invariant FreshNames(requests[i..], w.blobs, cache.fs.files)
      invariant Proceeds(server, first, requests) == Proceeds(server, w, requests[i..])
      invariant (forall q :: q in requests && q.Block? ==> q.setting.disk.closes && q.setting.disk.removes) ==>
                  cache.fs.files == old(cache.fs.files)
    {
      assert requests[i..][0] == requests[i] && requests[i..][1..] == requests[i + 1..];
      assert requests[..i + 1] == requests[..i] + [requests[i]];
      ProceedIsConsistent(server, w, requests[..i], requests[i]);
      FreshFirst(requests[i..], w.blobs, cache.fs.files);
      ghost var blobs, files := w.blobs, cache.fs.files;
      var r, wakeUp := Dispatch(session, requests[i], conn, cache, postman, server, w);
      w := Proceed(server, w, requests[i]);
      wakeUps := wakeUps + if wakeUp then 1 else 0;
      if r == Close {
        closed := true;
        events := w.events;
        return;
      }
      FreshRest(requests[i..], blobs, files, w.blobs, cache.fs.files);
    }
    assert requests[..|requests|] == requests;
    events := w.events;
  }

  lemma BeginIsConsistent(server: Server, w: World)
    requires w == Begin(w.input, w.tables, w.blobs)
    ensures Consistent(server, w, [])
  {
  }

  // What was stored stays.

  lemma ProceedOnlyAdds(server: Server, w: World, q: Request)
    requires q.Block? ==> q.setting.id !in w.blobs
    ensures Keeps(w, Proceed(server, w, q))
    ensures forall id :: id in Proceed(server, w, q).blobs && id !in w.blobs ==> q.Block? && id == q.setting.id
  {
    hide Receive, View.Step;
    if q.Block? && w.view.state == SRcpt && w.view.from.Some? {
      ReceiveOnlyAdds(q.setting, server.memoryLimit, DotDecoding.Decode(w.input), server.broken,
                      Envelope(q.date, w.view.from.value, w.view.to), w.view.headers, server.book, w.tables, w.blobs);
    }
  }

  /** Whatever the client does after it, nothing that was stored is lost or changed in its session. */
  lemma {:induction false} SessionOnlyAdds(server: Server, w: World, requests: seq<Request>)
    requires FreshNames(requests, w.blobs, map[])
    ensures Keeps(w, Proceeds(server, w, requests))
    decreases |requests|
  {
    hide Proceed, Keeps, FreshNames;
    if requests == [] || w.closed {
      KeepsItself(w);
    } else {
      var u, rest := Proceed(server, w, requests[0]), requests[1..];
      FreshFirst(requests, w.blobs, map[]);
      ProceedOnlyAdds(server, w, requests[0]);
      FreshRest(requests, w.blobs, map[], u.blobs, map[]);
      SessionOnlyAdds(server, u, rest);
      KeepsOn(w, u, Proceeds(server, u, rest));
    }
  }

  lemma KeepsItself(w: World)
    ensures Keeps(w, w)
  {
  }

  lemma KeepsOn(u: World, v: World, w: World)
    requires Keeps(u, v) && Keeps(v, w)
    ensures Keeps(u, w)
  {
  }

  /** The mail of a confirmed block is stored: for each of its recipients, and with the text that was received. */
  lemma ConfirmedIsStored(server: Server, w: World, s: Setting, date: int)
    requires w.view.Inv(server.book) && w.view.state == SRcpt && s.id !in w.blobs
    requires s.id !in w.tables.mails && s.id !in w.tables.queue && forall e :: e in w.tables.entries ==> e.1 != s.id
    requires Proceed(server, w, Block(s, date)).events == w.events + [Event.Data(Accepted)]
    ensures Route(server.book, w.view.to).Some?
    ensures Checked(s.hooks, Cached(w.view.headers, s.received, DotDecoding.Decode(w.input).text)).HookHeaders?
    ensures Stored(s, Envelope(date, w.view.from.value, w.view.to), w.view.headers, DotDecoding.Decode(w.input).text,
                   Route(server.book, w.view.to).value, Proceed(server, w, Block(s, date)))
  {
    hide Checked, Verdicts, Fetched, Cached, PrependAll, BlobOf, Route, View.Step, View.MaySend,
         View.MayReach, DotDecoding.Decode;
    EveryRecipientIsKnown(server.book, w.view);
    var envelope, d := Envelope(date, w.view.from.value, w.view.to), DotDecoding.Decode(w.input);
    var e := Proceed(server, w, Block(s, date)).events;
    assert e[|w.events|] == Event.Data(Accepted);
    var cached := Cached(w.view.headers, s.received, d.text);
    var mail := PrependAll(Checked(s.hooks, cached).headers, cached);
    DeliverySucceedsExactly(w.tables, server.book, s.id, RowOf(envelope, mail), w.view.to, s.faults);
  }

  /** Whatever the client does after it, the mail of a confirmed block stays stored. */
  lemma ConfirmedStays(server: Server, w: World, s: Setting, date: int, more: seq<Request>)
    requires w.view.Inv(server.book) && w.view.state == SRcpt && s.id !in w.blobs
    requires s.id !in w.tables.mails && s.id !in w.tables.queue && forall e :: e in w.tables.entries ==> e.1 != s.id
    requires Proceed(server, w, Block(s, date)).events == w.events + [Event.Data(Accepted)]
    requires FreshNames(more, Proceed(server, w, Block(s, date)).blobs, map[])
    ensures Route(server.book, w.view.to).Some?
    ensures Checked(s.hooks, Cached(w.view.headers, s.received, DotDecoding.Decode(w.input).text)).HookHeaders?
    ensures Stored(s, Envelope(date, w.view.from.value, w.view.to), w.view.headers, DotDecoding.Decode(w.input).text,
                   Route(server.book, w.view.to).value, Proceeds(server, Proceed(server, w, Block(s, date)), more))
  {
    hide Proceed, Proceeds, View.Inv, Route, Checked, Cached, PrependAll, BlobOf, RowOf, DotDecoding.Decode;
    ConfirmedIsStored(server, w, s, date);
    SessionOnlyAdds(server, Proceed(server, w, Block(s, date)), more);
    assert w.view.from.Some? by { SenderIsSet(server.book, w.view); }
  }

  lemma SenderIsSet(book: Book, v: View)
    requires v.Inv(book) && v.state == SRcpt
    ensures v.from.Some?
  {
  }
}
