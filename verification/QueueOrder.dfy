/**
 * In which order the queue worker comes to the rows: a row that its attempts leave as it is keeps all later rows
 * from ever being attempted, and a row is reached once all earlier rows leave the queue or are put behind it.
 */
module QueueOrder {
  import opened Bytes
  import opened Database
  import opened QueueProtocol

  ghost predicate AtRow(s: State, r: ID) {
    exists w :: w in s.c.workers && s.c.workers[w] == Attempting(r)
  }

  // A row that stays.

  /** No worker is at the row, or about to be. */
  ghost predicate Untouched(s: State, r: ID) {
    forall w :: w in s.c.workers ==>
      && s.c.workers[w] != Attempting(r)
      && (s.c.workers[w].Peeked? && s.c.workers[w].head.Some? ==> s.c.workers[w].head.value.0 != r)
  }

  /** Every attempt of the row in the run leaves it as it is. */
  ghost predicate LeftAsItIs(s: State, actions: seq<Action>, h: ID)
    decreases |actions|
  {
    actions == [] || (
      && (actions[0].Finish? && actions[0].w in s.c.workers && s.c.workers[actions[0].w] == Attempting(h) ==>
            actions[0].fate == Same)
      && LeftAsItIs(After(s, actions[0]), actions[1..], h))
  }

  lemma StepKeepsBehind(s: State, a: Action, h: ID, r: ID)
    requires Enabled(s, a) && Untouched(s, r)
    requires h in s.rows && r in s.rows && s.rows[h] < s.rows[r]
    requires a.Finish? && a.w in s.c.workers && s.c.workers[a.w] == Attempting(h) ==> a.fate == Same
    ensures var u := After(s, a);
            && Untouched(u, r)
            && h in u.rows && r in u.rows && u.rows[h] == s.rows[h] && u.rows[r] == s.rows[r]
  {
  }

  /**
   * As long as the attempts of a row leave it as it is, no row with a later date is attempted: one row that is stuck
   * keeps all that were rescheduled after it, or are due after it, from being delivered.
   */
  lemma {:induction false} StuckRowStarvesLaterRows(s: State, actions: seq<Action>, h: ID, r: ID)
    requires Runs(s, actions) && LeftAsItIs(s, actions, h) && Untouched(s, r)
    requires h in s.rows && r in s.rows && s.rows[h] < s.rows[r]
    ensures var u := Exec(s, actions);
            && !AtRow(u, r) && Untouched(u, r)
            && h in u.rows && r in u.rows && u.rows[h] == s.rows[h] && u.rows[r] == s.rows[r]
    decreases |actions|
  {
    if actions != [] {
      hide Enabled, After;
      StepKeepsBehind(s, actions[0], h, r);
      StuckRowStarvesLaterRows(After(s, actions[0]), actions[1..], h, r);
    }
  }

  // A row whose turn comes.

  /** The rows that may be attempted before this one. */
  function Earlier(s: State, r: ID): set<ID> {
    set id | id in s.rows && r in s.rows && id != r && s.rows[id] <= s.rows[r]
  }

  /** A worker is at an earlier row, or has read one or the row itself. */
  ghost predicate Orderly(s: State, r: ID) {
    forall w :: w in s.c.workers ==>
      match s.c.workers[w]
      case Peeked(None) => false
      case Peeked(Some(head)) => head.0 == r || head.0 in Earlier(s, r)
      case Attempting(id) => id in Earlier(s, r)
      case _ => true
  }

  /** The step adds no row, and an attempt that ends deletes its row or puts it behind this one. */
  predicate Clears(s: State, a: Action, r: ID) {
    && !a.Produce?
    && (a.Finish? ==> a.fate != Same && (a.fate.Later? && r in s.rows ==> a.fate.date > s.rows[r]))
  }

  ghost predicate Clearing(s: State, actions: seq<Action>, r: ID)
    decreases |actions|
  {
    actions == [] || (Clears(s, actions[0], r) && Clearing(After(s, actions[0]), actions[1..], r))
  }

  /** The number of attempts that end in the run. */
  function Finished(actions: seq<Action>): nat {
    if actions == [] then 0 else (if actions[0].Finish? then 1 else 0) + Finished(actions[1..])
  }

  lemma FinishClears(s: State, a: Action, r: ID)
    requires a.Finish? && Enabled(s, a) && ControlInv(s.c) && r in s.rows && Orderly(s, r) && Clears(s, a, r)
    ensures var u := After(s, a);
            && r in u.rows && u.rows[r] == s.rows[r] && Orderly(u, r)
            && |Earlier(u, r)| == |Earlier(s, r)| - 1
  {
    var id := s.c.workers[a.w].id;
    assert id in Earlier(s, r);
    assert Earlier(After(s, a), r) == Earlier(s, r) - {id};
  }

  lemma OtherStepKeepsOrder(s: State, a: Action, r: ID)
    requires !a.Finish? && Enabled(s, a) && r in s.rows && Orderly(s, r) && Clears(s, a, r)
    ensures var u := After(s, a);
            u.rows == s.rows && Earlier(u, r) == Earlier(s, r) && (AtRow(u, r) || Orderly(u, r))
  {
    var u := After(s, a);
    assert u.rows == s.rows;
    assert Earlier(u, r) == Earlier(s, r);
    if a.Decide? && !AtRow(u, r) {
      assert a.w in u.c.workers ==> u.c.workers[a.w] != Attempting(r);
    }
  }

  /** With each attempt that ends, one row less is before it. */
  lemma {:induction false} TurnComes(s: State, actions: seq<Action>, r: ID)
    requires Inv(s) && Runs(s, actions) && r in s.rows && Orderly(s, r) && Clearing(s, actions, r)
    requires Finished(actions) > |Earlier(s, r)|
    ensures exists k: nat :: k <= |actions| && AtRow(Exec(s, actions[..k]), r)
    decreases |actions|
  {
    hide Inv, Enabled, After, Orderly, AtRow, Earlier, Clears;
    var a, rest := actions[0], actions[1..];
    var u := After(s, a);
    assert actions[..1] == [a] + [];
    OneStep(s, a);
    if AtRow(u, r) {
      assert AtRow(Exec(s, actions[..1]), r);
    } else {
      RunKeepsInv(s, [a] + []);
      if a.Finish? {
        assert ControlInv(s.c) by { InvIsControlInv(s); }
        FinishClears(s, a, r);
      } else {
        OtherStepKeepsOrder(s, a, r);
      }
      TurnComes(u, rest, r);
      var k: nat :| k <= |rest| && AtRow(Exec(u, rest[..k]), r);
      assert actions[..k + 1] == [a] + rest[..k];
      assert actions[..k + 1][1..] == rest[..k];
      assert AtRow(Exec(s, actions[..k + 1]), r);
    }
  }

  lemma InvIsControlInv(s: State)
    requires Inv(s)
    ensures ControlInv(s.c)
  {
  }

  /**
   * A row is attempted before more attempts have ended than there were rows before it, if meanwhile no row is added
   * and every attempt deletes its row or puts it behind this one.
   */
  lemma RowIsReachedInTurn(actions: seq<Action>, more: seq<Action>, r: ID)
    requires Runs(START, actions) && Runs(Exec(START, actions), more)
    requires var s := Exec(START, actions);
             && r in s.rows && Clearing(s, more, r) && Finished(more) > |Earlier(s, r)|
             && forall w :: w in s.c.workers ==> s.c.workers[w] == Ready
    ensures exists k: nat :: k <= |more| && AtRow(Exec(Exec(START, actions), more[..k]), r)
  {
    Reached(actions);
    TurnComes(Exec(START, actions), more, r);
  }
}
