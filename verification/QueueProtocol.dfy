/**
 * The wake-up protocol of the queue worker: producers that add rows and then wake the worker up, timers that
 * wake it up when a row is due, and the worker, which goes to sleep when nothing is due.
 */
module QueueProtocol {
  import opened Bytes
  import opened Database

  /** A timer counts down, has called WakeUp without having been served yet, or is through. */
  datatype TimerState = Armed | Fired | Through

  /** `lag` is the time that passed between reading the clock and arming the timer. */
  datatype Timer = Timer(due: int, lag: nat, state: TimerState)

  /**
   * A worker goroutine: about to take the lock, holding it with the head of the queue and its date as it read
   * them, at an attempt, or holding the lock for good after reading the queue failed.
   */
  datatype Worker = Ready | Peeked(head: Option<(ID, int)>) | Attempting(id: ID) | Failing

  /** The fields of the queue worker, with the timers and goroutines they stand for. */
  datatype Control = Control(
    busy: bool,
    alarm: Option<nat>,
    timers: map<nat, Timer>,
    nextTimer: nat,
    workers: map<nat, Worker>,
    nextWorker: nat)
  {
    /** Stops a timer that has not fired; one that has fired still calls WakeUp. */
    function Stopped(t: nat): Control {
      if t in timers && timers[t].state == Armed then this.(timers := timers[t := timers[t].(state := Through)]) else this
    }

    function WithoutAlarm(): Control {
      if alarm.Some? then Stopped(alarm.value).(alarm := None) else this
    }

    function Awake(): Control {
      if busy then this else this.(busy := true, workers := workers[nextWorker := Ready], nextWorker := nextWorker + 1)
    }

    function WakeUp(): Control {
      WithoutAlarm().Awake()
    }

    function Sleep(due: int, lag: nat): Control {
      this.(alarm := Some(nextTimer), timers := timers[nextTimer := Timer(due, lag, Armed)], nextTimer := nextTimer + 1)
    }

    function With(w: nat, worker: Worker): Control {
      this.(workers := workers[w := worker])
    }

    /** The worker ends, with an alarm for the head of the queue if there is one; the alarm is late by the lag. */
    function Idle(w: nat, date: Option<int>, lag: nat): Control {
      var c := this.(busy := false, workers := workers - {w});
      if date.Some? then c.Sleep(date.value + lag, lag) else c
    }
  }

  const IDLE := Control(false, None, map[], 0, map[], 0)

  /** The rows of the queue with their dates; `awaiting` are those whose producer has not called WakeUp yet. */
  datatype State = State(now: int, rows: map<ID, int>, awaiting: set<ID>, lock: Option<nat>, c: Control)

  const START := State(0, map[], {}, None, IDLE)

  /** What an attempt does to its row. */
  datatype Fate = Later(date: int) | Gone | Same

  datatype Action =
    | Tick(time: nat)
    | Produce(id: ID)
    | ProducerWakes(id: ID)
    | Fire(t: nat)
    | TimerWakes(t: nat)
    | Peek(w: nat, head: Option<ID>)
    | PeekFails(w: nat)
    | Decide(w: nat, lag: nat)
    | Finish(w: nat, fate: Fate)

  predicate IsReady(s: State, w: nat) {
    w in s.c.workers && s.c.workers[w] == Ready && s.lock == None
  }

  predicate HasFired(s: State, t: nat) {
    t in s.c.timers && s.c.timers[t].state == Fired
  }

  ghost predicate Enabled(s: State, a: Action) {
    match a
    case Tick(_) => true
    case Produce(id) => id !in s.rows && id !in s.awaiting
    case ProducerWakes(id) => id in s.awaiting && s.lock == None
    case Fire(t) => t in s.c.timers && s.c.timers[t].state == Armed && s.c.timers[t].due <= s.now
    case TimerWakes(t) => HasFired(s, t) && s.lock == None
    case Peek(w, head) =>
      IsReady(s, w) &&
      match head {
        case None => s.rows == map[]
        case Some(id) => id in s.rows && forall other :: other in s.rows ==> s.rows[id] <= s.rows[other]
      }
    case PeekFails(w) => IsReady(s, w)
    case Decide(w, _) => w in s.c.workers && s.c.workers[w].Peeked?
    case Finish(w, _) => w in s.c.workers && s.c.workers[w].Attempting?
  }

  function After(s: State, a: Action): State {
    match a
    case Tick(time) => s.(now := s.now + time)
    case Produce(id) => s.(rows := s.rows[id := 0], awaiting := s.awaiting + {id})
    case ProducerWakes(id) => s.(awaiting := s.awaiting - {id}, c := s.c.WakeUp())
    case Fire(t) =>
      if t !in s.c.timers then s else s.(c := s.c.(timers := s.c.timers[t := s.c.timers[t].(state := Fired)]))
    case TimerWakes(t) =>
      if t !in s.c.timers then s else s.(c := s.c.(timers := s.c.timers[t := s.c.timers[t].(state := Through)]).WakeUp())
    case Peek(w, head) =>
      s.(lock := Some(w),
         c := s.c.With(w, Peeked(if head.Some? && head.value in s.rows then Some((head.value, s.rows[head.value])) else None)))
    case PeekFails(w) => s.(lock := Some(w), c := s.c.With(w, Failing))
    case Decide(w, lag) =>
      if w !in s.c.workers || !s.c.workers[w].Peeked? then s
      else
        var head := s.c.workers[w].head;
        if head.None? then s.(lock := None, c := s.c.Idle(w, None, lag))
        else if head.value.1 > s.now then
          s.(now := s.now + lag, lock := None, c := s.c.Idle(w, Some(head.value.1), lag))
        else s.(lock := None, c := s.c.With(w, Attempting(head.value.0)))
    case Finish(w, fate) =>
      if w !in s.c.workers || !s.c.workers[w].Attempting? then s
      else
        var id := s.c.workers[w].id;
        var rows := match fate {
          case Later(date) => if id in s.rows then s.rows[id := date] else s.rows
          case Gone => s.rows - {id}
          case Same => s.rows
        };
        s.(rows := rows, c := s.c.With(w, Ready))
  }

  ghost predicate Runs(s: State, actions: seq<Action>)
    decreases |actions|
  {
    actions == [] || (Enabled(s, actions[0]) && Runs(After(s, actions[0]), actions[1..]))
  }

  function Exec(s: State, actions: seq<Action>): State
    decreases |actions|
  {
    if actions == [] then s else Exec(After(s, actions[0]), actions[1..])
  }

  // The invariant.

  ghost predicate ControlInv(c: Control) {
    && (forall v, w :: v in c.workers && w in c.workers ==> v == w)
    && (c.busy <==> exists w :: w in c.workers)
    && (c.busy ==> c.alarm == None)
    && (c.alarm.Some? ==> c.alarm.value in c.timers && c.timers[c.alarm.value].state != Through)
    && (forall t :: t in c.timers && c.timers[t].state == Armed ==> c.alarm == Some(t))
    && (forall t :: t in c.timers ==> t < c.nextTimer)
    && (forall w :: w in c.workers ==> w < c.nextWorker)
  }

  /** The lock is held just while a worker has read the queue and has not decided, or never will. */
  ghost predicate LockInv(s: State) {
    && (s.lock.Some? ==> s.lock.value in s.c.workers)
    && (forall w :: w in s.c.workers ==> (s.lock == Some(w) <==> s.c.workers[w].Peeked? || s.c.workers[w].Failing?))
  }

  /** What a worker read is still the earliest date, except for rows whose producer is about to wake it up. */
  ghost predicate HeadInv(s: State) {
    forall w, id :: w in s.c.workers && s.c.workers[w].Peeked? && id in s.rows && id !in s.awaiting ==>
      s.c.workers[w].head.Some? && s.c.workers[w].head.value.1 <= s.rows[id]
  }

  predicate InTime(timer: Timer, date: int) {
    timer.due <= date + timer.lag
  }

  /** Someone will look at the row in time: the worker, or an alarm for its date or earlier. */
  ghost predicate Covered(s: State, id: ID)
    requires id in s.rows
  {
    s.c.busy || (s.c.alarm.Some? && s.c.alarm.value in s.c.timers && InTime(s.c.timers[s.c.alarm.value], s.rows[id]))
  }

  ghost predicate CoverInv(s: State) {
    forall id :: id in s.rows && id !in s.awaiting ==> Covered(s, id)
  }

  ghost predicate Inv(s: State) {
    ControlInv(s.c) && LockInv(s) && HeadInv(s) && CoverInv(s)
  }

  lemma WakeUpKeepsControl(c: Control)
    requires ControlInv(c)
    ensures ControlInv(c.WakeUp()) && c.WakeUp().busy
    ensures forall w :: w in c.workers ==> w in c.WakeUp().workers && c.WakeUp().workers[w] == c.workers[w]
    ensures forall w :: w in c.WakeUp().workers && w !in c.workers ==> c.WakeUp().workers[w] == Ready
  {
    if !c.busy {
      assert c.nextWorker in c.WakeUp().workers;
    }
  }

  lemma WakerKeepsInv(s: State, a: Action)
    requires Inv(s) && Enabled(s, a) && (a.ProducerWakes? || a.TimerWakes?)
    ensures Inv(After(s, a))
  {
    hide Control.WakeUp;
    var c := if a.TimerWakes? then s.c.(timers := s.c.timers[a.t := s.c.timers[a.t].(state := Through)]) else s.c;
    if a.TimerWakes? && s.c.alarm == Some(a.t) {
      // The alarm itself: it is served, and forgotten in the same step.
      assert c.WakeUp() == c.(alarm := None).WakeUp() by { AlarmThrough(c, a.t); }
      WakeUpKeepsControl(c.(alarm := None));
    } else {
      WakeUpKeepsControl(c);
    }
  }

  lemma AlarmThrough(c: Control, t: nat)
    requires c.alarm == Some(t) && t in c.timers && c.timers[t].state == Through
    ensures c.WakeUp() == c.(alarm := None).WakeUp()
  {
  }

  lemma WorkerKeepsInv(s: State, a: Action)
    requires Inv(s) && Enabled(s, a) && (a.Peek? || a.PeekFails? || a.Finish?)
    ensures Inv(After(s, a))
  {
    assert a.w in After(s, a).c.workers;
  }

  lemma DecideKeepsInv(s: State, a: Action)
    requires Inv(s) && Enabled(s, a) && a.Decide?
    ensures Inv(After(s, a))
  {
    var c := After(s, a).c;
    assert c.busy ==> a.w in c.workers;
  }

  lemma OthersKeepInv(s: State, a: Action)
    requires Inv(s) && Enabled(s, a) && (a.Tick? || a.Produce? || a.Fire?)
    ensures Inv(After(s, a))
  {
  }

  lemma {:induction false} RunKeepsInv(s: State, actions: seq<Action>)
    requires Inv(s) && Runs(s, actions)
    ensures Inv(Exec(s, actions))
    decreases |actions|
  {
    hide Inv, Enabled, After;
    if actions != [] {
      var a := actions[0];
      if a.ProducerWakes? || a.TimerWakes? {
        WakerKeepsInv(s, a);
      } else if a.Peek? || a.PeekFails? || a.Finish? {
        WorkerKeepsInv(s, a);
      } else if a.Decide? {
        DecideKeepsInv(s, a);
      } else {
        OthersKeepInv(s, a);
      }
      RunKeepsInv(After(s, a), actions[1..]);
    }
  }

  lemma Reached(actions: seq<Action>)
    requires Runs(START, actions)
    ensures Inv(Exec(START, actions))
  {
    RunKeepsInv(START, actions);
  }

  // What holds in every run.

  /** At most one worker is running, and the busy flag tells whether there is one; while it runs no alarm is set. */
  lemma AtMostOneWorker(actions: seq<Action>)
    requires Runs(START, actions)
    ensures var c := Exec(START, actions).c;
            && (forall v, w :: v in c.workers && w in c.workers ==> v == w)
            && (c.busy <==> exists w :: w in c.workers)
            && (c.busy ==> c.alarm == None)
  {
    Reached(actions);
  }

  /**
   * No wake-up is lost: whenever the lock is free, for every row the worker is running, or the row's producer
   * is about to call WakeUp, or a timer that has fired is, or the alarm is armed for no later than its date and
   * the time that the worker took to arm it.
   */
  lemma NoLostWakeUp(actions: seq<Action>, id: ID)
    requires Runs(START, actions) && id in Exec(START, actions).rows && Exec(START, actions).lock == None
    ensures var s := Exec(START, actions);
            || s.c.busy
            || Enabled(s, ProducerWakes(id))
            || (exists t :: Enabled(s, TimerWakes(t)))
            || (exists t :: s.c.alarm == Some(t) && t in s.c.timers &&
                            s.c.timers[t].state == Armed && InTime(s.c.timers[t], s.rows[id]))
  {
    Reached(actions);
    var s := Exec(START, actions);
    if !s.c.busy && id !in s.awaiting {
      assert Covered(s, id);
      var t := s.c.alarm.value;
      assert s.c.timers[t].state == Fired ==> Enabled(s, TimerWakes(t));
    }
  }

  /**
   * For a row that is due, for as long as it took to arm the alarm, the worker is running or a call of WakeUp can happen
   * next. In which order the worker comes to the rows is another matter.
   */
  lemma DueRowIsTakenUp(actions: seq<Action>, id: ID)
    requires Runs(START, actions)
    requires var s := Exec(START, actions); id in s.rows && s.rows[id] <= s.now && s.lock == None
    requires var s := Exec(START, actions);
             forall t :: s.c.alarm == Some(t) && t in s.c.timers ==> s.rows[id] + s.c.timers[t].lag <= s.now
    ensures var s := Exec(START, actions);
            || s.c.busy
            || Enabled(s, ProducerWakes(id))
            || (exists t :: Enabled(s, TimerWakes(t)))
            || (exists t :: Enabled(s, Fire(t)) && Enabled(After(s, Fire(t)), TimerWakes(t)))
  {
    var s := Exec(START, actions);
    NoLostWakeUp(actions, id);
    if t :| s.c.alarm == Some(t) && t in s.c.timers && s.c.timers[t].state == Armed && InTime(s.c.timers[t], s.rows[id]) {
      assert Enabled(s, Fire(t)) && Enabled(After(s, Fire(t)), TimerWakes(t));
    }
  }

  /** A worker that is waiting for the lock reads the queue next, unless reading fails, and serves its head. */
  lemma WorkerServesTheHead(s: State, w: nat, id: ID, lag: nat)
    requires IsReady(s, w) && Enabled(s, Peek(w, Some(id)))
    ensures var u := After(After(s, Peek(w, Some(id))), Decide(w, lag));
            && u.lock == None
            && (s.rows[id] <= s.now ==> w in u.c.workers && u.c.workers[w] == Attempting(id))
            && (s.rows[id] > s.now ==>
                  && !u.c.busy && u.c.alarm == Some(s.c.nextTimer)
                  && u.c.timers[s.c.nextTimer] == Timer(s.rows[id] + lag, lag, Armed))
  {
  }

  ghost predicate Halted(s: State) {
    s.lock.Some? && s.lock.value in s.c.workers && s.c.workers[s.lock.value] == Failing && ControlInv(s.c)
  }

  lemma StepKeepsHalt(s: State, a: Action)
    requires Halted(s) && Enabled(s, a)
    ensures Halted(After(s, a)) && (a.Tick? || a.Produce? || a.Fire?)
  {
  }

  /** Once reading the queue has failed, the lock is never released: no attempt is ever made again. */
  lemma {:induction false} FailureHaltsForGood(s: State, actions: seq<Action>)
    requires Halted(s) && Runs(s, actions)
    ensures Halted(Exec(s, actions))
    ensures forall a :: a in actions ==> a.Tick? || a.Produce? || a.Fire?
    decreases |actions|
  {
    if actions != [] {
      StepKeepsHalt(s, actions[0]);
      FailureHaltsForGood(After(s, actions[0]), actions[1..]);
      assert actions == [actions[0]] + actions[1..];
    }
  }

  /** The failure is all it takes: from any reachable state, a failed read halts the queue. */
  lemma FailedReadHalts(actions: seq<Action>, w: nat)
    requires Runs(START, actions) && Enabled(Exec(START, actions), PeekFails(w))
    ensures Halted(After(Exec(START, actions), PeekFails(w)))
  {
    Reached(actions);
    WorkerKeepsInv(Exec(START, actions), PeekFails(w));
  }

  /** No worker has failed to read the queue. */
  ghost predicate Healthy(s: State) {
    forall w :: w in s.c.workers ==> s.c.workers[w] != Failing
  }

  lemma StepKeepsHealth(s: State, a: Action)
    requires Healthy(s) && !a.PeekFails?
    ensures Healthy(After(s, a))
  {
  }

  /** Nothing else halts the queue: a run has halted exactly if some read of the queue failed in it. */
  lemma {:induction false} HaltsExactly(s: State, actions: seq<Action>)
    requires Inv(s) && Healthy(s) && Runs(s, actions)
    ensures Halted(Exec(s, actions)) <==> exists a :: a in actions && a.PeekFails?
    ensures Healthy(Exec(s, actions)) <==> !Halted(Exec(s, actions))
    decreases |actions|
  {
    if actions != [] {
      hide Healthy, Halted, Inv, Enabled, After;
      var a, rest := actions[0], actions[1..];
      assert actions == [a] + rest;
      OneStep(s, a);
      RunKeepsInv(s, [a] + []);
      if a.PeekFails? {
        WorkerKeepsInv(s, a);
        FailsAndHalts(s, a);
        FailureHaltsForGood(After(s, a), rest);
        HaltedIsNotHealthy(Exec(s, actions));
      } else {
        StepKeepsHealth(s, a);
        HaltsExactly(After(s, a), rest);
      }
    } else {
      HealthyIsNotHalted(s);
    }
  }

  lemma OneStep(s: State, a: Action)
    requires Enabled(s, a)
    ensures Runs(s, [a] + []) && Exec(s, [a] + []) == After(s, a)
  {
    assert ([a] + [])[1..] == [];
  }

  lemma FailsAndHalts(s: State, a: Action)
    requires a.PeekFails? && Enabled(s, a) && Inv(After(s, a))
    ensures Halted(After(s, a))
  {
  }

  lemma HaltedIsNotHealthy(s: State)
    requires Halted(s)
    ensures !Healthy(s)
  {
  }

  lemma HealthyIsNotHalted(s: State)
    requires Healthy(s)
    ensures !Halted(s)
  {
  }

  /**
   * In every run: the queue has halted exactly if some read of it failed, and otherwise a lock that is taken is given
   * back by the next step of its worker.
   */
  lemma QueueHaltsExactly(actions: seq<Action>)
    requires Runs(START, actions)
    ensures Halted(Exec(START, actions)) <==> exists a :: a in actions && a.PeekFails?
    ensures var s := Exec(START, actions);
            s.lock.Some? && !Halted(s) ==>
              forall lag :: Enabled(s, Decide(s.lock.value, lag)) && After(s, Decide(s.lock.value, lag)).lock == None
  {
    HaltsExactly(START, actions);
    Reached(actions);
  }

  // The worker's methods, which run while the lock is held.

  class QueueWorker {
    var busy: bool
    var alarm: Option<nat>
    var timers: map<nat, Timer>
    var nextTimer: nat
    var workers: map<nat, Worker>
    var nextWorker: nat

    constructor ()
      ensures View() == IDLE
    {
      busy, alarm, timers, nextTimer, workers, nextWorker := false, None, map[], 0, map[], 0;
    }

    ghost function View(): Control
      reads this
    {
      Control(busy, alarm, timers, nextTimer, workers, nextWorker)
    }

    method Stop(t: nat)
      modifies this
      ensures View() == old(View()).Stopped(t)
    {
      if t in timers && timers[t].state == Armed {
        timers := timers[t := timers[t].(state := Through)];
      }
    }

    method Go()
      modifies this
      ensures View() == old(View()).(workers := old(workers)[old(nextWorker) := Ready], nextWorker := old(nextWorker) + 1)
    {
      workers := workers[nextWorker := Ready];
      nextWorker := nextWorker + 1;
    }

    method WakeUp()
      modifies this
      ensures View() == old(View()).WakeUp()
    {
      if alarm.Some? {
        Stop(alarm.value);
        alarm := None;
      }
      if !busy {
        busy := true;
        Go();
      }
    }

    /** Arms a timer that calls WakeUp after `d`; the clock was read `lag` ago. */
    method Sleep(now: int, d: int, lag: nat)
      modifies this
      ensures View() == old(View()).Sleep(now + d, lag)
    {
      alarm := Some(nextTimer);
      timers := timers[nextTimer := Timer(now + d, lag, Armed)];
      nextTimer := nextTimer + 1;
    }

    /** The head of the queue if it is due, else how long it is until then; 0 if there is no row. */
    method Next(db: DB, now: int, fault: bool) returns (elem: Option<ID>, sleep: int, ok: bool)
      ensures ok <==> !fault
      ensures ok && db.queue == map[] ==> elem == None && sleep == 0
      ensures ok && db.queue != map[] ==>
                exists id :: db.View().IsHead(id) &&
                  if db.queue[id].date > now then elem == None && sleep == db.queue[id].date - now
                  else elem == Some(id) && sleep == 0
    {
      var head;
      head, ok := db.PeekQueue(fault);
      if !ok || head.None? {
        return None, 0, ok;
      }
      if db.queue[head.value].date - now > 0 {
        return None, db.queue[head.value].date - now, true;
      }
      return head, 0, true;
    }

    /**
     * One turn of the worker's loop under the lock: it goes on to an attempt, or ends, perhaps with an alarm. The
     * clock says `now` when it is read, and `lag` more when the alarm is armed.
     */
    method Turn(w: nat, db: DB, now: int, lag: nat, fault: bool) returns (elem: Option<ID>, ok: bool)
      requires w in workers
      modifies this
      ensures ok <==> !fault
      ensures !ok ==> View() == old(View()).With(w, Failing)
      ensures ok && db.queue == map[] ==> elem == None && View() == old(View()).Idle(w, None, lag)
      ensures ok && db.queue != map[] ==>
                exists id :: db.View().IsHead(id) &&
                  if db.queue[id].date > now then elem == None && View() == old(View()).Idle(w, Some(db.queue[id].date), lag)
                  else elem == Some(id) && View() == old(View()).With(w, Attempting(id))
    {
      var sleep;
      elem, sleep, ok := Next(db, now, fault);
      if !ok {
        workers := workers[w := Failing];
        return;
      }
      if elem.None? {
        busy := false;
        workers := workers - {w};
        if sleep > 0 {
          Sleep(now + lag, sleep, lag);
        }
      } else {
        workers := workers[w := Attempting(elem.value)];
      }
    }
  }

  /** A turn of the loop is a read of the queue followed by the decision, as the steps of the protocol have it. */
  lemma TurnIsPeekAndDecide(s: State, w: nat, head: Option<ID>, lag: nat)
    requires Enabled(s, Peek(w, head))
    ensures After(After(s, Peek(w, head)), Decide(w, lag)).c ==
              match head
              case None => s.c.Idle(w, None, lag)
              case Some(id) => if s.rows[id] > s.now then s.c.Idle(w, Some(s.rows[id]), lag) else s.c.With(w, Attempting(id))
  {
    assert s.c.workers[w := Peeked(None)] - {w} == s.c.workers - {w};
    if head.Some? {
      var p := Peeked(Some((head.value, s.rows[head.value])));
      assert s.c.workers[w := p] - {w} == s.c.workers - {w};
      assert s.c.workers[w := p][w := Attempting(head.value)] == s.c.workers[w := Attempting(head.value)];
    }
  }
}
