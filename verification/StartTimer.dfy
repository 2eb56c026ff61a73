// speakeasy/engines/start_timer.py: the thread that stops a start when its timeout passes.
//
// Each action is one step that no other thread can divide: a section under the condition's lock, or the end of a wait
// before the waiter has the lock again. A run is any interleaving of the callers, the worker and the clock.

module StartTimer {
  import opened Options

  const STOP_REPEAT: real := 0.001
  const IDLE_EXIT: real := 5.0

  datatype Wait = Idle | UntilDeadline | Repeat

  // Where the worker thread is: not there, at the top of its loop, in a wait that ends at a time, or after a wait that
  // returned True if it was notified, before it has the lock again.
  datatype Worker = NoThread | AtTop | Waiting(wait: Wait, until: real) | Woken(wait: Wait, notified: bool)

  datatype State = State(now: real, deadline: Option<real>, worker: Worker)

  datatype Action =
    | Arm(timeout: real)
    | Disarm
    | TimeOut             // a wait ends without a notification, at any time
    | Work                // the worker takes the lock and goes on to its next wait, or exits
    | Advance(passed: real)

  const INITIAL: State := State(0.0, None, NoThread)

  predicate Enabled(s: State, a: Action) {
    match a
    case Arm(_) => true
    case Disarm => true
    case TimeOut => s.worker.Waiting?
    case Work => s.worker == AtTop || s.worker.Woken?
    case Advance(passed) => passed >= 0.0
  }

  function Loop(s: State): State {
    match s.deadline
    case None => s.(worker := Waiting(Idle, s.now + IDLE_EXIT))
    case Some(d) =>
      if d - s.now > 0.0 then s.(worker := Waiting(UntilDeadline, s.now + (d - s.now)))
      else s.(worker := Waiting(Repeat, s.now + STOP_REPEAT))
  }

  // notify wakes a worker that still waits. It does nothing to one whose wait already timed out.
  function Notified(w: Worker): Worker {
    match w
    case Waiting(wait, _) => Woken(wait, true)
    case _ => w
  }

  function Apply(s: State, a: Action): State
    requires Enabled(s, a)
  {
    match a
    case Arm(timeout) =>
      s.(deadline := Some(s.now + timeout), worker := if s.worker == NoThread then AtTop else Notified(s.worker))
    case Disarm => s.(deadline := None)
    case TimeOut => s.(worker := Woken(s.worker.wait, false))
    case Work => if s.worker == Woken(Idle, false) && s.deadline == None then s.(worker := NoThread) else Loop(s)
    case Advance(passed) => s.(now := s.now + passed)
  }

  // The action calls the stop function.
  predicate Stops(s: State, a: Action) {
    a == Work && Enabled(s, a) && s.deadline.Some? && s.deadline.value <= s.now
  }

  // An armed timer has a worker, and the worker does not sleep past the deadline or longer than STOP_REPEAT after it.
  ghost predicate Valid(s: State) {
    s.deadline.Some? ==>
      match s.worker
      case NoThread => false
      case AtTop => true
      case Woken(_, _) => true
      case Waiting(Idle, _) => false
      case Waiting(UntilDeadline, until) => until == s.deadline.value
      case Waiting(Repeat, until) => s.deadline.value <= until - STOP_REPEAT <= s.now
  }

  ghost predicate IsRun(s: State, actions: seq<Action>)
    decreases |actions|, 0
  {
    actions == [] ||
    var before := actions[..|actions| - 1];
    IsRun(s, before) && Enabled(After(s, before), actions[|actions| - 1])
  }

  ghost function After(s: State, actions: seq<Action>): State
    requires IsRun(s, actions)
    decreases |actions|, 1
  {
    if actions == [] then s
    else Apply(After(s, actions[..|actions| - 1]), actions[|actions| - 1])
  }

  lemma {:induction false} RunKeeps(s: State, actions: seq<Action>)
    requires Valid(s) && IsRun(s, actions)
    ensures Valid(After(s, actions))
  {
    if actions != [] {
      RunKeeps(s, actions[..|actions| - 1]);
    }
  }

  // In every interleaving an armed timer has a live worker, and no wake-up is lost: a worker that sleeps wakes at the
  // deadline, or at most STOP_REPEAT from now if the deadline has passed. This holds too when an arm comes between the
  // end of an idle wait and the moment when the worker has the lock.
  lemma ArmedHasWorker(actions: seq<Action>)
    requires IsRun(INITIAL, actions) && After(INITIAL, actions).deadline.Some?
    ensures var s := After(INITIAL, actions);
            && s.worker != NoThread
            && (s.worker.Waiting? && s.now < s.deadline.value ==> s.worker.until == s.deadline.value)
            && (s.worker.Waiting? && s.deadline.value <= s.now ==> s.worker.until <= s.now + STOP_REPEAT)
            && (s.worker.Waiting? ==> !Stops(s, Work) && Stops(Apply(s, TimeOut), Work) == (s.deadline.value <= s.now))
            && (!s.worker.Waiting? ==> Stops(s, Work) == (s.deadline.value <= s.now))
  {
    RunKeeps(INITIAL, actions);
  }

  ghost predicate SetsDeadline(a: Action) {
    a.Arm? || a.Disarm?
  }

  // The Arm at j set the deadline, and nothing set it again before i.
  ghost predicate ArmedBy(s: State, actions: seq<Action>, j: nat, deadline: real)
    requires IsRun(s, actions)
  {
    && j < |actions| && actions[j].Arm? && IsRun(s, actions[..j])
    && deadline == After(s, actions[..j]).now + actions[j].timeout
    && forall k :: j < k < |actions| ==> !SetsDeadline(actions[k])
  }

  lemma {:induction false} DeadlineComesFromArm(s: State, actions: seq<Action>)
    requires IsRun(s, actions) && s.deadline == None && After(s, actions).deadline.Some?
    ensures exists j: nat :: ArmedBy(s, actions, j, After(s, actions).deadline.value)
  {
    var n := |actions| - 1;
    var before, last := actions[..n], actions[n];
    if last.Arm? {
      assert ArmedBy(s, actions, n, After(s, actions).deadline.value);
    } else {
      DeadlineComesFromArm(s, before);
      var j: nat :| ArmedBy(s, before, j, After(s, before).deadline.value);
      assert actions[..j] == before[..j];
      assert ArmedBy(s, actions, j, After(s, actions).deadline.value);
    }
  }

  // After disarm returned, the timer calls stop only when the deadline of a later arm has passed, and that arm is the
  // last call on the timer.
  lemma NoStopUntilNextDeadline(disarmed: seq<Action>, actions: seq<Action>)
    requires IsRun(INITIAL, disarmed) && After(INITIAL, disarmed).deadline == None
    requires IsRun(After(INITIAL, disarmed), actions) && Stops(After(After(INITIAL, disarmed), actions), Work)
    ensures exists j: nat, deadline ::
              ArmedBy(After(INITIAL, disarmed), actions, j, deadline)
              && deadline <= After(After(INITIAL, disarmed), actions).now
  {
    DeadlineComesFromArm(After(INITIAL, disarmed), actions);
  }

  // The fields of the timer. Each method is one section under the lock.
  class Timer {
    var deadline: Option<real>
    var thread: bool

    ghost predicate Matches(s: State)
      reads this
    {
      deadline == s.deadline && thread == (s.worker != NoThread)
    }

    constructor ()
      ensures Matches(INITIAL)
    {
      deadline := None;
      thread := false;
    }

    // started and notified say what the worker sees: a new thread, or a notification.
    method ArmTimer(now: real, timeout: real, ghost s: State) returns (started: bool, notified: bool)
      requires Matches(s) && s.now == now
      modifies this
      ensures Matches(Apply(s, Arm(timeout)))
      ensures started == (s.worker == NoThread) && notified == !started
    {
      deadline := Some(now + timeout);
      started, notified := false, false;
      if !thread {
        thread := true;
        started := true;
      } else {
        notified := true;
      }
    }

    method DisarmTimer(ghost s: State)
      requires Matches(s)
      modifies this
      ensures Matches(Apply(s, Disarm))
    {
      deadline := None;
    }

    // The loop of the worker from one wait to the next. woke is what the last wait returned, None at the start.
    method RunWorker(now: real, woke: Option<(Wait, bool)>, ghost s: State)
      returns (stopped: bool, next: Option<(Wait, real)>)
      requires Matches(s) && s.now == now && Enabled(s, Work)
      requires s.worker == if woke.None? then AtTop else Woken(woke.value.0, woke.value.1)
      modifies this
      ensures Matches(Apply(s, Work)) && stopped == Stops(s, Work)
      ensures Apply(s, Work).worker == if next.None? then NoThread else Waiting(next.value.0, now + next.value.1)
    {
      stopped := false;
      if woke.Some? && woke.value.0 == Idle && !woke.value.1 && deadline == None {
        thread := false;
        return false, None;
      }
      if deadline == None {
        return false, Some((Idle, IDLE_EXIT));
      }
      var remaining := deadline.value - now;
      if remaining > 0.0 {
        return false, Some((UntilDeadline, remaining));
      }
      return true, Some((Repeat, STOP_REPEAT));
    }
  }
}
