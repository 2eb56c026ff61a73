// speakeasy/gdb.py: the stop state that the reader thread and the emulator thread share.
//
// Each action is one step that no other thread can divide: a section under the state lock, or a single write. A run is
// any interleaving of the actions of both threads.

module GdbStop {
  import opened Options

  datatype Reason = Default | StepDone | Interrupt | Other(kind: nat)

  // Where the emulator thread is: in the command loop, with an action to resume, running, refused by begin_run,
  // after finish_run, before another run without a command loop, or at the start of the command loop with the reason
  // already written.
  datatype Pc = InLoop | Resumed | Running | Refused | Finished(stop: Option<Reason>) | Between | EnteringLoop

  // checkedRunning is the reader between the two locked sections of an interrupt. requests lists the stops requested
  // while running since the last command loop, and queries counts the ? commands that interrupts queued.
  datatype State = State(
    running: bool, pending: bool, stopReason: Reason, pc: Pc, checkedRunning: bool, requests: seq<Reason>, queries: nat)

  datatype Action =
    | Resume                     // the command loop returns an action to resume
    | BeginRun
    | FinishRun(step: bool)
    | EnterLoop(reason: Reason)  // command_loop writes its reason, before it takes the lock
    | ResetLoop                  // command_loop resets the state under the lock
    | NextRun                    // the emulator goes on with another run, without a command loop
    | Request(reason: Reason)    // a hook or the reader requests a stop
    | CheckInterrupt             // the reader gets Ctrl-C and looks whether the target runs
    | RequestInterrupt           // then it requests the stop

  predicate Enabled(s: State, a: Action) {
    match a
    case Resume => s.pc == InLoop
    case BeginRun => s.pc == Resumed || s.pc == Between
    case FinishRun(_) => s.pc == Running || s.pc == Refused
    case EnterLoop(_) => s.pc.Finished?
    case ResetLoop => s.pc == EnteringLoop
    case NextRun => s.pc == Finished(None)
    case Request(_) => true
    case CheckInterrupt => !s.checkedRunning
    case RequestInterrupt => s.checkedRunning
  }

  // _request_stop
  function RequestStop(s: State, r: Reason): State {
    var s := if s.running then s.(requests := s.requests + [r]) else s;
    if !s.running || s.pending then s else s.(stopReason := r, pending := true)
  }

  function Apply(s: State, a: Action): State
    requires Enabled(s, a)
  {
    match a
    case Resume => s.(running := true, pc := Resumed)
    case BeginRun =>
      if s.pending then s.(running := true, pc := Refused)
      else s.(running := true, stopReason := Default, pc := Running)
    case FinishRun(step) =>
      var stop := if s.pending then Some(s.stopReason) else if step then Some(StepDone) else None;
      s.(running := false, pc := Finished(stop))
    case EnterLoop(reason) => s.(stopReason := reason, pc := EnteringLoop)
    case ResetLoop => s.(running := false, pending := false, pc := InLoop, requests := [])
    case NextRun => s.(pc := Between)
    case Request(r) => RequestStop(s, r)
    case CheckInterrupt => if s.running then s.(checkedRunning := true) else s.(queries := s.queries + 1)
    case RequestInterrupt => RequestStop(s.(checkedRunning := false), Interrupt)
  }

  const INITIAL: State := State(false, false, Default, InLoop, false, [], 0)

  // The emulator works for the client: from the return of the command loop, or from begin_run, to finish_run.
  predicate AtWork(pc: Pc) {
    pc == Resumed || pc == Running || pc == Refused
  }

  // The first stop requested while running is the one that is pending, until the next command loop.
  ghost predicate Valid(s: State) {
    && (s.pending <==> s.requests != [])
    && (s.pending && s.pc != EnteringLoop ==> s.stopReason == s.requests[0])
    && (s.pending ==> s.pc != InLoop)
    && (s.running <==> AtWork(s.pc))
    && (s.pc == Refused ==> s.pending)
    && (s.pc.Finished? && s.pending ==> s.pc.stop == Some(s.requests[0]))
  }

  lemma StepKeeps(s: State, a: Action)
    requires Valid(s) && Enabled(s, a)
    ensures Valid(Apply(s, a))
  {
  }

  ghost predicate IsRun(s: State, actions: seq<Action>)
    decreases |actions|
  {
    actions == [] || (Enabled(s, actions[0]) && IsRun(Apply(s, actions[0]), actions[1..]))
  }

  function After(s: State, actions: seq<Action>): State
    requires IsRun(s, actions)
    decreases |actions|
  {
    if actions == [] then s else After(Apply(s, actions[0]), actions[1..])
  }

  lemma {:induction false} RunKeeps(s: State, actions: seq<Action>)
    requires Valid(s) && IsRun(s, actions)
    ensures Valid(After(s, actions))
    decreases |actions|
  {
    hide Valid, Apply, Enabled;
    if actions != [] {
      StepKeeps(s, actions[0]);
      RunKeeps(Apply(s, actions[0]), actions[1..]);
    }
  }

  // An action of the command loop itself
  predicate LoopAction(a: Action) {
    a.EnterLoop? || a.ResetLoop?
  }

  // No action outside the command loop changes a pending stop.
  lemma {:induction false} PendingStays(s: State, actions: seq<Action>)
    requires Valid(s) && s.pending && s.pc != EnteringLoop && IsRun(s, actions)
    requires forall i :: 0 <= i < |actions| ==> !LoopAction(actions[i])
    ensures After(s, actions).pending && After(s, actions).stopReason == s.stopReason
    decreases |actions|
  {
    if actions != [] {
      StepKeeps(s, actions[0]);
      PendingStays(Apply(s, actions[0]), actions[1..]);
    }
  }

  // In every interleaving from the start: a stop requested while running, with no stop requested before it since the
  // last command loop, is what the next finish_run returns, whatever is requested in between.
  lemma FirstStopIsReturned(before: seq<Action>, r: Reason, between: seq<Action>, step: bool)
    requires IsRun(INITIAL, before) && After(INITIAL, before).running && After(INITIAL, before).requests == []
    requires IsRun(Apply(After(INITIAL, before), Request(r)), between)
    requires forall i :: 0 <= i < |between| ==> !LoopAction(between[i])
    requires Enabled(After(Apply(After(INITIAL, before), Request(r)), between), FinishRun(step))
    ensures var s := After(Apply(After(INITIAL, before), Request(r)), between);
            Apply(s, FinishRun(step)).pc == Finished(Some(r))
  {
    RunKeeps(INITIAL, before);
    hide Valid, Apply, Enabled, LoopAction, IsRun, After;
    var s := After(INITIAL, before);
    FirstRequest(s, r);
    PendingStays(Apply(s, Request(r)), between);
    FinishReturns(After(Apply(s, Request(r)), between), step);
  }

  lemma FirstRequest(s: State, r: Reason)
    requires Valid(s) && s.running && s.requests == []
    ensures var s1 := Apply(s, Request(r));
            Enabled(s, Request(r)) && Valid(s1) && s1.pending && s1.stopReason == r && s1.pc != EnteringLoop
  {
  }

  lemma FinishReturns(s: State, step: bool)
    requires Enabled(s, FinishRun(step)) && s.pending
    ensures Apply(s, FinishRun(step)).pc == Finished(Some(s.stopReason))
  {
  }

  // begin_run refuses to start exactly while a stop is pending.
  lemma BeginRefuses(actions: seq<Action>)
    requires IsRun(INITIAL, actions) && Enabled(After(INITIAL, actions), BeginRun)
    ensures var s := After(INITIAL, actions);
            Apply(s, BeginRun).pc == (if s.requests == [] then Running else Refused)
  {
    RunKeeps(INITIAL, actions);
  }

  // Whether the emulator is at work after some actions: whether the last start or finish among them is a start.
  predicate WorksAfter(works: bool, actions: seq<Action>)
    decreases |actions|
  {
    if actions == [] then works
    else
      match actions[0]
      case Resume => WorksAfter(true, actions[1..])
      case BeginRun => WorksAfter(true, actions[1..])
      case FinishRun(_) => WorksAfter(false, actions[1..])
      case _ => WorksAfter(works, actions[1..])
  }

  lemma {:induction false} WorkFollows(s: State, actions: seq<Action>)
    requires Valid(s) && IsRun(s, actions)
    ensures Valid(After(s, actions)) && AtWork(After(s, actions).pc) == WorksAfter(AtWork(s.pc), actions)
    decreases |actions|
  {
    if actions != [] {
      StepKeeps(s, actions[0]);
      WorkFollows(Apply(s, actions[0]), actions[1..]);
    }
  }

  // In every interleaving: a Ctrl-C whose check saw the target running, and whose request comes after the actions in
  // between. If a stop is pending then, that one is returned. If none is, and the last start or finish in between is a
  // start (or there is none), the interrupt is what the next finish_run returns. In the last case, after a finish, the
  // request changes nothing: the interrupt is dropped, and no ? command is queued.
  lemma InterruptStops(before: seq<Action>, between: seq<Action>, later: seq<Action>, step: bool)
    requires IsRun(INITIAL, before) && Enabled(After(INITIAL, before), CheckInterrupt) && After(INITIAL, before).running
    requires IsRun(Apply(After(INITIAL, before), CheckInterrupt), between)
    requires Enabled(After(Apply(After(INITIAL, before), CheckInterrupt), between), RequestInterrupt)
    requires IsRun(Apply(After(Apply(After(INITIAL, before), CheckInterrupt), between), RequestInterrupt), later)
    requires forall i :: 0 <= i < |later| ==> !LoopAction(later[i])
    ensures var s := After(Apply(After(INITIAL, before), CheckInterrupt), between);
            var s' := Apply(s, RequestInterrupt);
            var end := After(s', later);
            && s'.queries == s.queries
            && (s.pending && s.pc != EnteringLoop && Enabled(end, FinishRun(step)) ==>
                  s'.stopReason == s.stopReason && Apply(end, FinishRun(step)).pc == Finished(Some(s.stopReason)))
            && (!s.pending && WorksAfter(true, between) && Enabled(end, FinishRun(step)) ==>
                  s'.pending && Apply(end, FinishRun(step)).pc == Finished(Some(Interrupt)))
            && (!s.pending && !WorksAfter(true, between) ==> s' == s.(checkedRunning := false))
  {
    RunKeeps(INITIAL, before);
    var s0 := After(INITIAL, before);
    CheckKeeps(s0);
    hide Valid, Apply, Enabled, LoopAction, IsRun, After, WorksAfter, AtWork;
    WorkFollows(Apply(s0, CheckInterrupt), between);
    var s := After(Apply(s0, CheckInterrupt), between);
    InterruptStep(s);
    var s' := Apply(s, RequestInterrupt);
    if s'.pending && s.pc != EnteringLoop {
      PendingStays(s', later);
      if Enabled(After(s', later), FinishRun(step)) {
        FinishReturns(After(s', later), step);
      }
    }
  }

  lemma CheckKeeps(s: State)
    requires Valid(s) && Enabled(s, CheckInterrupt) && s.running
    ensures Valid(Apply(s, CheckInterrupt)) && AtWork(Apply(s, CheckInterrupt).pc)
  {
  }

  lemma InterruptStep(s: State)
    requires Valid(s) && Enabled(s, RequestInterrupt)
    ensures var s' := Apply(s, RequestInterrupt);
            && Valid(s') && s'.queries == s.queries && s'.pc == s.pc
            && (s.pending ==> s'.pending && s'.stopReason == s.stopReason)
            && (!s.pending && AtWork(s.pc) ==> s'.pending && s'.stopReason == Interrupt && s.pc != EnteringLoop)
            && (!s.pending && !AtWork(s.pc) ==> s' == s.(checkedRunning := false))
  {
  }

  // So a Ctrl-C can get lost: it neither stops the target nor queues a ? command, and the emulator goes on running.
  lemma InterruptCanGetLost()
    ensures var actions := [Resume, BeginRun, CheckInterrupt, FinishRun(false), RequestInterrupt, NextRun, BeginRun];
            IsRun(INITIAL, actions) && After(INITIAL, actions).pc == Running && !After(INITIAL, actions).pending
            && After(INITIAL, actions).queries == 0
  {
    var s1 := Apply(INITIAL, Resume);
    var s2 := Apply(s1, BeginRun);
    var s3 := Apply(s2, CheckInterrupt);
    var s4 := Apply(s3, FinishRun(false));
    var s5 := Apply(s4, RequestInterrupt);
    var s6 := Apply(s5, NextRun);
    Unfold(s6, [BeginRun]);
    Unfold(s5, [NextRun, BeginRun]);
    Unfold(s4, [RequestInterrupt, NextRun, BeginRun]);
    Unfold(s3, [FinishRun(false), RequestInterrupt, NextRun, BeginRun]);
    Unfold(s2, [CheckInterrupt, FinishRun(false), RequestInterrupt, NextRun, BeginRun]);
    Unfold(s1, [BeginRun, CheckInterrupt, FinishRun(false), RequestInterrupt, NextRun, BeginRun]);
    Unfold(INITIAL, [Resume, BeginRun, CheckInterrupt, FinishRun(false), RequestInterrupt, NextRun, BeginRun]);
  }

  lemma Unfold(s: State, actions: seq<Action>)
    requires actions != [] && Enabled(s, actions[0]) && IsRun(Apply(s, actions[0]), actions[1..])
    ensures IsRun(s, actions) && After(s, actions) == After(Apply(s, actions[0]), actions[1..])
  {
  }

  // The server's fields, and the methods that change them under the lock.
  class StopState {
    var running: bool
    var pending: bool
    var stopReason: Reason

    ghost predicate Matches(s: State)
      reads this
    {
      running == s.running && pending == s.pending && stopReason == s.stopReason
    }

    method Begin(ghost s: State) returns (start: bool)
      requires Matches(s) && Enabled(s, BeginRun)
      modifies this
      ensures Matches(Apply(s, BeginRun)) && (start <==> Apply(s, BeginRun).pc == Running)
    {
      running := true;
      if pending {
        return false;
      }
      stopReason := Default;
      return true;
    }

    method Finish(step: bool, ghost s: State) returns (stop: Option<Reason>)
      requires Matches(s) && Enabled(s, FinishRun(step))
      modifies this
      ensures Matches(Apply(s, FinishRun(step))) && Apply(s, FinishRun(step)).pc == Finished(stop)
    {
      running := false;
      if pending {
        return Some(stopReason);
      }
      if step {
        return Some(StepDone);
      }
      return None;
    }

    method RequestStopReason(r: Reason, ghost s: State)
      requires Matches(s)
      modifies this
      ensures Matches(Apply(s, Request(r)))
    {
      if !running || pending {
        return;
      }
      stopReason := r;
      pending := true;
    }

    method StartLoop(ghost s: State)
      requires Matches(s) && Enabled(s, ResetLoop)
      modifies this
      ensures Matches(Apply(s, ResetLoop))
    {
      running := false;
      pending := false;
    }
  }
}
