/** src/tui/FtxuiTuiRunner.cpp:115-180: the background worker, one mutex and one condition variable, under every
    interleaving of its clients, its thread and its destructor. */
module TaskWorker {
  import opened Common

  type Task = nat

  /** Where the worker thread is. It holds the mutex exactly while Deciding. */
  datatype Pc =
    | Asleep                                // blocked on the condition variable
    | Awake                                 // notified, about to take the mutex again
    | Deciding                              // at the wait's condition
    | Running(task: Task)
    | Returned(task: Task, value: string)   // about to take the mutex and store the value
    | Calling                               // in the update callback
    | Relocking                             // at the end of the loop, or just started
    | Exited

  datatype Destructor = NotCalled | StopSet | Notified | Joined

  /** `accepted`, `started` and `finished` record history and steer nothing. */
  datatype State = State(pending: Option<Task>, busy: bool, stopping: bool, result: string, pc: Pc,
                         destructor: Destructor, accepted: seq<Task>, started: seq<Task>, finished: seq<Task>)

  /** The atomic steps: each client call is one critical section; the destructor notifies after releasing the mutex. */
  datatype Action =
    | Submit(task: Task)
    | Clear
    | BeginDestroy
    | NotifyAll
    | Join
    | SpuriousWakeup
    | Worker(value: string)

  const LOADING := "Loading..."

  const INITIAL := State(None, false, false, "", Relocking, NotCalled, [], [], [])

  predicate Enabled(s: State, a: Action) {
    match a
    case Submit(_) => s.pc != Deciding && s.destructor == NotCalled
    case Clear => s.pc != Deciding && s.destructor == NotCalled
    case BeginDestroy => s.pc != Deciding && s.destructor == NotCalled
    case NotifyAll => s.destructor == StopSet
    case Join => s.destructor == Notified && s.pc == Exited
    case SpuriousWakeup => s.pc == Asleep
    case Worker(_) => s.pc != Asleep && s.pc != Exited
  }

  function Wake(pc: Pc): Pc { if pc == Asleep then Awake else pc }

  function WorkerStep(s: State, value: string): State {
    match s.pc
    case Awake => s.(pc := Deciding)
    case Relocking => s.(pc := Deciding)
    case Deciding =>
      if s.stopping then s.(pc := Exited)
      else if s.pending.None? then s.(pc := Asleep)
      else
        s.(pending := None, busy := true, pc := Running(s.pending.value), started := s.started + [s.pending.value])
    case Running(task) => s.(pc := Returned(task, value))
    case Returned(task, v) => s.(result := v, busy := false, pc := Calling, finished := s.finished + [task])
    case Calling => s.(pc := Relocking)
    case Asleep => s
    case Exited => s
  }

  /** One step; an action that is not enabled leaves the state alone, so every sequence of actions is a run. */
  function Step(s: State, a: Action): State {
    if !Enabled(s, a) then s
    else
      match a
      case Submit(task) =>
        if s.pending.Some? || s.busy then s
        else s.(pending := Some(task), result := LOADING, pc := Wake(s.pc), accepted := s.accepted + [task])
      case Clear => s.(result := "")
      case BeginDestroy => s.(stopping := true, destructor := StopSet)
      case NotifyAll => s.(destructor := Notified, pc := Wake(s.pc))
      case Join => s.(destructor := Joined)
      case SpuriousWakeup => s.(pc := Awake)
      case Worker(value) => WorkerStep(s, value)
  }

  function Run(s: State, actions: seq<Action>): State
    decreases |actions|
  {
    if actions == [] then s else Run(Step(s, actions[0]), actions[1..])
  }

  // ----- the class -----

  class TaskWorker {
    var pending: Option<Task>
    var busy: bool
    var stopping: bool
    var result: string
    var pc: Pc
    var destructor: Destructor
    ghost var accepted: seq<Task>
    ghost var started: seq<Task>
    ghost var finished: seq<Task>

    ghost function Abstract(): State
      reads this
    {
      State(pending, busy, stopping, result, pc, destructor, accepted, started, finished)
    }

    constructor ()
      ensures Abstract() == INITIAL
    {
      pending, busy, stopping, result := None, false, false, "";
      pc, destructor := Relocking, NotCalled;
      accepted, started, finished := [], [], [];
    }

    method Submit(task: Task) returns (taken: bool)
      requires Enabled(Abstract(), Action.Submit(task))
      modifies this
      ensures Abstract() == Step(old(Abstract()), Action.Submit(task))
      ensures taken <==> old(pending.None? && !busy)
    {
      if pending.Some? || busy {
        return false;
      }
      pending := Some(task);
      result := LOADING;
      accepted := accepted + [task];
      Notify();
      return true;
    }

    method Notify()
      modifies this`pc
      ensures pc == Wake(old(pc))
    {
      if pc == Asleep { pc := Awake; }
    }

    method Clear()
      requires Enabled(Abstract(), Action.Clear)
      modifies this`result
      ensures Abstract() == Step(old(Abstract()), Action.Clear)
    {
      result := "";
    }

    method BeginDestroy()
      requires Enabled(Abstract(), Action.BeginDestroy)
      modifies this`stopping, this`destructor
      ensures Abstract() == Step(old(Abstract()), Action.BeginDestroy)
    {
      stopping := true;
      destructor := StopSet;
    }

    method NotifyAll()
      requires Enabled(Abstract(), Action.NotifyAll)
      modifies this`pc, this`destructor
      ensures Abstract() == Step(old(Abstract()), Action.NotifyAll)
    {
      Notify();
      destructor := Notified;
    }

    /** The worker thread up to its next point where others may run; `value` is what the task yields. */
    method Work(value: string)
      requires Enabled(Abstract(), Action.Worker(value))
      modifies this
      ensures Abstract() == Step(old(Abstract()), Action.Worker(value))
    {
      match pc {
        case Awake => pc := Deciding;
        case Relocking => pc := Deciding;
        case Deciding =>
          if !stopping && pending.None? {
            pc := Asleep;
          } else if stopping {
            pc := Exited;
          } else {
            var task := pending.value;
            pending := None;
            busy := true;
            started := started + [task];
            pc := Running(task);
          }
        case Running(task) => pc := Returned(task, value);
        case Returned(task, v) =>
          result := v;
          busy := false;
          finished := finished + [task];
          pc := Calling;
        case Calling => pc := Relocking;
      }
    }

    /** Any schedule at all: what the object does is what the step relation says. */
    method Execute(schedule: seq<Action>)
      modifies this
      ensures Abstract() == Run(old(Abstract()), schedule)
    {
      for i := 0 to |schedule|
        invariant Run(Abstract(), schedule[i..]) == Run(old(Abstract()), schedule)
      {
        assert schedule[i..][1..] == schedule[i + 1..];
        Perform(schedule[i]);
      }
    }

    method Perform(action: Action)
      modifies this
      ensures Abstract() == Step(old(Abstract()), action)
    {
      match action {
        case Submit(task) => if pc != Deciding && destructor == NotCalled { var taken := Submit(task); }
        case Clear => if pc != Deciding && destructor == NotCalled { Clear(); }
        case BeginDestroy => if pc != Deciding && destructor == NotCalled { BeginDestroy(); }
        case NotifyAll => if destructor == StopSet { NotifyAll(); }
        case Join => if destructor == Notified && pc == Exited { destructor := Joined; }
        case SpuriousWakeup => if pc == Asleep { pc := Awake; }
        case Worker(value) => if pc != Asleep && pc != Exited { Work(value); }
      }
    }
  }

  // ----- what every run keeps -----

  function Waiting(s: State): seq<Task> {
    if s.pending.Some? then [s.pending.value] else []
  }

  function Current(s: State): seq<Task> {
    match s.pc
    case Running(task) => [task]
    case Returned(task, _) => [task]
    case _ => []
  }

  ghost predicate Invariant(s: State) {
    && s.accepted == s.started + Waiting(s)
    && s.started == s.finished + Current(s)
    && (s.busy <==> Current(s) != [])
    && !(s.busy && s.pending.Some?)
    && (s.stopping <==> s.destructor != NotCalled)
    // no lost wake-up: whoever sleeps has nothing to do, or the notification is still to come
    && (s.pc == Asleep ==> s.pending.None? && (s.stopping ==> s.destructor == StopSet))
    && (s.pc == Exited ==> s.stopping)
    && (s.destructor == Joined ==> s.pc == Exited)
    && (s.busy || s.pending.Some? ==> s.result == LOADING || s.result == "")
  }

  lemma StepKeepsInvariant(s: State, a: Action)
    requires Invariant(s)
    ensures Invariant(Step(s, a))
  {
  }

  lemma {:induction false} RunKeepsInvariant(s: State, actions: seq<Action>)
    requires Invariant(s)
    ensures Invariant(Run(s, actions))
    decreases |actions|
  {
    if actions != [] {
      StepKeepsInvariant(s, actions[0]);
      RunKeepsInvariant(Step(s, actions[0]), actions[1..]);
    }
  }

  /** In every interleaving at most one task is outstanding, tasks start and finish in submission order, each at most
      once, and the only one that can be left over is one that was still waiting. */
  lemma InOrderAndOnce(actions: seq<Action>)
    ensures var s := Run(INITIAL, actions);
            && s.finished <= s.started <= s.accepted
            && |s.accepted| <= |s.finished| + 1
            && (s.started != s.accepted ==> s.pending.Some? && s.accepted == s.started + [s.pending.value])
  {
    RunKeepsInvariant(INITIAL, actions);
  }

  /** After the thread was joined every accepted task has run to its end, except one that stop overtook. */
  lemma AfterJoin(actions: seq<Action>)
    ensures var s := Run(INITIAL, actions);
            s.destructor == Joined ==>
              && s.stopping && s.started == s.finished
              && (s.accepted == s.finished || (s.pending.Some? && s.accepted == s.finished + [s.pending.value]))
  {
    RunKeepsInvariant(INITIAL, actions);
  }

  /** While a task is outstanding the shown result is never that of an earlier one. */
  lemma ResultIsNotStale(actions: seq<Action>)
    ensures var s := Run(INITIAL, actions);
            s.pending.Some? || s.busy ==> s.result == "Loading..." || s.result == ""
  {
    RunKeepsInvariant(INITIAL, actions);
  }

  // ----- what is shown -----

  /** Where a run from the beginning stands before its `n`-th action. */
  function At(actions: seq<Action>, n: nat): State
    requires n <= |actions|
  {
    Run(INITIAL, actions[..n])
  }

  lemma {:induction false} RunLast(s: State, actions: seq<Action>)
    requires actions != []
    ensures Run(s, actions) == Step(Run(s, actions[..|actions| - 1]), actions[|actions| - 1])
    decreases |actions|
  {
    var n := |actions| - 1;
    if n > 0 {
      RunLast(Step(s, actions[0]), actions[1..]);
      assert actions[1..][..n - 1] == actions[..n][1..];
    }
  }

  /** With action `i` the task that is running comes back with a value. */
  ghost predicate Yields(actions: seq<Action>, i: nat) {
    i < |actions| && actions[i].Worker? && At(actions, i).pc.Running?
  }

  /** The value that came back with action `i` is about to be stored. */
  ghost predicate Brought(actions: seq<Action>, i: nat, n: nat)
    requires n <= |actions|
  {
    && i < n && Yields(actions, i)
    && var (s, t) := (At(actions, i), At(actions, n));
       && t.pc == Returned(s.pc.task, actions[i].value)
       && t.finished == s.finished && t.accepted == s.accepted
  }

  /** No clear between the two actions came after the task that came back with action `i` had finished. */
  ghost predicate NotCleared(actions: seq<Action>, i: nat, n: nat)
    requires i < n <= |actions|
  {
    forall j: nat :: i < j < n && actions[j].Clear? ==> |At(actions, j).finished| <= |At(actions, i).finished|
  }

  /** The task that came back with action `i` is the last one finished, and unless another was accepted or the result
      was cleared since, what it brought is shown. */
  ghost predicate FinishedLast(actions: seq<Action>, i: nat, n: nat)
    requires n <= |actions|
  {
    && i < n && Yields(actions, i)
    && var (s, t) := (At(actions, i), At(actions, n));
       && t.finished == s.finished + [s.pc.task] && s.accepted <= t.accepted
       && (t.accepted == s.accepted && NotCleared(actions, i, n) ==> t.result == actions[i].value)
  }

  lemma AtNext(actions: seq<Action>, n: nat)
    requires n < |actions|
    ensures At(actions, n + 1) == Step(At(actions, n), actions[n])
  {
    RunLast(INITIAL, actions[..n + 1]);
    assert actions[..n + 1][..n] == actions[..n];
  }

  lemma StepOfReturned(s: State, a: Action)
    requires Invariant(s) && s.pc.Returned?
    ensures var t := Step(s, a);
            && t.accepted == s.accepted
            && if a.Worker? then t.finished == s.finished + [s.pc.task] && t.result == s.pc.value && !t.pc.Returned?
               else t.pc == s.pc && t.finished == s.finished
  {
  }

  lemma StepOfOthers(s: State, a: Action)
    requires !s.pc.Returned? || !a.Worker?
    ensures var t := Step(s, a);
            && t.finished == s.finished && s.accepted <= t.accepted
            && (t.accepted == s.accepted && !a.Clear? ==> t.result == s.result)
            && (t.pc.Returned? && !s.pc.Returned? ==>
                  a.Worker? && s.pc.Running? && t.pc == Returned(s.pc.task, a.value) && t.accepted == s.accepted)
  {
  }

  lemma StillFinishedLast(actions: seq<Action>, i: nat, n: nat)
    requires n < |actions| && FinishedLast(actions, i, n) && (!At(actions, n).pc.Returned? || !actions[n].Worker?)
    ensures FinishedLast(actions, i, n + 1)
  {
    AtNext(actions, n);
    StepOfOthers(At(actions, n), actions[n]);
    assert NotCleared(actions, i, n + 1) ==> NotCleared(actions, i, n) && !actions[n].Clear?;
  }

  lemma {:induction false} Trace(actions: seq<Action>, n: nat)
    requires n <= |actions|
    ensures At(actions, n).pc.Returned? ==> exists i: nat :: Brought(actions, i, n)
    ensures At(actions, n).finished != [] ==> exists i: nat :: FinishedLast(actions, i, n)
  {
    if n > 0 {
      var (s, a) := (At(actions, n - 1), actions[n - 1]);
      Trace(actions, n - 1);
      AtNext(actions, n - 1);
      RunKeepsInvariant(INITIAL, actions[..n - 1]);
      if s.pc.Returned? {
        StepOfReturned(s, a);
        var i: nat :| Brought(actions, i, n - 1);
        assert if a.Worker? then FinishedLast(actions, i, n) else Brought(actions, i, n);
      } else {
        StepOfOthers(s, a);
        assert At(actions, n).pc.Returned? ==> Brought(actions, n - 1, n);
      }
      if s.finished != [] && !(s.pc.Returned? && a.Worker?) {
        var i: nat :| FinishedLast(actions, i, n - 1);
        StillFinishedLast(actions, i, n - 1);
      }
    }
  }

  /** In every run, once a task has finished and until the next one is accepted or the result is cleared, the window
      shows what the last finished task came back with. */
  lemma FinishedIsShown(actions: seq<Action>)
    ensures var s := Run(INITIAL, actions);
            s.finished != [] ==>
              exists i: nat :: i < |actions| && Yields(actions, i)
                && s.finished == At(actions, i).finished + [At(actions, i).pc.task]
                && (s.accepted == At(actions, i).accepted && NotCleared(actions, i, |actions|)
                    ==> s.result == actions[i].value)
  {
    Trace(actions, |actions|);
    assert actions[..|actions|] == actions;
    if Run(INITIAL, actions).finished != [] {
      var i: nat :| FinishedLast(actions, i, |actions|);
    }
  }

  /** What one step can do to the shown result: an accepted task puts "Loading..." there, a clear empties it, and
      nothing else but the end of a task touches it. */
  lemma StepShows(s: State, a: Action)
    ensures var t := Step(s, a);
            && s.accepted <= t.accepted && s.finished <= t.finished
            && (t.accepted != s.accepted ==> t.result == "Loading...")
            && (a.Clear? && Enabled(s, a) ==> t.result == "")
            && (!a.Clear? && t.accepted == s.accepted && t.finished == s.finished ==> t.result == s.result)
  {
  }

  /** Whatever is shown stays while no task is accepted, none finishes and nobody clears it. */
  lemma {:induction false} ResultStays(s: State, later: seq<Action>)
    requires forall b :: b in later ==> !b.Clear?
    ensures var t := Run(s, later);
            && s.accepted <= t.accepted && s.finished <= t.finished
            && (t.accepted == s.accepted && t.finished == s.finished ==> t.result == s.result)
    decreases |later|
  {
    if later != [] {
      StepShows(s, later[0]);
      ResultStays(Step(s, later[0]), later[1..]);
    }
  }

  // ----- progress -----

  /** How many steps of its own the worker is from its next decision. */
  function ToDecision(pc: Pc): nat {
    match pc
    case Deciding => 1
    case Awake => 2
    case Relocking => 2
    case Asleep => 3
    case Calling => 3
    case Returned(_, _) => 4
    case Running(_) => 5
    case Exited => 0
  }

  /** While a task waits and nobody stops the worker, the worker can move, each of its moves brings it closer and the
      last one starts the task, and nobody else's move takes it further away. */
  lemma WaitingTaskNears(s: State, a: Action)
    requires Invariant(s) && s.pending.Some? && !s.stopping && a != BeginDestroy
    ensures forall value :: Enabled(s, Worker(value))
    ensures ToDecision(s.pc) <= 3
    ensures var t := Step(s, a);
            if a.Worker? && s.pc == Deciding then t.started == s.started + [s.pending.value] && t.pending.None?
            else
              && t.pending == s.pending && !t.stopping && t.started == s.started
              && (if a.Worker? then ToDecision(t.pc) < ToDecision(s.pc) else t.pc == s.pc)
  {
  }

  /** How often a schedule lets the worker run. */
  function WorkerTurns(actions: seq<Action>): nat {
    if actions == [] then 0 else (if actions[0].Worker? then 1 else 0) + WorkerTurns(actions[1..])
  }

  lemma {:induction false} StartedStays(s: State, actions: seq<Action>)
    ensures s.started <= Run(s, actions).started
    decreases |actions|
  {
    if actions != [] { StartedStays(Step(s, actions[0]), actions[1..]); }
  }

  /** No accepted task is missed: from any reachable state with a waiting task, every schedule that does not stop the
      worker and lets it run three times starts that task, whatever submitters and spurious wake-ups do in between. */
  lemma {:induction false} WaitingTaskStarts(s: State, actions: seq<Action>)
    requires Invariant(s) && s.pending.Some? && !s.stopping
    requires BeginDestroy !in actions && WorkerTurns(actions) >= ToDecision(s.pc)
    ensures ToDecision(s.pc) <= 3
    ensures s.started + [s.pending.value] <= Run(s, actions).started
    decreases |actions|
  {
    var a, rest := actions[0], actions[1..];
    WaitingTaskNears(s, a);
    StepKeepsInvariant(s, a);
    if a.Worker? && s.pc == Deciding {
      StartedStays(Step(s, a), rest);
    } else {
      WaitingTaskStarts(Step(s, a), rest);
    }
  }

  function WorkerMoves(s: State, actions: seq<Action>): nat
    decreases |actions|
  {
    if actions == [] then 0
    else (if actions[0].Worker? && Enabled(s, actions[0]) then 1 else 0) + WorkerMoves(Step(s, actions[0]), actions[1..])
  }

  /** Once stop is set the worker makes at most as many steps as it takes it to its next decision: never more than
      five, whatever else is going on. */
  lemma {:induction false} StopIsPrompt(s: State, actions: seq<Action>)
    requires Invariant(s) && s.stopping
    ensures WorkerMoves(s, actions) + ToDecision(Run(s, actions).pc) <= ToDecision(s.pc) <= 5
    ensures Run(s, actions).stopping && Run(s, actions).started == s.started
    decreases |actions|
  {
    if actions != [] {
      StepKeepsInvariant(s, actions[0]);
      StopIsPrompt(Step(s, actions[0]), actions[1..]);
    }
  }

  /** And it does get there: until it has exited, either it can move or its wake-up call is about to be made. */
  lemma StopIsNotBlocked(s: State)
    requires Invariant(s) && s.stopping && s.pc != Exited
    ensures (forall value :: Enabled(s, Worker(value))) || (Enabled(s, NotifyAll) && Step(s, NotifyAll).pc == Awake)
  {
  }

  lemma {:induction false} ExitedStays(s: State, actions: seq<Action>)
    requires s.pc == Exited
    ensures Run(s, actions).pc == Exited
    decreases |actions|
  {
    if actions != [] { ExitedStays(Step(s, actions[0]), actions[1..]); }
  }

  /** So the join returns: once the destructor has notified, every schedule that gives the worker the turns it needs to
      its next decision, five at most, ends with the thread gone. */
  lemma {:induction false} JoinReturns(s: State, actions: seq<Action>)
    requires Invariant(s) && s.destructor == Notified && WorkerTurns(actions) >= ToDecision(s.pc)
    ensures ToDecision(s.pc) <= 5
    ensures var t := Run(s, actions); t.pc == Exited && (t.destructor == Joined || Enabled(t, Join))
    decreases |actions|
  {
    RunKeepsInvariant(s, actions);
    StaysNotified(s, actions);
    if s.pc == Exited {
      ExitedStays(s, actions);
    } else {
      var t := Step(s, actions[0]);
      StepKeepsInvariant(s, actions[0]);
      if t.pc == Exited { ExitedStays(t, actions[1..]); } else { JoinReturns(t, actions[1..]); }
    }
  }

  lemma {:induction false} StaysNotified(s: State, actions: seq<Action>)
    requires s.destructor == Notified || s.destructor == Joined
    ensures Run(s, actions).destructor == Notified || Run(s, actions).destructor == Joined
    decreases |actions|
  {
    if actions != [] { StaysNotified(Step(s, actions[0]), actions[1..]); }
  }
}
