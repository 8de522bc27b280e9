/** What every run of the release protocol guarantees, whatever the system does between snapshots. */
module PortSafety {
  import opened Common
  import opened Ordering
  import opened Sockets
  import opened PortTargets
  import opened PortPlan
  import opened PortPhases
  import opened PortFree
  import Resolver = SocketInodeResolver

  // ----- one call of terminate or force -----

  /** Only matched targets are signalled, in the plan's order, never LX itself or process 1. */
  lemma SendsFollowThePlan(config: Config, signal: Signal, plan: Plan, current: Result<Plan>, after: Result<Plan>,
                             run: SignalRun, r: Result<ReleaseResult>)
    requires CallPhase(config, signal, plan, current, after, run, r)
    ensures run.sends != [] ==> current.Success? && SameTargets(plan, current.value)
    ensures |run.sends| <= |plan.ownerPids|
    ensures forall i :: 0 <= i < |run.sends| ==>
              run.sends[i].pid == plan.ownerPids[i] && run.sends[i].pid > 1 && run.sends[i].pid != config.selfPid
    ensures forall i :: 0 <= i < |run.sends| - 1 ==> run.sends[i].reply.Ok?
  {
    forall i | 0 <= i < |run.sends|
      ensures run.sends[i].pid == plan.ownerPids[i] && run.sends[i].pid > 1 && run.sends[i].pid != config.selfPid
    {
      assert ValidateSignalTarget(config, plan.ownerPids[i]).Success?;
    }
  }

  /** A plan made by prepareRelease is signalled in full exactly when the targets matched and no send failed;
      the waits and the second look only come after that. */
  lemma SignalledInFullExactly(config: Config, signal: Signal, plan: Plan, current: Result<Plan>, after: Result<Plan>,
                               run: SignalRun, r: Result<ReleaseResult>)
    requires CallPhase(config, signal, plan, current, after, run, r)
    requires AllSignalable(config, plan.ownerPids) && plan.ownerPids != []
    ensures AllSent(plan, run.sends) <==>
              current.Success? && SameTargets(plan, current.value)
              && forall i :: 0 <= i < |run.sends| ==> run.sends[i].reply.Ok?
    ensures run.waits != [] || run.after.Some? ==> AllSent(plan, run.sends)
  {
    if current.Success? && SameTargets(plan, current.value) {
      SentInFull(config, signal, plan, run.sends);
    }
  }

  lemma SentInFull(config: Config, signal: Signal, plan: Plan, sends: seq<Attempt>)
    requires SendPhase(config, plan.ownerPids, sends) && AllSignalable(config, plan.ownerPids)
    ensures AllSent(plan, sends) <==> forall i :: 0 <= i < |sends| ==> sends[i].reply.Ok?
    ensures AllSent(plan, sends) <==> SendResult(config, plan.ownerPids, signal, sends).Success?
  {
    if sends != [] && sends[|sends| - 1].reply.Ok? {
      assert forall i :: 0 <= i < |sends| ==> sends[i].reply.Ok?;
    }
  }

  /** An error says "partially signaled" exactly when somebody, but not everybody, was signalled. */
  lemma PartialExactly(config: Config, signal: Signal, plan: Plan, run: SignalRun, r: Result<ReleaseResult>)
    requires SignalPhase(config, signal, plan, run, r) && r.Failure?
    ensures r.error.partial <==> run.sends != [] && run.sends[0].reply.Ok? && !AllSent(plan, run.sends)
  {
    PlanErrorsAreWhole(config, plan.localPort, run.before);
    if run.after.Some? { PlanErrorsAreWhole(config, plan.localPort, run.after.value); }
    CallErrors(config, signal, plan, PlanOf(config, plan.localPort, run.before),
               PlanAfter(config, plan.localPort, run), run, r);
  }

  lemma PlanErrorsAreWhole(config: Config, localPort: nat, view: View)
    ensures PlanOf(config, localPort, view).Failure? ==> !PlanOf(config, localPort, view).error.partial
  {
    NotFoundExactly(config, localPort, view);
  }

  lemma CallErrors(config: Config, signal: Signal, plan: Plan, current: Result<Plan>, after: Result<Plan>,
                   run: SignalRun, r: Result<ReleaseResult>)
    requires CallPhase(config, signal, plan, current, after, run, r) && r.Failure?
    requires current.Failure? ==> !current.error.partial
    requires after.Failure? ==> !after.error.partial
    ensures r.error.partial <==> run.sends != [] && run.sends[0].reply.Ok? && !AllSent(plan, run.sends)
  {
    if current.Success? && SameTargets(plan, current.value) {
      ActErrors(config, signal, plan, after, run, r);
    }
  }

  lemma ActErrors(config: Config, signal: Signal, plan: Plan, after: Result<Plan>, run: SignalRun,
                  r: Result<ReleaseResult>)
    requires ActPhase(config, signal, plan, after, run, r) && r.Failure?
    requires after.Failure? ==> !after.error.partial
    ensures r.error.partial <==> run.sends != [] && run.sends[0].reply.Ok? && !AllSent(plan, run.sends)
  {
    if SendResult(config, plan.ownerPids, signal, run.sends).Failure? {
      SomeSendFailed(config, signal, plan, run.sends);
    } else {
      WholeSend(config, signal, plan, run.sends);
      LateErrorIsWhole(config, signal, plan, after, run, r);
    }
  }

  lemma WholeSend(config: Config, signal: Signal, plan: Plan, sends: seq<Attempt>)
    requires SendPhase(config, plan.ownerPids, sends) && SendResult(config, plan.ownerPids, signal, sends).Success?
    ensures AllSent(plan, sends)
  {
  }

  lemma SomeSendFailed(config: Config, signal: Signal, plan: Plan, sends: seq<Attempt>)
    requires SendPhase(config, plan.ownerPids, sends) && SendResult(config, plan.ownerPids, signal, sends).Failure?
    ensures !AllSent(plan, sends)
    ensures SendResult(config, plan.ownerPids, signal, sends).error.partial <==> sends != [] && sends[0].reply.Ok?
  {
    if sends != [] && sends[|sends| - 1].reply.Err? {
      assert |sends| > 1 ==> sends[0].reply.Ok?;
    }
  }

  lemma LateErrorIsWhole(config: Config, signal: Signal, plan: Plan, after: Result<Plan>, run: SignalRun,
                         r: Result<ReleaseResult>)
    requires WaitedPhase(config, signal, plan, after, run, r) && r.Failure?
    requires after.Failure? ==> !after.error.partial
    ensures !r.error.partial
  {
  }

  /** The processes signalled are the owners in the fresh snapshot: each holds a socket of the port there. */
  lemma TargetsHoldThePort(config: Config, signal: Signal, plan: Plan, run: SignalRun, r: Result<ReleaseResult>, i: nat)
    requires SignalPhase(config, signal, plan, run, r) && Prepared(plan) && i < |run.sends|
    ensures PlanOf(config, plan.localPort, run.before).Success?
    ensures var current := PlanOf(config, plan.localPort, run.before).value;
            && current.ownerPids == plan.ownerPids
            && exists k :: 0 <= k < |current.ports|
                           && Resolver.Holds(run.before.procfs, run.sends[i].pid, current.ports[k].socket.inode)
  {
    var current := PlanOf(config, plan.localPort, run.before);
    SendsFollowThePlan(config, signal, plan, current, PlanAfter(config, plan.localPort, run), run, r);
    PlanIsPrepared(config, plan.localPort, run.before);
    SameTargetsSameOwners(plan, current.value);
    PlanOwnersAreHolders(config, plan.localPort, run.before, current.value, run.sends[i].pid);
  }

  function TotalElapsed(waits: seq<Wait>): nat {
    if waits == [] then 0 else TotalElapsed(waits[..|waits| - 1]) + waits[|waits| - 1].elapsed
  }

  lemma {:induction false} WaitsFitTheDeadline(started: nat, deadline: nat, waits: seq<Wait>)
    requires forall i :: 0 <= i < |waits| ==>
               waits[i].timeout == TimeLeft(waits[i].now, deadline) && waits[i].now <= waits[i].began
    requires forall i :: 0 < i < |waits| ==> waits[i - 1].began + waits[i - 1].elapsed <= waits[i].now
    requires waits != [] ==> started <= waits[0].now
    requires forall i :: 0 <= i < |waits| ==> waits[i].elapsed <= waits[i].timeout * NANOS_PER_MILLI
    requires started <= deadline
    ensures TotalElapsed(waits) <= deadline - started
    ensures waits != [] ==> started + TotalElapsed(waits) <= waits[|waits| - 1].now + waits[|waits| - 1].elapsed
  {
    if waits != [] {
      var last := |waits| - 1;
      WaitsFitTheDeadline(started, deadline, waits[..last]);
      var w := waits[last];
      TimeLeftFits(w.now, deadline);
      if last > 0 { assert waits[..last][last - 1] == waits[last - 1]; }
    }
  }

  lemma TimeLeftFits(now: nat, deadline: nat)
    ensures TimeLeft(now, deadline) * NANOS_PER_MILLI <= if now >= deadline then 0 else deadline - now
  {
  }

  /** If no single wait overruns its timeout, all of them together stay within the grace period. */
  lemma WaitsFitTheGracePeriod(config: Config, signal: Signal, plan: Plan, current: Result<Plan>, after: Result<Plan>,
                               run: SignalRun, r: Result<ReleaseResult>)
    requires CallPhase(config, signal, plan, current, after, run, r)
    requires forall i :: 0 <= i < |run.waits| ==> run.waits[i].elapsed <= run.waits[i].timeout * 1_000_000
    ensures TotalElapsed(run.waits) <= config.gracePeriod * 1_000_000
  {
    WaitsFitTheDeadline(run.started, run.started + config.gracePeriod * NANOS_PER_MILLI, run.waits);
  }

  lemma {:induction false} WaitsFollow(config: Config, pids: seq<int>, started: nat, deadline: nat, waits: seq<Wait>, i: nat)
    requires WaitedSoFar(config, pids, deadline, waits) && i < |waits|
    requires started <= waits[0].now
    ensures started <= waits[i].now
  {
    if i > 0 { WaitsFollow(config, pids, started, deadline, waits, i - 1); }
  }

  lemma TimeLeftExactly(now: nat, deadline: nat)
    ensures var left := TimeLeft(now, deadline);
            if now >= deadline then left == 0
            else left * 1_000_000 <= deadline - now < (left + 1) * 1_000_000
  {
  }

  /** Each wait is given the whole milliseconds left between the clock reading before it and the deadline, a grace
      period after the waits began: no fewer, no more, and none once the deadline has passed. */
  lemma WaitsGetTheTimeLeft(config: Config, signal: Signal, plan: Plan, current: Result<Plan>, after: Result<Plan>,
                            run: SignalRun, r: Result<ReleaseResult>, i: nat)
    requires CallPhase(config, signal, plan, current, after, run, r) && i < |run.waits|
    ensures i < |plan.ownerPids| && run.waits[i].pid == plan.ownerPids[i]
    ensures var (wait, deadline) := (run.waits[i], run.started + config.gracePeriod * 1_000_000);
            && run.started <= wait.now <= wait.began
            && if wait.now >= deadline then wait.timeout == 0
               else wait.timeout * 1_000_000 <= deadline - wait.now < (wait.timeout + 1) * 1_000_000
  {
    var deadline := run.started + config.gracePeriod * NANOS_PER_MILLI;
    WaitsFollow(config, plan.ownerPids, run.started, deadline, run.waits, i);
    TimeLeftExactly(run.waits[i].now, deadline);
  }

  // ----- how a call ends -----

  /** A call that never acts: a port that is free already is released by nobody, anything else that changed is a
      conflict, and a failing snapshot passes its error on. */
  lemma RefusedExactly(config: Config, signal: Signal, plan: Plan, current: Result<Plan>, after: Result<Plan>,
                       run: SignalRun, r: Result<ReleaseResult>)
    requires CallPhase(config, signal, plan, current, after, run, r)
    requires current.Failure? || !SameTargets(plan, current.value)
    ensures run.sends == [] && run.waits == [] && run.after == None
    ensures current.Success? ==> r == Failure(Error(Conflict, false))
    ensures current.Failure? && current.error.code == NotFound ==> r == Success(ReleaseResult(true, [], None))
    ensures current.Failure? && current.error.code != NotFound ==> r == Failure(current.error)
  {
  }

  /** A call whose targets matched: it fails with the code of the send or of the wait that failed; otherwise it looks
      again, and reports a free port, what an unkilled owner still holds, or why that is no outcome. */
  lemma ActedExactly(config: Config, signal: Signal, plan: Plan, current: Result<Plan>, after: Result<Plan>,
                     run: SignalRun, r: Result<ReleaseResult>)
    requires CallPhase(config, signal, plan, current, after, run, r)
    requires current.Success? && SameTargets(plan, current.value) && AllSignalable(config, plan.ownerPids)
    ensures run.sends != [] && run.sends[|run.sends| - 1].reply.Err? ==>
              r.Failure? && r.error.code == run.sends[|run.sends| - 1].reply.code
    ensures run.waits != [] && run.waits[|run.waits| - 1].reply.Err? ==>
              r.Failure? && r.error.code == run.waits[|run.waits| - 1].reply.code
    ensures run.after.None? ==>
              || (run.sends != [] && run.sends[|run.sends| - 1].reply.Err?)
              || (run.waits != [] && run.waits[|run.waits| - 1].reply.Err?)
    ensures run.after.Some? ==> |run.waits| == |plan.ownerPids|
    ensures run.after.Some? && after.Failure? && after.error.code != NotFound ==> r == Failure(after.error)
    ensures run.after.Some? && after.Success? && !Remains(plan, after.value) ==> r == Failure(Error(Conflict, false))
    ensures run.after.Some? && after.Success? && Remains(plan, after.value) && signal == Kill ==>
              r == Failure(Error(Timeout, false))
    ensures run.after.Some? && after.Success? && Remains(plan, after.value) && signal == Signal.Terminate ==>
              r.Success? && !r.value.released && r.value.remaining == Some(after.value)
    ensures r.Success? ==> |r.value.deliveries| == |plan.ownerPids|
    ensures r.Success? ==> forall i :: 0 <= i < |plan.ownerPids| ==>
              r.value.deliveries[i].pid == plan.ownerPids[i] && r.value.deliveries[i].signal == signal
  {
    SentInFull(config, signal, plan, run.sends);
    WaitsEnd(config, plan.ownerPids, run.started + config.gracePeriod * NANOS_PER_MILLI, run.waits);
  }

  lemma WaitsEnd(config: Config, pids: seq<int>, deadline: nat, waits: seq<Wait>)
    requires AllSignalable(config, pids)
    ensures WaitPhase(config, pids, deadline, waits) ==>
              && (WaitResult(config, pids, waits).Failure? <==> waits != [] && waits[|waits| - 1].reply.Err?)
              && (WaitResult(config, pids, waits).Success? ==> |waits| == |pids|)
  {
  }

  // ----- what "released" means -----

  /** The last snapshot a terminate or force call took. */
  function LastView(run: SignalRun): View {
    match run.after
    case Some(view) => view
    case None => run.before
  }

  /** A call reports the port released exactly when its last snapshot looked free. */
  lemma ReleasedExactly(config: Config, signal: Signal, plan: Plan, run: SignalRun, r: Result<ReleaseResult>)
    requires SignalPhase(config, signal, plan, run, r)
    ensures r.Success? && r.value.released <==> LooksFree(plan.localPort, LastView(run))
  {
    NotFoundExactly(config, plan.localPort, LastView(run));
    ReleasedByLast(config, signal, plan, PlanOf(config, plan.localPort, run.before),
                   PlanAfter(config, plan.localPort, run), run, r);
    NotFoundExactly(config, plan.localPort, run.before);
  }

  lemma ReleasedByLast(config: Config, signal: Signal, plan: Plan, current: Result<Plan>, after: Result<Plan>,
                       run: SignalRun, r: Result<ReleaseResult>)
    requires CallPhase(config, signal, plan, current, after, run, r)
    requires current.Failure? ==> !current.error.partial
    requires after.Failure? ==> !after.error.partial
    ensures r.Success? && r.value.released <==> (if run.after.Some? then after else current) == Fail(NotFound)
  {
  }

  function LastLook(run: StopRun): Option<View> {
    if run.polls != [] then Some(run.polls[|run.polls| - 1].view) else run.before
  }

  /** Stopping a service succeeds, and then always with a released port, exactly when its last look found it free. */
  lemma ServiceReleasedExactly(config: Config, plan: Plan, run: StopRun, r: Result<ReleaseResult>)
    requires StopPhase(config, plan, run, r)
    ensures r.Success? <==> run.before.Some? && LooksFree(plan.localPort, LastLook(run).value)
    ensures r.Success? ==> r.value == ReleaseResult(true, [], None)
  {
    if run.before.Some? {
      NotFoundExactly(config, plan.localPort, run.before.value);
      StopReleases(config, plan, PlanOf(config, plan.localPort, run.before.value), run, r);
    }
  }

  lemma StopReleases(config: Config, plan: Plan, current: Result<Plan>, run: StopRun, r: Result<ReleaseResult>)
    requires plan.recommendedUnit.Some? && RevalidatedStop(config, plan, current, run, r)
    requires current.Failure? ==> !current.error.partial
    ensures r.Success? <==> if run.polls == [] then current == Fail(NotFound)
                            else LooksFree(plan.localPort, run.polls[|run.polls| - 1].view)
    ensures r.Success? ==> r.value == ReleaseResult(true, [], None)
  {
    if current.Failure? || !SameTargets(plan, current.value) || current.value.recommendedUnit != plan.recommendedUnit {
      SettledRelease(plan, current);
    } else {
      StoppedReleases(config, plan, run, r);
    }
  }

  lemma StoppedReleases(config: Config, plan: Plan, run: StopRun, r: Result<ReleaseResult>)
    requires plan.recommendedUnit.Some? && StopAndPoll(config, plan, run, r)
    ensures r.Success? <==> run.polls != [] && LooksFree(plan.localPort, run.polls[|run.polls| - 1].view)
    ensures r.Success? ==> r.value == ReleaseResult(true, [], None)
  {
    if run.polls != [] {
      PollsRelease(config, plan, run.started, run.polls, r);
    }
  }

  lemma PollsRelease(config: Config, plan: Plan, started: nat, polls: seq<Poll>, r: Result<ReleaseResult>)
    requires PollPhase(config, plan, started, polls, r)
    ensures r.Success? <==> LooksFree(plan.localPort, polls[|polls| - 1].view)
    ensures r.Success? ==> r.value == ReleaseResult(true, [], None)
  {
    NotFoundExactly(config, plan.localPort, polls[|polls| - 1].view);
    SettledRelease(plan, PlanOf(config, plan.localPort, polls[|polls| - 1].view));
  }

  lemma SettledRelease(plan: Plan, after: Result<Plan>)
    requires after.Failure? ==> !after.error.partial
    ensures Refusal(after).Success? <==> after == Fail(NotFound)
    ensures Refusal(after).Success? ==> Refusal(after).value == ReleaseResult(true, [], None)
    ensures after.Success? && Verdict(plan, after).Some? ==> Verdict(plan, after).value.Failure?
  {
  }

  /** The owner lookup does not answer NotFound: the procfs root is there, or no socket made it necessary. */
  predicate RootStands(view: View) {
    view.procfs == Resolver.Unopened(Resolver.Vanished) ==> view.sockets.Ok? ==> !NeedsProcfs(view.sockets.value)
  }

  /** Neither provider answers NotFound on its own account. */
  predicate Honest(view: View) {
    view.sockets != Err(NotFound) && RootStands(view)
  }

  /** A snapshot that found no socket looks free, and one that looks free found none exactly when the providers were
      honest. */
  lemma FreeMeansNoSocket(localPort: nat, view: View)
    requires localPort != 0
    ensures view.sockets == Ok([]) ==> LooksFree(localPort, view)
    ensures LooksFree(localPort, view) ==> (view.sockets == Ok([]) <==> Honest(view))
  {
  }

  /** Without that hypothesis the report is wrong: a procfs root that vanishes passes for a free port. */
  lemma ReleasedWhileHeld(config: Config, plan: Plan, socket: FreshSocket, name: int -> Reply<string>,
                          unit: int -> Reply<Option<string>>)
    requires plan.localPort != 0 && socket.local.port == plan.localPort && socket.inode != 0
    ensures var view := View(Ok([socket]), [], Resolver.Unopened(Resolver.Vanished), name, unit);
            SignalPhase(config, Signal.Terminate, plan, SignalRun(view, [], 0, [], None),
                        Success(ReleaseResult(true, [], None)))
  {
    var view := View(Ok([socket]), [], Resolver.Unopened(Resolver.Vanished), name, unit);
    assert NeedsProcfs([socket]) by { assert [socket][0].inode != 0; }
    NotFoundExactly(config, plan.localPort, view);
  }

  // ----- stopping the service -----

  /** The polls fit the grace period: there are at most gracePeriod / 25 + 2 of them. */
  lemma PollsAreBounded(config: Config, plan: Plan, started: nat, polls: seq<Poll>, r: Result<ReleaseResult>)
    requires PollPhase(config, plan, started, polls, r) && |polls| > 1
    ensures 25 * (|polls| - 2) < config.gracePeriod
  {
    PollsAdvance(started, polls, |polls| - 2);
  }

  lemma {:induction false} PollsAdvance(started: nat, polls: seq<Poll>, i: nat)
    requires i < |polls|
    requires started <= polls[0].now
    requires forall k :: 0 < k < |polls| ==> polls[k - 1].now + POLL_MILLIS * NANOS_PER_MILLI <= polls[k].now
    ensures started + i * POLL_MILLIS * NANOS_PER_MILLI <= polls[i].now
  {
    if i > 0 { PollsAdvance(started, polls, i - 1); }
  }

  /** Without a unit or a service manager there is no stop; nor is there one when the fresh snapshot fails, names other
      targets or recommends another unit, or when the name is no unit's. A failing stop ends the call. */
  lemma NoStopExactly(config: Config, plan: Plan, current: Result<Plan>, run: StopRun, r: Result<ReleaseResult>)
    requires StopPhase(config, plan, run, r)
    requires run.before.Some? ==> current == PlanOf(config, plan.localPort, run.before.value)
    ensures run.before.None? <==> plan.recommendedUnit.None? || !config.serviceAvailable
    ensures run.before.None? ==> run.stop == None && r == Failure(Error(InvalidArgument, false))
    ensures run.before.Some? && current.Success?
            && (!SameTargets(plan, current.value) || current.value.recommendedUnit != plan.recommendedUnit) ==>
              run.stop == None && r == Failure(Error(Conflict, false))
    ensures run.before.Some? && current.Failure? && current.error.code != NotFound ==>
              run.stop == None && r == Failure(current.error)
    ensures run.before.Some? && current.Success? && SameTargets(plan, current.value)
            && current.value.recommendedUnit == plan.recommendedUnit ==>
              if NormalizeUnit(plan.recommendedUnit.value).Failure?
              then run.stop == None && r.Failure? && r.error.code == InvalidArgument
              else run.stop.Some? && (run.stop.value.Err? ==> r == Failure(Error(run.stop.value.code, false)))
    ensures run.stop.None? || run.stop.value.Err? <==> run.polls == []
  {
  }

  /** After the stop the port is looked at until a look settles the matter or the grace period is over: a timeout is
      reported only of a look that still shows original owners and ended no earlier than that, and all looks before the
      last showed the same within the period, 25 milliseconds apart. */
  lemma PollsEndExactly(config: Config, plan: Plan, started: nat, polls: seq<Poll>, r: Result<ReleaseResult>)
    requires PollPhase(config, plan, started, polls, r)
    ensures var last := polls[|polls| - 1]; var seen := PlanOf(config, plan.localPort, last.view);
            && (seen.Success? && Remains(plan, seen.value) ==>
                  r == Failure(Error(Timeout, false)) && last.now >= started + config.gracePeriod * 1_000_000)
            && (seen.Success? && !Remains(plan, seen.value) ==> r == Failure(Error(Conflict, false)))
            && (seen.Failure? && seen.error.code != NotFound ==> r == Failure(seen.error))
    ensures forall i :: 0 <= i < |polls| - 1 ==>
              && QuietLook(config, plan, polls[i].view)
              && started <= polls[i].now < started + config.gracePeriod * 1_000_000
              && polls[i].now + 25_000_000 <= polls[i + 1].now
  {
    forall i | 0 <= i < |polls| - 1
      ensures QuietLook(config, plan, polls[i].view)
      ensures started <= polls[i].now < started + config.gracePeriod * 1_000_000
      ensures polls[i].now + 25_000_000 <= polls[i + 1].now
    {
      assert Quiet(config, plan)(polls[i].view);
    }
  }

  /** The look shows a port that is still held, by original owners only. */
  ghost predicate QuietLook(config: Config, plan: Plan, view: View) {
    var seen := PlanOf(config, plan.localPort, view);
    seen.Success? && Remains(plan, seen.value)
  }

  lemma ToleratedPollsShowOriginals(config: Config, plan: Plan, run: StopRun, r: Result<ReleaseResult>, i: nat)
    requires StopPhase(config, plan, run, r) && Prepared(plan) && i + 1 < |run.polls|
    ensures PlanOf(config, plan.localPort, run.polls[i].view).Success?
    ensures SetOf(PlanOf(config, plan.localPort, run.polls[i].view).value.ownerPids) <= SetOf(plan.ownerPids)
  {
    var seen := PlanOf(config, plan.localPort, run.polls[i].view);
    assert Quiet(config, plan)(run.polls[i].view);
    PlanIsPrepared(config, plan.localPort, run.polls[i].view);
    RemainingOwnersAreOriginal(plan, seen.value);
  }
}
