/** What every complete run of `lx port free` guarantees, read off its log of system events. */
module PortRuns {
  import opened Common
  import opened Ordering
  import opened Sockets
  import opened PortTargets
  import opened PortPlan
  import opened PortPhases
  import opened PortFree
  import opened PortSafety
  import Resolver = SocketInodeResolver
  import Decimal
  import SocketFdTarget

  // ----- reading a log -----

  predicate IsSignal(event: Event, signal: Signal) {
    event.Sent? && event.signal == signal
  }

  datatype Kind = AKill | ASignal | AStop | AQuestion

  predicate Is(event: Event, kind: Kind) {
    match kind
    case AKill => IsSignal(event, Kill)
    case ASignal => event.Sent?
    case AStop => event.StopRequested?
    case AQuestion => event.Asked?
  }

  /** No event of the log is of this kind. */
  ghost predicate Free(events: seq<Event>, kind: Kind) {
    forall i :: 0 <= i < |events| ==> !Is(events[i], kind)
  }

  lemma FreeConcat(a: seq<Event>, b: seq<Event>, kind: Kind)
    requires Free(a, kind) && Free(b, kind)
    ensures Free(a + b, kind)
  {
  }

  lemma NotInFront(a: seq<Event>, b: seq<Event>, kind: Kind, i: nat)
    requires Free(a, kind) && i < |a + b| && Is((a + b)[i], kind)
    ensures i >= |a| && (a + b)[i] == b[i - |a|]
  {
  }

  lemma OpeningIsQuiet(localPort: nat, plan: Plan, run: FreeRun)
    ensures Free(OpeningEvents(localPort, plan, run), ASignal)
    ensures Free(OpeningEvents(localPort, plan, run), AStop)
  {
  }

  lemma StopEventsSendNothing(plan: Plan, run: StopRun)
    ensures Free(StopEvents(plan, run), ASignal) && Free(StopEvents(plan, run), AQuestion)
  {
    var request := if run.stop.Some? && plan.recommendedUnit.Some? && NormalizeUnit(plan.recommendedUnit.value).Success?
                   then [StopRequested(NormalizeUnit(plan.recommendedUnit.value).value, run.stop.value)] else [];
    var head := if run.before.Some? then [Observed(plan.localPort, run.before.value)] else [];
    FreeConcat(request, PollEvents(plan.localPort, run.polls), ASignal);
    FreeConcat(head, StopAndPollEvents(plan, run), ASignal);
    FreeConcat(request, PollEvents(plan.localPort, run.polls), AQuestion);
    FreeConcat(head, StopAndPollEvents(plan, run), AQuestion);
  }

  /** A call's log holds its sends, at known places, and no other signal and no stop. */
  lemma SignalEventsLayout(localPort: nat, signal: Signal, run: SignalRun)
    ensures var events := SignalEvents(localPort, signal, run);
            && (forall i :: 0 <= i < |run.sends| ==> i + 1 < |events| && events[i + 1] == Sent(signal, run.sends[i]))
            && (forall i :: 0 <= i < |events| && events[i].Sent? ==>
                  1 <= i <= |run.sends| && events[i] == Sent(signal, run.sends[i - 1]))
            && Free(events, AStop) && Free(events, AQuestion)
  {
    var events := SignalEvents(localPort, signal, run);
    var n := |run.sends|;
    assert |ActEvents(localPort, signal, run)| == n + |run.waits| + |AfterEvents(localPort, run)|;
    forall i | 0 <= i < |events|
      ensures !events[i].StopRequested? && !events[i].Asked?
      ensures 1 <= i <= n ==> events[i] == Sent(signal, run.sends[i - 1])
      ensures events[i].Sent? ==> 1 <= i <= n
    {
      if i > 0 {
        assert events[i] == ActEvents(localPort, signal, run)[i - 1];
        if i > n && i - 1 - n < |run.waits| { assert events[i] == WaitEvents(run.waits)[i - 1 - n]; }
      }
    }
    forall i | 0 <= i < n ensures i + 1 < |events| && events[i + 1] == Sent(signal, run.sends[i]) {
      assert events[i + 1] == Sent(signal, run.sends[(i + 1) - 1]);
    }
  }

  // ----- SIGKILL only after SIGTERM -----

  /** What force is given: the remaining plan of terminate's last snapshot, with nobody new in it, every original
      owner having been sent SIGTERM. */
  lemma ForcedOwnersWereTerminated(config: Config, localPort: nat, yes: bool, run: FreeRun, outcome: Outcome)
    requires FreePhase(config, localPort, yes, run, outcome) && run.force.Some?
    ensures PlanOf(config, localPort, run.first).Success? && run.terminate.Some?
    ensures var plan := PlanOf(config, localPort, run.first).value;
            var terminated := run.terminate.value;
            && plan.recommendedUnit == None && run.stop == None
            && terminated.result.Success? && terminated.result.value.remaining.Some?
            && terminated.run.after.Some?
            && var remaining := terminated.result.value.remaining.value;
               && PlanOf(config, localPort, terminated.run.after.value) == Success(remaining)
               && SignalPhase(config, Kill, remaining, run.force.value.run, run.force.value.result)
               && SetOf(remaining.ownerPids) <= SetOf(plan.ownerPids)
               && AllSent(plan, terminated.run.sends)
  {
    var plan := PlanOf(config, localPort, run.first).value;
    var terminated := run.terminate.value;
    PlanIsPrepared(config, localPort, run.first);
    RemainingKnown(config, plan, PlanOf(config, plan.localPort, terminated.run.before),
                   PlanAfter(config, plan.localPort, terminated.run), terminated.run, terminated.result.value);
    PlanIsPrepared(config, localPort, terminated.run.after.value);
    RemainingOwnersAreOriginal(plan, terminated.result.value.remaining.value);
  }

  /** Everything that happens before the question whether to use SIGKILL. */
  function BeforeForce(localPort: nat, plan: Plan, run: FreeRun): seq<Event> {
    OpeningEvents(localPort, plan, run) + StopCallEvents(plan, run) + TerminateCallEvents(plan, run)
  }

  lemma NoKillBeforeForce(localPort: nat, plan: Plan, run: FreeRun)
    ensures Free(BeforeForce(localPort, plan, run), AKill)
  {
    OpeningIsQuiet(localPort, plan, run);
    if run.stop.Some? { StopEventsSendNothing(plan, run.stop.value.run); }
    if run.terminate.Some? { SignalEventsLayout(plan.localPort, Signal.Terminate, run.terminate.value.run); }
    FreeConcat(OpeningEvents(localPort, plan, run), StopCallEvents(plan, run), AKill);
    FreeConcat(OpeningEvents(localPort, plan, run) + StopCallEvents(plan, run), TerminateCallEvents(plan, run), AKill);
  }

  /** Nobody is sent SIGKILL who was not an original owner sent SIGTERM. */
  ghost predicate KillsOnlyTerminated(plan: Plan, run: FreeRun) {
    run.force.Some? ==>
      && run.terminate.Some? && AllSent(plan, run.terminate.value.run.sends)
      && forall i :: 0 <= i < |run.force.value.run.sends| ==> run.force.value.run.sends[i].pid in plan.ownerPids
  }

  lemma KillTargets(config: Config, localPort: nat, yes: bool, run: FreeRun, outcome: Outcome)
    requires FreePhase(config, localPort, yes, run, outcome)
    requires PlanOf(config, localPort, run.first).Success?
    ensures KillsOnlyTerminated(PlanOf(config, localPort, run.first).value, run)
  {
    if run.force.Some? {
      ForcedOwnersWereTerminated(config, localPort, yes, run, outcome);
      var remaining := run.terminate.value.result.value.remaining.value;
      var forced := run.force.value.run;
      SendsFollowThePlan(config, Kill, remaining, PlanOf(config, remaining.localPort, forced.before),
                           PlanAfter(config, remaining.localPort, forced), forced, run.force.value.result);
      forall i | 0 <= i < |forced.sends|
        ensures forced.sends[i].pid in PlanOf(config, localPort, run.first).value.ownerPids
      {
        assert forced.sends[i].pid in SetOf(remaining.ownerPids);
      }
    }
  }

  /** In every run, every process sent SIGKILL was successfully sent SIGTERM earlier in the same run. */
  lemma KillFollowsTerminate(config: Config, localPort: nat, yes: bool, run: FreeRun, outcome: Outcome, i: nat)
    requires FreePhase(config, localPort, yes, run, outcome)
    requires i < |FreeEvents(localPort, PlanOf(config, localPort, run.first), run)|
    requires IsSignal(FreeEvents(localPort, PlanOf(config, localPort, run.first), run)[i], Kill)
    ensures TerminatedBefore(FreeEvents(localPort, PlanOf(config, localPort, run.first), run), i)
  {
    KillTargets(config, localPort, yes, run, outcome);
    KillOrder(localPort, PlanOf(config, localPort, run.first).value, run, i);
  }

  /** The process signalled by event `i` was successfully sent SIGTERM by an earlier event. */
  ghost predicate TerminatedBefore(events: seq<Event>, i: nat)
    requires i < |events| && events[i].Sent?
  {
    exists j :: 0 <= j < i && IsSignal(events[j], Signal.Terminate)
                && events[j].attempt.pid == events[i].attempt.pid && events[j].attempt.reply.Ok?
  }

  lemma KillOrder(localPort: nat, plan: Plan, run: FreeRun, i: nat)
    requires KillsOnlyTerminated(plan, run)
    requires i < |FreeEvents(localPort, Success(plan), run)|
    requires IsSignal(FreeEvents(localPort, Success(plan), run)[i], Kill)
    ensures TerminatedBefore(FreeEvents(localPort, Success(plan), run), i)
  {
    var events := FreeEvents(localPort, Success(plan), run);
    var before := BeforeForce(localPort, plan, run);
    var asked := AskedEvents(ForceKill, run.escalate);
    var forced := if run.force.Some? then SignalEvents(plan.localPort, Kill, run.force.value.run) else [];
    assert events == before + (asked + forced);
    NoKillBeforeForce(localPort, plan, run);
    NotInFront(before, asked + forced, AKill, i);
    NotInFront(asked, forced, AKill, i - |before|);
    SignalEventsLayout(plan.localPort, Kill, run.force.value.run);
    var j := TerminatedAt(localPort, plan, run, events[i].attempt.pid);
    assert events[j] == before[j];
  }

  lemma TerminatedAt(localPort: nat, plan: Plan, run: FreeRun, pid: int) returns (j: nat)
    requires run.terminate.Some? && AllSent(plan, run.terminate.value.run.sends) && pid in plan.ownerPids
    ensures j < |BeforeForce(localPort, plan, run)|
    ensures var event := BeforeForce(localPort, plan, run)[j];
            IsSignal(event, Signal.Terminate) && event.attempt.pid == pid && event.attempt.reply.Ok?
  {
    var k :| 0 <= k < |plan.ownerPids| && plan.ownerPids[k] == pid;
    var opening := OpeningEvents(localPort, plan, run) + StopCallEvents(plan, run);
    var called := TerminateCallEvents(plan, run);
    SignalEventsLayout(plan.localPort, Signal.Terminate, run.terminate.value.run);
    j := |opening| + 1 + k;
    assert BeforeForce(localPort, plan, run) == opening + called;
    assert (opening + called)[j] == called[1 + k] == Sent(Signal.Terminate, run.terminate.value.run.sends[k]);
  }

  // ----- the service route -----

  /** A run whose plan recommends a unit sends no signal at all. */
  lemma ServiceRouteSendsNothing(config: Config, localPort: nat, yes: bool, run: FreeRun, outcome: Outcome)
    requires FreePhase(config, localPort, yes, run, outcome)
    requires PlanOf(config, localPort, run.first).Success?
    requires PlanOf(config, localPort, run.first).value.recommendedUnit.Some?
    ensures Free(FreeEvents(localPort, PlanOf(config, localPort, run.first), run), ASignal)
  {
    var plan := PlanOf(config, localPort, run.first).value;
    OpeningIsQuiet(localPort, plan, run);
    if run.stop.Some? { StopEventsSendNothing(plan, run.stop.value.run); }
    FreeConcat(OpeningEvents(localPort, plan, run), StopCallEvents(plan, run), ASignal);
    assert FreeEvents(localPort, Success(plan), run) == OpeningEvents(localPort, plan, run) + StopCallEvents(plan, run);
  }

  /** A run whose plan recommends none requests no stop, and no run requests more than one. */
  lemma AtMostOneStop(config: Config, localPort: nat, yes: bool, run: FreeRun, outcome: Outcome, i: nat, j: nat)
    requires FreePhase(config, localPort, yes, run, outcome)
    requires i < |FreeEvents(localPort, PlanOf(config, localPort, run.first), run)|
    requires j < |FreeEvents(localPort, PlanOf(config, localPort, run.first), run)|
    requires FreeEvents(localPort, PlanOf(config, localPort, run.first), run)[i].StopRequested?
    requires FreeEvents(localPort, PlanOf(config, localPort, run.first), run)[j].StopRequested?
    ensures i == j && PlanOf(config, localPort, run.first).value.recommendedUnit.Some?
  {
    OneStop(localPort, PlanOf(config, localPort, run.first).value, run, i, j);
  }

  lemma OneStop(localPort: nat, plan: Plan, run: FreeRun, i: nat, j: nat)
    requires run.stop.Some? ==> run.terminate.None? && run.escalate.None? && run.force.None?
    requires i < |FreeEvents(localPort, Success(plan), run)| && j < |FreeEvents(localPort, Success(plan), run)|
    requires Is(FreeEvents(localPort, Success(plan), run)[i], AStop)
    requires Is(FreeEvents(localPort, Success(plan), run)[j], AStop)
    ensures i == j && run.stop.Some?
  {
    var opening := OpeningEvents(localPort, plan, run);
    var stopped := StopCallEvents(plan, run);
    OpeningIsQuiet(localPort, plan, run);
    if run.stop.None? { NoStopWithoutCall(localPort, plan, run); }
    assert run.stop.Some?;
    assert FreeEvents(localPort, Success(plan), run) == opening + stopped;
    NotInFront(opening, stopped, AStop, i);
    NotInFront(opening, stopped, AStop, j);
    OneStopPlace(plan, run.stop.value.run);
  }

  lemma OneStopPlace(plan: Plan, run: StopRun)
    ensures forall i :: 0 <= i < |StopEvents(plan, run)| && Is(StopEvents(plan, run)[i], AStop)
              ==> i == if run.before.Some? then 1 else 0
  {
    var head := if run.before.Some? then [Observed(plan.localPort, run.before.value)] else [];
    var rest := StopAndPollEvents(plan, run);
    var polls := PollEvents(plan.localPort, run.polls);
    assert StopEvents(plan, run) == head + rest;
    forall i | 0 <= i < |StopEvents(plan, run)| && Is(StopEvents(plan, run)[i], AStop)
      ensures i == if run.before.Some? then 1 else 0
    {
      NotInFront(head, rest, AStop, i);
      assert rest[|rest| - |polls|..] == polls;
    }
  }

  lemma NoStopWithoutCall(localPort: nat, plan: Plan, run: FreeRun)
    requires run.stop.None?
    ensures Free(FreeEvents(localPort, Success(plan), run), AStop)
  {
    OpeningIsQuiet(localPort, plan, run);
    if run.terminate.Some? { SignalEventsLayout(plan.localPort, Signal.Terminate, run.terminate.value.run); }
    if run.force.Some? { SignalEventsLayout(plan.localPort, Kill, run.force.value.run); }
    var forced := if run.force.Some? then SignalEvents(plan.localPort, Kill, run.force.value.run) else [];
    FreeConcat(AskedEvents(ForceKill, run.escalate), forced, AStop);
    FreeConcat(OpeningEvents(localPort, plan, run), StopCallEvents(plan, run), AStop);
    FreeConcat(OpeningEvents(localPort, plan, run) + StopCallEvents(plan, run), TerminateCallEvents(plan, run), AStop);
    FreeConcat(BeforeForce(localPort, plan, run), ForceCallEvents(plan, run), AStop);
  }

  // ----- the shape of a run -----

  /** Which calls a run with this plan makes, and how it ends. */
  ghost predicate Steps(plan: Plan, yes: bool, run: FreeRun, outcome: Outcome) {
    && AskedUnless(yes, run.proceed)
    && if Refused(run.proceed) then
         run.stop == None && run.terminate == None && run.escalate == None && run.force == None && outcome == Cancelled
       else if plan.recommendedUnit.Some? then ServiceSteps(run, outcome)
       else SignalSteps(yes, run, outcome)
  }

  lemma StepsOfRun(config: Config, localPort: nat, yes: bool, run: FreeRun, outcome: Outcome, plan: Plan)
    requires FreePhase(config, localPort, yes, run, outcome) && PlanOf(config, localPort, run.first) == Success(plan)
    ensures Steps(plan, yes, run, outcome)
  {
  }

  lemma CallsOfRun(config: Config, localPort: nat, yes: bool, run: FreeRun, outcome: Outcome, plan: Plan)
    requires FreePhase(config, localPort, yes, run, outcome) && PlanOf(config, localPort, run.first) == Success(plan)
    ensures plan.localPort == localPort && Prepared(plan)
    ensures run.stop.Some? ==> StopPhase(config, plan, run.stop.value.run, run.stop.value.result)
    ensures run.terminate.Some? ==>
              SignalPhase(config, Signal.Terminate, plan, run.terminate.value.run, run.terminate.value.result)
  {
    PlanIsPrepared(config, localPort, run.first);
  }

  lemma ForceOfRun(config: Config, localPort: nat, yes: bool, run: FreeRun, outcome: Outcome) returns (remaining: Plan)
    requires FreePhase(config, localPort, yes, run, outcome) && run.force.Some?
    ensures remaining.localPort == localPort && Prepared(remaining)
    ensures SignalPhase(config, Kill, remaining, run.force.value.run, run.force.value.result)
  {
    ForcedOwnersWereTerminated(config, localPort, yes, run, outcome);
    remaining := run.terminate.value.result.value.remaining.value;
    PlanIsPrepared(config, localPort, run.terminate.value.run.after.value);
  }

  // ----- what is reported -----

  /** The last snapshot of a run. */
  function LastSnapshot(run: FreeRun): View {
    if run.force.Some? then LastView(run.force.value.run)
    else if run.terminate.Some? then LastView(run.terminate.value.run)
    else if run.stop.Some? && LastLook(run.stop.value.run).Some? then LastLook(run.stop.value.run).value
    else run.first
  }

  /** The last snapshot of a released run looked free, on the service route and on the signal route. */
  lemma ServiceLooksFree(config: Config, plan: Plan, run: FreeRun, outcome: Outcome)
    requires ServiceSteps(run, outcome) && outcome == ReleasedByService
    requires StopPhase(config, plan, run.stop.value.run, run.stop.value.result)
    ensures LooksFree(plan.localPort, LastSnapshot(run))
  {
    ServiceReleasedExactly(config, plan, run.stop.value.run, run.stop.value.result);
  }

  lemma TerminateLooksFree(config: Config, plan: Plan, run: FreeRun)
    requires run.force.None? && run.terminate.Some?
    requires run.terminate.value.result.Success? && run.terminate.value.result.value.released
    requires SignalPhase(config, Signal.Terminate, plan, run.terminate.value.run, run.terminate.value.result)
    ensures LooksFree(plan.localPort, LastSnapshot(run))
  {
    ReleasedExactly(config, Signal.Terminate, plan, run.terminate.value.run, run.terminate.value.result);
  }

  lemma ForceLooksFree(config: Config, remaining: Plan, run: FreeRun)
    requires run.force.Some? && run.force.value.result.Success?
    requires SignalPhase(config, Kill, remaining, run.force.value.run, run.force.value.result)
    ensures LooksFree(remaining.localPort, LastSnapshot(run))
  {
    ForceReleases(config, remaining, run.force.value.run, run.force.value.result);
  }

  /** How the three released outcomes come about. */
  lemma ReleasedHow(plan: Plan, yes: bool, run: FreeRun, outcome: Outcome)
    requires Steps(plan, yes, run, outcome)
    ensures outcome == ReleasedByService ==> ServiceSteps(run, outcome)
    ensures outcome == ReleasedByTerminate ==>
              && run.force.None? && run.terminate.Some?
              && run.terminate.value.result.Success? && run.terminate.value.result.value.released
    ensures outcome == ReleasedByForce ==> run.force.Some? && run.force.value.result.Success?
  {
  }

  lemma ReleasedLooksFree(config: Config, localPort: nat, yes: bool, run: FreeRun, outcome: Outcome, plan: Plan)
    requires FreePhase(config, localPort, yes, run, outcome) && PlanOf(config, localPort, run.first) == Success(plan)
    requires outcome in {ReleasedByService, ReleasedByTerminate, ReleasedByForce}
    ensures LooksFree(localPort, LastSnapshot(run))
  {
    StepsOfRun(config, localPort, yes, run, outcome, plan);
    CallsOfRun(config, localPort, yes, run, outcome, plan);
    ReleasedHow(plan, yes, run, outcome);
    if outcome == ReleasedByService {
      ServiceLooksFree(config, plan, run, outcome);
    } else if outcome == ReleasedByTerminate {
      TerminateLooksFree(config, plan, run);
    } else {
      var remaining := ForceOfRun(config, localPort, yes, run, outcome);
      ForceLooksFree(config, remaining, run);
    }
  }

  /** Whichever way the port is reported released, the last snapshot looked free; and it found no socket on the
      port exactly when neither provider answered NotFound on its own account. */
  lemma ReleasedMeansFree(config: Config, localPort: nat, yes: bool, run: FreeRun, outcome: Outcome)
    requires FreePhase(config, localPort, yes, run, outcome)
    requires outcome in {ReleasedByService, ReleasedByTerminate, ReleasedByForce}
    ensures LooksFree(localPort, LastSnapshot(run))
    ensures LastSnapshot(run).sockets == Ok([]) <==> Honest(LastSnapshot(run))
  {
    ReleasedLooksFree(config, localPort, yes, run, outcome, PlanOf(config, localPort, run.first).value);
    FreeMeansNoSocket(localPort, LastSnapshot(run));
  }

  /** A run reports the port released exactly when its last snapshot looks free: by stopping the service if the plan
      recommends one, by SIGKILL if it got that far, and otherwise by SIGTERM. */
  lemma ReleasedOutcomeExactly(config: Config, localPort: nat, yes: bool, run: FreeRun, outcome: Outcome, plan: Plan)
    requires FreePhase(config, localPort, yes, run, outcome) && PlanOf(config, localPort, run.first) == Success(plan)
    ensures var free := LooksFree(localPort, LastSnapshot(run));
            && (outcome == ReleasedByService <==> free && plan.recommendedUnit.Some?)
            && (outcome == ReleasedByForce <==> free && run.force.Some?)
            && (outcome == ReleasedByTerminate <==> free && plan.recommendedUnit.None? && run.force.None?)
  {
    StepsOfRun(config, localPort, yes, run, outcome, plan);
    CallsOfRun(config, localPort, yes, run, outcome, plan);
    if outcome in {ReleasedByService, ReleasedByTerminate, ReleasedByForce} {
      ReleasedLooksFree(config, localPort, yes, run, outcome, plan);
      ReleasedRoute(plan, yes, run, outcome);
    } else {
      NotReleasedNotFree(config, localPort, yes, run, outcome, plan);
    }
  }

  lemma ReleasedRoute(plan: Plan, yes: bool, run: FreeRun, outcome: Outcome)
    requires Steps(plan, yes, run, outcome)
    ensures outcome == ReleasedByService ==> plan.recommendedUnit.Some? && run.force.None?
    ensures outcome == ReleasedByForce ==> plan.recommendedUnit.None? && run.force.Some?
    ensures outcome == ReleasedByTerminate ==> plan.recommendedUnit.None? && run.force.None?
  {
  }

  /** What an outcome that is no release says of the last call. */
  lemma NotReleasedHow(plan: Plan, yes: bool, run: FreeRun, outcome: Outcome)
    requires Steps(plan, yes, run, outcome) && outcome !in {ReleasedByService, ReleasedByTerminate, ReleasedByForce}
    ensures run.force.Some? ==> run.force.value.result.Failure?
    ensures run.force.None? && run.terminate.Some? ==>
              run.terminate.value.result.Success? ==> !run.terminate.value.result.value.released
    ensures run.stop.Some? ==> run.stop.value.result.Failure? && run.force.None? && run.terminate.None?
  {
  }

  lemma NotReleasedNotFree(config: Config, localPort: nat, yes: bool, run: FreeRun, outcome: Outcome, plan: Plan)
    requires FreePhase(config, localPort, yes, run, outcome) && PlanOf(config, localPort, run.first) == Success(plan)
    requires outcome !in {ReleasedByService, ReleasedByTerminate, ReleasedByForce}
    ensures !LooksFree(localPort, LastSnapshot(run))
  {
    StepsOfRun(config, localPort, yes, run, outcome, plan);
    CallsOfRun(config, localPort, yes, run, outcome, plan);
    NotReleasedHow(plan, yes, run, outcome);
    NotFoundExactly(config, localPort, run.first);
    if run.force.Some? {
      var remaining := ForceOfRun(config, localPort, yes, run, outcome);
      ForceReleases(config, remaining, run.force.value.run, run.force.value.result);
    } else if run.terminate.Some? {
      ReleasedExactly(config, Signal.Terminate, plan, run.terminate.value.run, run.terminate.value.result);
    } else if run.stop.Some? {
      ServiceNotFree(config, plan, run.stop.value);
    }
  }

  lemma ServiceNotFree(config: Config, plan: Plan, call: Call<StopRun>)
    requires StopPhase(config, plan, call.run, call.result) && call.result.Failure?
    ensures LastLook(call.run).Some? ==> !LooksFree(plan.localPort, LastLook(call.run).value)
  {
    ServiceReleasedExactly(config, plan, call.run, call.result);
  }

  /** A run whose first snapshot yields no plan reports why, and has done nothing but look. */
  lemma NoPlanNoAct(config: Config, localPort: nat, yes: bool, run: FreeRun, outcome: Outcome)
    requires FreePhase(config, localPort, yes, run, outcome) && PlanOf(config, localPort, run.first).Failure?
    ensures outcome == Failed(PlanOf(config, localPort, run.first).error)
    ensures FreeEvents(localPort, PlanOf(config, localPort, run.first), run) == [Observed(localPort, run.first)]
  {
  }

  /** Which way a run with a plan goes. Without `--yes` the user is asked before the first call and again before force;
      the service is stopped if there is one and everybody is signalled if not; force follows exactly when terminate has
      succeeded without releasing the port. A refusal cancels the run, and otherwise it fails as its last call does. */
  lemma RouteExactly(config: Config, localPort: nat, yes: bool, run: FreeRun, outcome: Outcome, plan: Plan)
    requires FreePhase(config, localPort, yes, run, outcome) && PlanOf(config, localPort, run.first) == Success(plan)
    ensures run.proceed.Some? <==> !yes
    ensures run.stop.Some? <==> plan.recommendedUnit.Some? && run.proceed != Some(false)
    ensures run.terminate.Some? <==> plan.recommendedUnit.None? && run.proceed != Some(false)
    ensures var held := run.terminate.Some? && run.terminate.value.result.Success?
                        && !run.terminate.value.result.value.released;
            && (run.escalate.Some? <==> held && !yes)
            && (run.force.Some? <==> held && run.escalate != Some(false))
    ensures outcome == Cancelled <==> run.proceed == Some(false) || run.escalate == Some(false)
    ensures forall error :: outcome == Failed(error) <==>
              || (run.stop.Some? && run.stop.value.result == Failure(error))
              || (run.terminate.Some? && run.terminate.value.result == Failure(error))
              || (run.force.Some? && run.force.value.result == Failure(error))
  {
    StepsOfRun(config, localPort, yes, run, outcome, plan);
    RouteOfSteps(plan, yes, run, outcome);
  }

  lemma RouteOfSteps(plan: Plan, yes: bool, run: FreeRun, outcome: Outcome)
    requires Steps(plan, yes, run, outcome)
    ensures run.proceed.Some? <==> !yes
    ensures run.stop.Some? <==> plan.recommendedUnit.Some? && run.proceed != Some(false)
    ensures run.terminate.Some? <==> plan.recommendedUnit.None? && run.proceed != Some(false)
    ensures var held := run.terminate.Some? && run.terminate.value.result.Success?
                        && !run.terminate.value.result.value.released;
            && (run.escalate.Some? <==> held && !yes)
            && (run.force.Some? <==> held && run.escalate != Some(false))
    ensures outcome == Cancelled <==> run.proceed == Some(false) || run.escalate == Some(false)
    ensures forall error :: outcome == Failed(error) <==>
              || (run.stop.Some? && run.stop.value.result == Failure(error))
              || (run.terminate.Some? && run.terminate.value.result == Failure(error))
              || (run.force.Some? && run.force.value.result == Failure(error))
  {
  }

  /** force has no success but a released port. */
  lemma ForceReleases(config: Config, plan: Plan, run: SignalRun, r: Result<ReleaseResult>)
    requires SignalPhase(config, Kill, plan, run, r)
    ensures r.Success? <==> LooksFree(plan.localPort, LastView(run))
    ensures r.Success? ==> r.value.released
  {
    ReleasedExactly(config, Kill, plan, run, r);
    KillNeverRemains(config, plan, PlanOf(config, plan.localPort, run.before),
                     PlanAfter(config, plan.localPort, run), run, r);
  }

  lemma KillNeverRemains(config: Config, plan: Plan, current: Result<Plan>, after: Result<Plan>, run: SignalRun,
                         r: Result<ReleaseResult>)
    requires CallPhase(config, Kill, plan, current, after, run, r)
    ensures r.Success? ==> r.value.released
  {
  }

  // ----- such runs exist -----

  /** A call during which nothing changes and nothing fails. */
  function SteadyCall(config: Config, plan: Plan, view: View): SignalRun {
    var (pids, timeout) := (plan.ownerPids, TimeLeft(0, config.gracePeriod * NANOS_PER_MILLI));
    SignalRun(view, seq(|pids|, i requires 0 <= i < |pids| => Attempt(pids[i], Ok(()))), 0,
              seq(|pids|, i requires 0 <= i < |pids| => Wait(pids[i], 0, timeout, 0, 0, Ok(false))), Some(view))
  }

  lemma SteadyCallIsCall(config: Config, signal: Signal, plan: Plan, view: View)
    requires PlanOf(config, plan.localPort, view) == Success(plan)
    requires Prepared(plan) && AllSignalable(config, plan.ownerPids)
    ensures SignalPhase(config, signal, plan, SteadyCall(config, plan, view), Conclusion(signal, plan, Success(plan)))
  {
    SteadyCallPhase(config, signal, plan, Success(plan), view);
  }

  lemma SteadyCallPhase(config: Config, signal: Signal, plan: Plan, planned: Result<Plan>, view: View)
    requires planned == Success(plan) && Prepared(plan) && AllSignalable(config, plan.ownerPids)
    ensures CallPhase(config, signal, plan, planned, planned, SteadyCall(config, plan, view),
                      Conclusion(signal, plan, planned))
  {
    var run := SteadyCall(config, plan, view);
    assert SendPhase(config, plan.ownerPids, run.sends);
    assert AllAnswered(run.waits);
    assert WaitPhase(config, plan.ownerPids, config.gracePeriod * NANOS_PER_MILLI, run.waits);
  }

  lemma RemainsItself(plan: Plan)
    requires Prepared(plan)
    ensures Remains(plan, plan)
  {
    RemainsBySocket(plan, plan);
    forall c | c in plan.ports
      ensures exists o :: o in plan.ports && SameSocket(o, c) && SetOf(c.socket.ownerPids) <= SetOf(o.socket.ownerPids)
    {
      assert SameSocket(c, c);
    }
  }

  /** Whenever a snapshot yields a plan for signals and nothing changes from then on, a run escalates: every owner is
      sent SIGTERM and later SIGKILL, and the run ends with a timeout. */
  lemma StubbornPort(config: Config, localPort: nat, view: View) returns (run: FreeRun)
    requires PlanOf(config, localPort, view).Success? && PlanOf(config, localPort, view).value.recommendedUnit == None
    ensures run.first == view && FreePhase(config, localPort, true, run, Failed(Error(Timeout, false)))
    ensures run.terminate.Some? && AllSent(PlanOf(config, localPort, view).value, run.terminate.value.run.sends)
    ensures run.force.Some? && AllSent(PlanOf(config, localPort, view).value, run.force.value.run.sends)
  {
    PlanIsPrepared(config, localPort, view);
    var plan := PlanOf(config, localPort, view).value;
    run := StubbornRun(config, plan, view);
  }

  lemma StubbornRun(config: Config, plan: Plan, view: View) returns (run: FreeRun)
    requires PlanOf(config, plan.localPort, view) == Success(plan)
    requires Prepared(plan) && AllSignalable(config, plan.ownerPids) && plan.recommendedUnit == None
    ensures run.first == view && FreePhase(config, plan.localPort, true, run, Failed(Error(Timeout, false)))
    ensures run.terminate.Some? && AllSent(plan, run.terminate.value.run.sends)
    ensures run.force.Some? && AllSent(plan, run.force.value.run.sends)
  {
    var call := SteadyCall(config, plan, view);
    RemainsItself(plan);
    SteadyCallIsCall(config, Signal.Terminate, plan, view);
    SteadyCallIsCall(config, Kill, plan, view);
    run := FreeRun(view, None, None, Some(Call(call, Conclusion(Signal.Terminate, plan, Success(plan)))), None,
                   Some(Call(call, Conclusion(Kill, plan, Success(plan)))));
  }

  /** And there are such snapshots: one socket, held by one process that nothing else is known about. */
  lemma HeldPort(localPort: nat) returns (config: Config, view: View)
    requires localPort != 0
    ensures PlanOf(config, localPort, view).Success? && PlanOf(config, localPort, view).value.recommendedUnit == None
  {
    var socket: FreshSocket := SocketInfo(Tcp, IPv4, Endpoint("0.0.0.0", localPort), None, "listen", 0, 1, []);
    var link := Resolver.Target("socket:[" + Decimal.Print(1) + "]");
    var process := Resolver.ProcessEntry(Decimal.Print(2), Resolver.Opened([link], None));
    config := Config(3, false, false, 1000);
    view := View(Ok([socket]), [], Resolver.Opened([process], None), (pid: int) => Err(NotFound), (pid: int) => Err(NotFound));
    OneHolder(view.procfs, link, process);
    assert view.sockets.value[0].inode == 1 && Resolver.Holds(view.procfs, 2, 1);
    assert Releasable(config, view, 1);
    PlanSucceedsExactly(config, localPort, view);
    UnknownOwners(config, localPort, view);
  }

  lemma UnknownOwners(config: Config, localPort: nat, view: View)
    requires PlanOf(config, localPort, view).Success? && forall pid :: view.processes(pid).Err?
    ensures PlanOf(config, localPort, view).value.recommendedUnit == None
  {
    var plan := PlanOf(config, localPort, view).value;
    PlanIsPrepared(config, localPort, view);
    assert plan.ownerPids[0] in plan.ownerPids;
    if plan.recommendedUnit.Some? {
      RecommendedExactly(config, localPort, view, plan, plan.recommendedUnit.value);
    }
  }

  /** The tree of one process with one descriptor: process 2 holds inode 1, and nobody else does. */
  lemma OneHolder(tree: Resolver.ProcFs, link: Resolver.Link, process: Resolver.ProcessEntry)
    requires link == Resolver.Target("socket:[" + Decimal.Print(1) + "]")
    requires process == Resolver.ProcessEntry(Decimal.Print(2), Resolver.Opened([link], None))
    requires tree == Resolver.Opened([process], None)
    ensures forall pid :: Resolver.Holds(tree, pid, 1) <==> pid == 2
  {
    SocketFdTarget.ParseInvertsPrint(1);
    Resolver.ParsePidExactly(Decimal.Print(2), 2);
    assert link in [link] && process in [process];
    forall pid ensures Resolver.Holds(tree, pid, 1) <==> pid == 2 {
      Resolver.UnbrokenHolders(tree, pid, 1);
      assert process in tree.entries && link in process.descriptors.entries && Resolver.Names(link, 1);
    }
  }
}
