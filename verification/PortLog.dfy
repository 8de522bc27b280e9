/** What the log of a run of `lx port free` shows on its own: every act rests on the snapshot just before it, and on a
    confirmation. */
module PortLog {
  import opened Common
  import opened PortTargets
  import opened PortPlan
  import opened PortPhases
  import opened PortFree
  import opened PortSafety
  import opened PortRuns
  import Resolver = SocketInodeResolver

  predicate Act(event: Event) { event.Sent? || event.StopRequested? }

  ghost predicate NoAct(events: seq<Event>) {
    Free(events, ASignal) && Free(events, AStop)
  }

  // ----- acts and the snapshots before them -----

  /** The process held one of the plan's sockets in that snapshot. */
  ghost predicate HeldIn(view: View, plan: Plan, pid: int) {
    exists k :: 0 <= k < |plan.ports| && Resolver.Holds(view.procfs, pid, plan.ports[k].socket.inode)
  }

  /** A plan justifies signalling its owners, and stopping the unit it recommends. */
  ghost predicate Justifies(config: Config, view: View, plan: Plan, event: Event) {
    match event
    case Sent(_, attempt) =>
      && attempt.pid in plan.ownerPids && HeldIn(view, plan, attempt.pid)
      && attempt.pid > 1 && attempt.pid != config.selfPid
    case StopRequested(unit, _) =>
      plan.recommendedUnit.Some? && NormalizeUnit(plan.recommendedUnit.value) == Success(unit)
    case _ => true
  }

  /** What a snapshot of the port justifies: whatever the plan it yields does. */
  ghost function Justified(config: Config, localPort: nat): (View, Event) -> bool {
    (view: View, event: Event) =>
      PlanOf(config, localPort, view).Success?
      && Justifies(config, view, PlanOf(config, localPort, view).value, event)
  }

  /** Event `j` is the last look before event `i`, it is at this port, and it justifies event `i`. */
  ghost predicate Backs(justified: (View, Event) -> bool, localPort: nat, events: seq<Event>, j: nat, i: nat) {
    && j < i < |events| && events[j].Observed? && events[j].localPort == localPort
    && (forall k :: j < k < i ==> !events[k].Observed?)
    && justified(events[j].view, events[i])
  }

  ghost predicate Backed(justified: (View, Event) -> bool, localPort: nat, events: seq<Event>, i: nat) {
    exists j: nat :: Backs(justified, localPort, events, j, i)
  }

  lemma BackedBehind(justified: (View, Event) -> bool, localPort: nat, front: seq<Event>, events: seq<Event>, i: nat)
    requires i < |events| && Backed(justified, localPort, events, i)
    ensures Backed(justified, localPort, front + events, |front| + i)
  {
    var j: nat :| Backs(justified, localPort, events, j, i);
    var all := front + events;
    var n := |front|;
    forall k | n + j < k < n + i ensures !all[k].Observed? {
      assert all[k] == events[k - n];
    }
    assert all[n + j] == events[j] && all[n + i] == events[i];
    assert Backs(justified, localPort, all, |front| + j, |front| + i);
  }

  lemma BackedBefore(justified: (View, Event) -> bool, localPort: nat, events: seq<Event>, rest: seq<Event>, i: nat)
    requires i < |events| && Backed(justified, localPort, events, i)
    ensures Backed(justified, localPort, events + rest, i)
  {
    var j: nat :| Backs(justified, localPort, events, j, i);
    assert forall k :: 0 <= k <= i ==> (events + rest)[k] == events[k];
    assert Backs(justified, localPort, events + rest, j, i);
  }

  // ----- one call -----

  /** The log of terminate or force: one look at the port, then the sends, in the order of the plan and each after a
      send that succeeded, to the owners that look has shown. */
  lemma SignalsFollowThePlan(config: Config, signal: Signal, plan: Plan, run: SignalRun, r: Result<ReleaseResult>, i: nat)
    requires SignalPhase(config, signal, plan, run, r) && Prepared(plan)
    requires i < |SignalEvents(plan.localPort, signal, run)| && SignalEvents(plan.localPort, signal, run)[i].Sent?
    ensures var events := SignalEvents(plan.localPort, signal, run);
            && 1 <= i <= |plan.ownerPids| && events[i].attempt.pid == plan.ownerPids[i - 1] && events[i].signal == signal
            && (forall k :: 1 <= k < i ==> events[k].Sent? && events[k].attempt.reply.Ok?)
            && Backs(Justified(config, plan.localPort), plan.localPort, events, 0, i)
  {
    SendsAreJustified(config, signal, plan, run, r);
    SendsInLog(Justified(config, plan.localPort), signal, plan, run, i);
  }

  lemma SendsAreJustified(config: Config, signal: Signal, plan: Plan, run: SignalRun, r: Result<ReleaseResult>)
    requires SignalPhase(config, signal, plan, run, r) && Prepared(plan)
    ensures |run.sends| <= |plan.ownerPids|
    ensures forall i :: 0 <= i < |run.sends| ==> run.sends[i].pid == plan.ownerPids[i]
    ensures forall i :: 0 <= i < |run.sends| - 1 ==> run.sends[i].reply.Ok?
    ensures forall i :: 0 <= i < |run.sends| ==>
              Justified(config, plan.localPort)(run.before, Sent(signal, run.sends[i]))
  {
    SendsFollowThePlan(config, signal, plan, PlanOf(config, plan.localPort, run.before),
                       PlanAfter(config, plan.localPort, run), run, r);
    forall i | 0 <= i < |run.sends| ensures Justified(config, plan.localPort)(run.before, Sent(signal, run.sends[i])) {
      SendIsJustified(config, signal, plan, run, r, i);
    }
  }

  lemma SendIsJustified(config: Config, signal: Signal, plan: Plan, run: SignalRun, r: Result<ReleaseResult>, i: nat)
    requires SignalPhase(config, signal, plan, run, r) && Prepared(plan) && i < |run.sends|
    ensures Justified(config, plan.localPort)(run.before, Sent(signal, run.sends[i]))
  {
    SendsFollowThePlan(config, signal, plan, PlanOf(config, plan.localPort, run.before),
                       PlanAfter(config, plan.localPort, run), run, r);
    TargetsHoldThePort(config, signal, plan, run, r, i);
    OwnerIsJustified(config, plan.localPort, run.before, PlanOf(config, plan.localPort, run.before), signal, run.sends[i]);
  }

  lemma OwnerIsJustified(config: Config, localPort: nat, view: View, planned: Result<Plan>, signal: Signal, send: Attempt)
    requires planned == PlanOf(config, localPort, view) && planned.Success?
    requires send.pid in planned.value.ownerPids && HeldIn(view, planned.value, send.pid)
    requires send.pid > 1 && send.pid != config.selfPid
    ensures Justified(config, localPort)(view, Sent(signal, send))
  {
  }

  lemma SendsInLog(justified: (View, Event) -> bool, signal: Signal, plan: Plan, run: SignalRun, i: nat)
    requires |run.sends| <= |plan.ownerPids| && forall k :: 0 <= k < |run.sends| ==> run.sends[k].pid == plan.ownerPids[k]
    requires forall k :: 0 <= k < |run.sends| - 1 ==> run.sends[k].reply.Ok?
    requires forall k :: 0 <= k < |run.sends| ==> justified(run.before, Sent(signal, run.sends[k]))
    requires i < |SignalEvents(plan.localPort, signal, run)| && SignalEvents(plan.localPort, signal, run)[i].Sent?
    ensures var events := SignalEvents(plan.localPort, signal, run);
            && 1 <= i <= |plan.ownerPids| && events[i].attempt.pid == plan.ownerPids[i - 1] && events[i].signal == signal
            && (forall k :: 1 <= k < i ==> events[k].Sent? && events[k].attempt.reply.Ok?)
            && Backs(justified, plan.localPort, events, 0, i)
  {
    var events := SignalEvents(plan.localPort, signal, run);
    SignalEventsLayout(plan.localPort, signal, run);
    forall k | 1 <= k < i ensures events[k].Sent? && events[k].attempt.reply.Ok? {
      assert events[(k - 1) + 1] == Sent(signal, run.sends[k - 1]);
    }
    assert events[0] == Observed(plan.localPort, run.before);
  }

  /** The log of stopping a service: a stop is only asked for right after a look at the port that has shown the very
      targets of the plan and recommends the same unit; polling follows exactly the stops that succeed. */
  lemma StopIsRevalidated(config: Config, plan: Plan, run: StopRun, r: Result<ReleaseResult>, i: nat)
    requires StopPhase(config, plan, run, r)
    requires i < |StopEvents(plan, run)| && StopEvents(plan, run)[i].StopRequested?
    ensures var events := StopEvents(plan, run);
            && i == 1 && Backs(Justified(config, plan.localPort), plan.localPort, events, 0, i)
            && Revalidates(config, plan, events[0].view)
            && (|events| > 2 <==> events[1].stop.Ok?)
  {
    OneStopPlace(plan, run);
    assert Is(StopEvents(plan, run)[i], AStop);
    if run.stop.None? { NoStopAsked(plan, run, i); }
    StopRunBegins(config, plan, run, r);
    assert StopEvents(plan, run)[0] == Observed(plan.localPort, run.before.value);
    assert StopEvents(plan, run)[1]
        == StopRequested(NormalizeUnit(plan.recommendedUnit.value).value, run.stop.value);
  }

  /** A look that shows the very targets of the plan and recommends the same unit. */
  ghost predicate Revalidates(config: Config, plan: Plan, view: View) {
    var current := PlanOf(config, plan.localPort, view);
    current.Success? && SameTargets(plan, current.value) && current.value.recommendedUnit == plan.recommendedUnit
  }

  lemma NoStopAsked(plan: Plan, run: StopRun, i: nat)
    requires run.stop.None? && i < |StopEvents(plan, run)|
    ensures !StopEvents(plan, run)[i].StopRequested?
  {
  }

  lemma StopRunBegins(config: Config, plan: Plan, run: StopRun, r: Result<ReleaseResult>)
    requires StopPhase(config, plan, run, r) && run.stop.Some?
    ensures run.before.Some? && Revalidates(config, plan, run.before.value)
    ensures plan.recommendedUnit.Some? && NormalizeUnit(plan.recommendedUnit.value).Success?
    ensures StopEvents(plan, run)
         == [Observed(plan.localPort, run.before.value),
             StopRequested(NormalizeUnit(plan.recommendedUnit.value).value, run.stop.value)]
            + PollEvents(plan.localPort, run.polls)
    ensures run.polls != [] <==> run.stop.value.Ok?
  {
  }

  // ----- every act of a run is justified -----

  /** In every run, each signal and each stop is justified by the last snapshot before it: the process signalled is an
      owner there, holding a descriptor of one of the port's sockets, and neither LX nor process 1; the unit stopped is
      the one recommended there. */
  lemma ActsAreBacked(config: Config, localPort: nat, yes: bool, run: FreeRun, outcome: Outcome, i: nat)
    requires FreePhase(config, localPort, yes, run, outcome)
    requires i < |FreeEvents(localPort, PlanOf(config, localPort, run.first), run)|
    requires Act(FreeEvents(localPort, PlanOf(config, localPort, run.first), run)[i])
    ensures Backed(Justified(config, localPort), localPort,
                   FreeEvents(localPort, PlanOf(config, localPort, run.first), run), i)
  {
    var plan := PlanOf(config, localPort, run.first).value;
    StepsOfRun(config, localPort, yes, run, outcome, plan);
    CallsOfRun(config, localPort, yes, run, outcome, plan);
    var justified := Justified(config, localPort);
    if run.stop.Some? { StopIsBacked(config, plan, run.stop.value); }
    if run.terminate.Some? { CallIsBacked(config, Signal.Terminate, plan, run.terminate.value); }
    if run.force.Some? {
      var remaining := ForceOfRun(config, localPort, yes, run, outcome);
      CallIsBacked(config, Kill, remaining, run.force.value);
    }
    CallsBackRun(justified, localPort, plan, run, i);
  }

  /** All acts of a log are justified. */
  ghost predicate AllBacked(justified: (View, Event) -> bool, localPort: nat, events: seq<Event>) {
    forall i :: 0 <= i < |events| && Act(events[i]) ==> Backed(justified, localPort, events, i)
  }

  lemma StopIsBacked(config: Config, plan: Plan, call: Call<StopRun>)
    requires StopPhase(config, plan, call.run, call.result)
    ensures AllBacked(Justified(config, plan.localPort), plan.localPort, StopEvents(plan, call.run))
  {
    var events := StopEvents(plan, call.run);
    StopEventsSendNothing(plan, call.run);
    forall i | 0 <= i < |events| && Act(events[i])
      ensures Backed(Justified(config, plan.localPort), plan.localPort, events, i)
    {
      StopIsRevalidated(config, plan, call.run, call.result, i);
    }
  }

  lemma CallIsBacked(config: Config, signal: Signal, plan: Plan, call: Call<SignalRun>)
    requires SignalPhase(config, signal, plan, call.run, call.result) && Prepared(plan)
    ensures AllBacked(Justified(config, plan.localPort), plan.localPort, SignalEvents(plan.localPort, signal, call.run))
  {
    SendsAreJustified(config, signal, plan, call.run, call.result);
    SendsAreBacked(Justified(config, plan.localPort), signal, plan, call.run);
  }

  lemma SendsAreBacked(justified: (View, Event) -> bool, signal: Signal, plan: Plan, run: SignalRun)
    requires |run.sends| <= |plan.ownerPids| && forall k :: 0 <= k < |run.sends| ==> run.sends[k].pid == plan.ownerPids[k]
    requires forall k :: 0 <= k < |run.sends| - 1 ==> run.sends[k].reply.Ok?
    requires forall k :: 0 <= k < |run.sends| ==> justified(run.before, Sent(signal, run.sends[k]))
    ensures AllBacked(justified, plan.localPort, SignalEvents(plan.localPort, signal, run))
  {
    var events := SignalEvents(plan.localPort, signal, run);
    SignalEventsLayout(plan.localPort, signal, run);
    forall i | 0 <= i < |events| && Act(events[i]) ensures Backed(justified, plan.localPort, events, i) {
      SendsInLog(justified, signal, plan, run, i);
    }
  }

  lemma AllBackedConcat(justified: (View, Event) -> bool, localPort: nat, a: seq<Event>, b: seq<Event>)
    requires AllBacked(justified, localPort, a) && AllBacked(justified, localPort, b)
    ensures AllBacked(justified, localPort, a + b)
  {
    forall i | 0 <= i < |a + b| && Act((a + b)[i]) ensures Backed(justified, localPort, a + b, i) {
      if i < |a| {
        BackedBefore(justified, localPort, a, b, i);
      } else {
        BackedBehind(justified, localPort, a, b, i - |a|);
      }
    }
  }

  lemma CallsBackRun(justified: (View, Event) -> bool, localPort: nat, plan: Plan, run: FreeRun, i: nat)
    requires plan.localPort == localPort
    requires AllBacked(justified, localPort, StopCallEvents(plan, run))
    requires AllBacked(justified, localPort, TerminateCallEvents(plan, run))
    requires run.force.Some? ==> AllBacked(justified, localPort, SignalEvents(localPort, Kill, run.force.value.run))
    requires i < |FreeEvents(localPort, Success(plan), run)| && Act(FreeEvents(localPort, Success(plan), run)[i])
    ensures Backed(justified, localPort, FreeEvents(localPort, Success(plan), run), i)
  {
    var opening, stopped := OpeningEvents(localPort, plan, run), StopCallEvents(plan, run);
    var called := TerminateCallEvents(plan, run);
    var asked := AskedEvents(ForceKill, run.escalate);
    var forced := if run.force.Some? then SignalEvents(localPort, Kill, run.force.value.run) else [];
    assert AllBacked(justified, localPort, opening);
    assert AllBacked(justified, localPort, asked);
    AllBackedConcat(justified, localPort, asked, forced);
    AllBackedConcat(justified, localPort, opening, stopped);
    AllBackedConcat(justified, localPort, opening + stopped, called);
    AllBackedConcat(justified, localPort, opening + stopped + called, asked + forced);
  }

  /** When the service manager only names units that end in ".service", the unit stopped is the very one the plan shown
      to the user recommends. */
  lemma StopsTheRecommended(config: Config, localPort: nat, yes: bool, run: FreeRun, outcome: Outcome, plan: Plan, i: nat)
    requires FreePhase(config, localPort, yes, run, outcome) && PlanOf(config, localPort, run.first) == Success(plan)
    requires i < |FreeEvents(localPort, Success(plan), run)| && FreeEvents(localPort, Success(plan), run)[i].StopRequested?
    requires forall pid, unit :: run.first.units(pid) == Ok(Some(unit)) ==> EndsInService(unit)
    ensures plan.recommendedUnit == Some(FreeEvents(localPort, Success(plan), run)[i].unit)
  {
    StepsOfRun(config, localPort, yes, run, outcome, plan);
    CallsOfRun(config, localPort, yes, run, outcome, plan);
    StopIsNormalized(config, localPort, plan, yes, run, outcome, i);
    RecommendedEndsInService(config, localPort, run.first, plan);
    NormalizeTwice(plan.recommendedUnit.value);
  }

  lemma StopIsNormalized(config: Config, localPort: nat, plan: Plan, yes: bool, run: FreeRun, outcome: Outcome, i: nat)
    requires Steps(plan, yes, run, outcome)
    requires run.stop.Some? ==> StopPhase(config, plan, run.stop.value.run, run.stop.value.result)
    requires i < |FreeEvents(localPort, Success(plan), run)| && FreeEvents(localPort, Success(plan), run)[i].StopRequested?
    ensures plan.recommendedUnit.Some?
    ensures NormalizeUnit(plan.recommendedUnit.value) == Success(FreeEvents(localPort, Success(plan), run)[i].unit)
  {
    var opening, stopped := OpeningEvents(localPort, plan, run), StopCallEvents(plan, run);
    OneStop(localPort, plan, run, i, i);
    ServiceLog(localPort, plan, run);
    OpeningIsQuiet(localPort, plan, run);
    NotInFront(opening, stopped, AStop, i);
    StopNames(config, plan, run.stop.value, i - |opening|);
  }

  lemma ServiceLog(localPort: nat, plan: Plan, run: FreeRun)
    requires run.terminate.None? && run.escalate.None? && run.force.None?
    ensures FreeEvents(localPort, Success(plan), run) == OpeningEvents(localPort, plan, run) + StopCallEvents(plan, run)
  {
    Regroup(OpeningEvents(localPort, plan, run), StopCallEvents(plan, run), [], []);
    assert StopCallEvents(plan, run) + [] + [] == StopCallEvents(plan, run);
  }

  lemma StopNames(config: Config, plan: Plan, call: Call<StopRun>, i: nat)
    requires StopPhase(config, plan, call.run, call.result)
    requires i < |StopEvents(plan, call.run)| && StopEvents(plan, call.run)[i].StopRequested?
    ensures plan.recommendedUnit.Some?
    ensures NormalizeUnit(plan.recommendedUnit.value) == Success(StopEvents(plan, call.run)[i].unit)
  {
    OneStopPlace(plan, call.run);
    assert Is(StopEvents(plan, call.run)[i], AStop);
    if call.run.stop.None? { NoStopAsked(plan, call.run, i); }
    StopRunBegins(config, plan, call.run, call.result);
    assert StopEvents(plan, call.run)[1]
        == StopRequested(NormalizeUnit(plan.recommendedUnit.value).value, call.run.stop.value);
  }

  lemma RecommendedEndsInService(config: Config, localPort: nat, view: View, plan: Plan)
    requires PlanOf(config, localPort, view) == Success(plan) && plan.recommendedUnit.Some?
    requires forall pid, unit :: view.units(pid) == Ok(Some(unit)) ==> EndsInService(unit)
    ensures EndsInService(plan.recommendedUnit.value)
  {
    RecommendedExactly(config, localPort, view, plan, plan.recommendedUnit.value);
    PlanIsPrepared(config, localPort, view);
    assert plan.ownerPids[0] in plan.ownerPids;
  }

  // ----- confirmations -----

  ghost predicate ConfirmedBefore(events: seq<Event>, i: nat, question: Question) {
    exists j :: 0 <= j < i && j < |events| && events[j] == Asked(question, true)
  }

  /** Without `--yes`, a service is only stopped after a yes to the question whether to stop it, nobody is signalled
      except after a yes to the question whether to send SIGTERM, and nobody is sent SIGKILL except after a yes to the
      question whether to use that. */
  lemma ActsAreConfirmed(config: Config, localPort: nat, run: FreeRun, outcome: Outcome, plan: Plan, i: nat)
    requires FreePhase(config, localPort, false, run, outcome) && PlanOf(config, localPort, run.first) == Success(plan)
    requires i < |FreeEvents(localPort, Success(plan), run)| && Act(FreeEvents(localPort, Success(plan), run)[i])
    ensures var events := FreeEvents(localPort, Success(plan), run);
            && (events[i].StopRequested? ==> ConfirmedBefore(events, i, StopService))
            && (events[i].Sent? ==> ConfirmedBefore(events, i, SendTerminate))
            && (events[i].Sent? && events[i].signal == Kill ==> ConfirmedBefore(events, i, ForceKill))
  {
    StepsOfRun(config, localPort, false, run, outcome, plan);
    StepsAreConfirmed(localPort, plan, run, outcome, i);
    ActDecidesRoute(localPort, plan, false, run, outcome, i);
    if IsSignal(FreeEvents(localPort, Success(plan), run)[i], Kill) {
      KillIsConfirmed(localPort, plan, run, outcome, i);
    }
  }

  /** Stops are only requested when the plan recommends a unit, signals only sent when it does not. */
  lemma ActDecidesRoute(localPort: nat, plan: Plan, yes: bool, run: FreeRun, outcome: Outcome, i: nat)
    requires Steps(plan, yes, run, outcome)
    requires i < |FreeEvents(localPort, Success(plan), run)|
    ensures FreeEvents(localPort, Success(plan), run)[i].StopRequested? ==> plan.recommendedUnit.Some?
    ensures FreeEvents(localPort, Success(plan), run)[i].Sent? ==> plan.recommendedUnit.None?
  {
    if FreeEvents(localPort, Success(plan), run)[i].StopRequested? {
      OneStop(localPort, plan, run, i, i);
    }
    if plan.recommendedUnit.Some? {
      ServiceLog(localPort, plan, run);
      OpeningIsQuiet(localPort, plan, run);
      if run.stop.Some? { StopEventsSendNothing(plan, run.stop.value.run); }
      FreeConcat(OpeningEvents(localPort, plan, run), StopCallEvents(plan, run), ASignal);
    }
  }

  /** A run asks whether to stop a service only if the plan of its first snapshot recommends one, whether to send SIGTERM
      only if it does not, and whether to use SIGKILL only then and after every owner was sent SIGTERM. */
  lemma QuestionsFitThePlan(config: Config, localPort: nat, yes: bool, run: FreeRun, outcome: Outcome, plan: Plan, i: nat)
    requires FreePhase(config, localPort, yes, run, outcome) && PlanOf(config, localPort, run.first) == Success(plan)
    requires i < |FreeEvents(localPort, Success(plan), run)| && FreeEvents(localPort, Success(plan), run)[i].Asked?
    ensures match FreeEvents(localPort, Success(plan), run)[i].question
            case StopService => plan.recommendedUnit.Some?
            case SendTerminate => plan.recommendedUnit.None?
            case ForceKill =>
              plan.recommendedUnit.None? && AllTerminatedBefore(plan, FreeEvents(localPort, Success(plan), run), i)
  {
    StepsOfRun(config, localPort, yes, run, outcome, plan);
    QuestionPlaces(localPort, plan, run);
    if FreeEvents(localPort, Success(plan), run)[i].question == ForceKill {
      EscalationComesLast(localPort, plan, run, i);
      EscalatedAfterAll(config, localPort, yes, run, outcome, plan);
      TerminatedInFront(localPort, plan, run, i);
    }
  }

  predicate TerminatesOk(event: Event, pid: int) {
    event.Sent? && event.signal == Signal.Terminate && event.attempt.pid == pid && event.attempt.reply.Ok?
  }

  /** Every owner of the plan was sent SIGTERM, successfully, before event `i`. */
  ghost predicate AllTerminatedBefore(plan: Plan, events: seq<Event>, i: nat) {
    forall pid :: pid in plan.ownerPids ==>
      exists j :: 0 <= j < i && j < |events| && TerminatesOk(events[j], pid)
  }

  lemma TerminatedInFront(localPort: nat, plan: Plan, run: FreeRun, i: nat)
    requires run.terminate.Some? && AllSent(plan, run.terminate.value.run.sends)
    requires |BeforeForce(localPort, plan, run)| <= i
    requires FreeEvents(localPort, Success(plan), run) == BeforeForce(localPort, plan, run) + ForceCallEvents(plan, run)
    ensures AllTerminatedBefore(plan, FreeEvents(localPort, Success(plan), run), i)
  {
    var events, before := FreeEvents(localPort, Success(plan), run), BeforeForce(localPort, plan, run);
    forall pid | pid in plan.ownerPids
      ensures exists j :: 0 <= j < i && j < |events| && TerminatesOk(events[j], pid)
    {
      var j := TerminatedAt(localPort, plan, run, pid);
      assert events[j] == before[j] && TerminatesOk(before[j], pid);
    }
  }

  /** The question about SIGKILL comes after everything else but the call it is about. */
  lemma EscalationComesLast(localPort: nat, plan: Plan, run: FreeRun, i: nat)
    requires i < |FreeEvents(localPort, Success(plan), run)|
    requires FreeEvents(localPort, Success(plan), run)[i].Asked?
    requires FreeEvents(localPort, Success(plan), run)[i].question == ForceKill
    ensures i >= |BeforeForce(localPort, plan, run)|
    ensures FreeEvents(localPort, Success(plan), run) == BeforeForce(localPort, plan, run) + ForceCallEvents(plan, run)
  {
    CallsAskNothing(plan, run);
    OnlyInLast(OpeningEvents(localPort, plan, run), StopCallEvents(plan, run), TerminateCallEvents(plan, run),
               ForceCallEvents(plan, run), i);
  }

  predicate AsksForce(event: Event) { event.Asked? && event.question == ForceKill }

  lemma OnlyInLast(a: seq<Event>, b: seq<Event>, c: seq<Event>, d: seq<Event>, i: nat)
    requires forall k :: 0 <= k < |a| ==> !AsksForce(a[k])
    requires Free(b, AQuestion) && Free(c, AQuestion)
    requires i < |a + b + c + d| && AsksForce((a + b + c + d)[i])
    ensures i >= |a + b + c|
  {
  }

  lemma CallsAskNothing(plan: Plan, run: FreeRun)
    ensures Free(StopCallEvents(plan, run), AQuestion) && Free(TerminateCallEvents(plan, run), AQuestion)
  {
    if run.stop.Some? { StopEventsSendNothing(plan, run.stop.value.run); }
    if run.terminate.Some? { SignalEventsLayout(plan.localPort, Signal.Terminate, run.terminate.value.run); }
  }

  lemma EscalatedAfterAll(config: Config, localPort: nat, yes: bool, run: FreeRun, outcome: Outcome, plan: Plan)
    requires FreePhase(config, localPort, yes, run, outcome) && PlanOf(config, localPort, run.first) == Success(plan)
    requires run.escalate.Some?
    ensures run.terminate.Some? && AllSent(plan, run.terminate.value.run.sends) && plan.recommendedUnit.None?
  {
    StepsOfRun(config, localPort, yes, run, outcome, plan);
    CallsOfRun(config, localPort, yes, run, outcome, plan);
    var call := run.terminate.value;
    RemainingKnown(config, plan, PlanOf(config, plan.localPort, call.run.before),
                   PlanAfter(config, plan.localPort, call.run), call.run, call.result.value);
  }

  lemma StepsAreConfirmed(localPort: nat, plan: Plan, run: FreeRun, outcome: Outcome, i: nat)
    requires Steps(plan, false, run, outcome)
    requires i < |FreeEvents(localPort, Success(plan), run)| && Act(FreeEvents(localPort, Success(plan), run)[i])
    ensures ConfirmedBefore(FreeEvents(localPort, Success(plan), run), i, FirstQuestion(plan))
  {
    ActIsAnswered(localPort, plan, run, i);
    if Refused(run.proceed) {
      RefusedEndsRun(localPort, plan, run, outcome);
    } else {
      FirstAnswerPlace(localPort, plan, run);
    }
  }

  lemma ActIsAnswered(localPort: nat, plan: Plan, run: FreeRun, i: nat)
    requires run.proceed.Some?
    requires i < |FreeEvents(localPort, Success(plan), run)| && Act(FreeEvents(localPort, Success(plan), run)[i])
    ensures i >= 2
  {
    var opening := OpeningEvents(localPort, plan, run);
    var rest := StopCallEvents(plan, run) + TerminateCallEvents(plan, run) + ForceCallEvents(plan, run);
    Regroup(opening, StopCallEvents(plan, run), TerminateCallEvents(plan, run), ForceCallEvents(plan, run));
    OpeningIsQuiet(localPort, plan, run);
    ActsComeLater(opening, rest, i);
  }

  lemma Regroup<T>(a: seq<T>, b: seq<T>, c: seq<T>, d: seq<T>)
    ensures a + b + c + d == a + (b + c + d)
  {
  }

  lemma RefusedEndsRun(localPort: nat, plan: Plan, run: FreeRun, outcome: Outcome)
    requires Steps(plan, false, run, outcome) && Refused(run.proceed)
    ensures |FreeEvents(localPort, Success(plan), run)| == 2
  {
  }

  lemma ActsComeLater(opening: seq<Event>, rest: seq<Event>, i: nat)
    requires |opening| == 2 && NoAct(opening) && i < |opening + rest| && Act((opening + rest)[i])
    ensures i >= 2
  {
    assert forall k :: 0 <= k < 2 ==> (opening + rest)[k] == opening[k];
  }

  lemma KillIsConfirmed(localPort: nat, plan: Plan, run: FreeRun, outcome: Outcome, i: nat)
    requires Steps(plan, false, run, outcome)
    requires i < |FreeEvents(localPort, Success(plan), run)|
    requires IsSignal(FreeEvents(localPort, Success(plan), run)[i], Kill)
    ensures ConfirmedBefore(FreeEvents(localPort, Success(plan), run), i, ForceKill)
  {
    var before, rest := BeforeForce(localPort, plan, run), ForceCallEvents(plan, run);
    assert FreeEvents(localPort, Success(plan), run) == before + rest;
    NoKillBeforeForce(localPort, plan, run);
    NotInFront(before, rest, AKill, i);
    ForceAnswer(plan, run, outcome, i - |before|);
    assert (before + rest)[|before|] == rest[0];
  }

  lemma ForceAnswer(plan: Plan, run: FreeRun, outcome: Outcome, i: nat)
    requires Steps(plan, false, run, outcome)
    requires i < |ForceCallEvents(plan, run)| && IsSignal(ForceCallEvents(plan, run)[i], Kill)
    ensures i > 0 && ForceCallEvents(plan, run)[0] == Asked(ForceKill, true)
  {
    assert run.force.Some? ==> run.escalate == Some(true);
  }

  /** A run is cancelled exactly when a question was answered with no, and `--yes` asks none. */
  lemma CancelledExactly(config: Config, localPort: nat, yes: bool, run: FreeRun, outcome: Outcome)
    requires FreePhase(config, localPort, yes, run, outcome)
    ensures var events := FreeEvents(localPort, PlanOf(config, localPort, run.first), run);
            && (outcome == Cancelled <==> exists i :: 0 <= i < |events| && events[i].Asked? && !events[i].yes)
            && (yes ==> Free(events, AQuestion))
  {
    var planned := PlanOf(config, localPort, run.first);
    if planned.Success? {
      StepsOfRun(config, localPort, yes, run, outcome, planned.value);
      QuestionsAsked(localPort, planned.value, yes, run, outcome);
    }
  }

  lemma QuestionsAsked(localPort: nat, plan: Plan, yes: bool, run: FreeRun, outcome: Outcome)
    requires Steps(plan, yes, run, outcome)
    ensures var events := FreeEvents(localPort, Success(plan), run);
            && (outcome == Cancelled <==> exists i :: 0 <= i < |events| && events[i].Asked? && !events[i].yes)
            && (yes ==> Free(events, AQuestion))
  {
    var events := FreeEvents(localPort, Success(plan), run);
    CancelledByAnswer(plan, yes, run, outcome);
    QuestionPlaces(localPort, plan, run);
    if Refused(run.proceed) { FirstAnswerPlace(localPort, plan, run); }
    if Refused(run.escalate) { SecondAnswerPlace(localPort, plan, run); }
  }

  lemma CancelledByAnswer(plan: Plan, yes: bool, run: FreeRun, outcome: Outcome)
    requires Steps(plan, yes, run, outcome)
    ensures outcome == Cancelled <==> Refused(run.proceed) || Refused(run.escalate)
    ensures yes ==> run.proceed.None? && run.escalate.None?
  {
  }

  lemma FirstAnswerPlace(localPort: nat, plan: Plan, run: FreeRun)
    requires run.proceed.Some?
    ensures |FreeEvents(localPort, Success(plan), run)| > 1
    ensures FreeEvents(localPort, Success(plan), run)[1] == Asked(FirstQuestion(plan), run.proceed.value)
  {
    var opening := OpeningEvents(localPort, plan, run);
    var rest := StopCallEvents(plan, run) + TerminateCallEvents(plan, run) + ForceCallEvents(plan, run);
    Regroup(opening, StopCallEvents(plan, run), TerminateCallEvents(plan, run), ForceCallEvents(plan, run));
    assert (opening + rest)[1] == opening[1];
  }

  lemma SecondAnswerPlace(localPort: nat, plan: Plan, run: FreeRun)
    requires run.escalate.Some?
    ensures var at := |BeforeForce(localPort, plan, run)|;
            at < |FreeEvents(localPort, Success(plan), run)|
            && FreeEvents(localPort, Success(plan), run)[at] == Asked(ForceKill, run.escalate.value)
  {
    var before, rest := BeforeForce(localPort, plan, run), ForceCallEvents(plan, run);
    assert FreeEvents(localPort, Success(plan), run) == before + rest;
    assert (before + rest)[|before|] == rest[0];
  }

  /** Every question of the log is one of the two. */
  lemma QuestionPlaces(localPort: nat, plan: Plan, run: FreeRun)
    ensures forall i :: 0 <= i < |FreeEvents(localPort, Success(plan), run)| ==>
              OneOfTwo(plan, run, FreeEvents(localPort, Success(plan), run)[i])
  {
    var opening, stopped := OpeningEvents(localPort, plan, run), StopCallEvents(plan, run);
    var called := TerminateCallEvents(plan, run);
    var asked := AskedEvents(ForceKill, run.escalate);
    var forced := if run.force.Some? then SignalEvents(plan.localPort, Kill, run.force.value.run) else [];
    if run.stop.Some? { StopEventsSendNothing(plan, run.stop.value.run); }
    if run.terminate.Some? { SignalEventsLayout(plan.localPort, Signal.Terminate, run.terminate.value.run); }
    if run.force.Some? { SignalEventsLayout(plan.localPort, Kill, run.force.value.run); }
    FourPieces(plan, run, opening, stopped, called, asked + forced);
  }

  predicate OneOfTwo(plan: Plan, run: FreeRun, event: Event) {
    event.Asked? ==>
      || (run.proceed.Some? && event == Asked(FirstQuestion(plan), run.proceed.value))
      || (run.escalate.Some? && event == Asked(ForceKill, run.escalate.value))
  }

  lemma FourPieces(plan: Plan, run: FreeRun, a: seq<Event>, b: seq<Event>, c: seq<Event>, d: seq<Event>)
    requires forall i :: 0 <= i < |a| ==> OneOfTwo(plan, run, a[i])
    requires forall i :: 0 <= i < |b| ==> OneOfTwo(plan, run, b[i])
    requires forall i :: 0 <= i < |c| ==> OneOfTwo(plan, run, c[i])
    requires forall i :: 0 <= i < |d| ==> OneOfTwo(plan, run, d[i])
    ensures forall i :: 0 <= i < |a + b + c + d| ==> OneOfTwo(plan, run, (a + b + c + d)[i])
  {
  }

  // ----- where a run looks -----

  predicate LookedAt(localPort: nat, events: seq<Event>) {
    forall i :: 0 <= i < |events| && events[i].Observed? ==> events[i].localPort == localPort
  }

  lemma LooksConcat(localPort: nat, a: seq<Event>, b: seq<Event>)
    requires LookedAt(localPort, a) && LookedAt(localPort, b)
    ensures LookedAt(localPort, a + b)
  {
  }

  lemma CallLooks(localPort: nat, signal: Signal, run: SignalRun)
    ensures LookedAt(localPort, SignalEvents(localPort, signal, run))
  {
    LooksConcat(localPort, SentEvents(signal, run.sends), WaitEvents(run.waits));
    LooksConcat(localPort, SentEvents(signal, run.sends) + WaitEvents(run.waits), AfterEvents(localPort, run));
    LooksConcat(localPort, [Observed(localPort, run.before)], ActEvents(localPort, signal, run));
  }

  lemma StopLooks(plan: Plan, run: StopRun)
    ensures LookedAt(plan.localPort, StopEvents(plan, run))
  {
    LooksConcat(plan.localPort, StopAndPollEvents(plan, run)[..|StopAndPollEvents(plan, run)| - |run.polls|],
                PollEvents(plan.localPort, run.polls));
  }

  /** A run looks at no port but the one it was given. */
  lemma LooksAtThePort(config: Config, localPort: nat, yes: bool, run: FreeRun, outcome: Outcome, i: nat)
    requires FreePhase(config, localPort, yes, run, outcome)
    requires i < |FreeEvents(localPort, PlanOf(config, localPort, run.first), run)|
    ensures var events := FreeEvents(localPort, PlanOf(config, localPort, run.first), run);
            events[i].Observed? ==> events[i].localPort == localPort
  {
    var planned := PlanOf(config, localPort, run.first);
    if planned.Success? {
      PlanIsPrepared(config, localPort, run.first);
      AllLooks(localPort, planned.value, run);
      assert LookedAt(localPort, FreeEvents(localPort, planned, run));
    }
  }

  lemma AllLooks(localPort: nat, plan: Plan, run: FreeRun)
    requires plan.localPort == localPort
    ensures LookedAt(localPort, FreeEvents(localPort, Success(plan), run))
  {
    var (a, b) := (OpeningEvents(localPort, plan, run), StopCallEvents(plan, run));
    var (c, d) := (TerminateCallEvents(plan, run), ForceCallEvents(plan, run));
    if run.stop.Some? { StopLooks(plan, run.stop.value.run); }
    if run.terminate.Some? { CallLooks(localPort, Signal.Terminate, run.terminate.value.run); }
    if run.force.Some? {
      CallLooks(localPort, Kill, run.force.value.run);
      LooksConcat(localPort, AskedEvents(ForceKill, run.escalate), SignalEvents(localPort, Kill, run.force.value.run));
    }
    LooksConcat(localPort, a, b);
    LooksConcat(localPort, a + b, c);
    LooksConcat(localPort, a + b + c, d);
  }
}
