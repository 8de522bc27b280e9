/** src/cli/CliApp.cpp:939-1010: one run of `lx port free`, and what holds of every such run. */
module PortFree {
  import opened Common
  import opened PortTargets
  import opened PortPlan
  import opened PortPhases

  datatype Outcome = Cancelled | ReleasedByService | ReleasedByTerminate | ReleasedByForce | Failed(error: Error)

  datatype Call<+R> = Call(run: R, result: Result<ReleaseResult>)

  /** Which steps a run took. The answers are None when nobody was asked: `--yes`, or the step was not reached. */
  datatype FreeRun = FreeRun(first: View, proceed: Option<bool>, stop: Option<Call<StopRun>>,
                             terminate: Option<Call<SignalRun>>, escalate: Option<bool>,
                             force: Option<Call<SignalRun>>)

  // ----- the log of a run -----

  function AskedEvents(question: Question, answer: Option<bool>): seq<Event> {
    if answer.Some? then [Asked(question, answer.value)] else []
  }

  function FirstQuestion(plan: Plan): Question {
    if plan.recommendedUnit.Some? then StopService else SendTerminate
  }

  function OpeningEvents(localPort: nat, plan: Plan, run: FreeRun): seq<Event> {
    [Observed(localPort, run.first)] + AskedEvents(FirstQuestion(plan), run.proceed)
  }

  function StopCallEvents(plan: Plan, run: FreeRun): seq<Event> {
    if run.stop.Some? then StopEvents(plan, run.stop.value.run) else []
  }

  function TerminateCallEvents(plan: Plan, run: FreeRun): seq<Event> {
    if run.terminate.Some? then SignalEvents(plan.localPort, Signal.Terminate, run.terminate.value.run) else []
  }

  function ForceCallEvents(plan: Plan, run: FreeRun): seq<Event> {
    AskedEvents(ForceKill, run.escalate)
    + if run.force.Some? then SignalEvents(plan.localPort, Kill, run.force.value.run) else []
  }

  /** `planned` is what the first snapshot amounts to. */
  function FreeEvents(localPort: nat, planned: Result<Plan>, run: FreeRun): seq<Event> {
    match planned
    case Failure(_) => [Observed(localPort, run.first)]
    case Success(plan) =>
      OpeningEvents(localPort, plan, run) + StopCallEvents(plan, run) + TerminateCallEvents(plan, run)
      + ForceCallEvents(plan, run)
  }

  // ----- the run itself -----

  /** A question is asked exactly without `--yes`. */
  predicate AskedUnless(yes: bool, answer: Option<bool>) {
    yes <==> answer.None?
  }

  predicate Refused(answer: Option<bool>) { answer.Some? && !answer.value }

  function Ended(result: Result<ReleaseResult>, good: Outcome): Outcome {
    match result
    case Success(_) => good
    case Failure(error) => Failed(error)
  }

  /** Whether force is called, and how the run ends, once terminate has left the port held. */
  predicate EscalationSteps(yes: bool, run: FreeRun, outcome: Outcome) {
    && AskedUnless(yes, run.escalate)
    && if Refused(run.escalate) then run.force == None && outcome == Cancelled
       else run.force.Some? && outcome == Ended(run.force.value.result, ReleasedByForce)
  }

  /** Which calls are made, and how the run ends, once terminate is the way to go. */
  predicate SignalSteps(yes: bool, run: FreeRun, outcome: Outcome) {
    && run.stop == None && run.terminate.Some?
    && match run.terminate.value.result
       case Failure(error) => run.escalate == None && run.force == None && outcome == Failed(error)
       case Success(terminated) =>
         if terminated.released then run.escalate == None && run.force == None && outcome == ReleasedByTerminate
         else terminated.remaining.Some? && EscalationSteps(yes, run, outcome)
  }

  /** Terminate works on the plan shown to the user, force on what terminate left. */
  ghost predicate SignalCalls(config: Config, plan: Plan, run: FreeRun)
    requires run.terminate.Some?
  {
    var terminated := run.terminate.value;
    && SignalPhase(config, Signal.Terminate, plan, terminated.run, terminated.result)
    && (run.force.Some? ==>
          && terminated.result.Success? && terminated.result.value.remaining.Some?
          && SignalPhase(config, Kill, terminated.result.value.remaining.value, run.force.value.run, run.force.value.result))
  }

  ghost predicate SignalRoute(config: Config, yes: bool, plan: Plan, run: FreeRun, outcome: Outcome) {
    SignalSteps(yes, run, outcome) && SignalCalls(config, plan, run)
  }

  predicate ServiceSteps(run: FreeRun, outcome: Outcome) {
    && run.terminate == None && run.escalate == None && run.force == None && run.stop.Some?
    && outcome == Ended(run.stop.value.result, ReleasedByService)
  }

  ghost predicate ServiceRoute(config: Config, plan: Plan, run: FreeRun, outcome: Outcome) {
    ServiceSteps(run, outcome) && StopPhase(config, plan, run.stop.value.run, run.stop.value.result)
  }

  ghost predicate FreePhase(config: Config, localPort: nat, yes: bool, run: FreeRun, outcome: Outcome) {
    match PlanOf(config, localPort, run.first)
    case Failure(error) =>
      && run.proceed == None && run.stop == None && run.terminate == None && run.escalate == None && run.force == None
      && outcome == Failed(error)
    case Success(plan) =>
      && AskedUnless(yes, run.proceed)
      && if Refused(run.proceed) then
           run.stop == None && run.terminate == None && run.escalate == None && run.force == None && outcome == Cancelled
         else if plan.recommendedUnit.Some? then ServiceRoute(config, plan, run, outcome)
         else SignalRoute(config, yes, plan, run, outcome)
  }

  method Ask(world: World, yes: bool, question: Question) returns (go: bool, ghost answer: Option<bool>)
    modifies world
    ensures world.log == old(world.log) + AskedEvents(question, answer)
    ensures AskedUnless(yes, answer) && (go <==> !Refused(answer))
  {
    if yes {
      go, answer := true, None;
    } else {
      go := world.Confirm(question);
      answer := Some(go);
    }
  }

  method FreePort(service: PortService, localPort: nat, yes: bool)
    returns (outcome: Outcome, ghost run: FreeRun)
    modifies service.world
    ensures service.world.log
         == old(service.world.log) + FreeEvents(localPort, PlanOf(service.config, localPort, run.first), run)
    ensures FreePhase(service.config, localPort, yes, run, outcome)
  {
    ghost var first;
    var prepared;
    prepared, first := service.Snapshot(localPort);
    run := FreeRun(first, None, None, None, None, None);
    if prepared.Failure? {
      outcome := Failed(prepared.error);
    } else {
      var plan := prepared.value;
      PlanIsPrepared(service.config, localPort, first);
      var go;
      ghost var proceed;
      go, proceed := Ask(service.world, yes, FirstQuestion(plan));
      run := run.(proceed := proceed);
      if !go {
        outcome := Cancelled;
      } else if plan.recommendedUnit.Some? {
        outcome, run := ByService(service, plan, run);
      } else {
        outcome, run := BySignals(service, yes, plan, run);
      }
      FreeLog(old(service.world.log), localPort, plan, run);
    }
  }

  lemma FreeLog(log: seq<Event>, localPort: nat, plan: Plan, run: FreeRun)
    ensures log + [Observed(localPort, run.first)] + AskedEvents(FirstQuestion(plan), run.proceed)
              + (StopCallEvents(plan, run) + TerminateCallEvents(plan, run) + ForceCallEvents(plan, run))
         == log + FreeEvents(localPort, Success(plan), run)
  {
    Flatten(log, [Observed(localPort, run.first)], AskedEvents(FirstQuestion(plan), run.proceed),
            StopCallEvents(plan, run), TerminateCallEvents(plan, run), ForceCallEvents(plan, run));
  }

  lemma Flatten<T>(log: seq<T>, a: seq<T>, b: seq<T>, c: seq<T>, d: seq<T>, e: seq<T>)
    ensures log + a + b + (c + d + e) == log + (a + b + c + d + e)
  {
  }

  method ByService(service: PortService, plan: Plan, ghost before: FreeRun)
    returns (outcome: Outcome, ghost run: FreeRun)
    requires before.stop == None && before.terminate == None && before.escalate == None && before.force == None
    modifies service.world
    ensures run == before.(stop := run.stop)
    ensures service.world.log
         == old(service.world.log) + (StopCallEvents(plan, run) + TerminateCallEvents(plan, run) + ForceCallEvents(plan, run))
    ensures ServiceRoute(service.config, plan, run, outcome)
  {
    var stopped;
    ghost var stopRun;
    stopped, stopRun := service.StopManagedService(plan);
    run := before.(stop := Some(Call(stopRun, stopped)));
    outcome := if stopped.Failure? then Failed(stopped.error) else ReleasedByService;
  }

  method BySignals(service: PortService, yes: bool, plan: Plan, ghost before: FreeRun)
    returns (outcome: Outcome, ghost run: FreeRun)
    requires before.stop == None && before.terminate == None && before.escalate == None && before.force == None
    modifies service.world
    ensures run == before.(terminate := run.terminate, escalate := run.escalate, force := run.force)
    ensures service.world.log
         == old(service.world.log) + (StopCallEvents(plan, run) + TerminateCallEvents(plan, run) + ForceCallEvents(plan, run))
    ensures SignalRoute(service.config, yes, plan, run, outcome)
  {
    var terminated;
    ghost var terminateRun;
    terminated, terminateRun := service.Terminate(plan);
    run := before.(terminate := Some(Call(terminateRun, terminated)));
    OnlySignals(plan, run);
    if terminated.Failure? {
      outcome := Failed(terminated.error);
    } else if terminated.value.released {
      outcome := ReleasedByTerminate;
    } else {
      RemainingKnown(service.config, plan, PlanOf(service.config, plan.localPort, terminateRun.before),
                     PlanAfter(service.config, plan.localPort, terminateRun), terminateRun, terminated.value);
      var remaining := terminated.value.remaining.value;
      PlanIsPrepared(service.config, plan.localPort, terminateRun.after.value);
      outcome, run := Escalate(service, yes, remaining, run);
      OnlySignals(plan, run);
      ConcatAssociates(old(service.world.log), TerminateCallEvents(plan, run), ForceCallEvents(remaining, run));
    }
  }

  lemma OnlySignals(plan: Plan, run: FreeRun)
    requires run.stop == None
    ensures StopCallEvents(plan, run) + TerminateCallEvents(plan, run) + ForceCallEvents(plan, run)
         == TerminateCallEvents(plan, run) + ForceCallEvents(plan, run)
    ensures run.escalate == None && run.force == None ==>
              TerminateCallEvents(plan, run) + ForceCallEvents(plan, run) == TerminateCallEvents(plan, run)
  {
  }

  method Escalate(service: PortService, yes: bool, remaining: Plan, ghost before: FreeRun)
    returns (outcome: Outcome, ghost run: FreeRun)
    requires before.escalate == None && before.force == None
    modifies service.world
    ensures run == before.(escalate := run.escalate, force := run.force)
    ensures service.world.log == old(service.world.log) + ForceCallEvents(remaining, run)
    ensures EscalationSteps(yes, run, outcome)
    ensures run.force.Some? ==> SignalPhase(service.config, Kill, remaining, run.force.value.run, run.force.value.result)
  {
    var go;
    ghost var escalate;
    go, escalate := Ask(service.world, yes, ForceKill);
    run := before.(escalate := escalate);
    if !go {
      outcome := Cancelled;
      assert ForceCallEvents(remaining, run) == AskedEvents(ForceKill, escalate);
    } else {
      var forced;
      ghost var forceRun;
      forced, forceRun := service.Force(remaining);
      run := run.(force := Some(Call(forceRun, forced)));
      ConcatAssociates(old(service.world.log), AskedEvents(ForceKill, escalate),
                       SignalEvents(remaining.localPort, Kill, forceRun));
      outcome := if forced.Failure? then Failed(forced.error) else ReleasedByForce;
    }
  }

  /** A call that succeeds without releasing the port signalled every owner and hands over the last snapshot's plan. */
  lemma RemainingKnown(config: Config, plan: Plan, current: Result<Plan>, after: Result<Plan>, run: SignalRun,
                       result: ReleaseResult)
    requires CallPhase(config, Signal.Terminate, plan, current, after, run, Success(result)) && !result.released
    ensures run.after.Some? && result.remaining.Some? && after == Success(result.remaining.value)
    ensures Remains(plan, result.remaining.value)
    ensures AllSent(plan, run.sends)
  {
  }

  // ----- which signals a phase sends -----

  ghost predicate AllSent(plan: Plan, sends: seq<Attempt>) {
    |sends| == |plan.ownerPids|
    && forall i :: 0 <= i < |sends| ==> sends[i].pid == plan.ownerPids[i] && sends[i].reply.Ok?
  }
}
