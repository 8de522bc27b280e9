/** src/application/PortService.cpp:250-431: the phases that release a port, run against a changing system. */
module PortPhases {
  import opened Common
  import opened PortTargets
  import opened PortPlan

  datatype Signal = Terminate | Kill

  datatype Delivery = Delivery(pid: int, signal: Signal)

  datatype ReleaseResult = ReleaseResult(released: bool, deliveries: seq<Delivery>, remaining: Option<Plan>)

  datatype Attempt = Attempt(pid: int, reply: Reply<()>)

  /** One wait for one owner: the clock reading before it, the timeout passed (in milliseconds), when it began,
      how long it took, and the answer. Clock values are nanoseconds. */
  datatype Wait = Wait(pid: int, now: nat, timeout: nat, began: nat, elapsed: nat, reply: Reply<bool>)

  datatype Question = StopService | SendTerminate | ForceKill

  /** Everything LX asks of the system, in order. */
  datatype Event =
    | Observed(localPort: nat, view: View)
    | Sent(signal: Signal, attempt: Attempt)
    | Waited(wait: Wait)
    | StopRequested(unit: string, stop: Reply<()>)
    | Asked(question: Question, yes: bool)

  const NANOS_PER_MILLI := 1_000_000

  /** The system LX runs on. Answers are arbitrary; the clock never goes back; the log remembers. */
  class World {
    var clock: nat
    ghost var log: seq<Event>
    /** The milliseconds of sleep asked for so far. */
    ghost var slept: nat

    constructor ()
      ensures log == [] && clock == 0 && slept == 0
    {
      clock, log, slept := 0, [], 0;
    }

    method Now() returns (t: nat)
      modifies this`clock
      ensures t == clock >= old(clock)
    {
      var passed: int := *;
      clock := clock + if passed < 0 then 0 else passed;
      t := clock;
    }

    method Observe(localPort: nat) returns (view: View)
      modifies this`clock, this`log
      ensures log == old(log) + [Observed(localPort, view)]
      ensures clock >= old(clock)
    {
      var passed := Now();
      view := *;
      log := log + [Observed(localPort, view)];
    }

    method Send(pid: int, signal: Signal) returns (reply: Reply<()>)
      modifies this
      ensures log == old(log) + [Sent(signal, Attempt(pid, reply))]
      ensures clock >= old(clock)
    {
      var passed := Now();
      reply := *;
      log := log + [Sent(signal, Attempt(pid, reply))];
    }

    method WaitForExit(pid: int, ghost now: nat, timeout: nat) returns (reply: Reply<bool>, ghost wait: Wait)
      requires now <= clock
      modifies this
      ensures wait.pid == pid && wait.now == now && wait.timeout == timeout && wait.reply == reply
      ensures now <= wait.began && wait.began + wait.elapsed <= clock
      ensures log == old(log) + [Waited(wait)]
    {
      var began := Now();
      var ended := Now();
      reply := *;
      wait := Wait(pid, now, timeout, began, ended - began, reply);
      log := log + [Waited(wait)];
    }

    method StopUnit(unit: string) returns (reply: Reply<()>)
      modifies this
      ensures log == old(log) + [StopRequested(unit, reply)]
      ensures clock >= old(clock)
    {
      var passed := Now();
      reply := *;
      log := log + [StopRequested(unit, reply)];
    }

    /** Sleeping takes at least as long as asked. */
    method Sleep(millis: nat)
      modifies this`clock, this`slept
      ensures clock >= old(clock) + millis * NANOS_PER_MILLI
      ensures slept == old(slept) + millis
    {
      slept := slept + millis;
      clock := clock + millis * NANOS_PER_MILLI;
      var passed := Now();
    }

    method Confirm(question: Question) returns (yes: bool)
      modifies this
      ensures log == old(log) + [Asked(question, yes)]
      ensures clock >= old(clock)
    {
      var passed := Now();
      yes := *;
      log := log + [Asked(question, yes)];
    }
  }

  lemma ConcatAssociates<T>(a: seq<T>, b: seq<T>, c: seq<T>)
    ensures a + b + c == a + (b + c)
  {
  }

  // ----- signalling every owner -----

  function SentEvents(signal: Signal, sends: seq<Attempt>): (events: seq<Event>)
    ensures |events| == |sends|
  {
    seq(|sends|, i requires 0 <= i < |sends| => Sent(signal, sends[i]))
  }

  function Deliveries(pids: seq<int>, signal: Signal): (deliveries: seq<Delivery>)
    ensures |deliveries| == |pids|
  {
    seq(|pids|, i requires 0 <= i < |pids| => Delivery(pids[i], signal))
  }

  /** The attempts follow the owner list and stop at the first that does not succeed. */
  ghost predicate SendPhase(config: Config, pids: seq<int>, sends: seq<Attempt>) {
    && |sends| <= |pids|
    && (forall i :: 0 <= i < |sends| ==> sends[i].pid == pids[i] && ValidateSignalTarget(config, pids[i]).Success?)
    && (forall i :: 0 <= i < |sends| - 1 ==> sends[i].reply.Ok?)
    && (|sends| < |pids| ==> (sends != [] && sends[|sends| - 1].reply.Err?)
                             || ValidateSignalTarget(config, pids[|sends|]).Failure?)
  }

  /** What the attempts amount to; an error says whether somebody had been signalled before it. */
  ghost function SendResult(config: Config, pids: seq<int>, signal: Signal, sends: seq<Attempt>): Result<seq<Delivery>>
    requires SendPhase(config, pids, sends)
  {
    if sends != [] && sends[|sends| - 1].reply.Err? then Failure(Error(sends[|sends| - 1].reply.code, |sends| > 1))
    else if |sends| < |pids| then
      Failure(Error(ValidateSignalTarget(config, pids[|sends|]).error.code, |sends| > 0))
    else Success(Deliveries(pids, signal))
  }

  // ----- waiting for every owner -----

  function WaitEvents(waits: seq<Wait>): (events: seq<Event>)
    ensures |events| == |waits|
  {
    seq(|waits|, i requires 0 <= i < |waits| => Waited(waits[i]))
  }

  /** The whole milliseconds left before the deadline. */
  function TimeLeft(now: nat, deadline: nat): nat {
    if now >= deadline then 0 else (deadline - now) / NANOS_PER_MILLI
  }

  /** The waits follow the owner list one after the other, each given the time left when it was asked for. */
  ghost predicate WaitedSoFar(config: Config, pids: seq<int>, deadline: nat, waits: seq<Wait>) {
    && |waits| <= |pids|
    && (forall i :: 0 <= i < |waits| ==>
          && waits[i].pid == pids[i]
          && ValidateSignalTarget(config, pids[i]).Success?
          && waits[i].timeout == TimeLeft(waits[i].now, deadline)
          && waits[i].now <= waits[i].began)
    && (forall i :: 0 < i < |waits| ==> waits[i - 1].began + waits[i - 1].elapsed <= waits[i].now)
  }

  ghost predicate AllAnswered(waits: seq<Wait>) {
    forall i :: 0 <= i < |waits| ==> waits[i].reply.Ok?
  }

  lemma OneMoreWait(config: Config, pids: seq<int>, deadline: nat, waits: seq<Wait>, wait: Wait)
    requires WaitedSoFar(config, pids, deadline, waits) && AllAnswered(waits) && |waits| < |pids|
    requires wait.pid == pids[|waits|] && ValidateSignalTarget(config, wait.pid).Success?
    requires wait.timeout == TimeLeft(wait.now, deadline) && wait.now <= wait.began
    requires waits != [] ==> waits[|waits| - 1].began + waits[|waits| - 1].elapsed <= wait.now
    ensures WaitedSoFar(config, pids, deadline, waits + [wait])
    ensures AllAnswered((waits + [wait])[..|waits|])
    ensures wait.reply.Ok? ==> AllAnswered(waits + [wait])
  {
    assert (waits + [wait])[..|waits|] == waits;
  }

  ghost predicate WaitPhase(config: Config, pids: seq<int>, deadline: nat, waits: seq<Wait>) {
    && WaitedSoFar(config, pids, deadline, waits)
    && (waits != [] ==> AllAnswered(waits[..|waits| - 1]))
    && (|waits| < |pids| ==> (waits != [] && waits[|waits| - 1].reply.Err?)
                             || ValidateSignalTarget(config, pids[|waits|]).Failure?)
  }

  ghost function WaitResult(config: Config, pids: seq<int>, waits: seq<Wait>): Result<()>
    requires |waits| <= |pids|
  {
    if waits != [] && waits[|waits| - 1].reply.Err? then Fail(waits[|waits| - 1].reply.code)
    else if |waits| < |pids| then ValidateSignalTarget(config, pids[|waits|])
    else Success(())
  }

  // ----- terminate and force -----

  /** What one call of terminate or force did. `started` is the clock when the waits' deadline was fixed. */
  datatype SignalRun = SignalRun(before: View, sends: seq<Attempt>, started: nat, waits: seq<Wait>, after: Option<View>)

  function ActEvents(localPort: nat, signal: Signal, run: SignalRun): seq<Event> {
    SentEvents(signal, run.sends) + WaitEvents(run.waits) + AfterEvents(localPort, run)
  }

  function AfterEvents(localPort: nat, run: SignalRun): seq<Event> {
    if run.after.Some? then [Observed(localPort, run.after.value)] else []
  }

  function SignalEvents(localPort: nat, signal: Signal, run: SignalRun): seq<Event> {
    [Observed(localPort, run.before)] + ActEvents(localPort, signal, run)
  }

  /** How a call ends once every owner was signalled and waited for and `after` is the new snapshot's plan. */
  function Conclusion(signal: Signal, plan: Plan, after: Result<Plan>): Result<ReleaseResult> {
    var deliveries := Deliveries(plan.ownerPids, signal);
    match after
    case Failure(error) =>
      if error.code == NotFound then Success(ReleaseResult(true, deliveries, None)) else Failure(error)
    case Success(current) =>
      if !Remains(plan, current) then Fail(Conflict)
      else if signal == Kill then Fail(Timeout)
      else Success(ReleaseResult(false, deliveries, Some(current)))
  }

  /** How a call ends when it never gets to act: the port is free already, or the targets changed. */
  function Refusal(current: Result<Plan>): Result<ReleaseResult> {
    match current
    case Success(_) => Fail(Conflict)
    case Failure(error) =>
      if error.code == NotFound then Success(ReleaseResult(true, [], None)) else Failure(error)
  }

  /** Once everybody was signalled: wait for all, look again. `after` is what the last snapshot amounts to. */
  ghost predicate WaitedPhase(config: Config, signal: Signal, plan: Plan, after: Result<Plan>, run: SignalRun,
                              r: Result<ReleaseResult>) {
    && WaitPhase(config, plan.ownerPids, run.started + config.gracePeriod * NANOS_PER_MILLI, run.waits)
    && (run.waits != [] ==> run.started <= run.waits[0].now)
    && var waited := WaitResult(config, plan.ownerPids, run.waits);
       if waited.Failure? then run.after == None && r == Failure(waited.error)
       else run.after.Some? && r == Conclusion(signal, plan, after)
  }

  /** Once the fresh snapshot matched: signal all, then wait and look again. */
  ghost predicate ActPhase(config: Config, signal: Signal, plan: Plan, after: Result<Plan>, run: SignalRun,
                           r: Result<ReleaseResult>) {
    && SendPhase(config, plan.ownerPids, run.sends)
    && var sent := SendResult(config, plan.ownerPids, signal, run.sends);
       if sent.Failure? then run.waits == [] && run.after == None && r == Failure(sent.error)
       else WaitedPhase(config, signal, plan, after, run, r)
  }

  /** The whole call, given what its first and last snapshots amount to. */
  ghost predicate CallPhase(config: Config, signal: Signal, plan: Plan, current: Result<Plan>, after: Result<Plan>,
                            run: SignalRun, r: Result<ReleaseResult>) {
    if current.Failure? || !SameTargets(plan, current.value) then
      run.sends == [] && run.waits == [] && run.after == None && r == Refusal(current)
    else
      ActPhase(config, signal, plan, after, run, r)
  }

  /** What the snapshot after the waits amounts to; meaningless when the call did not get that far. */
  function PlanAfter(config: Config, localPort: nat, run: SignalRun): Result<Plan> {
    match run.after
    case Some(view) => PlanOf(config, localPort, view)
    case None => Fail(OperationFailed)
  }

  ghost predicate SignalPhase(config: Config, signal: Signal, plan: Plan, run: SignalRun, r: Result<ReleaseResult>) {
    CallPhase(config, signal, plan, PlanOf(config, plan.localPort, run.before),
              PlanAfter(config, plan.localPort, run), run, r)
  }

  // ----- stopping the one service that owns the port -----

  predicate ValidUnitCharacter(c: char) {
    '0' <= c <= '9' || 'a' <= c <= 'z' || 'A' <= c <= 'Z' || c in ":_-.@\\"
  }

  predicate EndsInService(unit: string) {
    |unit| >= |".service"| && unit[|unit| - |".service"|..] == ".service"
  }

  /** ServiceService::normalizeUnit. */
  function NormalizeUnit(unit: string): Result<string> {
    if unit == "" || |unit| > 247 || exists i :: 0 <= i < |unit| && !ValidUnitCharacter(unit[i]) then Fail(InvalidArgument)
    else if EndsInService(unit) then Success(unit)
    else Success(unit + ".service")
  }

  /** A name passes exactly when it has 1 to 247 characters, all of them letters, digits or one of : _ - . @ and the
      backslash; it gets the suffix unless it has it. Any other name is refused. */
  lemma NormalizeExactly(unit: string)
    ensures NormalizeUnit(unit).Success?
       <==> && 1 <= |unit| <= 247
            && forall c :: c in unit ==>
                 || '0' <= c <= '9' || 'a' <= c <= 'z' || 'A' <= c <= 'Z'
                 || c == ':' || c == '_' || c == '-' || c == '.' || c == '@' || c == '\\'
    ensures NormalizeUnit(unit).Failure? ==> NormalizeUnit(unit).error.code == InvalidArgument
    ensures NormalizeUnit(unit).Success? ==>
              NormalizeUnit(unit).value == if |unit| >= 8 && unit[|unit| - 8..] == ".service" then unit else unit + ".service"
  {
    forall c
      ensures ValidUnitCharacter(c)
         <==> || '0' <= c <= '9' || 'a' <= c <= 'z' || 'A' <= c <= 'Z'
              || c == ':' || c == '_' || c == '-' || c == '.' || c == '@' || c == '\\'
    {
    }
    if i :| 0 <= i < |unit| && !ValidUnitCharacter(unit[i]) {
      assert unit[i] in unit;
    }
  }

  /** Normalizing keeps a name that ends in the suffix, adds it to any other, and is stable exactly while the result is
      still short enough to pass for a name itself. */
  lemma NormalizeTwice(unit: string)
    requires NormalizeUnit(unit).Success?
    ensures var name := NormalizeUnit(unit).value;
            && unit <= name && EndsInService(name) && (name == unit <==> EndsInService(unit))
            && |name| <= 255
            && (NormalizeUnit(name) == Success(name) <==> |name| <= 247)
  {
    var name := NormalizeUnit(unit).value;
    if name != unit {
      assert name[|unit|..] == ".service";
      forall i | 0 <= i < |name| ensures ValidUnitCharacter(name[i]) {
        if i >= |unit| { assert name[i] == ".service"[i - |unit|]; }
      }
    }
  }

  /** One look at the port after the stop, and the clock reading that followed if it was tolerated. */
  datatype Poll = Poll(view: View, now: nat)

  datatype StopRun = StopRun(before: Option<View>, stop: Option<Reply<()>>, started: nat, polls: seq<Poll>)

  function PollEvents(localPort: nat, polls: seq<Poll>): (events: seq<Event>)
    ensures |events| == |polls|
  {
    seq(|polls|, i requires 0 <= i < |polls| => Observed(localPort, polls[i].view))
  }

  function StopAndPollEvents(plan: Plan, run: StopRun): seq<Event> {
    (if run.stop.Some? && plan.recommendedUnit.Some? && NormalizeUnit(plan.recommendedUnit.value).Success?
     then [StopRequested(NormalizeUnit(plan.recommendedUnit.value).value, run.stop.value)] else [])
    + PollEvents(plan.localPort, run.polls)
  }

  function StopEvents(plan: Plan, run: StopRun): seq<Event> {
    (if run.before.Some? then [Observed(plan.localPort, run.before.value)] else [])
    + StopAndPollEvents(plan, run)
  }

  const POLL_MILLIS := 25

  /** What one look at the port after the stop settles; None while nobody new holds it. */
  function Verdict(plan: Plan, after: Result<Plan>): Option<Result<ReleaseResult>> {
    match after
    case Failure(_) => Some(Refusal(after))
    case Success(current) => if Remains(plan, current) then None else Some(Fail(Conflict))
  }

  /** The first `n` polls settle nothing and come before the deadline; all polls are a pause apart. */
  ghost predicate Paced(quiet: View -> bool, started: nat, deadline: nat, pause: nat, polls: seq<Poll>, n: nat)
    requires n <= |polls|
  {
    && (forall i :: 0 <= i < n ==> quiet(polls[i].view))
    && (forall i :: 0 <= i < n ==> started <= polls[i].now < deadline)
    && (forall i :: 0 < i < |polls| ==> polls[i - 1].now + pause <= polls[i].now)
  }

  ghost function Quiet(config: Config, plan: Plan): View -> bool {
    view => Verdict(plan, PlanOf(config, plan.localPort, view)) == None
  }

  ghost predicate Tolerated(config: Config, plan: Plan, started: nat, polls: seq<Poll>, n: nat)
    requires n <= |polls|
  {
    Paced(Quiet(config, plan), started, started + config.gracePeriod * NANOS_PER_MILLI, POLL_MILLIS * NANOS_PER_MILLI,
          polls, n)
  }

  ghost predicate PollPhase(config: Config, plan: Plan, started: nat, polls: seq<Poll>, r: Result<ReleaseResult>) {
    var deadline := started + config.gracePeriod * NANOS_PER_MILLI;
    && polls != []
    && Tolerated(config, plan, started, polls, |polls| - 1)
    && var last := polls[|polls| - 1];
       match Verdict(plan, PlanOf(config, plan.localPort, last.view))
       case Some(settled) => r == settled
       case None => r == Fail(Timeout) && last.now >= deadline
  }

  /** Once the fresh snapshot matched: ask for the stop, then poll. */
  ghost predicate StopAndPoll(config: Config, plan: Plan, run: StopRun, r: Result<ReleaseResult>)
    requires plan.recommendedUnit.Some?
  {
    var unit := NormalizeUnit(plan.recommendedUnit.value);
    if unit.Failure? then run.stop == None && run.polls == [] && r == Failure(unit.error)
    else
      && run.stop.Some?
      && if run.stop.value.Err? then run.polls == [] && r == Fail(run.stop.value.code)
         else PollPhase(config, plan, run.started, run.polls, r)
  }

  /** The call, given what its fresh snapshot amounts to. */
  ghost predicate RevalidatedStop(config: Config, plan: Plan, current: Result<Plan>, run: StopRun,
                                  r: Result<ReleaseResult>)
    requires plan.recommendedUnit.Some?
  {
    if current.Failure? || !SameTargets(plan, current.value) || current.value.recommendedUnit != plan.recommendedUnit then
      run.stop == None && run.polls == [] && r == Refusal(current)
    else
      StopAndPoll(config, plan, run, r)
  }

  ghost predicate StopPhase(config: Config, plan: Plan, run: StopRun, r: Result<ReleaseResult>) {
    if plan.recommendedUnit.None? || !config.serviceAvailable then
      run.before == None && run.stop == None && run.polls == [] && r == Fail(InvalidArgument)
    else
      run.before.Some?
      && RevalidatedStop(config, plan, PlanOf(config, plan.localPort, run.before.value), run, r)
  }

  class PortService {
    const config: Config
    const world: World

    constructor (config: Config, world: World)
      ensures this.config == config && this.world == world
    {
      this.config, this.world := config, world;
    }

    method Snapshot(localPort: nat) returns (r: Result<Plan>, ghost view: View)
      modifies world`clock, world`log
      ensures world.log == old(world.log) + [Observed(localPort, view)]
      ensures world.clock >= old(world.clock)
      ensures r == PlanOf(config, localPort, view)
    {
      var seen := world.Observe(localPort);
      r := PrepareRelease(config, localPort, seen);
      view := seen;
    }

    /** The fresh snapshot every phase starts with, and whether it names the plan's targets. */
    method Revalidate(plan: Plan) returns (current: Result<Plan>, same: bool, ghost view: View)
      modifies world
      ensures world.log == old(world.log) + [Observed(plan.localPort, view)]
      ensures current == PlanOf(config, plan.localPort, view)
      ensures same <==> current.Success? && SameTargets(plan, current.value)
      ensures world.clock >= old(world.clock)
    {
      current, view := Snapshot(plan.localPort);
      same := false;
      if current.Success? { same := CompareTargets(plan, current.value); }
    }

    /** ProcessService::signal, once per owner. */
    method SignalOwners(pids: seq<int>, signal: Signal) returns (r: Result<seq<Delivery>>, ghost sends: seq<Attempt>)
      modifies world
      ensures world.log == old(world.log) + SentEvents(signal, sends)
      ensures world.clock >= old(world.clock)
      ensures SendPhase(config, pids, sends) && r == SendResult(config, pids, signal, sends)
    {
      sends := [];
      var deliveries := [];
      for i := 0 to |pids|
        invariant world.clock >= old(world.clock)
        invariant |sends| == i && world.log == old(world.log) + SentEvents(signal, sends)
        invariant forall k :: 0 <= k < i ==>
                    && sends[k].pid == pids[k] && sends[k].reply.Ok?
                    && ValidateSignalTarget(config, pids[k]).Success?
        invariant deliveries == Deliveries(pids[..i], signal)
      {
        var valid := ValidateSignalTarget(config, pids[i]);
        if valid.Failure? {
          r := Failure(Error(valid.error.code, deliveries != []));
          return;
        }
        var reply := world.Send(pids[i], signal);
        sends := sends + [Attempt(pids[i], reply)];
        assert SentEvents(signal, sends) == SentEvents(signal, sends[..i]) + [Sent(signal, sends[i])];
        if reply.Err? {
          r := Failure(Error(reply.code, deliveries != []));
          return;
        }
        deliveries := deliveries + [Delivery(pids[i], signal)];
      }
      assert pids[..|pids|] == pids;
      r := Success(deliveries);
    }

    method WaitForOwners(pids: seq<int>, deadline: nat) returns (r: Result<()>, ghost waits: seq<Wait>)
      modifies world
      ensures world.log == old(world.log) + WaitEvents(waits)
      ensures WaitPhase(config, pids, deadline, waits) && r == WaitResult(config, pids, waits)
      ensures waits != [] ==> old(world.clock) <= waits[0].now
    {
      waits := [];
      for i := 0 to |pids|
        invariant world.clock >= old(world.clock)
        invariant |waits| == i && world.log == old(world.log) + WaitEvents(waits)
        invariant WaitedSoFar(config, pids, deadline, waits) && AllAnswered(waits)
        invariant waits != [] ==> waits[i - 1].began + waits[i - 1].elapsed <= world.clock
        invariant waits != [] ==> old(world.clock) <= waits[0].now
      {
        var now := world.Now();
        var remaining := if now >= deadline then 0 else (deadline - now) / NANOS_PER_MILLI;
        var valid := ValidateSignalTarget(config, pids[i]);
        if valid.Failure? {
          r := valid;
          return;
        }
        ghost var before := waits;
        ghost var wait;
        var reply;
        reply, wait := world.WaitForExit(pids[i], now, remaining);
        waits := waits + [wait];
        assert WaitEvents(waits) == WaitEvents(before) + [Waited(wait)];
        OneMoreWait(config, pids, deadline, before, wait);
        if reply.Err? {
          r := Fail(reply.code);
          return;
        }
      }
      assert pids[..|pids|] == pids;
      r := Success(());
    }

    /** The part terminate and force share: signal every owner, wait for every owner, look again. */
    method Act(plan: Plan, signal: Signal, ghost before: View) returns (r: Result<ReleaseResult>, ghost run: SignalRun)
      modifies world
      ensures world.log == old(world.log) + ActEvents(plan.localPort, signal, run)
      ensures run.before == before && ActPhase(config, signal, plan, PlanAfter(config, plan.localPort, run), run, r)
      ensures run.waits != [] || run.after.Some? ==> old(world.clock) <= run.started
    {
      ghost var sends;
      var sent;
      sent, sends := SignalOwners(plan.ownerPids, signal);
      if sent.Failure? {
        run := SignalRun(before, sends, 0, [], None);
        r := Failure(sent.error);
      } else {
        r, run := WaitAndConclude(plan, signal, sent.value, SignalRun(before, sends, 0, [], None));
        ConcatAssociates(SentEvents(signal, run.sends), WaitEvents(run.waits), AfterEvents(plan.localPort, run));
        ConcatAssociates(old(world.log), SentEvents(signal, run.sends),
                         WaitEvents(run.waits) + AfterEvents(plan.localPort, run));
      }
    }

    method WaitAndConclude(plan: Plan, signal: Signal, deliveries: seq<Delivery>, ghost sentRun: SignalRun)
      returns (r: Result<ReleaseResult>, ghost run: SignalRun)
      requires deliveries == Deliveries(plan.ownerPids, signal)
      modifies world
      ensures run.before == sentRun.before && run.sends == sentRun.sends
      ensures world.log == old(world.log) + (WaitEvents(run.waits) + AfterEvents(plan.localPort, run))
      ensures WaitedPhase(config, signal, plan, PlanAfter(config, plan.localPort, run), run, r)
      ensures old(world.clock) <= run.started
    {
      var now := world.Now();
      ghost var waits;
      var waited;
      waited, waits := WaitForOwners(plan.ownerPids, now + config.gracePeriod * NANOS_PER_MILLI);
      run := sentRun.(started := now, waits := waits, after := None);
      if waited.Failure? {
        r := Failure(waited.error);
      } else {
        r, run := ConcludeRun(plan, signal, deliveries, run);
      }
    }

    method ConcludeRun(plan: Plan, signal: Signal, deliveries: seq<Delivery>, ghost waitedRun: SignalRun)
      returns (r: Result<ReleaseResult>, ghost run: SignalRun)
      requires deliveries == Deliveries(plan.ownerPids, signal)
      modifies world
      ensures run == waitedRun.(after := run.after) && run.after.Some?
      ensures world.log == old(world.log) + [Observed(plan.localPort, run.after.value)]
      ensures r == Conclusion(signal, plan, PlanOf(config, plan.localPort, run.after.value))
    {
      ghost var view;
      var after;
      after, view := Snapshot(plan.localPort);
      run := waitedRun.(after := Some(view));
      if after.Failure? {
        r := if after.error.code == NotFound then Success(ReleaseResult(true, deliveries, None)) else Failure(after.error);
        return;
      }
      var belong := RemainingTargetsBelongTo(plan, after.value);
      if !belong {
        r := Fail(Conflict);
      } else if signal == Kill {
        r := Fail(Timeout);
      } else {
        r := Success(ReleaseResult(false, deliveries, Some(after.value)));
      }
    }

    method Terminate(plan: Plan) returns (r: Result<ReleaseResult>, ghost run: SignalRun)
      modifies world
      ensures world.log == old(world.log) + SignalEvents(plan.localPort, Signal.Terminate, run)
      ensures SignalPhase(config, Signal.Terminate, plan, run, r)
      ensures run.waits != [] || run.after.Some? ==> old(world.clock) <= run.started
    {
      ghost var before;
      var current, same;
      current, same, before := Revalidate(plan);
      run := SignalRun(before, [], 0, [], None);
      if current.Failure? {
        r := if current.error.code == NotFound then Success(ReleaseResult(true, [], None)) else Failure(current.error);
      } else if !same {
        r := Fail(Conflict);
      } else {
        r, run := Act(plan, Signal.Terminate, before);
        ConcatAssociates(old(world.log), [Observed(plan.localPort, before)], ActEvents(plan.localPort, Signal.Terminate, run));
      }
    }

    method Force(plan: Plan) returns (r: Result<ReleaseResult>, ghost run: SignalRun)
      modifies world
      ensures world.log == old(world.log) + SignalEvents(plan.localPort, Kill, run)
      ensures SignalPhase(config, Kill, plan, run, r)
      ensures run.waits != [] || run.after.Some? ==> old(world.clock) <= run.started
    {
      ghost var before;
      var current, same;
      current, same, before := Revalidate(plan);
      run := SignalRun(before, [], 0, [], None);
      if current.Failure? {
        r := if current.error.code == NotFound then Success(ReleaseResult(true, [], None)) else Failure(current.error);
      } else if !same {
        r := Fail(Conflict);
      } else {
        r, run := Act(plan, Kill, before);
        ConcatAssociates(old(world.log), [Observed(plan.localPort, before)], ActEvents(plan.localPort, Kill, run));
      }
    }

    method StopManagedService(plan: Plan) returns (r: Result<ReleaseResult>, ghost run: StopRun)
      modifies world
      ensures world.log == old(world.log) + StopEvents(plan, run)
      ensures StopPhase(config, plan, run, r)
      ensures run.polls != [] ==> old(world.clock) <= run.started
    {
      run := StopRun(None, None, 0, []);
      if plan.recommendedUnit.None? || !config.serviceAvailable {
        r := Fail(InvalidArgument);
      } else {
        r, run := RevalidateThenStop(plan);
      }
    }

    method RevalidateThenStop(plan: Plan) returns (r: Result<ReleaseResult>, ghost run: StopRun)
      requires plan.recommendedUnit.Some? && config.serviceAvailable
      modifies world
      ensures world.log == old(world.log) + StopEvents(plan, run)
      ensures StopPhase(config, plan, run, r)
      ensures run.polls != [] ==> old(world.clock) <= run.started
    {
      ghost var before;
      var current, same;
      current, same, before := Revalidate(plan);
      run := StopRun(Some(before), None, 0, []);
      if current.Failure? {
        r := if current.error.code == NotFound then Success(ReleaseResult(true, [], None)) else Failure(current.error);
      } else if !same || current.value.recommendedUnit != plan.recommendedUnit {
        r := Fail(Conflict);
      } else {
        r, run := StopThenPoll(plan, before);
        ConcatAssociates(old(world.log), [Observed(plan.localPort, before)], StopAndPollEvents(plan, run));
        assert StopEvents(plan, run) == [Observed(plan.localPort, before)] + StopAndPollEvents(plan, run);
      }
    }

    method StopThenPoll(plan: Plan, ghost before: View) returns (r: Result<ReleaseResult>, ghost run: StopRun)
      requires plan.recommendedUnit.Some?
      modifies world
      ensures world.log == old(world.log) + StopAndPollEvents(plan, run)
      ensures run.before == Some(before) && StopAndPoll(config, plan, run, r)
      ensures run.polls != [] ==> old(world.clock) <= run.started
    {
      run := StopRun(Some(before), None, 0, []);
      var unit := NormalizeUnit(plan.recommendedUnit.value);
      if unit.Failure? {
        r := Failure(unit.error);
        return;
      }
      var stopped := world.StopUnit(unit.value);
      run := StopRun(Some(before), Some(stopped), 0, []);
      if stopped.Err? {
        r := Fail(stopped.code);
        return;
      }
      var now := world.Now();
      ghost var polls;
      r, polls := PollUntilReleased(plan, now);
      run := StopRun(Some(before), Some(stopped), now, polls);
      ConcatAssociates(old(world.log), [StopRequested(unit.value, stopped)], PollEvents(plan.localPort, polls));
      assert StopAndPollEvents(plan, run) == [StopRequested(unit.value, stopped)] + PollEvents(plan.localPort, polls);
    }

    method LookAgain(plan: Plan) returns (settled: Option<Result<ReleaseResult>>, ghost view: View)
      modifies world`clock, world`log
      ensures world.log == old(world.log) + [Observed(plan.localPort, view)]
      ensures world.clock >= old(world.clock)
      ensures settled == Verdict(plan, PlanOf(config, plan.localPort, view))
    {
      var after;
      after, view := Snapshot(plan.localPort);
      if after.Failure? {
        settled := Some(if after.error.code == NotFound then Success(ReleaseResult(true, [], None))
                        else Failure(after.error));
        return;
      }
      var belong := RemainingTargetsBelongTo(plan, after.value);
      settled := if belong then None else Some(Fail(Conflict));
    }

    method PollUntilReleased(plan: Plan, started: nat) returns (r: Result<ReleaseResult>, ghost polls: seq<Poll>)
      requires started <= world.clock
      modifies world
      ensures world.log == old(world.log) + PollEvents(plan.localPort, polls)
      ensures PollPhase(config, plan, started, polls, r)
      ensures world.slept == old(world.slept) + 25 * (|polls| - 1)
    {
      var deadline := started + config.gracePeriod * NANOS_PER_MILLI;
      polls := [];
      var done: Option<Result<ReleaseResult>> := None;
      while done.None?
        invariant started <= world.clock
        invariant world.log == old(world.log) + PollEvents(plan.localPort, polls)
        invariant done.None? ==> Tolerated(config, plan, started, polls, |polls|)
        invariant done.None? && polls != [] ==>
                    polls[|polls| - 1].now + POLL_MILLIS * NANOS_PER_MILLI <= world.clock
        invariant done.Some? ==> PollPhase(config, plan, started, polls, done.value)
        invariant world.slept == old(world.slept) + 25 * if done.None? then |polls| else |polls| - 1
        decreases done.None?, deadline - world.clock
      {
        ghost var view;
        ghost var earlier := polls;
        done, view := LookAgain(plan);
        var now := world.Now();
        polls := polls + [Poll(view, now)];
        assert PollEvents(plan.localPort, polls) == PollEvents(plan.localPort, earlier) + [Observed(plan.localPort, view)];
        MorePolls(config, plan, started, earlier, polls[|earlier|]);
        if done.None? {
          if now >= deadline { done := Some(Fail(Timeout)); }
          else { world.Sleep(POLL_MILLIS); }
        }
      }
      r := done.value;
    }
  }

  lemma MorePaced(quiet: View -> bool, started: nat, deadline: nat, pause: nat, earlier: seq<Poll>, poll: Poll)
    requires Paced(quiet, started, deadline, pause, earlier, |earlier|)
    requires earlier != [] ==> earlier[|earlier| - 1].now + pause <= poll.now
    requires started <= poll.now
    ensures Paced(quiet, started, deadline, pause, earlier + [poll], |earlier|)
    ensures quiet(poll.view) && poll.now < deadline
            ==> Paced(quiet, started, deadline, pause, earlier + [poll], |earlier| + 1)
  {
  }

  lemma MorePolls(config: Config, plan: Plan, started: nat, earlier: seq<Poll>, poll: Poll)
    requires Tolerated(config, plan, started, earlier, |earlier|)
    requires earlier != [] ==> earlier[|earlier| - 1].now + POLL_MILLIS * NANOS_PER_MILLI <= poll.now
    requires started <= poll.now
    ensures Tolerated(config, plan, started, earlier + [poll], |earlier|)
    ensures Verdict(plan, PlanOf(config, plan.localPort, poll.view)) == None
            && poll.now < started + config.gracePeriod * NANOS_PER_MILLI
            ==> Tolerated(config, plan, started, earlier + [poll], |earlier| + 1)
  {
    MorePaced(Quiet(config, plan), started, started + config.gracePeriod * NANOS_PER_MILLI, POLL_MILLIS * NANOS_PER_MILLI,
              earlier, poll);
  }
}
