/** src/application/PortService.cpp:111-248: one snapshot of the system, and the release plan it yields. */
module PortPlan {
  import opened Common
  import opened Ordering
  import opened Sockets
  import opened PortTargets
  import Resolver = SocketInodeResolver

  /** `selfPid` is LX itself; `processUnits` and `serviceAvailable` say whether the process service and the
      port service were given a service manager; `gracePeriod` is in milliseconds. */
  datatype Config = Config(selfPid: int, processUnits: bool, serviceAvailable: bool, gracePeriod: nat)

  /** Everything the providers answer while one snapshot is taken. A socket query that answers may have missed some
      sockets: it leaves a warning for each of its dumps that failed. Planning never looks at those. */
  datatype View = View(sockets: Reply<seq<FreshSocket>>, missed: seq<ErrorCode>, procfs: Resolver.ProcFs,
                       processes: int -> Reply<string>, units: int -> Reply<Option<string>>)

  /** ProcessService::inspect: a unit that cannot be looked up leaves the process without one. */
  function InspectProcess(config: Config, view: View, pid: int): Result<ProcessInfo> {
    if pid <= 0 then Fail(InvalidArgument)
    else
      match view.processes(pid)
      case Err(code) => Fail(code)
      case Ok(name) =>
        if !config.processUnits then Success(ProcessInfo(pid, name, None))
        else
          match view.units(pid)
          case Ok(unit) => Success(ProcessInfo(pid, name, unit))
          case Err(_) => Success(ProcessInfo(pid, name, None))
  }

  function ValidateSignalTarget(config: Config, pid: int): Result<()> {
    if pid <= 0 then Fail(InvalidArgument)
    else if pid == 1 then Fail(Conflict)
    else if pid == config.selfPid then Fail(Conflict)
    else Success(())
  }

  // ----- the reference: joins done socket by socket -----

  /** The processes among `pids` that could be inspected, in order. */
  function Records(config: Config, view: View, pids: seq<int>): seq<ProcessInfo> {
    if pids == [] then []
    else
      var last := |pids| - 1;
      match InspectProcess(config, view, pids[last])
      case Success(info) => Records(config, view, pids[..last]) + [info]
      case Failure(_) => Records(config, view, pids[..last])
  }

  function InspectedPort(config: Config, view: View, socket: SocketInfo): PortInfo {
    var pids := Resolver.Owners(view.procfs, socket.inode);
    PortInfo(socket.(ownerPids := pids), Records(config, view, pids))
  }

  predicate NeedsProcfs(sockets: seq<SocketInfo>) {
    exists i :: 0 <= i < |sockets| && sockets[i].inode != 0
  }

  function Inspected(config: Config, view: View): Result<seq<PortInfo>> {
    match view.sockets
    case Err(code) => Fail(code)
    case Ok(sockets) =>
      if NeedsProcfs(sockets) && view.procfs.Unopened? then Fail(Resolver.CodeOf(view.procfs.fault))
      else Success(seq(|sockets|, i requires 0 <= i < |sockets| => InspectedPort(config, view, sockets[i])))
  }

  function AllOwners(ports: seq<PortInfo>): seq<int> {
    if ports == [] then []
    else
      var last := |ports| - 1;
      AllOwners(ports[..last]) + ports[last].socket.ownerPids
  }

  function UnitOf(config: Config, view: View, pid: int): Option<string> {
    match InspectProcess(config, view, pid)
    case Success(info) => info.systemdUnit
    case Failure(_) => None
  }

  function Units(config: Config, view: View): int -> Option<string> {
    pid => UnitOf(config, view, pid)
  }

  /** The unit every listed process belongs to, if there is one. */
  function CommonUnit(unitOf: int -> Option<string>, pids: seq<int>): Option<string> {
    if pids != [] && forall i :: 0 <= i < |pids| ==> unitOf(pids[i]) == unitOf(pids[0])
    then unitOf(pids[0]) else None
  }

  predicate SomeUnowned(ports: seq<PortInfo>) {
    exists i :: 0 <= i < |ports| && ports[i].socket.ownerPids == []
  }

  predicate AllSignalable(config: Config, pids: seq<int>) {
    forall i :: 0 <= i < |pids| ==> ValidateSignalTarget(config, pids[i]).Success?
  }

  /** The plan for ports that have been inspected. */
  function PlanFrom(config: Config, localPort: nat, ports: seq<PortInfo>, unitOf: int -> Option<string>): Result<Plan> {
    if ports == [] then Fail(NotFound)
    else if SomeUnowned(ports) then Fail(PermissionDenied)
    else
      var pids := SortUnique(AllOwners(ports));
      if !AllSignalable(config, pids) then Fail(Conflict)
      else Success(Plan(localPort, ports, pids, CommonUnit(unitOf, pids)))
  }

  function PlanOf(config: Config, localPort: nat, view: View): Result<Plan> {
    if localPort == 0 then Fail(InvalidArgument)
    else
      match Inspected(config, view)
      case Failure(error) => Failure(error)
      case Success(ports) => PlanFrom(config, localPort, ports, Units(config, view))
  }

  // ----- inspect -----

  method ResolveOwners(view: View, sockets: seq<FreshSocket>) returns (r: Result<Resolver.Ownership>)
    ensures r.Failure? <==> NeedsProcfs(sockets) && view.procfs.Unopened?
    ensures r.Failure? ==> r == Fail(Resolver.CodeOf(view.procfs.fault))
    ensures r.Success? ==> forall i :: 0 <= i < |sockets| ==>
              var owners := Resolver.Owners(view.procfs, sockets[i].inode);
              if sockets[i].inode in r.value then r.value[sockets[i].inode] == owners else owners == []
  {
    var inodes: seq<nat> := [];
    for i := 0 to |sockets|
      invariant forall inode :: inode in inodes <==> inode != 0 && exists k :: 0 <= k < i && sockets[k].inode == inode
    {
      if sockets[i].inode != 0 { inodes := inodes + [sockets[i].inode]; }
    }
    var resolved := Resolver.Resolve(view.procfs, inodes);
    assert NeedsProcfs(sockets) <==> exists inode :: inode in inodes && inode != 0 by {
      if NeedsProcfs(sockets) {
        var k :| 0 <= k < |sockets| && sockets[k].inode != 0;
        assert sockets[k].inode in inodes;
      }
    }
    if resolved.Failure? {
      return Failure(resolved.error);
    }
    var index := resolved.value.ownership;
    Resolver.IndexAgreesWithWalks(index, view.procfs, inodes);
    return Success(index);
  }

  function Walks(view: View): nat -> seq<int> {
    (inode: nat) => Resolver.Owners(view.procfs, inode)
  }

  method InspectAll(config: Config, view: View, pids: set<int>) returns (processes: map<int, ProcessInfo>)
    ensures forall pid :: pid in processes <==> pid in pids && InspectProcess(config, view, pid).Success?
    ensures forall pid :: pid in processes ==> InspectProcess(config, view, pid) == Success(processes[pid])
  {
    processes := map[];
    var todo := pids;
    while todo != {}
      invariant todo <= pids
      invariant forall pid :: pid in processes <==> pid in pids - todo && InspectProcess(config, view, pid).Success?
      invariant forall pid :: pid in processes ==> InspectProcess(config, view, pid) == Success(processes[pid])
    {
      var pid := Any(todo);
      todo := todo - {pid};
      var process := InspectProcess(config, view, pid);
      if process.Success? { processes := processes[pid := process.value]; }
    }
  }

  method JoinOwners(config: Config, view: View, processes: map<int, ProcessInfo>, pids: seq<int>)
    returns (owners: seq<ProcessInfo>)
    requires forall pid :: pid in pids ==> (pid in processes <==> InspectProcess(config, view, pid).Success?)
    requires forall pid :: pid in processes ==> InspectProcess(config, view, pid) == Success(processes[pid])
    ensures owners == Records(config, view, pids)
  {
    owners := [];
    for i := 0 to |pids|
      invariant owners == Records(config, view, pids[..i])
    {
      assert pids[..i + 1][..i] == pids[..i];
      if pids[i] in processes { owners := owners + [processes[pids[i]]]; }
    }
    assert pids[..|pids|] == pids;
  }

  /** `lookup` is the walk for one inode. */
  method AttachOwners(reported: seq<FreshSocket>, ownership: Resolver.Ownership, ghost lookup: nat -> seq<int>)
    returns (sockets: seq<SocketInfo>, ownerPids: set<int>)
    requires forall i :: 0 <= i < |reported| ==>
               if reported[i].inode in ownership then ownership[reported[i].inode] == lookup(reported[i].inode)
               else lookup(reported[i].inode) == []
    ensures |sockets| == |reported|
    ensures forall k :: 0 <= k < |sockets| ==> sockets[k] == reported[k].(ownerPids := lookup(reported[k].inode))
    ensures forall k :: 0 <= k < |sockets| ==> SetOf(sockets[k].ownerPids) <= ownerPids
  {
    sockets, ownerPids := reported, {};
    for i := 0 to |sockets|
      invariant |sockets| == |reported| && forall k :: i <= k < |sockets| ==> sockets[k] == reported[k]
      invariant forall k :: 0 <= k < i ==> sockets[k] == reported[k].(ownerPids := lookup(reported[k].inode))
      invariant forall k :: 0 <= k < i ==> SetOf(sockets[k].ownerPids) <= ownerPids
    {
      if sockets[i].inode in ownership {
        var found := ownership[sockets[i].inode];
        sockets := sockets[i := sockets[i].(ownerPids := found)];
        ownerPids := ownerPids + SetOf(found);
      }
    }
  }

  /** The hash-map joins agree with looking every socket and owner up afresh. */
  method Inspect(config: Config, view: View) returns (r: Result<seq<PortInfo>>)
    ensures r == Inspected(config, view)
  {
    if view.sockets.Err? {
      return Fail(view.sockets.code);
    }
    var ownership := ResolveOwners(view, view.sockets.value);
    if ownership.Failure? {
      return Failure(ownership.error);
    }
    var sockets, ownerPids := AttachOwners(view.sockets.value, ownership.value, Walks(view));
    var processes := InspectAll(config, view, ownerPids);
    var ports := [];
    for i := 0 to |sockets|
      invariant |ports| == i
      invariant forall k :: 0 <= k < i ==> ports[k] == InspectedPort(config, view, view.sockets.value[k])
    {
      assert forall pid :: pid in sockets[i].ownerPids ==> pid in SetOf(sockets[i].ownerPids);
      var owners := JoinOwners(config, view, processes, sockets[i].ownerPids);
      ports := ports + [PortInfo(sockets[i], owners)];
    }
    assert ports == Inspected(config, view).value;
    return Success(ports);
  }

  // ----- prepareRelease -----

  method CollectOwners(ports: seq<PortInfo>) returns (r: Result<seq<int>>)
    ensures r == if SomeUnowned(ports) then Fail(PermissionDenied) else Success(SortUnique(AllOwners(ports)))
  {
    var pids := [];
    for i := 0 to |ports|
      invariant forall k :: 0 <= k < i ==> ports[k].socket.ownerPids != []
      invariant pids == AllOwners(ports[..i])
    {
      if ports[i].socket.ownerPids == [] {
        return Fail(PermissionDenied);
      }
      assert ports[..i + 1][..i] == ports[..i];
      pids := pids + ports[i].socket.ownerPids;
    }
    assert ports[..|ports|] == ports;
    pids := Sort(IntLe, pids);
    return Success(Unique(pids));
  }

  /** The first record of `pid` among the owners of `ports`. */
  method FindOwner(ports: seq<PortInfo>, pid: int) returns (owner: Option<ProcessInfo>)
    ensures owner.Some? ==> owner.value.pid == pid && exists i :: 0 <= i < |ports| && owner.value in ports[i].owners
    ensures owner.None? ==> forall i, info :: 0 <= i < |ports| && info in ports[i].owners ==> info.pid != pid
  {
    for i := 0 to |ports|
      invariant forall k, info :: 0 <= k < i && info in ports[k].owners ==> info.pid != pid
    {
      for j := 0 to |ports[i].owners|
        invariant forall k :: 0 <= k < j ==> ports[i].owners[k].pid != pid
      {
        if ports[i].owners[j].pid == pid {
          return Some(ports[i].owners[j]);
        }
      }
    }
    return None;
  }

  lemma {:induction false} RecordsMembers(config: Config, view: View, pids: seq<int>)
    ensures forall info :: info in Records(config, view, pids)
              ==> info.pid in pids && InspectProcess(config, view, info.pid) == Success(info)
    ensures forall pid :: pid in pids && InspectProcess(config, view, pid).Success?
              ==> InspectProcess(config, view, pid).value in Records(config, view, pids)
  {
    if pids != [] {
      var last := |pids| - 1;
      RecordsMembers(config, view, pids[..last]);
      assert pids == pids[..last] + [pids[last]];
    }
  }

  lemma {:induction false} AllOwnersMembers(ports: seq<PortInfo>)
    ensures SetOf(AllOwners(ports)) == Owners(ports)
  {
    if ports != [] {
      var last := |ports| - 1;
      AllOwnersMembers(ports[..last]);
      forall pid ensures pid in AllOwners(ports) <==> pid in Owners(ports) {
        assert pid in AllOwners(ports[..last]) <==> pid in Owners(ports[..last]);
        if pid in Owners(ports) {
          var i :| 0 <= i < |ports| && pid in ports[i].socket.ownerPids;
          if i < last { assert pid in ports[..last][i].socket.ownerPids; }
        }
      }
    }
  }

  /** Every record of `pid` among the owners carries `unit`; without a record there is no unit. */
  ghost predicate Recorded(ports: seq<PortInfo>, pid: int, unit: Option<string>) {
    && (forall i, info :: 0 <= i < |ports| && info in ports[i].owners && info.pid == pid ==> info.systemdUnit == unit)
    && (unit.Some? ==> exists i, info :: 0 <= i < |ports| && info in ports[i].owners && info.pid == pid)
  }

  method FindCommonUnit(ports: seq<PortInfo>, pids: seq<int>, ghost unitOf: int -> Option<string>)
    returns (unit: Option<string>)
    requires forall i :: 0 <= i < |pids| ==> Recorded(ports, pids[i], unitOf(pids[i]))
    ensures unit == CommonUnit(unitOf, pids)
  {
    var commonUnit := None;
    var managedByOneService := pids != [];
    for i := 0 to |pids|
      invariant managedByOneService <==> pids != []
      invariant i == 0 <==> commonUnit.None?
      invariant forall k :: 0 <= k < i ==> unitOf(pids[k]) == commonUnit
    {
      var owner := FindOwner(ports, pids[i]);
      assert Recorded(ports, pids[i], unitOf(pids[i]));
      var found := if owner.Some? then owner.value.systemdUnit else None;
      assert found == unitOf(pids[i]);
      if found.None? {
        managedByOneService := false;
        break;
      }
      if commonUnit.None? { commonUnit := found; }
      else if commonUnit != found {
        managedByOneService := false;
        break;
      }
    }
    return if managedByOneService then commonUnit else None;
  }

  method ValidateTargets(config: Config, pids: seq<int>) returns (r: Result<()>)
    requires forall i :: 0 <= i < |pids| ==> pids[i] > 0
    ensures r == if AllSignalable(config, pids) then Success(()) else Fail(Conflict)
  {
    for i := 0 to |pids|
      invariant forall k :: 0 <= k < i ==> ValidateSignalTarget(config, pids[k]).Success?
    {
      var valid := ValidateSignalTarget(config, pids[i]);
      if valid.Failure? {
        return Failure(valid.error);
      }
    }
    return Success(());
  }

  lemma SortedOwnersOwn(ports: seq<PortInfo>)
    ensures forall i :: 0 <= i < |SortUnique(AllOwners(ports))| ==> SortUnique(AllOwners(ports))[i] in Owners(ports)
  {
    var pids := SortUnique(AllOwners(ports));
    AllOwnersMembers(ports);
    SortUniqueCorrect(AllOwners(ports));
    forall i | 0 <= i < |pids| ensures pids[i] in Owners(ports) {
      assert pids[i] in SetOf(pids);
    }
  }

  method FinishPlan(config: Config, localPort: nat, ports: seq<PortInfo>, ghost unitOf: int -> Option<string>)
    returns (r: Result<Plan>)
    requires forall pid :: pid in Owners(ports) ==> pid > 0 && Recorded(ports, pid, unitOf(pid))
    ensures r == PlanFrom(config, localPort, ports, unitOf)
  {
    if ports == [] {
      return Fail(NotFound);
    }
    var owners := CollectOwners(ports);
    if owners.Failure? {
      return Failure(owners.error);
    }
    SortedOwnersOwn(ports);
    var unit := FindCommonUnit(ports, owners.value, unitOf);
    var valid := ValidateTargets(config, owners.value);
    if valid.Failure? {
      return Failure(valid.error);
    }
    return Success(Plan(localPort, ports, owners.value, unit));
  }

  method PrepareRelease(config: Config, localPort: nat, view: View) returns (r: Result<Plan>)
    ensures r == PlanOf(config, localPort, view)
  {
    if localPort == 0 {
      return Fail(InvalidArgument);
    }
    var inspected := Inspect(config, view);
    if inspected.Failure? {
      return Failure(inspected.error);
    }
    OwnersRecorded(config, view, inspected.value);
    r := FinishPlan(config, localPort, inspected.value, Units(config, view));
  }

  // ----- what inspection establishes -----

  lemma InspectedAt(config: Config, view: View, ports: seq<PortInfo>, i: nat)
    requires Inspected(config, view) == Success(ports) && i < |ports|
    ensures ports[i].socket.ownerPids == Resolver.Owners(view.procfs, ports[i].socket.inode)
    ensures ports[i].owners == Records(config, view, ports[i].socket.ownerPids)
  {
  }

  /** Finding an owner's record in the ports is the same as asking for the process. */
  lemma OwnersRecorded(config: Config, view: View, ports: seq<PortInfo>)
    requires Inspected(config, view) == Success(ports)
    ensures forall pid :: pid in Owners(ports) ==> pid > 0 && Recorded(ports, pid, Units(config, view)(pid))
  {
    forall pid | pid in Owners(ports) ensures pid > 0 && Recorded(ports, pid, Units(config, view)(pid)) {
      var i :| 0 <= i < |ports| && pid in ports[i].socket.ownerPids;
      InspectedAt(config, view, ports, i);
      RecordsMembers(config, view, ports[i].socket.ownerPids);
      PortHolders(config, view, ports, i);
      assert Resolver.Holds(view.procfs, pid, ports[i].socket.inode);
      forall k, info | 0 <= k < |ports| && info in ports[k].owners && info.pid == pid
        ensures info.systemdUnit == UnitOf(config, view, pid)
      {
        RecordedUnit(config, view, ports, k, info);
      }
    }
  }

  lemma RecordedUnit(config: Config, view: View, ports: seq<PortInfo>, k: nat, info: ProcessInfo)
    requires Inspected(config, view) == Success(ports) && k < |ports| && info in ports[k].owners
    ensures info.systemdUnit == UnitOf(config, view, info.pid)
  {
    InspectedAt(config, view, ports, k);
    RecordsMembers(config, view, ports[k].socket.ownerPids);
  }

  lemma PortHolders(config: Config, view: View, ports: seq<PortInfo>, i: nat)
    requires Inspected(config, view) == Success(ports)
    requires i < |ports| && ports[i].socket.ownerPids != []
    ensures Resolver.Lists(ports[i].socket.ownerPids, view.procfs, ports[i].socket.inode)
  {
    InspectedAt(config, view, ports, i);
    Resolver.OwnersAreHolders(view.procfs, ports[i].socket.inode);
  }

  lemma AllPortHolders(config: Config, view: View, ports: seq<PortInfo>)
    requires Inspected(config, view) == Success(ports)
    requires forall i :: 0 <= i < |ports| ==> ports[i].socket.ownerPids != []
    ensures forall i, pid :: 0 <= i < |ports| ==>
              (pid in ports[i].socket.ownerPids <==> Resolver.Holds(view.procfs, pid, ports[i].socket.inode))
  {
    forall i | 0 <= i < |ports|
      ensures forall pid :: pid in ports[i].socket.ownerPids <==> Resolver.Holds(view.procfs, pid, ports[i].socket.inode)
    {
      PortHolders(config, view, ports, i);
    }
  }

  // ----- what a plan promises -----

  lemma PreparedFrom(config: Config, localPort: nat, ports: seq<PortInfo>, unitOf: int -> Option<string>,
                     lookup: nat -> seq<int>)
    requires PlanFrom(config, localPort, ports, unitOf).Success?
    requires forall i :: 0 <= i < |ports| ==> ports[i].socket.ownerPids == lookup(ports[i].socket.inode)
    requires forall i :: 0 <= i < |ports| ==> StrictlyIncreasing(ports[i].socket.ownerPids)
    ensures var plan := PlanFrom(config, localPort, ports, unitOf).value;
            && Prepared(plan) && plan.localPort == localPort && plan.ports == ports && plan.ownerPids != []
            && plan.recommendedUnit == CommonUnit(unitOf, plan.ownerPids)
            && AllSignalable(config, plan.ownerPids)
  {
    var plan := PlanFrom(config, localPort, ports, unitOf).value;
    AllOwnersMembers(ports);
    SortUniqueCorrect(AllOwners(ports));
    OwnerListed(ports, 0, 0);
    assert ports[0].socket.ownerPids[0] in SetOf(plan.ownerPids);
  }

  lemma PlanIsPrepared(config: Config, localPort: nat, view: View)
    requires PlanOf(config, localPort, view).Success?
    ensures var plan := PlanOf(config, localPort, view).value;
            && Prepared(plan) && plan.localPort == localPort && plan.ownerPids != []
            && Inspected(config, view) == Success(plan.ports)
            && plan.recommendedUnit == CommonUnit(Units(config, view), plan.ownerPids)
            && AllSignalable(config, plan.ownerPids)
  {
    var ports := Inspected(config, view).value;
    forall i | 0 <= i < |ports|
      ensures ports[i].socket.ownerPids == Resolver.Owners(view.procfs, ports[i].socket.inode)
      ensures StrictlyIncreasing(ports[i].socket.ownerPids)
    {
      InspectedAt(config, view, ports, i);
      if ports[i].socket.ownerPids != [] { PortHolders(config, view, ports, i); }
    }
    PreparedFrom(config, localPort, ports, Units(config, view), (inode: nat) => Resolver.Owners(view.procfs, inode));
  }

  /** A plan lists every holder of every socket, once and in order, and nobody LX must not signal. */
  lemma PlanOwnersAreHolders(config: Config, localPort: nat, view: View, plan: Plan, pid: int)
    requires PlanOf(config, localPort, view) == Success(plan)
    ensures pid in plan.ownerPids
       <==> exists i :: 0 <= i < |plan.ports| && Resolver.Holds(view.procfs, pid, plan.ports[i].socket.inode)
    ensures pid in plan.ownerPids ==> pid > 1 && pid != config.selfPid
  {
    PlanIsPrepared(config, localPort, view);
    AllPortHolders(config, view, plan.ports);
    OwnersByHolding(plan, pid, (inode: nat) => Resolver.Holds(view.procfs, pid, inode));
    if pid in plan.ownerPids { SignalableOwner(config, plan.ownerPids, pid); }
  }

  lemma OwnersByHolding(plan: Plan, pid: int, holds: nat -> bool)
    requires Prepared(plan)
    requires forall i :: 0 <= i < |plan.ports| ==>
               (pid in plan.ports[i].socket.ownerPids <==> holds(plan.ports[i].socket.inode))
    ensures pid in plan.ownerPids <==> exists i :: 0 <= i < |plan.ports| && holds(plan.ports[i].socket.inode)
  {
    assert pid in plan.ownerPids <==> pid in SetOf(plan.ownerPids);
  }

  lemma SignalableOwner(config: Config, pids: seq<int>, pid: int)
    requires AllSignalable(config, pids) && pid in pids
    ensures pid > 1 && pid != config.selfPid
  {
    var i :| 0 <= i < |pids| && pids[i] == pid;
    assert ValidateSignalTarget(config, pids[i]).Success?;
  }

  /** A snapshot yields a plan exactly when it found sockets, procfs could be listed, every socket has a holder, and
      every holder may be signalled. */
  lemma PlanSucceedsExactly(config: Config, localPort: nat, view: View)
    ensures PlanOf(config, localPort, view).Success?
       <==> && localPort != 0 && view.sockets.Ok? && view.sockets.value != [] && view.procfs.Opened?
            && forall i :: 0 <= i < |view.sockets.value| ==> Releasable(config, view, view.sockets.value[i].inode)
  {
    if view.sockets.Ok? && Inspected(config, view).Success? {
      var ports := Inspected(config, view).value;
      PlanFromSucceeds(config, localPort, ports, Units(config, view));
      forall i | 0 <= i < |ports|
        ensures Releasable(config, view, view.sockets.value[i].inode) <==> Owned(config, ports[i])
      {
        assert ports[i].socket.inode == view.sockets.value[i].inode;
        InspectedAt(config, view, ports, i);
        OwnersReleasable(config, view, ports[i].socket.inode);
      }
      assert view.procfs.Unopened? && |ports| > 0 ==> view.sockets.value[0].inode == 0;
    }
  }

  predicate Owned(config: Config, port: PortInfo) {
    port.socket.ownerPids != [] && forall pid :: pid in port.socket.ownerPids ==> MaySignal(config, pid)
  }

  lemma PlanFromSucceeds(config: Config, localPort: nat, ports: seq<PortInfo>, unitOf: int -> Option<string>)
    ensures PlanFrom(config, localPort, ports, unitOf).Success?
       <==> ports != [] && forall i :: 0 <= i < |ports| ==> Owned(config, ports[i])
  {
    if ports != [] && !SomeUnowned(ports) {
      SortedOwnersSignalable(config, ports);
    }
  }

  lemma SortedOwnersSignalable(config: Config, ports: seq<PortInfo>)
    ensures AllSignalable(config, SortUnique(AllOwners(ports)))
       <==> forall i :: 0 <= i < |ports| ==> forall pid :: pid in ports[i].socket.ownerPids ==> MaySignal(config, pid)
  {
    AllOwnersMembers(ports);
    SortUniqueCorrect(AllOwners(ports));
    SignalableOwners(config, ports, SortUnique(AllOwners(ports)));
  }

  predicate MaySignal(config: Config, pid: int) { pid > 1 && pid != config.selfPid }

  /** The socket has holders, and LX may signal each of them. */
  ghost predicate Releasable(config: Config, view: View, inode: nat) {
    && inode != 0
    && (exists pid :: Resolver.Holds(view.procfs, pid, inode))
    && forall pid :: Resolver.Holds(view.procfs, pid, inode) ==> MaySignal(config, pid)
  }

  lemma OwnersReleasable(config: Config, view: View, inode: nat)
    ensures Releasable(config, view, inode)
       <==> Resolver.Owners(view.procfs, inode) != []
            && forall pid :: pid in Resolver.Owners(view.procfs, inode) ==> MaySignal(config, pid)
  {
    if inode != 0 { Resolver.OwnersAreHolders(view.procfs, inode); }
  }

  lemma SignalableOwners(config: Config, ports: seq<PortInfo>, pids: seq<int>)
    requires SetOf(pids) == Owners(ports)
    ensures AllSignalable(config, pids)
       <==> forall i :: 0 <= i < |ports| ==> forall pid :: pid in ports[i].socket.ownerPids ==> MaySignal(config, pid)
  {
    if AllSignalable(config, pids) {
      forall i, pid | 0 <= i < |ports| && pid in ports[i].socket.ownerPids ensures MaySignal(config, pid) {
        assert pid in Owners(ports);
        assert pid in SetOf(pids);
        var k :| 0 <= k < |pids| && pids[k] == pid;
        assert ValidateSignalTarget(config, pids[k]).Success?;
      }
    } else {
      var k :| 0 <= k < |pids| && ValidateSignalTarget(config, pids[k]).Failure?;
      assert pids[k] in SetOf(pids);
      var i :| 0 <= i < |ports| && pids[k] in ports[i].socket.ownerPids;
      assert !MaySignal(config, pids[k]);
    }
  }

  /** A unit is recommended exactly when every owner could be read and the service manager names that unit for each
      of them. A lookup that fails, for whatever reason, counts like having no unit. */
  lemma RecommendedExactly(config: Config, localPort: nat, view: View, plan: Plan, unit: string)
    requires PlanOf(config, localPort, view) == Success(plan)
    ensures plan.recommendedUnit == Some(unit)
       <==> config.processUnits
            && forall pid :: pid in plan.ownerPids ==> view.processes(pid).Ok? && view.units(pid) == Ok(Some(unit))
  {
    PlanIsPrepared(config, localPort, view);
    assert plan.ownerPids[0] in plan.ownerPids;
    forall pid | pid in plan.ownerPids ensures pid > 0 { PlanOwnersAreHolders(config, localPort, view, plan, pid); }
    var unitOf := Units(config, view);
    CommonUnitExactly(unitOf, plan.ownerPids, unit);
    assert forall pid :: unitOf(pid) == UnitOf(config, view, pid);
  }

  lemma CommonUnitExactly(unitOf: int -> Option<string>, pids: seq<int>, unit: string)
    requires pids != []
    ensures CommonUnit(unitOf, pids) == Some(unit) <==> forall pid :: pid in pids ==> unitOf(pid) == Some(unit)
  {
    assert pids[0] in pids;
    if forall pid :: pid in pids ==> unitOf(pid) == Some(unit) {
      assert forall i :: 0 <= i < |pids| ==> unitOf(pids[i]) == Some(unit);
    }
    if CommonUnit(unitOf, pids) == Some(unit) {
      forall pid | pid in pids ensures unitOf(pid) == Some(unit) {
        var i :| 0 <= i < |pids| && pids[i] == pid;
        assert unitOf(pids[i]) == unitOf(pids[0]);
      }
    }
  }

  /** What makes a snapshot count as "no socket on the port": an empty answer, or a provider that itself
      answers NotFound. The second and third disjuncts are not about the port at all. */
  ghost predicate LooksFree(localPort: nat, view: View) {
    && localPort != 0
    && match view.sockets
       case Err(code) => code == NotFound
       case Ok(sockets) => sockets == [] || (NeedsProcfs(sockets) && view.procfs == Resolver.Unopened(Resolver.Vanished))
  }

  lemma NotFoundExactly(config: Config, localPort: nat, view: View)
    ensures PlanOf(config, localPort, view) == Fail(NotFound) <==> LooksFree(localPort, view)
    ensures PlanOf(config, localPort, view).Failure? ==> !PlanOf(config, localPort, view).error.partial
  {
  }

  /** Nobody the scan could see holds the inode. */
  ghost predicate Unheld(view: View, inode: nat) {
    inode == 0 || forall pid :: !Resolver.Holds(view.procfs, pid, inode)
  }

  /** Why a snapshot yields no plan, in the order the reasons are looked for: a zero port, a failing query, a procfs that
      cannot be listed though a socket has an inode, no socket, a socket nobody holds, and otherwise a holder LX must not
      signal. */
  lemma PlanFailsExactly(config: Config, localPort: nat, view: View)
    requires PlanOf(config, localPort, view).Failure?
    ensures PlanOf(config, localPort, view) == Failure(Error(
              if localPort == 0 then InvalidArgument
              else if view.sockets.Err? then view.sockets.code
              else if view.procfs.Unopened? && exists s :: s in view.sockets.value && s.inode != 0 then
                match view.procfs.fault
                case Denied => PermissionDenied
                case Vanished => NotFound
                case Other => IoError
              else if view.sockets.value == [] then NotFound
              else if exists s :: s in view.sockets.value && Unheld(view, s.inode) then PermissionDenied
              else Conflict, false))
  {
    if localPort != 0 && view.sockets.Ok? {
      SomeInode(view.sockets.value);
      if Inspected(config, view).Success? {
        UnownedExactly(config, view, Inspected(config, view).value);
      }
    }
  }

  lemma SomeInode(sockets: seq<SocketInfo>)
    ensures NeedsProcfs(sockets) <==> exists s :: s in sockets && s.inode != 0
  {
    if s :| s in sockets && s.inode != 0 {
      var i :| 0 <= i < |sockets| && sockets[i] == s;
    }
  }

  lemma UnownedExactly(config: Config, view: View, ports: seq<PortInfo>)
    requires Inspected(config, view) == Success(ports)
    ensures SomeUnowned(ports) <==> exists s :: s in view.sockets.value && Unheld(view, s.inode)
  {
    var sockets := view.sockets.value;
    forall i | 0 <= i < |ports| ensures ports[i].socket.ownerPids == [] <==> Unheld(view, sockets[i].inode) {
      InspectedAt(config, view, ports, i);
      assert ports[i].socket.inode == sockets[i].inode;
      if sockets[i].inode != 0 { Resolver.OwnersAreHolders(view.procfs, sockets[i].inode); }
    }
    if s :| s in sockets && Unheld(view, s.inode) {
      var i :| 0 <= i < |sockets| && sockets[i] == s;
      assert ports[i].socket.ownerPids == [];
    }
  }

  /** A plan lists the sockets of its snapshot in the order they were reported, each with its holders and otherwise
      as reported. */
  lemma PlanShowsSockets(config: Config, localPort: nat, view: View, plan: Plan)
    requires PlanOf(config, localPort, view) == Success(plan)
    ensures view.sockets.Ok? && |plan.ports| == |view.sockets.value|
    ensures forall i :: 0 <= i < |plan.ports| ==>
              var (shown, reported) := (plan.ports[i].socket, view.sockets.value[i]);
              && shown.protocol == reported.protocol && shown.family == reported.family
              && shown.local == reported.local && shown.remote == reported.remote && shown.state == reported.state
              && shown.uid == reported.uid && shown.inode == reported.inode
    ensures forall i, pid :: 0 <= i < |plan.ports| ==>
              (pid in plan.ports[i].socket.ownerPids <==> Resolver.Holds(view.procfs, pid, view.sockets.value[i].inode))
  {
    PlanIsPrepared(config, localPort, view);
    AllPortHolders(config, view, plan.ports);
  }

  /** The owner records beside a socket are those of the holders that could be read, with the name read and the unit the
      service manager names, and nobody else's. */
  lemma RecordsExactly(config: Config, view: View, ports: seq<PortInfo>, i: nat, info: ProcessInfo)
    requires Inspected(config, view) == Success(ports) && i < |ports|
    ensures info in ports[i].owners
       <==> && info.pid in ports[i].socket.ownerPids && info.pid > 0
            && view.processes(info.pid) == Ok(info.name)
            && info.systemdUnit == if config.processUnits && view.units(info.pid).Ok?
                                   then view.units(info.pid).value else None
  {
    InspectedAt(config, view, ports, i);
    RecordsMembers(config, view, ports[i].socket.ownerPids);
  }
}
