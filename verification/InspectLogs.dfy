/** src/application/InspectService.cpp: the resource graph being filled, and the merge of recent logs. */
module InspectLogs {
  import opened Common
  import opened Ordering
  import opened Sockets
  import opened Lexical
  import opened Journal

  const LIMIT := 20

  // ----- merging one source -----

  predicate Duplicate(recent: seq<Entry>, entry: Entry) {
    entry.cursor != "" && exists i :: 0 <= i < |recent| && recent[i].cursor == entry.cursor
  }

  function AddEntry(recent: seq<Entry>, entry: Entry): seq<Entry> {
    if Duplicate(recent, entry) then recent else recent + [entry]
  }

  /** Appends what is not there yet, each entry seeing the ones before it. */
  function Merge(recent: seq<Entry>, logs: seq<Entry>): seq<Entry> {
    if logs == [] then recent
    else AddEntry(Merge(recent, logs[..|logs| - 1]), logs[|logs| - 1])
  }

  /** A source that could not be read contributes nothing. */
  function MergeReply(recent: seq<Entry>, logs: Reply<seq<Entry>>): seq<Entry> {
    match logs
    case Ok(entries) => Merge(recent, entries)
    case Err(_) => recent
  }

  predicate Older(a: Entry, b: Entry) { a.timestamp <= b.timestamp }

  function Finalize(recent: seq<Entry>): seq<Entry> {
    LastOf(Sort(Older, recent), LIMIT)
  }

  lemma OlderTotal()
    ensures TotalPreorder(Older)
  {
  }

  // ----- what the port branch collects -----

  function ProcessesOf(processes: seq<ProcessInfo>, owners: seq<ProcessInfo>): seq<ProcessInfo> {
    if owners == [] then processes
    else
      WithProcess(ProcessesOf(processes, owners[..|owners| - 1]), owners[|owners| - 1])
  }

  predicate Listed(processes: seq<ProcessInfo>, pid: int) {
    exists i :: 0 <= i < |processes| && processes[i].pid == pid
  }

  function WithProcess(processes: seq<ProcessInfo>, process: ProcessInfo): seq<ProcessInfo> {
    if Listed(processes, process.pid) then processes else processes + [process]
  }

  predicate Once(processes: seq<ProcessInfo>) {
    forall i, j :: 0 <= i < j < |processes| ==> processes[i].pid != processes[j].pid
  }

  ghost predicate AllListed(processes: seq<ProcessInfo>, owners: seq<ProcessInfo>) {
    forall p :: p in owners ==> Listed(processes, p.pid)
  }

  /** Each process appears once, and no owner is left out. */
  lemma {:induction false} ProcessesOnce(owners: seq<ProcessInfo>)
    ensures var all := ProcessesOf([], owners);
            Once(all) && (forall p :: p in all ==> p in owners) && AllListed(all, owners)
  {
    if owners != [] {
      var n := |owners| - 1;
      ProcessesOnce(owners[..n]);
      OneMoreProcess(ProcessesOf([], owners[..n]), owners[n]);
      LastOrBefore(owners);
    }
  }

  lemma LastOrBefore(owners: seq<ProcessInfo>)
    requires owners != []
    ensures forall p :: p in owners <==> p in owners[..|owners| - 1] || p == owners[|owners| - 1]
  {
    assert owners == owners[..|owners| - 1] + [owners[|owners| - 1]];
  }

  /** The record kept is that of the first mention. */
  lemma {:induction false} FirstMentionKept(owners: seq<ProcessInfo>, k: nat)
    requires k < |owners| && forall j :: 0 <= j < k ==> owners[j].pid != owners[k].pid
    ensures owners[k] in ProcessesOf([], owners)
  {
    var n := |owners| - 1;
    ProcessesOnce(owners[..n]);
    OneMoreProcess(ProcessesOf([], owners[..n]), owners[n]);
    if k < n {
      FirstMentionKept(owners[..n], k);
    } else {
      NotMentioned(ProcessesOf([], owners[..n]), owners[..n], owners[n].pid);
    }
  }

  lemma NotMentioned(processes: seq<ProcessInfo>, owners: seq<ProcessInfo>, pid: int)
    requires forall p :: p in processes ==> p in owners
    requires forall j :: 0 <= j < |owners| ==> owners[j].pid != pid
    ensures !Listed(processes, pid)
  {
    forall i | 0 <= i < |processes| ensures processes[i].pid != pid {
      assert processes[i] in owners;
    }
  }

  lemma OneMoreProcess(before: seq<ProcessInfo>, process: ProcessInfo)
    requires Once(before)
    ensures var all := WithProcess(before, process);
            && Once(all) && (forall p :: p in all ==> p in before || p == process)
            && (forall p :: p in before ==> p in all) && (!Listed(before, process.pid) ==> process in all)
            && (forall pid :: Listed(all, pid) <==> Listed(before, pid) || pid == process.pid)
  {
    var all := WithProcess(before, process);
    forall pid | Listed(before, pid) ensures Listed(all, pid) {
      var i :| 0 <= i < |before| && before[i].pid == pid;
      assert all[i] == before[i];
    }
    if !Listed(before, process.pid) { assert all[|before|] == process; }
  }

  function Owners(ports: seq<PortInfo>): seq<ProcessInfo> {
    if ports == [] then [] else Owners(ports[..|ports| - 1]) + ports[|ports| - 1].owners
  }

  function UnitsOf(owners: seq<ProcessInfo>): seq<string> {
    if owners == [] then []
    else
      var last := owners[|owners| - 1];
      UnitsOf(owners[..|owners| - 1]) + if last.systemdUnit.Some? then [last.systemdUnit.value] else []
  }

  function UnmanagedOf(owners: seq<ProcessInfo>): seq<int> {
    if owners == [] then []
    else
      var last := owners[|owners| - 1];
      UnmanagedOf(owners[..|owners| - 1]) + if last.systemdUnit.None? then [last.pid] else []
  }

  lemma OneMoreOwner(before: seq<ProcessInfo>, owners: seq<ProcessInfo>, j: nat)
    requires j < |owners|
    ensures var soFar, more := before + owners[..j], before + owners[..j + 1];
            && ProcessesOf([], more) == WithProcess(ProcessesOf([], soFar), owners[j])
            && UnitsOf(more) == UnitsOf(soFar) + (if owners[j].systemdUnit.Some? then [owners[j].systemdUnit.value] else [])
            && UnmanagedOf(more) == UnmanagedOf(soFar) + (if owners[j].systemdUnit.None? then [owners[j].pid] else [])
  {
    var more := before + owners[..j + 1];
    assert more[..|more| - 1] == before + owners[..j];
  }

  /** The sources of the port's logs: one per unit, then one per owner without a unit, each in ascending order. */
  datatype Source = Unit(name: string) | Process(pid: int)

  function Sources(owners: seq<ProcessInfo>): seq<Source> {
    SourceList(Unique(Sort(StringLe, UnitsOf(owners))), SortUnique(UnmanagedOf(owners)))
  }

  predicate SourceBefore(a: Source, b: Source) {
    match (a, b)
    case (Unit(_), Process(_)) => true
    case (Process(_), Unit(_)) => false
    case (Unit(x), Unit(y)) => StringLe(x, y) && x != y
    case (Process(x), Process(y)) => x < y
  }

  /** The sources are the units of the owners and the owners without one, each once, units first and both ascending. */
  lemma SourcesExactly(owners: seq<ProcessInfo>)
    ensures var sources := Sources(owners);
            && (forall name :: Unit(name) in sources <==> exists p :: p in owners && p.systemdUnit == Some(name))
            && (forall pid :: Process(pid) in sources
                              <==> exists p :: p in owners && p.pid == pid && p.systemdUnit.None?)
            && (forall i, j :: 0 <= i < j < |sources| ==> SourceBefore(sources[i], sources[j]))
  {
    OwnersSplit(owners);
    StringOrder();
    SortThenUnique(StringLe, UnitsOf(owners));
    SortThenUnique(IntLe, UnmanagedOf(owners));
    SourcesListed(Unique(Sort(StringLe, UnitsOf(owners))), SortUnique(UnmanagedOf(owners)));
  }

  function SourceList(units: seq<string>, pids: seq<int>): seq<Source> {
    seq(|units|, i requires 0 <= i < |units| => Unit(units[i])) + seq(|pids|, i requires 0 <= i < |pids| => Process(pids[i]))
  }

  lemma SourcesListed(units: seq<string>, pids: seq<int>)
    requires Ascending(StringLe, units) && Ascending(IntLe, pids)
    ensures var sources := SourceList(units, pids);
            && (forall name :: Unit(name) in sources <==> name in units)
            && (forall pid :: Process(pid) in sources <==> pid in pids)
            && (forall i, j :: 0 <= i < j < |sources| ==> SourceBefore(sources[i], sources[j]))
  {
    var sources := SourceList(units, pids);
    forall name | name in units ensures Unit(name) in sources {
      var i :| 0 <= i < |units| && units[i] == name;
      assert sources[i] == Unit(name);
    }
    forall pid | pid in pids ensures Process(pid) in sources {
      var i :| 0 <= i < |pids| && pids[i] == pid;
      assert sources[|units| + i] == Process(pid);
    }
    forall i, j | 0 <= i < j < |sources| ensures SourceBefore(sources[i], sources[j]) {
      if i < |units| {
        if j < |units| { assert StringLe(units[i], units[j]); }
      } else {
        assert IntLe(pids[i - |units|], pids[j - |units|]);
      }
    }
  }

  lemma {:induction false} OwnersSplit(owners: seq<ProcessInfo>)
    ensures forall name :: name in UnitsOf(owners) <==> exists p :: p in owners && p.systemdUnit == Some(name)
    ensures forall pid :: pid in UnmanagedOf(owners) <==> exists p :: p in owners && p.pid == pid && p.systemdUnit.None?
  {
    if owners != [] {
      var n := |owners| - 1;
      OwnersSplit(owners[..n]);
      assert owners == owners[..n] + [owners[n]];
    }
  }

  function MergeSources(sources: seq<Source>, logsOf: Source -> Reply<seq<Entry>>): seq<Entry> {
    if sources == [] then []
    else MergeReply(MergeSources(sources[..|sources| - 1], logsOf), logsOf(sources[|sources| - 1]))
  }

  predicate Named(services: seq<Service>, unitName: string) {
    exists i :: 0 <= i < |services| && services[i].unitName == unitName
  }

  function WithService(services: seq<Service>, service: Service): seq<Service> {
    if Named(services, service.unitName) then services else services + [service]
  }

  /** The services of the unit sources that could be inspected. */
  function ServicesOf(sources: seq<Source>, serviceOf: string -> Reply<Service>): seq<Service> {
    if sources == [] then []
    else
      var before, last := ServicesOf(sources[..|sources| - 1], serviceOf), sources[|sources| - 1];
      if last.Unit? && serviceOf(last.name).Ok? then WithService(before, serviceOf(last.name).value) else before
  }

  /** One warning for every service or log that could not be read, in the order they were asked for. */
  function WarningsOf(sources: seq<Source>, serviceOf: string -> Reply<Service>, logsOf: Source -> Reply<seq<Entry>>)
    : seq<ErrorCode>
  {
    if sources == [] then []
    else
      var last := sources[|sources| - 1];
      WarningsOf(sources[..|sources| - 1], serviceOf, logsOf)
      + (if last.Unit? then CodesOf(serviceOf(last.name)) else []) + CodesOf(logsOf(last))
  }

  /** Each service is listed once, however many units resolve to it, and none that answered is left out. */
  lemma {:induction false} ServicesOnce(sources: seq<Source>, serviceOf: string -> Reply<Service>)
    ensures var all := ServicesOf(sources, serviceOf);
            && (forall i, j :: 0 <= i < j < |all| ==> all[i].unitName != all[j].unitName)
            && (forall s :: s in all ==> exists name :: Unit(name) in sources && serviceOf(name) == Ok(s))
            && (forall name :: Unit(name) in sources && serviceOf(name).Ok? ==> Named(all, serviceOf(name).value.unitName))
  {
    if sources != [] {
      var n := |sources| - 1;
      ServicesOnce(sources[..n], serviceOf);
      assert sources == sources[..n] + [sources[n]];
      var before, all := ServicesOf(sources[..n], serviceOf), ServicesOf(sources, serviceOf);
      forall name | Unit(name) in sources && serviceOf(name).Ok?
        ensures Named(all, serviceOf(name).value.unitName)
      {
        if Unit(name) in sources[..n] {
          var i :| 0 <= i < |before| && before[i].unitName == serviceOf(name).value.unitName;
          assert all[i] == before[i];
        } else if |all| > |before| {
          assert all[|before|] == serviceOf(name).value;
        }
      }
    }
  }

  // ----- the graph -----

  class ResourceGraph {
    var ports: seq<PortInfo>
    var processes: seq<ProcessInfo>
    var services: seq<Service>
    var recentLogs: seq<Entry>
    var warnings: seq<ErrorCode>

    constructor ()
      ensures ports == [] && processes == [] && services == [] && recentLogs == [] && warnings == []
    {
      ports, processes, services, recentLogs, warnings := [], [], [], [], [];
    }

    method AddProcess(process: ProcessInfo)
      modifies this`processes
      ensures processes == WithProcess(old(processes), process)
    {
      for i := 0 to |processes|
        invariant processes == old(processes)
        invariant forall k :: 0 <= k < i ==> processes[k].pid != process.pid
      {
        if processes[i].pid == process.pid {
          return;
        }
      }
      processes := processes + [process];
    }

    method AddService(service: Service)
      modifies this`services
      ensures services == WithService(old(services), service)
    {
      for i := 0 to |services|
        invariant services == old(services)
        invariant forall k :: 0 <= k < i ==> services[k].unitName != service.unitName
      {
        if services[i].unitName == service.unitName {
          return;
        }
      }
      services := services + [service];
    }

    /** `logs` is what reading at most twenty entries of one source answered. */
    method AddLogs(logs: Reply<seq<Entry>>)
      modifies this`recentLogs, this`warnings
      ensures recentLogs == MergeReply(old(recentLogs), logs)
      ensures warnings == old(warnings) + CodesOf(logs)
    {
      if logs.Err? {
        warnings := warnings + [logs.code];
        return;
      }
      var entries := logs.value;
      for i := 0 to |entries|
        invariant recentLogs == Merge(old(recentLogs), entries[..i]) && warnings == old(warnings)
      {
        assert entries[..i + 1][..i] == entries[..i];
        if entries[i].cursor != "" && exists k :: 0 <= k < |recentLogs| && recentLogs[k].cursor == entries[i].cursor {
          continue;
        }
        recentLogs := recentLogs + [entries[i]];
      }
      assert entries[..|entries|] == entries;
    }

    /** The owners of one port, after those in `before`. */
    method AddPortOwners(owners: seq<ProcessInfo>, units0: seq<string>, pids0: seq<int>, ghost before: seq<ProcessInfo>)
      returns (units: seq<string>, pids: seq<int>)
      requires processes == ProcessesOf([], before) && units0 == UnitsOf(before) && pids0 == UnmanagedOf(before)
      modifies this`processes
      ensures processes == ProcessesOf([], before + owners)
      ensures units == UnitsOf(before + owners) && pids == UnmanagedOf(before + owners)
    {
      units, pids := units0, pids0;
      assert before + owners[..0] == before;
      for j := 0 to |owners|
        invariant processes == ProcessesOf([], before + owners[..j])
        invariant units == UnitsOf(before + owners[..j]) && pids == UnmanagedOf(before + owners[..j])
      {
        OneMoreOwner(before, owners, j);
        AddProcess(owners[j]);
        if owners[j].systemdUnit.Some? { units := units + [owners[j].systemdUnit.value]; }
        else { pids := pids + [owners[j].pid]; }
      }
      assert owners[..|owners|] == owners;
    }

    method AddOwners(ports: seq<PortInfo>) returns (sources: seq<Source>)
      requires processes == []
      modifies this`processes
      ensures processes == ProcessesOf([], Owners(ports))
      ensures sources == Sources(Owners(ports))
    {
      var units: seq<string> := [];
      var pids: seq<int> := [];
      for i := 0 to |ports|
        invariant processes == ProcessesOf([], Owners(ports[..i]))
        invariant units == UnitsOf(Owners(ports[..i])) && pids == UnmanagedOf(Owners(ports[..i]))
      {
        units, pids := AddPortOwners(ports[i].owners, units, pids, Owners(ports[..i]));
        assert ports[..i + 1][..i] == ports[..i];
      }
      assert ports[..|ports|] == ports;
      sources := SourceList(Unique(Sort(StringLe, units)), SortUnique(pids));
    }

    method AddSource(source: Source, serviceOf: string -> Reply<Service>, logs: Reply<seq<Entry>>)
      modifies this`services, this`recentLogs, this`warnings
      ensures recentLogs == MergeReply(old(recentLogs), logs)
      ensures services == if source.Unit? && serviceOf(source.name).Ok?
                          then WithService(old(services), serviceOf(source.name).value) else old(services)
      ensures warnings == old(warnings) + (if source.Unit? then CodesOf(serviceOf(source.name)) else []) + CodesOf(logs)
    {
      if source.Unit? {
        var service := serviceOf(source.name);
        if service.Ok? { AddService(service.value); } else { warnings := warnings + [service.code]; }
      }
      AddLogs(logs);
    }

    method AddSources(sources: seq<Source>, serviceOf: string -> Reply<Service>, logsOf: Source -> Reply<seq<Entry>>)
      requires recentLogs == [] && services == [] && warnings == []
      modifies this`services, this`recentLogs, this`warnings
      ensures recentLogs == MergeSources(sources, logsOf)
      ensures services == ServicesOf(sources, serviceOf) && warnings == WarningsOf(sources, serviceOf, logsOf)
    {
      for i := 0 to |sources|
        invariant recentLogs == MergeSources(sources[..i], logsOf)
        invariant services == ServicesOf(sources[..i], serviceOf)
        invariant warnings == WarningsOf(sources[..i], serviceOf, logsOf)
      {
        assert sources[..i + 1][..i] == sources[..i];
        AddSource(sources[i], serviceOf, logsOf(sources[i]));
      }
      assert sources[..|sources|] == sources;
    }

    /** The port branch of inspect: owners, their services, and the logs of each service and unmanaged owner. */
    method InspectPort(found: Reply<seq<PortInfo>>, serviceOf: string -> Reply<Service>,
                       logsOf: Source -> Reply<seq<Entry>>)
      returns (r: Result<()>, ghost sources: seq<Source>)
      requires processes == [] && services == [] && recentLogs == [] && warnings == []
      modifies this
      ensures found.Err? ==> r == Fail(found.code)
      ensures found.Ok? ==> r == if found.value == [] then Fail(NotFound) else Success(())
      ensures r.Success? ==>
                && ports == found.value && processes == ProcessesOf([], Owners(found.value))
                && sources == Sources(Owners(found.value))
                && services == ServicesOf(sources, serviceOf) && warnings == WarningsOf(sources, serviceOf, logsOf)
                && recentLogs == Finalize(MergeSources(sources, logsOf))
    {
      sources := [];
      if found.Err? {
        return Fail(found.code), sources;
      }
      if found.value == [] {
        return Fail(NotFound), sources;
      }
      ports := found.value;
      var listed := AddOwners(found.value);
      ReadSources(listed, serviceOf, logsOf);
      sources := listed;
      r := Success(());
    }

    method ReadSources(sources: seq<Source>, serviceOf: string -> Reply<Service>, logsOf: Source -> Reply<seq<Entry>>)
      requires services == [] && recentLogs == [] && warnings == []
      modifies this`services, this`recentLogs, this`warnings
      ensures services == ServicesOf(sources, serviceOf) && warnings == WarningsOf(sources, serviceOf, logsOf)
      ensures recentLogs == Finalize(MergeSources(sources, logsOf))
    {
      AddSources(sources, serviceOf, logsOf);
      FinalizeLogs();
    }

    method FinalizeLogs()
      modifies this`recentLogs
      ensures recentLogs == Finalize(old(recentLogs))
    {
      recentLogs := Sort(Older, recentLogs);
      if |recentLogs| > LIMIT {
        recentLogs := recentLogs[|recentLogs| - LIMIT..];
      }
    }
  }

  // ----- truncating each source first is harmless -----

  function Truncated(log: seq<Entry>): seq<Entry> { LastOf(log, LIMIT) }

  /** What addLogs fetches is the newest twenty of a source's complete log. */
  lemma FetchedIsTruncated(log: seq<Entry>)
    ensures InitialBatch(LogQuery(None, LIMIT), log, |log|) == Truncated(log)
  {
    assert log[..|log|] == log;
  }

  function MergeAll(logs: seq<seq<Entry>>): seq<Entry> {
    if logs == [] then [] else Merge(MergeAll(logs[..|logs| - 1]), logs[|logs| - 1])
  }

  function MergeTruncated(logs: seq<seq<Entry>>): seq<Entry> {
    if logs == [] then [] else Merge(MergeTruncated(logs[..|logs| - 1]), Truncated(logs[|logs| - 1]))
  }

  /** Equal non-empty cursors mean equal entries. */
  ghost predicate Coherent(universe: set<Entry>) {
    forall x, y :: x in universe && y in universe && x.cursor == y.cursor != "" ==> x == y
  }

  ghost predicate Within(s: seq<Entry>, universe: set<Entry>) {
    forall i :: 0 <= i < |s| ==> s[i] in universe
  }

  ghost predicate DistinctCursors(s: seq<Entry>) {
    forall i, j :: 0 <= i < j < |s| && s[i].cursor != "" ==> s[i].cursor != s[j].cursor
  }

  /** A source: sorted by time, no cursor twice. Entries without a cursor may repeat. */
  ghost predicate IsLog(log: seq<Entry>, universe: set<Entry>) {
    Sorted(Older, log) && DistinctCursors(log) && Within(log, universe)
  }

  /** The entries at or after `time`. */
  function From(s: seq<Entry>, time: int): (r: seq<Entry>)
    ensures |r| <= |s|
  {
    if s == [] then []
    else From(s[..|s| - 1], time) + if s[|s| - 1].timestamp >= time then [s[|s| - 1]] else []
  }

  /** The entries of `logs` that are no duplicate of anything in `recent`. */
  function Unseen(recent: seq<Entry>, logs: seq<Entry>): seq<Entry> {
    if logs == [] then []
    else Unseen(recent, logs[..|logs| - 1]) + if Duplicate(recent, logs[|logs| - 1]) then [] else [logs[|logs| - 1]]
  }

  lemma {:induction false} FromConcat(a: seq<Entry>, b: seq<Entry>, time: int)
    ensures From(a + b, time) == From(a, time) + From(b, time)
  {
    if b == [] {
      assert a + b == a;
    } else {
      assert (a + b)[..|a + b| - 1] == a + b[..|b| - 1];
      FromConcat(a, b[..|b| - 1], time);
    }
  }

  lemma {:induction false} FromMembers(s: seq<Entry>, time: int)
    ensures forall e :: e in From(s, time) <==> e in s && e.timestamp >= time
  {
    if s != [] {
      FromMembers(s[..|s| - 1], time);
      assert s == s[..|s| - 1] + [s[|s| - 1]];
    }
  }

  lemma {:induction false} UnseenMembers(recent: seq<Entry>, s: seq<Entry>)
    ensures forall e :: e in Unseen(recent, s) <==> e in s && !Duplicate(recent, e)
  {
    if s != [] {
      UnseenMembers(recent, s[..|s| - 1]);
      assert s == s[..|s| - 1] + [s[|s| - 1]];
    }
  }

  /** With distinct cursors an entry can only repeat what was there before the source. */
  lemma {:induction false} MergeAppendsUnseen(recent: seq<Entry>, logs: seq<Entry>)
    requires DistinctCursors(logs)
    ensures Merge(recent, logs) == recent + Unseen(recent, logs)
  {
    if logs != [] {
      var n := |logs| - 1;
      var front := logs[..n];
      MergeAppendsUnseen(recent, front);
      forall k | 0 <= k < n && logs[n].cursor != "" ensures front[k].cursor != logs[n].cursor {
        assert logs[k].cursor != "" ==> logs[k].cursor != logs[n].cursor;
      }
      OnlyOldDuplicates(recent, front, logs[n]);
    }
  }

  lemma OnlyOldDuplicates(recent: seq<Entry>, front: seq<Entry>, e: Entry)
    requires forall k :: 0 <= k < |front| && e.cursor != "" ==> front[k].cursor != e.cursor
    ensures Duplicate(recent + Unseen(recent, front), e) <==> Duplicate(recent, e)
  {
    var merged := recent + Unseen(recent, front);
    UnseenMembers(recent, front);
    forall i | |recent| <= i < |merged| && e.cursor != "" ensures merged[i].cursor != e.cursor {
      assert merged[i] in Unseen(recent, front);
      assert merged[i] in front;
    }
    if Duplicate(recent, e) {
      var i :| 0 <= i < |recent| && recent[i].cursor == e.cursor;
      assert merged[i].cursor == e.cursor;
    }
    if Duplicate(merged, e) {
      var i :| 0 <= i < |merged| && merged[i].cursor == e.cursor;
      assert recent[i] == merged[i];
    }
  }

  lemma UnseenLast(recent: seq<Entry>, front: seq<Entry>, e: Entry)
    ensures Unseen(recent, front + [e]) == if Duplicate(recent, e) then Unseen(recent, front) else Unseen(recent, front) + [e]
  {
    assert (front + [e])[..|front|] == front;
    assert Unseen(recent, front) + [] == Unseen(recent, front);
  }

  lemma FromLast(front: seq<Entry>, e: Entry, time: int)
    ensures From(front + [e], time) == if e.timestamp >= time then From(front, time) + [e] else From(front, time)
  {
    assert (front + [e])[..|front|] == front;
    assert From(front, time) + [] == From(front, time);
  }

  /** Looking only at recent times commutes with dropping duplicates. */
  lemma {:induction false} FromUnseen(recent: seq<Entry>, logs: seq<Entry>, time: int, universe: set<Entry>)
    requires Coherent(universe) && Within(recent, universe) && Within(logs, universe)
    ensures From(Unseen(recent, logs), time) == Unseen(From(recent, time), From(logs, time))
  {
    if logs != [] {
      var n := |logs| - 1;
      FromUnseen(recent, logs[..n], time, universe);
      if logs[n].timestamp >= time { SameDuplicates(recent, logs[n], time, universe); }
      OneMoreUnseen(recent, logs[..n], logs[n], time);
      assert logs == logs[..n] + [logs[n]];
    }
  }

  lemma OneMoreUnseen(recent: seq<Entry>, front: seq<Entry>, e: Entry, time: int)
    requires From(Unseen(recent, front), time) == Unseen(From(recent, time), From(front, time))
    requires e.timestamp >= time ==> (Duplicate(recent, e) <==> Duplicate(From(recent, time), e))
    ensures From(Unseen(recent, front + [e]), time) == Unseen(From(recent, time), From(front + [e], time))
  {
    UnseenLast(recent, front, e);
    FromLast(front, e, time);
    if !Duplicate(recent, e) { FromLast(Unseen(recent, front), e, time); }
    if e.timestamp >= time { UnseenLast(From(recent, time), From(front, time), e); }
  }

  lemma SameDuplicates(recent: seq<Entry>, e: Entry, time: int, universe: set<Entry>)
    requires Coherent(universe) && Within(recent, universe) && e in universe && e.timestamp >= time
    ensures Duplicate(recent, e) <==> Duplicate(From(recent, time), e)
  {
    var late := From(recent, time);
    FromMembers(recent, time);
    if Duplicate(recent, e) {
      var i :| 0 <= i < |recent| && recent[i].cursor == e.cursor;
      assert recent[i] == e;
      assert e in late;
      var k :| 0 <= k < |late| && late[k] == e;
    }
    if Duplicate(late, e) {
      var k :| 0 <= k < |late| && late[k].cursor == e.cursor;
      assert late[k] in recent;
      var i :| 0 <= i < |recent| && recent[i] == late[k];
    }
  }

  // ----- counting -----

  /** Different entries that all occur in `b` are no more than `b` holds. */
  lemma {:induction false} Injection(a: seq<Entry>, b: seq<Entry>)
    requires forall i, j :: 0 <= i < j < |a| ==> a[i] != a[j]
    requires forall i :: 0 <= i < |a| ==> a[i] in b
    ensures |a| <= |b|
  {
    if a != [] {
      var n := |a| - 1;
      var k :| 0 <= k < |b| && b[k] == a[n];
      var rest := b[..k] + b[k + 1..];
      forall i | 0 <= i < n ensures a[..n][i] in rest {
        var j :| 0 <= j < |b| && b[j] == a[i];
        assert j != k;
        assert b[j] == if j < k then rest[j] else rest[j - 1];
      }
      Injection(a[..n], rest);
    }
  }

  /** The duplicates of `logs` number at most the entries of `recent`. */
  lemma MergedAtLeast(recent: seq<Entry>, logs: seq<Entry>, universe: set<Entry>)
    requires Coherent(universe) && Within(recent, universe) && Within(logs, universe) && DistinctCursors(logs)
    ensures |recent| + |Unseen(recent, logs)| >= |logs|
  {
    var seen := Seen(recent, logs);
    forall i | 0 <= i < |seen| ensures seen[i] in recent {
      assert seen[i] in logs && Duplicate(recent, seen[i]);
      var k :| 0 <= k < |recent| && recent[k].cursor == seen[i].cursor;
      var j :| 0 <= j < |logs| && logs[j] == seen[i];
      assert recent[k] in universe && logs[j] in universe;
    }
    Injection(seen, recent);
  }

  /** The entries of `logs` that Unseen leaves out. */
  lemma {:induction false} Seen(recent: seq<Entry>, logs: seq<Entry>) returns (seen: seq<Entry>)
    requires DistinctCursors(logs)
    ensures |seen| + |Unseen(recent, logs)| == |logs|
    ensures forall i :: 0 <= i < |seen| ==> seen[i] in logs && Duplicate(recent, seen[i])
    ensures forall i, j :: 0 <= i < j < |seen| ==> seen[i] != seen[j]
  {
    if logs == [] {
      seen := [];
    } else {
      var n := |logs| - 1;
      seen := Seen(recent, logs[..n]);
      forall i | 0 <= i < |seen| ensures seen[i] in logs && seen[i].cursor != logs[n].cursor {
        var k :| 0 <= k < n && logs[..n][k] == seen[i];
        assert logs[k] == seen[i];
      }
      if Duplicate(recent, logs[n]) { seen := seen + [logs[n]]; }
    }
  }

  lemma {:induction false} FromDistinct(s: seq<Entry>, time: int)
    requires DistinctCursors(s)
    ensures DistinctCursors(From(s, time))
  {
    if s != [] {
      var n := |s| - 1;
      FromDistinct(s[..n], time);
      FromMembers(s[..n], time);
      var front := From(s[..n], time);
      forall i | 0 <= i < |front| && front[i].cursor != "" ensures front[i].cursor != s[n].cursor {
        assert front[i] in s[..n];
        var k :| 0 <= k < n && s[..n][k] == front[i];
        assert s[k].cursor != s[n].cursor;
      }
    }
  }

  lemma FromWithin(s: seq<Entry>, time: int, universe: set<Entry>)
    requires Within(s, universe)
    ensures Within(From(s, time), universe)
  {
    FromMembers(s, time);
    forall i | 0 <= i < |From(s, time)| ensures From(s, time)[i] in universe {
      assert From(s, time)[i] in s;
    }
  }

  // ----- sorted logs -----

  lemma {:induction false} FromAll(s: seq<Entry>, time: int)
    requires forall i :: 0 <= i < |s| ==> s[i].timestamp >= time
    ensures From(s, time) == s
  {
    if s != [] { FromAll(s[..|s| - 1], time); }
  }

  lemma {:induction false} FromNone(s: seq<Entry>, time: int)
    requires forall i :: 0 <= i < |s| ==> s[i].timestamp < time
    ensures From(s, time) == []
  {
    if s != [] { FromNone(s[..|s| - 1], time); }
  }

  lemma FromSplit(s: seq<Entry>, cut: nat, time: int)
    requires cut <= |s|
    ensures From(s, time) == From(s[..cut], time) + From(s[cut..], time)
  {
    FromConcat(s[..cut], s[cut..], time);
    assert s[..cut] + s[cut..] == s;
  }

  lemma RecentFromEnd(s: seq<Entry>, time: int, k: nat)
    requires Sorted(Older, s) && |s| > k && s[|s| - 1 - k].timestamp >= time
    ensures |From(s, time)| > k
  {
    var cut := |s| - 1 - k;
    FromSplit(s, cut, time);
    AllRecent(s, cut, time);
  }

  lemma AllRecent(s: seq<Entry>, cut: nat, time: int)
    requires Sorted(Older, s) && cut < |s| && s[cut].timestamp >= time
    ensures From(s[cut..], time) == s[cut..]
  {
    var late := s[cut..];
    forall i | 0 <= i < |late| ensures late[i].timestamp >= time {
      assert late[i] == s[cut + i];
      if i > 0 { assert Older(s[cut], s[cut + i]); }
    }
    FromAll(late, time);
  }

  lemma NoneRecent(s: seq<Entry>, cut: nat, time: int)
    requires Sorted(Older, s) && 0 < cut <= |s| && s[cut - 1].timestamp < time
    ensures From(s[..cut], time) == []
  {
    var early := s[..cut];
    forall i | 0 <= i < |early| ensures early[i].timestamp < time {
      assert early[i] == s[i];
      if i < cut - 1 { assert Older(s[i], s[cut - 1]); }
    }
    FromNone(early, time);
  }

  lemma OldFromEnd(s: seq<Entry>, time: int, k: nat)
    requires Sorted(Older, s) && |s| > k && s[|s| - 1 - k].timestamp < time
    ensures |From(s, time)| <= k
  {
    FromSplit(s, |s| - k, time);
    NoneRecent(s, |s| - k, time);
  }

  /** In a sorted log more than k entries are recent exactly when the k-th from the end is. */
  lemma RankFromEnd(s: seq<Entry>, time: int, k: nat)
    requires Sorted(Older, s)
    ensures |From(s, time)| > k <==> |s| > k && s[|s| - 1 - k].timestamp >= time
  {
    if |s| > k {
      if s[|s| - 1 - k].timestamp >= time { RecentFromEnd(s, time, k); } else { OldFromEnd(s, time, k); }
    }
  }

  /** Truncation either keeps everything recent or keeps twenty recent entries. */
  lemma TruncationKeeps(log: seq<Entry>, time: int)
    requires Sorted(Older, log)
    ensures |From(log, time)| <= LIMIT ==> From(Truncated(log), time) == From(log, time)
    ensures |From(log, time)| > LIMIT ==> |From(Truncated(log), time)| == LIMIT
  {
    if |log| > LIMIT {
      var cut := |log| - LIMIT;
      RankFromEnd(log, time, LIMIT);
      FromSplit(log, cut, time);
      if log[cut - 1].timestamp >= time {
        assert Older(log[cut - 1], log[cut]);
        AllRecent(log, cut, time);
      } else {
        NoneRecent(log, cut, time);
      }
    }
  }

  // ----- the merges side by side -----

  /** Seen from any time on, the merges of truncated and complete logs agree, or both hold twenty entries. */
  ghost predicate Agree(a: seq<Entry>, b: seq<Entry>, time: int) {
    From(a, time) == From(b, time) || (|From(a, time)| >= LIMIT && |From(b, time)| >= LIMIT)
  }

  lemma MergeFrom(recent: seq<Entry>, logs: seq<Entry>, time: int, universe: set<Entry>)
    requires Coherent(universe) && Within(recent, universe) && Within(logs, universe) && DistinctCursors(logs)
    ensures From(Merge(recent, logs), time)
         == From(recent, time) + Unseen(From(recent, time), From(logs, time))
    ensures |From(Merge(recent, logs), time)| >= |From(recent, time)|
    ensures |From(Merge(recent, logs), time)| >= |From(logs, time)|
    ensures Within(Merge(recent, logs), universe)
  {
    MergeAppendsUnseen(recent, logs);
    FromConcat(recent, Unseen(recent, logs), time);
    FromUnseen(recent, logs, time, universe);
    FromWithin(recent, time, universe);
    FromWithin(logs, time, universe);
    FromDistinct(logs, time);
    MergedAtLeast(From(recent, time), From(logs, time), universe);
    UnseenMembers(recent, logs);
    forall i | 0 <= i < |Merge(recent, logs)| ensures Merge(recent, logs)[i] in universe {
      if i >= |recent| {
        assert Merge(recent, logs)[i] in Unseen(recent, logs);
        assert Merge(recent, logs)[i] in logs;
      }
    }
  }

  lemma TruncatedIsLog(log: seq<Entry>, universe: set<Entry>)
    requires IsLog(log, universe)
    ensures IsLog(Truncated(log), universe)
  {
  }

  lemma MergesStep(a: seq<Entry>, b: seq<Entry>, log: seq<Entry>, time: int, universe: set<Entry>)
    requires Coherent(universe) && IsLog(log, universe) && Within(a, universe) && Within(b, universe)
    requires Agree(a, b, time)
    ensures Agree(Merge(a, Truncated(log)), Merge(b, log), time)
  {
    TruncatedIsLog(log, universe);
    MergeFrom(a, Truncated(log), time, universe);
    MergeFrom(b, log, time, universe);
    TruncationKeeps(log, time);
  }

  lemma {:induction false} MergesAgree(logs: seq<seq<Entry>>, time: int, universe: set<Entry>)
    requires Coherent(universe) && forall i :: 0 <= i < |logs| ==> IsLog(logs[i], universe)
    ensures Within(MergeTruncated(logs), universe) && Within(MergeAll(logs), universe)
    ensures Agree(MergeTruncated(logs), MergeAll(logs), time)
  {
    if logs != [] {
      var n := |logs| - 1;
      MergesAgree(logs[..n], time, universe);
      MergesStep(MergeTruncated(logs[..n]), MergeAll(logs[..n]), logs[n], time, universe);
      TruncatedIsLog(logs[n], universe);
      MergeFrom(MergeTruncated(logs[..n]), Truncated(logs[n]), time, universe);
      MergeFrom(MergeAll(logs[..n]), logs[n], time, universe);
    }
  }

  // ----- sorting and cutting the merges -----

  lemma {:induction false} InsertFrom(x: Entry, s: seq<Entry>, time: int)
    ensures |From(Insert(Older, x, s), time)| == |From([x], time)| + |From(s, time)|
  {
    if s == [] || Older(x, s[0]) {
      FromConcat([x], s, time);
    } else {
      InsertFrom(x, s[1..], time);
      FromConcat([s[0]], Insert(Older, x, s[1..]), time);
      FromConcat([s[0]], s[1..], time);
      assert [s[0]] + s[1..] == s;
    }
  }

  lemma {:induction false} SortFrom(s: seq<Entry>, time: int)
    ensures |From(Sort(Older, s), time)| == |From(s, time)|
  {
    if s != [] {
      SortFrom(s[1..], time);
      InsertFrom(s[0], Sort(Older, s[1..]), time);
      FromConcat([s[0]], s[1..], time);
      assert [s[0]] + s[1..] == s;
    }
  }

  function Timestamps(s: seq<Entry>): (r: seq<nat>)
    ensures |r| == |s|
  {
    seq(|s|, i requires 0 <= i < |s| => s[i].timestamp)
  }

  ghost predicate CappedCountsAgree(a: seq<Entry>, b: seq<Entry>) {
    forall time :: |From(a, time)| == |From(b, time)| || (|From(a, time)| >= LIMIT && |From(b, time)| >= LIMIT)
  }

  /** Sorted logs with the same capped counts of recent entries end in the same times. */
  lemma SameEnds(a: seq<Entry>, b: seq<Entry>, k: nat)
    requires Sorted(Older, a) && Sorted(Older, b) && k < LIMIT
    requires CappedCountsAgree(a, b)
    ensures |a| > k <==> |b| > k
    ensures |a| > k ==> a[|a| - 1 - k].timestamp == b[|b| - 1 - k].timestamp
  {
    RankFromEnd(a, 0, k);
    RankFromEnd(b, 0, k);
    if |a| > k && |b| > k {
      var x, y := a[|a| - 1 - k].timestamp, b[|b| - 1 - k].timestamp;
      RankFromEnd(a, x, k);
      RankFromEnd(b, x, k);
      RankFromEnd(a, y, k);
      RankFromEnd(b, y, k);
    }
  }

  lemma SameTail(a: seq<Entry>, b: seq<Entry>)
    requires Sorted(Older, a) && Sorted(Older, b) && CappedCountsAgree(a, b)
    ensures Timestamps(LastOf(a, LIMIT)) == Timestamps(LastOf(b, LIMIT))
  {
    var x, y := LastOf(a, LIMIT), LastOf(b, LIMIT);
    if |a| > 0 { SameEnds(a, b, if |a| < LIMIT then |a| - 1 else LIMIT - 1); }
    if |b| > 0 { SameEnds(a, b, if |b| < LIMIT then |b| - 1 else LIMIT - 1); }
    assert |x| == |y|;
    forall i | 0 <= i < |x| ensures x[i].timestamp == y[i].timestamp {
      SameEnds(a, b, |x| - 1 - i);
      assert x[i] == a[|a| - |x| + i] && y[i] == b[|b| - |x| + i];
    }
  }

  /** Fetching only the newest twenty entries of each source shows the same times as merging the complete logs:
      whichever entries tie, the final list carries the very same sequence of timestamps. */
  lemma TruncationIsHarmless(logs: seq<seq<Entry>>, universe: set<Entry>)
    requires Coherent(universe) && forall i :: 0 <= i < |logs| ==> IsLog(logs[i], universe)
    ensures Timestamps(Finalize(MergeTruncated(logs))) == Timestamps(Finalize(MergeAll(logs)))
  {
    var a, b := MergeTruncated(logs), MergeAll(logs);
    OlderTotal();
    SortSorted(Older, a);
    SortSorted(Older, b);
    forall time: int
      ensures |From(Sort(Older, a), time)| == |From(Sort(Older, b), time)|
           || (|From(Sort(Older, a), time)| >= LIMIT && |From(Sort(Older, b), time)| >= LIMIT)
    {
      MergesAgree(logs, time, universe);
      SortFrom(a, time);
      SortFrom(b, time);
    }
    SameTail(Sort(Older, a), Sort(Older, b));
  }

  function Completes(sources: seq<Source>, complete: Source -> seq<Entry>): (logs: seq<seq<Entry>>)
    ensures |logs| == |sources|
  {
    seq(|sources|, i requires 0 <= i < |sources| => complete(sources[i]))
  }

  /** So a port's recent logs, each source answering what the journal's tail query yields for it, carry the times they
      would carry had every source been read in full. */
  lemma PortLogsAreComplete(sources: seq<Source>, logsOf: Source -> Reply<seq<Entry>>, complete: Source -> seq<Entry>,
                            universe: set<Entry>)
    requires Coherent(universe)
    requires forall s :: s in sources ==>
               IsLog(complete(s), universe) && logsOf(s) == Ok(InitialBatch(LogQuery(None, 20), complete(s), |complete(s)|))
    ensures Timestamps(Finalize(MergeSources(sources, logsOf)))
         == Timestamps(Finalize(MergeAll(Completes(sources, complete))))
  {
    forall s | s in sources ensures logsOf(s) == Ok(Truncated(complete(s))) {
      FetchedIsTruncated(complete(s));
    }
    FetchedMerge(sources, logsOf, complete);
    TruncationIsHarmless(Completes(sources, complete), universe);
  }

  lemma {:induction false} FetchedMerge(sources: seq<Source>, logsOf: Source -> Reply<seq<Entry>>,
                                        complete: Source -> seq<Entry>)
    requires forall s :: s in sources ==> logsOf(s) == Ok(Truncated(complete(s)))
    ensures MergeSources(sources, logsOf) == MergeTruncated(Completes(sources, complete))
  {
    if sources != [] {
      var n := |sources| - 1;
      FetchedMerge(sources[..n], logsOf, complete);
      assert Completes(sources, complete)[..n] == Completes(sources[..n], complete);
      assert sources[n] in sources;
    }
  }

  /** The final list is in time order; while nothing has to go, ties keep the order they were fetched in. */
  lemma FinalizedInOrder(recent: seq<Entry>, key: Entry)
    ensures forall i, j :: 0 <= i < j < |Finalize(recent)| ==> Finalize(recent)[i].timestamp <= Finalize(recent)[j].timestamp
    ensures |recent| <= 20 ==> Filter(Ties(Older, key), Finalize(recent)) == Filter(Ties(Older, key), recent)
    ensures forall e :: Ties(Older, key)(e) <==> e.timestamp == key.timestamp
  {
    OlderTotal();
    SortSorted(Older, recent);
    SortStable(Older, recent, key);
    assert Sorted(Older, Finalize(recent));
    forall i, j | 0 <= i < j < |Finalize(recent)| ensures Finalize(recent)[i].timestamp <= Finalize(recent)[j].timestamp {
      assert Older(Finalize(recent)[i], Finalize(recent)[j]);
    }
  }

  /** It is the merge without what exceeds twenty entries, and nothing it drops is newer than anything it keeps. */
  lemma FinalizedAreNewest(recent: seq<Entry>) returns (dropped: seq<Entry>)
    ensures multiset(dropped) + multiset(Finalize(recent)) == multiset(recent)
    ensures |Finalize(recent)| == if |recent| <= 20 then |recent| else 20
    ensures forall i, j :: 0 <= i < |dropped| && 0 <= j < |Finalize(recent)| ==>
              dropped[i].timestamp <= Finalize(recent)[j].timestamp
  {
    OlderTotal();
    SortSorted(Older, recent);
    var sorted := Sort(Older, recent);
    var cut := if |recent| <= LIMIT then 0 else |recent| - LIMIT;
    dropped := sorted[..cut];
    assert sorted == dropped + sorted[cut..];
    assert Finalize(recent) == sorted[cut..];
    forall i, j | 0 <= i < |dropped| && 0 <= j < |Finalize(recent)|
      ensures dropped[i].timestamp <= Finalize(recent)[j].timestamp
    {
      assert Older(sorted[i], sorted[cut + j]);
    }
  }

  // ----- what the merge holds -----

  ghost predicate Holds(entries: seq<Entry>, entry: Entry) {
    entry in entries || (entry.cursor != "" && exists e :: e in entries && e.cursor == entry.cursor)
  }

  lemma AddedOnce(recent: seq<Entry>, entry: Entry)
    requires DistinctCursors(recent)
    ensures DistinctCursors(AddEntry(recent, entry)) && recent <= AddEntry(recent, entry)
    ensures Holds(AddEntry(recent, entry), entry)
    ensures forall e :: e in AddEntry(recent, entry) ==> e in recent || e == entry
  {
    if Duplicate(recent, entry) {
      var i :| 0 <= i < |recent| && recent[i].cursor == entry.cursor;
      assert recent[i] in recent;
    }
  }

  lemma {:induction false} MergedOnce(recent: seq<Entry>, logs: seq<Entry>)
    requires DistinctCursors(recent)
    ensures DistinctCursors(Merge(recent, logs)) && recent <= Merge(recent, logs)
    ensures forall e :: e in logs ==> Holds(Merge(recent, logs), e)
    ensures forall e :: e in Merge(recent, logs) ==> e in recent || e in logs
  {
    if logs != [] {
      var n := |logs| - 1;
      MergedOnce(recent, logs[..n]);
      AddedOnce(Merge(recent, logs[..n]), logs[n]);
      assert logs == logs[..n] + [logs[n]];
    }
  }

  ghost predicate Answers(sources: seq<Source>, logsOf: Source -> Reply<seq<Entry>>, entry: Entry) {
    exists s :: s in sources && logsOf(s).Ok? && entry in logsOf(s).value
  }

  lemma {:induction false} MergesHold(sources: seq<Source>, logsOf: Source -> Reply<seq<Entry>>)
    ensures var merged := MergeSources(sources, logsOf);
            && DistinctCursors(merged)
            && (forall e :: e in merged ==> Answers(sources, logsOf, e))
            && (forall e :: Answers(sources, logsOf, e) ==> Holds(merged, e))
  {
    if sources != [] {
      var n := |sources| - 1;
      var (before, merged) := (MergeSources(sources[..n], logsOf), MergeSources(sources, logsOf));
      MergesHold(sources[..n], logsOf);
      assert sources == sources[..n] + [sources[n]];
      if logsOf(sources[n]).Ok? {
        MergedOnce(before, logsOf(sources[n]).value);
      }
      forall e | Answers(sources, logsOf, e) ensures Holds(merged, e) {
        if Answers(sources[..n], logsOf, e) { assert Holds(before, e); }
      }
      forall e | e in merged ensures Answers(sources, logsOf, e) {
        if e in before { assert Answers(sources[..n], logsOf, e); } else { assert sources[n] in sources; }
      }
    }
  }

  /** The merge holds what the sources that answered gave, and nothing else: no cursor appears twice, each entry of
      theirs is there itself or by an entry with its cursor, and a source that failed adds nothing. */
  lemma MergedExactly(sources: seq<Source>, logsOf: Source -> Reply<seq<Entry>>)
    ensures var merged := MergeSources(sources, logsOf);
            && (forall i, j :: 0 <= i < j < |merged| && merged[i].cursor != "" ==> merged[i].cursor != merged[j].cursor)
            && (forall e :: e in merged ==> Answers(sources, logsOf, e))
            && (forall e :: Answers(sources, logsOf, e) ==> Holds(merged, e))
  {
    MergesHold(sources, logsOf);
  }

  /** There is a warning for each failure and for nothing else. */
  lemma {:induction false} WarningsExactly(sources: seq<Source>, serviceOf: string -> Reply<Service>,
                                           logsOf: Source -> Reply<seq<Entry>>, code: ErrorCode)
    ensures code in WarningsOf(sources, serviceOf, logsOf)
       <==> exists s :: s in sources && (logsOf(s) == Err(code) || (s.Unit? && serviceOf(s.name) == Err(code)))
  {
    if sources != [] {
      var n := |sources| - 1;
      WarningsExactly(sources[..n], serviceOf, logsOf, code);
      assert sources == sources[..n] + [sources[n]];
      assert sources[n] in sources;
    }
  }

  /** The owners of the ports are those of each port. */
  lemma {:induction false} OwnersExactly(ports: seq<PortInfo>)
    ensures forall p :: p in Owners(ports) <==> exists port :: port in ports && p in port.owners
  {
    if ports != [] {
      var n := |ports| - 1;
      OwnersExactly(ports[..n]);
      assert ports == ports[..n] + [ports[n]];
    }
  }
}
