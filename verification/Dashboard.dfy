/** src/application/DashboardService.cpp: panels that survive failing sources, and a rate-limited one. */
module Dashboard {
  import opened Common
  import opened Sockets
  import opened Metrics

  datatype Row = Row(process: ProcessInfo, cpuPercent: Option<real>)

  /** What the sources answer to one refresh, and the monotonic clock (in milliseconds) it is given. `services` is
      only asked for when the refresh queries it. */
  datatype Answers = Answers(now: int, metrics: Reply<MetricsSnapshot>, processes: Reply<seq<Row>>,
                             ports: Reply<seq<PortInfo>>, services: Reply<seq<Service>>)

  datatype Snapshot = Snapshot(host: HostStatus, processes: seq<Row>, ports: seq<PortInfo>, services: seq<Service>,
                               hostStale: bool, processesStale: bool, portsStale: bool, servicesStale: bool,
                               warnings: seq<ErrorCode>)

  const BLANK := Snapshot(NO_HOST, [], [], [], false, false, false, false, [])

  const SERVICE_INTERVAL := 3000

  type History = seq<Answers>

  /** A row with the figure measured for its process, or with none. */
  function WithFigure(row: Row, figures: map<int, real>): Row {
    Row(row.process, if row.process.pid in figures then Some(figures[row.process.pid]) else None)
  }

  function WithFigures(rows: seq<Row>, figures: map<int, real>): (r: seq<Row>)
    ensures |r| == |rows|
  {
    seq(|rows|, i requires 0 <= i < |rows| => WithFigure(rows[i], figures))
  }

  /** attachCpu overwrites the figure of every row, also when there is none to show. */
  method AttachCpu(rows: seq<Row>, figures: map<int, real>) returns (r: seq<Row>)
    ensures r == WithFigures(rows, figures)
  {
    r := rows;
    for i := 0 to |rows|
      invariant |r| == |rows| && r[i..] == rows[i..]
      invariant forall k :: 0 <= k < i ==> r[k] == WithFigure(rows[k], figures)
    {
      assert r[i] == r[i..][0] == rows[i];
      if r[i].process.pid in figures {
        r := r[i := r[i].(cpuPercent := Some(figures[r[i].process.pid]))];
      } else {
        r := r[i := r[i].(cpuPercent := None)];
      }
    }
  }

  // ----- the reference: everything read off the history of answers -----

  datatype Source = TheMetrics | TheProcesses | ThePorts

  predicate Answered(answers: Answers, source: Source) {
    match source
    case TheMetrics => answers.metrics.Ok?
    case TheProcesses => answers.processes.Ok?
    case ThePorts => answers.ports.Ok?
  }

  /** The index of the last refresh at which a source answered. */
  function LastAnswered(h: History, source: Source): (k: Option<nat>)
    ensures k.Some? ==> k.value < |h| && Answered(h[k.value], source)
    ensures forall i :: 0 <= i < |h| && (k.Some? ==> i > k.value) ==> !Answered(h[i], source)
  {
    if h == [] then None
    else if Answered(h[|h| - 1], source) then Some(|h| - 1)
    else LastAnswered(h[..|h| - 1], source)
  }

  /** The two latest successful metrics samples compared; the first one is compared with itself. */
  function LatestView(h: History): Option<MetricsView> {
    match LastAnswered(h, TheMetrics)
    case None => None
    case Some(k) =>
      match LastAnswered(h[..k], TheMetrics)
      case None => Some(Compared(h[k].metrics.value, h[k].metrics.value))
      case Some(j) => Some(Compared(h[j].metrics.value, h[k].metrics.value))
  }

  function LastMetrics(h: History): Option<MetricsSnapshot> {
    match LastAnswered(h, TheMetrics)
    case None => None
    case Some(k) => Some(h[k].metrics.value)
  }

  function HostShown(h: History): HostStatus {
    match LatestView(h)
    case None => NO_HOST
    case Some(view) => view.host
  }

  /** The rows of the last listing, with CPU figures if the metrics answered at that same refresh. */
  function ProcessesShown(h: History): seq<Row> {
    match LastAnswered(h, TheProcesses)
    case None => []
    case Some(k) =>
      if h[k].metrics.Ok? then WithFigures(h[k].processes.value, LatestView(h[..k + 1]).value.processPercent)
      else h[k].processes.value
  }

  function PortsShown(h: History): seq<PortInfo> {
    match LastAnswered(h, ThePorts)
    case None => []
    case Some(k) => h[k].ports.value
  }

  /** The refresh, given by its index, at which the last successful service query was made. */
  function LastListed(h: History): (k: Option<nat>)
    ensures k.Some? ==> k.value < |h| && h[k.value].services.Ok?
    decreases |h|, 0
  {
    if h == [] then None
    else if Queries(h[..|h| - 1], h[|h| - 1].now) && h[|h| - 1].services.Ok? then Some(|h| - 1)
    else LastListed(h[..|h| - 1])
  }

  /** Whether a refresh at `now`, after `h`, queries the services. */
  predicate Queries(h: History, now: int)
    decreases |h|, 1
  {
    match LastListed(h)
    case None => true
    case Some(k) => now - h[k].now >= SERVICE_INTERVAL
  }

  predicate QueriedAt(h: History, i: nat)
    requires i < |h|
  {
    Queries(h[..i], h[i].now)
  }

  function ListedTime(h: History): Option<int> {
    match LastListed(h)
    case None => None
    case Some(k) => Some(h[k].now)
  }

  function ServicesShown(h: History): seq<Service> {
    match LastListed(h)
    case None => []
    case Some(k) => h[k].services.value
  }

  /** The last refresh that queried the services. */
  function LastQueried(h: History): (k: Option<nat>)
    ensures k.Some? ==> k.value < |h|
  {
    if h == [] then None
    else if Queries(h[..|h| - 1], h[|h| - 1].now) then Some(|h| - 1)
    else LastQueried(h[..|h| - 1])
  }

  /** Whether the last service query failed. */
  function ServicesStale(h: History): bool {
    match LastQueried(h)
    case None => false
    case Some(k) => h[k].services.Err?
  }

  function Shown(h: History): Snapshot {
    if h == [] then BLANK
    else
      var last := h[|h| - 1];
      Snapshot(HostShown(h), ProcessesShown(h), PortsShown(h), ServicesShown(h),
               last.metrics.Err?, last.processes.Err?, last.ports.Err?, ServicesStale(h),
               CodesOf(last.metrics) + CodesOf(last.processes) + CodesOf(last.ports)
               + if QueriedAt(h, |h| - 1) then CodesOf(last.services) else [])
  }

  // ----- the service -----

  class DashboardService {
    var previous: Option<Snapshot>
    var previousMetrics: Option<MetricsSnapshot>
    var servicesRefreshedAt: Option<int>

    /** The three remembered fields hold what the history of answers determines. */
    ghost predicate Remembers(h: History)
      reads this
    {
      && previous == (if h == [] then None else Some(Shown(h)))
      && previousMetrics == LastMetrics(h)
      && servicesRefreshedAt == ListedTime(h)
    }

    constructor ()
      ensures Remembers([])
    {
      previous, previousMetrics, servicesRefreshedAt := None, None, None;
    }

    method RefreshAt(answers: Answers, ghost h: History) returns (next: Snapshot)
      requires Remembers(h)
      modifies this
      ensures Remembers(h + [answers]) && next == Shown(h + [answers])
    {
      var start := if previous.Some? then previous.value else BLANK;
      start := start.(warnings := []);
      StartContinues(h);
      next := RefreshFrom(answers, start, h);
      previous := Some(next);
    }

    /** The sources, one after the other. */
    method RefreshFrom(answers: Answers, start: Snapshot, ghost h: History) returns (next: Snapshot)
      requires Continues(start, h) && previousMetrics == LastMetrics(h) && servicesRefreshedAt == ListedTime(h)
      modifies this`previousMetrics, this`servicesRefreshedAt
      ensures next == Shown(h + [answers])
      ensures previousMetrics == LastMetrics(h + [answers]) && servicesRefreshedAt == ListedTime(h + [answers])
    {
      var view;
      next, view := RefreshHost(answers, start, h);
      next := RefreshProcesses(answers, next, view, h);
      next := RefreshPorts(answers, next, h);
      next := RefreshServices(answers, next, h);
      ShownNext(h, answers);
    }

    method RefreshPorts(answers: Answers, before: Snapshot, ghost h: History) returns (next: Snapshot)
      requires before.ports == PortsShown(h)
      ensures next == before.(ports := PortsShown(h + [answers]), portsStale := answers.ports.Err?,
                              warnings := before.warnings + CodesOf(answers.ports))
    {
      ghost var g := h + [answers];
      assert g[..|h|] == h;
      if answers.ports.Ok? {
        next := before.(ports := answers.ports.value, portsStale := false, warnings := before.warnings + []);
      } else {
        next := before.(portsStale := true, warnings := before.warnings + [answers.ports.code]);
      }
    }

    method RefreshServices(answers: Answers, before: Snapshot, ghost h: History) returns (next: Snapshot)
      requires servicesRefreshedAt == ListedTime(h)
      requires before.services == ServicesShown(h) && before.servicesStale == ServicesStale(h)
      modifies this`servicesRefreshedAt
      ensures servicesRefreshedAt == ListedTime(h + [answers])
      ensures next == before.(services := ServicesShown(h + [answers]), servicesStale := ServicesStale(h + [answers]),
                              warnings := before.warnings + if Queries(h, answers.now) then CodesOf(answers.services) else [])
    {
      ghost var g := h + [answers];
      assert g[..|h|] == h;
      next := before.(warnings := before.warnings + []);
      ListedStep(h, answers);
      if servicesRefreshedAt.None? || answers.now - servicesRefreshedAt.value >= SERVICE_INTERVAL {
        if answers.services.Ok? {
          next := next.(services := answers.services.value, servicesStale := false);
          servicesRefreshedAt := Some(answers.now);
        } else {
          next := next.(servicesStale := true, warnings := before.warnings + [answers.services.code]);
        }
      }
    }

    method RefreshHost(answers: Answers, before: Snapshot, ghost h: History)
      returns (next: Snapshot, view: Option<MetricsView>)
      requires previousMetrics == LastMetrics(h)
      requires before.host == HostShown(h) && before.warnings == []
      modifies this`previousMetrics
      ensures var g := h + [answers];
              && previousMetrics == LastMetrics(g)
              && next == before.(host := HostShown(g), hostStale := answers.metrics.Err?,
                                 warnings := CodesOf(answers.metrics))
              && view == if answers.metrics.Ok? then LatestView(g) else None
    {
      ghost var g := h + [answers];
      assert g[..|h|] == h;
      next, view := before, None;
      if answers.metrics.Ok? {
        var compared := Compare(if previousMetrics.Some? then previousMetrics.value else answers.metrics.value,
                                answers.metrics.value);
        view := Some(compared);
        next := next.(host := compared.host, hostStale := false);
        previousMetrics := Some(answers.metrics.value);
      } else {
        next := next.(hostStale := true, warnings := next.warnings + [answers.metrics.code]);
        SameView(h, answers);
      }
    }

    method RefreshProcesses(answers: Answers, before: Snapshot, view: Option<MetricsView>, ghost h: History)
      returns (next: Snapshot)
      requires before.processes == ProcessesShown(h)
      requires view == if answers.metrics.Ok? then LatestView(h + [answers]) else None
      requires answers.metrics.Ok? ==> view.Some?
      ensures next == before.(processes := ProcessesShown(h + [answers]), processesStale := answers.processes.Err?,
                              warnings := before.warnings + CodesOf(answers.processes))
    {
      ghost var g := h + [answers];
      assert g[..|h|] == h && g[..|h| + 1] == g;
      next := before;
      if answers.processes.Ok? {
        var rows := answers.processes.value;
        if view.Some? { rows := AttachCpu(rows, view.value.processPercent); }
        next := next.(processes := rows, processesStale := false, warnings := next.warnings + []);
      } else {
        next := next.(processesStale := true, warnings := next.warnings + [answers.processes.code]);
        SameProcesses(h, answers);
      }
    }
  }

  /** What a refresh after `h` starts from. */
  predicate Continues(start: Snapshot, h: History) {
    && start.host == HostShown(h) && start.processes == ProcessesShown(h) && start.ports == PortsShown(h)
    && start.services == ServicesShown(h) && start.servicesStale == ServicesStale(h) && start.warnings == []
  }

  lemma StartContinues(h: History)
    ensures Continues((if h == [] then BLANK else Shown(h)).(warnings := []), h)
  {
  }

  lemma ShownNext(h: History, answers: Answers)
    ensures var g := h + [answers];
            Shown(g) == Snapshot(HostShown(g), ProcessesShown(g), PortsShown(g), ServicesShown(g), answers.metrics.Err?,
                                 answers.processes.Err?, answers.ports.Err?, ServicesStale(g),
                                 CodesOf(answers.metrics) + CodesOf(answers.processes) + CodesOf(answers.ports)
                                 + if Queries(h, answers.now) then CodesOf(answers.services) else [])
  {
    assert (h + [answers])[..|h|] == h;
  }

  lemma ListedStep(h: History, answers: Answers)
    ensures var listed := Queries(h, answers.now) && answers.services.Ok?;
            && ListedTime(h + [answers]) == (if listed then Some(answers.now) else ListedTime(h))
            && ServicesShown(h + [answers]) == (if listed then answers.services.value else ServicesShown(h))
            && ServicesStale(h + [answers]) == (if Queries(h, answers.now) then answers.services.Err? else ServicesStale(h))
  {
    var g := h + [answers];
    assert g[..|g| - 1] == h && g[|g| - 1] == answers;
    assert LastListed(h).Some? ==> g[LastListed(h).value] == h[LastListed(h).value];
    assert LastQueried(h).Some? ==> g[LastQueried(h).value] == h[LastQueried(h).value];
  }

  lemma SameView(h: History, answers: Answers)
    requires answers.metrics.Err?
    ensures LatestView(h + [answers]) == LatestView(h)
  {
    var g := h + [answers];
    assert g[..|h|] == h;
    match LastAnswered(h, TheMetrics)
    case None =>
    case Some(k) => assert g[..k] == h[..k];
  }

  lemma SameProcesses(h: History, answers: Answers)
    requires answers.processes.Err?
    ensures ProcessesShown(h + [answers]) == ProcessesShown(h)
  {
    var g := h + [answers];
    assert g[..|h|] == h;
    match LastAnswered(h, TheProcesses)
    case None =>
    case Some(k) => assert g[..k + 1] == h[..k + 1];
  }

  // ----- what holds over every history -----

  ghost predicate Monotone(h: History) {
    forall i, j :: 0 <= i < j < |h| ==> h[i].now <= h[j].now
  }

  ghost predicate ListedAt(h: History, i: nat)
    requires i < |h|
  {
    QueriedAt(h, i) && h[i].services.Ok?
  }

  /** The remembered time is that of the latest successful query. */
  lemma {:induction false} LastListedIsLatest(h: History)
    ensures LastListed(h).Some? ==> ListedAt(h, LastListed(h).value)
    ensures forall i :: 0 <= i < |h| && ListedAt(h, i) ==> LastListed(h).Some? && i <= LastListed(h).value
  {
    if h != [] {
      var n := |h| - 1;
      LastListedIsLatest(h[..n]);
      forall i | 0 <= i < n ensures QueriedAt(h, i) == QueriedAt(h[..n], i) {
        assert h[..n][..i] == h[..i];
      }
      forall i | 0 <= i < |h| && ListedAt(h, i) ensures LastListed(h).Some? && i <= LastListed(h).value {
        if i < n { assert ListedAt(h[..n], i); }
      }
    }
  }

  /** Successful service queries are at least three seconds apart. */
  lemma ListingsAreSpaced(h: History, i: nat, j: nat)
    requires Monotone(h) && i < j < |h| && ListedAt(h, i) && ListedAt(h, j)
    ensures h[j].now - h[i].now >= 3000
  {
    LastListedIsLatest(h[..j]);
    assert h[..j][..i] == h[..i];
    assert ListedAt(h[..j], i);
    var k := LastListed(h[..j]).value;
    assert i <= k < j;
  }

  /** A refresh queries the services exactly when three seconds have passed since every listing before it. */
  lemma QueriedExactly(h: History, i: nat)
    requires Monotone(h) && i < |h|
    ensures QueriedAt(h, i) <==> forall j :: 0 <= j < i && ListedAt(h, j) ==> h[i].now - h[j].now >= 3000
  {
    var front := h[..i];
    LastListedIsLatest(front);
    forall j | 0 <= j < i ensures ListedAt(front, j) <==> ListedAt(h, j) {
      assert front[..j] == h[..j];
    }
    if LastListed(front).Some? {
      assert ListedAt(h, LastListed(front).value);
    }
  }

  /** A failed service query is repeated by the very next refresh, however soon it comes. */
  lemma FailureIsRetried(h: History, i: nat)
    requires Monotone(h) && i + 1 < |h| && QueriedAt(h, i) && h[i].services.Err?
    ensures QueriedAt(h, i + 1)
  {
    assert h[..i + 1][..i] == h[..i];
    assert LastListed(h[..i + 1]) == LastListed(h[..i]);
    match LastListed(h[..i])
    case None =>
    case Some(k) => assert h[..i + 1][k] == h[..i][k];
  }

  /** The services panel's stale flag and listing only depend on the refreshes that queried: the flag says whether the
      last of those failed, the listing is that of the last of those that did not. */
  lemma {:induction false} ServicesPanel(h: History)
    ensures LastQueried(h).Some? ==> QueriedAt(h, LastQueried(h).value)
    ensures forall i :: 0 <= i < |h| && QueriedAt(h, i) ==> LastQueried(h).Some? && i <= LastQueried(h).value
    ensures Shown(h).servicesStale <==> LastQueried(h).Some? && h[LastQueried(h).value].services.Err?
    ensures Shown(h).services == match LastListed(h)
                                 case None => []
                                 case Some(k) => h[k].services.value
  {
    if h != [] {
      var n := |h| - 1;
      ServicesPanel(h[..n]);
      assert QueriedAt(h, n) <==> Queries(h[..n], h[n].now);
      forall i | 0 <= i < n ensures QueriedAt(h, i) == QueriedAt(h[..n], i) {
        assert h[..n][..i] == h[..i];
      }
    }
  }

  /** Host, process and port panels hold their source's last good answer, and are stale exactly when the last attempt
      failed. The host figures compare the two latest good samples. */
  lemma PanelsHoldLastSuccess(h: History, k: nat)
    requires h != [] && k < |h|
    ensures h[k].ports.Ok? && (forall i :: k < i < |h| ==> h[i].ports.Err?) ==> Shown(h).ports == h[k].ports.value
    ensures h[k].processes.Ok? && (forall i :: k < i < |h| ==> h[i].processes.Err?) ==>
              && |Shown(h).processes| == |h[k].processes.value|
              && forall r :: 0 <= r < |Shown(h).processes| ==>
                   Shown(h).processes[r].process == h[k].processes.value[r].process
    ensures Shown(h).portsStale == h[|h| - 1].ports.Err? && Shown(h).processesStale == h[|h| - 1].processes.Err?
    ensures Shown(h).hostStale == h[|h| - 1].metrics.Err?
  {
    if h[k].ports.Ok? && (forall i :: k < i < |h| ==> h[i].ports.Err?) {
      LastIs(h, ThePorts, k);
    }
    if h[k].processes.Ok? && (forall i :: k < i < |h| ==> h[i].processes.Err?) {
      LastIs(h, TheProcesses, k);
    }
  }

  /** A row shows a CPU figure measured at the refresh that listed it: the one for its pid, if there is one, from
      comparing that refresh's sample with the latest one before it. */
  lemma RowsShowTheirFigures(h: History, j: nat, k: nat, r: nat)
    requires j <= k < |h| && h[k].processes.Ok? && h[k].metrics.Ok? && r < |h[k].processes.value|
    requires forall i :: k < i < |h| ==> h[i].processes.Err?
    requires forall i :: 0 <= i < k && (j < i || j == k) ==> h[i].metrics.Err?
    requires h[j].metrics.Ok?
    ensures |Shown(h).processes| == |h[k].processes.value|
    ensures var (row, figures) := (Shown(h).processes[r], Compared(h[j].metrics.value, h[k].metrics.value).processPercent);
            && row.process == h[k].processes.value[r].process
            && (row.cpuPercent.Some? <==> row.process.pid in figures)
            && (row.cpuPercent.Some? ==> row.cpuPercent.value == figures[row.process.pid])
  {
    LastIs(h, TheProcesses, k);
    ViewAt(h[..k + 1], j, k);
  }

  lemma ViewAt(h: History, j: nat, k: nat)
    requires j <= k < |h| && h[k].metrics.Ok? && h[j].metrics.Ok?
    requires forall i :: 0 <= i < |h| && i > j && i != k ==> h[i].metrics.Err?
    requires j == k ==> forall i :: 0 <= i < k ==> h[i].metrics.Err?
    ensures LatestView(h) == Some(Compared(h[j].metrics.value, h[k].metrics.value))
  {
    LastIs(h, TheMetrics, k);
    if j < k { LastIs(h[..k], TheMetrics, j); } else { assert LastAnswered(h[..k], TheMetrics).None?; }
  }

  /** When the metrics failed at that refresh, the rows are shown as they were listed. */
  lemma RowsWithoutFigures(h: History, k: nat)
    requires k < |h| && h[k].processes.Ok? && h[k].metrics.Err?
    requires forall i :: k < i < |h| ==> h[i].processes.Err?
    ensures Shown(h).processes == h[k].processes.value
  {
    LastIs(h, TheProcesses, k);
  }

  /** The warnings are those of the last refresh alone: one for each source that failed it, the services only if they
      were asked. */
  lemma WarningsExactly(h: History)
    requires h != []
    ensures var last := h[|h| - 1];
            Shown(h).warnings
              == (if last.metrics.Err? then [last.metrics.code] else [])
                 + (if last.processes.Err? then [last.processes.code] else [])
                 + (if last.ports.Err? then [last.ports.code] else [])
                 + (if QueriedAt(h, |h| - 1) && last.services.Err? then [last.services.code] else [])
  {
  }

  lemma LastIs(h: History, source: Source, k: nat)
    requires k < |h| && Answered(h[k], source) && forall i :: k < i < |h| ==> !Answered(h[i], source)
    ensures LastAnswered(h, source) == Some(k)
  {
    var last := LastAnswered(h, source);
    assert last.Some?;
    assert !(last.value > k) && !(last.value < k);
  }

  /** The host figures compare the two latest successful samples. */
  lemma HostComparesLatestTwo(h: History, j: nat, k: nat)
    requires j < k < |h| && h[j].metrics.Ok? && h[k].metrics.Ok?
    requires forall i :: j < i < k || k < i < |h| ==> h[i].metrics.Err?
    ensures Shown(h).host == Compared(h[j].metrics.value, h[k].metrics.value).host
  {
    LastIs(h, TheMetrics, k);
    LastIs(h[..k], TheMetrics, j);
  }

  /** After exactly one good sample the host panel shows that one, compared with itself, for as long as it takes. */
  lemma FirstSampleIsHeld(h: History, k: nat)
    requires k < |h| && h[k].metrics.Ok? && forall i :: 0 <= i < |h| && i != k ==> h[i].metrics.Err?
    ensures Shown(h).host == Compared(h[k].metrics.value, h[k].metrics.value).host
    ensures Shown(h).host.cpuPercent == None
  {
    LastIs(h, TheMetrics, k);
    assert LastAnswered(h[..k], TheMetrics).None?;
    NothingPassed(h[k].metrics.value);
  }

  /** The panel of a source that never answered is blank, and stale from the first refresh on. */
  lemma NeverAnsweredIsBlank(h: History)
    requires h != []
    ensures (forall i :: 0 <= i < |h| ==> h[i].metrics.Err?) ==> Shown(h).host == NO_HOST && Shown(h).hostStale
    ensures (forall i :: 0 <= i < |h| ==> h[i].processes.Err?) ==> Shown(h).processes == [] && Shown(h).processesStale
    ensures (forall i :: 0 <= i < |h| ==> h[i].ports.Err?) ==> Shown(h).ports == [] && Shown(h).portsStale
    ensures (forall i :: 0 <= i < |h| ==> h[i].services.Err?) ==> Shown(h).services == [] && Shown(h).servicesStale
  {
    if forall i :: 0 <= i < |h| ==> h[i].services.Err? {
      ServicesPanel(h);
      assert LastListed(h).None?;
      FirstQueries(h);
    }
  }

  lemma FirstQueries(h: History)
    requires h != []
    ensures LastQueried(h).Some?
  {
    ServicesPanel(h);
    assert QueriedAt(h, 0);
  }
}
