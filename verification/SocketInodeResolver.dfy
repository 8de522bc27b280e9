/** src/linux/procfs/SocketInodeResolver.cpp: who owns which socket inode, found in one procfs scan. */
module SocketInodeResolver {
  import opened Common
  import opened Ordering
  import Decimal
  import SocketFdTarget

  /** How a failed directory or link read is classified. */
  datatype Fault = Denied | Vanished | Other

  /** The iterator reports `fault` when it moves on from entry number `after`. */
  datatype Break = Break(after: nat, fault: Fault)

  datatype Directory<+T> = Unopened(fault: Fault) | Opened(entries: seq<T>, broken: Option<Break>)

  datatype Link = Unreadable(fault: Fault) | Target(text: string)

  datatype ProcessEntry = ProcessEntry(name: string, descriptors: Directory<Link>)

  type ProcFs = Directory<ProcessEntry>

  type Ownership = map<nat, seq<int>>

  datatype Resolution = Resolution(ownership: Ownership, warnings: seq<ErrorCode>)

  function CodeOf(fault: Fault): ErrorCode {
    match fault
    case Denied => PermissionDenied
    case Vanished => NotFound
    case Other => IoError
  }

  function ParsePid(name: string): (pid: Option<nat>)
    ensures pid.Some? ==> 0 < pid.value <= MAX_INT32
  {
    match Decimal.ParseUnsigned(name, MAX_UINT64)
    case Some(value) => if value == 0 || value > MAX_INT32 then None else Some(value)
    case None => None
  }

  /** A directory name reads as a process exactly when it is a positive number that fits pid_t; leading zeros do not
      matter, and a printed pid reads back. */
  lemma ParsePidExactly(name: string, n: nat)
    ensures ParsePid(name) == Some(n) <==> Decimal.ParseUnsigned(name, 2147483647) == Some(n) && n != 0
    ensures ParsePid(Decimal.Print(n)) == if 0 < n <= 2147483647 then Some(n) else None
  {
    Decimal.ParseInvertsPrint(n, MAX_UINT64);
  }

  // ----- the reference: one walk of the tree per inode -----

  /** The entries an iteration reaches before it ends or breaks off. */
  function Visible<T>(dir: Directory<T>): seq<T> {
    match dir
    case Unopened(_) => []
    case Opened(entries, Some(b)) => if b.after < |entries| then entries[..b.after + 1] else entries
    case Opened(entries, None) => entries
  }

  predicate Names(link: Link, inode: nat) {
    link.Target? && SocketFdTarget.Parse(link.text) == Success(Some(inode))
  }

  /** `pid` once for every link that names `inode`. */
  function ScanLinks(links: seq<Link>, pid: int, inode: nat): seq<int> {
    if links == [] then []
    else
      var last := |links| - 1;
      ScanLinks(links[..last], pid, inode) + if Names(links[last], inode) then [pid] else []
  }

  function ScanProcess(process: ProcessEntry, inode: nat): seq<int> {
    match ParsePid(process.name)
    case Some(pid) => ScanLinks(Visible(process.descriptors), pid, inode)
    case None => []
  }

  function ScanProcesses(processes: seq<ProcessEntry>, inode: nat): seq<int> {
    if processes == [] then []
    else
      var last := |processes| - 1;
      ScanProcesses(processes[..last], inode) + ScanProcess(processes[last], inode)
  }

  /** Process `pid` has a descriptor, among those the scan could read, that names `inode`. */
  ghost predicate Holds(tree: ProcFs, pid: int, inode: nat) {
    exists process :: process in Visible(tree) && ParsePid(process.name) == Some(pid)
                      && HasLink(process, inode)
  }

  ghost predicate HasLink(process: ProcessEntry, inode: nat) {
    exists link :: link in Visible(process.descriptors) && Names(link, inode)
  }

  lemma {:induction false} ScanLinksMembers(links: seq<Link>, pid: int, inode: nat)
    ensures forall p :: p in ScanLinks(links, pid, inode)
                   <==> p == pid && exists link :: link in links && Names(link, inode)
  {
    if links != [] {
      var last := |links| - 1;
      ScanLinksMembers(links[..last], pid, inode);
      assert links == links[..last] + [links[last]];
    }
  }

  lemma {:induction false} ScanProcessesMembers(processes: seq<ProcessEntry>, inode: nat)
    ensures forall p :: p in ScanProcesses(processes, inode)
                   <==> exists process :: process in processes && ParsePid(process.name) == Some(p)
                                          && HasLink(process, inode)
  {
    if processes != [] {
      var last := |processes| - 1;
      ScanProcessesMembers(processes[..last], inode);
      assert processes == processes[..last] + [processes[last]];
      var process := processes[last];
      if ParsePid(process.name).Some? {
        ScanLinksMembers(Visible(process.descriptors), ParsePid(process.name).value, inode);
      }
    }
  }

  // ----- how many reads failed in a given way -----

  function One(yes: bool): nat { if yes then 1 else 0 }

  function BreakFaults<T>(dir: Directory<T>, fault: Fault): nat {
    One(dir.Opened? && dir.broken.Some? && dir.broken.value.after < |dir.entries| && dir.broken.value.fault == fault)
  }

  function LinkFaults(links: seq<Link>, fault: Fault): nat {
    if links == [] then 0
    else
      var last := |links| - 1;
      LinkFaults(links[..last], fault) + One(links[last] == Unreadable(fault))
  }

  function ProcessFaults(process: ProcessEntry, fault: Fault): nat {
    if ParsePid(process.name).None? then 0
    else if process.descriptors.Unopened? then One(process.descriptors.fault == fault)
    else BreakFaults(process.descriptors, fault) + LinkFaults(Visible(process.descriptors), fault)
  }

  function TreeFaults(processes: seq<ProcessEntry>, fault: Fault): nat {
    if processes == [] then 0
    else
      var last := |processes| - 1;
      TreeFaults(processes[..last], fault) + ProcessFaults(processes[last], fault)
  }

  /** An iteration that breaks off has reached the entry it stood on and those before it. */
  lemma VisibleExactly<T>(dir: Directory<T>)
    ensures dir.Unopened? ==> Visible(dir) == []
    ensures dir.Opened? ==> Visible(dir) <= dir.entries
    ensures dir.Opened? && dir.broken.None? ==> Visible(dir) == dir.entries
    ensures dir.Opened? && dir.broken.Some? ==>
              |Visible(dir)| == if dir.broken.value.after < |dir.entries| then dir.broken.value.after + 1 else |dir.entries|
  {
  }

  predicate BreaksWith<T>(dir: Directory<T>, fault: Fault) {
    dir.Opened? && dir.broken.Some? && dir.broken.value.after < |dir.entries| && dir.broken.value.fault == fault
  }

  /** Something of the process could not be read, and `fault` is why. Entries that are no process do not matter. */
  predicate Troubled(process: ProcessEntry, fault: Fault) {
    && ParsePid(process.name).Some?
    && (|| process.descriptors == Unopened(fault)
        || BreaksWith(process.descriptors, fault)
        || Unreadable(fault) in Visible(process.descriptors))
  }

  lemma {:induction false} LinkFaultsExactly(links: seq<Link>, fault: Fault)
    ensures LinkFaults(links, fault) > 0 <==> Unreadable(fault) in links
  {
    if links != [] {
      LinkFaultsExactly(links[..|links| - 1], fault);
      assert links == links[..|links| - 1] + [links[|links| - 1]];
    }
  }

  lemma {:induction false} TreeFaultsExactly(processes: seq<ProcessEntry>, fault: Fault)
    ensures TreeFaults(processes, fault) > 0 <==> exists process :: process in processes && Troubled(process, fault)
  {
    if processes != [] {
      var last := |processes| - 1;
      TreeFaultsExactly(processes[..last], fault);
      LinkFaultsExactly(Visible(processes[last].descriptors), fault);
      assert processes == processes[..last] + [processes[last]];
      assert processes[last] in processes;
    }
  }

  // ----- the single scan -----

  /** Where `inode` stands in the index when the walk for it alone has collected `raw`. */
  predicate Entry(ownership: Ownership, targets: set<nat>, inode: nat, raw: seq<int>) {
    if inode in targets && raw != [] then inode in ownership && ownership[inode] == raw
    else inode !in ownership
  }

  /** The index agrees, inode by inode, with the walks over `done` and then over some links of `pid`. */
  ghost predicate Indexes(ownership: Ownership, targets: set<nat>, done: seq<ProcessEntry>, links: seq<Link>, pid: int) {
    forall inode: nat :: Entry(ownership, targets, inode, ScanProcesses(done, inode) + ScanLinks(links, pid, inode))
  }

  /** What one link of process `pid` does to the index. */
  function Record(ownership: Ownership, targets: set<nat>, link: Link, pid: int): Ownership {
    match link
    case Unreadable(_) => ownership
    case Target(text) =>
      match SocketFdTarget.Parse(text)
      case Success(Some(inode)) =>
        if inode in targets then ownership[inode := (if inode in ownership then ownership[inode] else []) + [pid]]
        else ownership
      case _ => ownership
  }

  /** Appending `pid` under the inode a link names extends the walk for each inode by that link. */
  lemma RecordEntry(ownership: Ownership, targets: set<nat>, link: Link, pid: int, inode: nat, raw: seq<int>)
    requires Entry(ownership, targets, inode, raw)
    ensures Entry(Record(ownership, targets, link, pid), targets, inode, raw + if Names(link, inode) then [pid] else [])
  {
    assert raw + [] == raw;
  }

  lemma RecordLink(ownership: Ownership, targets: set<nat>, done: seq<ProcessEntry>, links: seq<Link>, link: Link, pid: int)
    requires Indexes(ownership, targets, done, links, pid)
    ensures Indexes(Record(ownership, targets, link, pid), targets, done, links + [link], pid)
  {
    var updated := Record(ownership, targets, link, pid);
    forall inode: nat
      ensures Entry(updated, targets, inode, ScanProcesses(done, inode) + ScanLinks(links + [link], pid, inode))
    {
      var before := ScanProcesses(done, inode) + ScanLinks(links, pid, inode);
      var named := if Names(link, inode) then [pid] else [];
      RecordEntry(ownership, targets, link, pid, inode, before);
      assert (links + [link])[..|links|] == links;
      assert ScanProcesses(done, inode) + (ScanLinks(links, pid, inode) + named) == before + named;
    }
  }

  /** A finished process joins the processes done. */
  lemma FinishProcess(ownership: Ownership, targets: set<nat>, done: seq<ProcessEntry>, process: ProcessEntry, pid: int)
    requires ParsePid(process.name) == Some(pid)
    requires Indexes(ownership, targets, done, Visible(process.descriptors), pid)
    ensures Indexes(ownership, targets, done + [process], [], 0)
  {
    forall inode: nat
      ensures Entry(ownership, targets, inode, ScanProcesses(done + [process], inode) + ScanLinks([], 0, inode))
    {
      assert (done + [process])[..|done|] == done;
      assert Entry(ownership, targets, inode,
                   ScanProcesses(done, inode) + ScanLinks(Visible(process.descriptors), pid, inode));
      assert ScanProcesses(done + [process], inode) + ScanLinks([], 0, inode) == ScanProcesses(done + [process], inode);
    }
  }

  /** An entry that is no process, or whose descriptors cannot be listed, adds nothing to any walk. */
  lemma SkipProcess(ownership: Ownership, targets: set<nat>, done: seq<ProcessEntry>, process: ProcessEntry, pid: int)
    requires ParsePid(process.name).None? || process.descriptors.Unopened?
    requires Indexes(ownership, targets, done, [], 0)
    ensures Indexes(ownership, targets, done + [process], [], pid)
    ensures Indexes(ownership, targets, done, [], pid)
  {
    forall inode: nat
      ensures Entry(ownership, targets, inode, ScanProcesses(done + [process], inode) + ScanLinks([], pid, inode))
    {
      assert (done + [process])[..|done|] == done;
      assert Entry(ownership, targets, inode, ScanProcesses(done, inode) + ScanLinks([], 0, inode));
      assert ScanProcess(process, inode) == [];
    }
    RestartLinks(ownership, targets, done, pid);
  }

  lemma RestartLinks(ownership: Ownership, targets: set<nat>, done: seq<ProcessEntry>, pid: int)
    requires Indexes(ownership, targets, done, [], 0)
    ensures Indexes(ownership, targets, done, [], pid)
  {
    forall inode: nat
      ensures Entry(ownership, targets, inode, ScanProcesses(done, inode) + ScanLinks([], pid, inode))
    {
      assert Entry(ownership, targets, inode, ScanProcesses(done, inode) + ScanLinks([], 0, inode));
    }
  }

  method ReadLink(link: Link, pid: int, targets: set<nat>, before: Ownership)
    returns (ownership: Ownership, denied: nat, unreadable: nat)
    ensures ownership == Record(before, targets, link, pid)
    ensures denied == One(link == Unreadable(Denied)) && unreadable == One(link == Unreadable(Other))
  {
    ownership, denied, unreadable := before, 0, 0;
    match link {
      case Unreadable(fault) =>
        if fault == Denied { denied := 1; }
        else if fault != Vanished { unreadable := 1; }
      case Target(text) =>
        var parsed := SocketFdTarget.Parse(text);
        if parsed.Success? && parsed.value.Some? && parsed.value.value in targets {
          var inode := parsed.value.value;
          ownership := ownership[inode := (if inode in ownership then ownership[inode] else []) + [pid]];
        }
    }
  }

  /** One turn of the inner loop: moves the iterator on, then reads the link it stood on. */
  method ScanAt(descriptors: Directory<Link>, at: nat, pid: int, targets: set<nat>, before: Ownership)
    returns (ownership: Ownership, next: nat, denied: nat, unreadable: nat)
    requires descriptors.Opened? && at < |Visible(descriptors)|
    ensures at < next <= |descriptors.entries|
    ensures next < |descriptors.entries| ==> next == at + 1 < |Visible(descriptors)|
    ensures next == |descriptors.entries| ==> |Visible(descriptors)| == at + 1
    ensures ownership == Record(before, targets, Visible(descriptors)[at], pid)
    ensures denied == One(Visible(descriptors)[at] == Unreadable(Denied))
                      + if next == |descriptors.entries| then BreakFaults(descriptors, Denied) else 0
    ensures unreadable == One(Visible(descriptors)[at] == Unreadable(Other))
                          + if next == |descriptors.entries| then BreakFaults(descriptors, Other) else 0
  {
    var link := descriptors.entries[at];
    next, denied, unreadable := Advance(descriptors, at);
    var d, u;
    ownership, d, u := ReadLink(link, pid, targets, before);
    denied, unreadable := denied + d, unreadable + u;
  }

  /** The inner loop, over the descriptors of one process. */
  method ScanAll(descriptors: Directory<Link>, pid: int, targets: set<nat>, before: Ownership,
                 ghost done: seq<ProcessEntry>)
    returns (ownership: Ownership, denied: nat, unreadable: nat)
    requires descriptors.Opened? && Indexes(before, targets, done, [], pid)
    ensures Indexes(ownership, targets, done, Visible(descriptors), pid)
    ensures denied == BreakFaults(descriptors, Denied) + LinkFaults(Visible(descriptors), Denied)
    ensures unreadable == BreakFaults(descriptors, Other) + LinkFaults(Visible(descriptors), Other)
  {
    ownership, denied, unreadable := before, 0, 0;
    ghost var visible := Visible(descriptors);
    var at := 0;
    ghost var seen := 0;
    while at < |descriptors.entries|
      invariant at <= |descriptors.entries|
      invariant if at < |descriptors.entries| then at == seen < |visible| else seen == |visible|
      invariant Indexes(ownership, targets, done, visible[..seen], pid)
      invariant denied == LinkFaults(visible[..seen], Denied)
                          + if at < |descriptors.entries| then 0 else BreakFaults(descriptors, Denied)
      invariant unreadable == LinkFaults(visible[..seen], Other)
                              + if at < |descriptors.entries| then 0 else BreakFaults(descriptors, Other)
      decreases |descriptors.entries| - at
    {
      OneMoreLink(visible, seen);
      RecordLink(ownership, targets, done, visible[..seen], visible[seen], pid);
      var d, u;
      ownership, at, d, u := ScanAt(descriptors, at, pid, targets, ownership);
      denied, unreadable := denied + d, unreadable + u;
      seen := seen + 1;
    }
    assert visible[..seen] == visible;
  }

  lemma OneMoreLink(links: seq<Link>, n: nat)
    requires n < |links|
    ensures links[..n + 1] == links[..n] + [links[n]]
    ensures forall fault :: LinkFaults(links[..n + 1], fault) == LinkFaults(links[..n], fault) + One(links[n] == Unreadable(fault))
  {
    assert links[..n + 1][..n] == links[..n];
  }

  method ScanDescriptors(process: ProcessEntry, pid: int, targets: set<nat>, before: Ownership,
                         ghost done: seq<ProcessEntry>)
    returns (ownership: Ownership, denied: nat, unreadable: nat)
    requires ParsePid(process.name) == Some(pid) && process.descriptors.Opened?
    requires Indexes(before, targets, done, [], 0)
    ensures Indexes(ownership, targets, done + [process], [], 0)
    ensures denied == ProcessFaults(process, Denied) && unreadable == ProcessFaults(process, Other)
  {
    RestartLinks(before, targets, done, pid);
    ownership, denied, unreadable := ScanAll(process.descriptors, pid, targets, before, done);
    FinishProcess(ownership, targets, done, process, pid);
  }

  /** Moves the iterator on from entry `at`; a failing move is counted and ends the iteration. */
  method Advance<T>(dir: Directory<T>, at: nat) returns (next: nat, denied: nat, unreadable: nat)
    requires dir.Opened? && at < |Visible(dir)|
    ensures at < next <= |dir.entries|
    ensures next < |dir.entries| ==> next == at + 1 < |Visible(dir)|
    ensures next == |dir.entries| ==> |Visible(dir)| == at + 1
    ensures denied == if next == |dir.entries| then BreakFaults(dir, Denied) else 0
    ensures unreadable == if next == |dir.entries| then BreakFaults(dir, Other) else 0
  {
    next, denied, unreadable := at + 1, 0, 0;
    if dir.broken.Some? && dir.broken.value.after == at {
      if dir.broken.value.fault == Denied { denied := 1; }
      else if dir.broken.value.fault != Vanished { unreadable := 1; }
      next := |dir.entries|;
    }
  }

  method ScanOne(process: ProcessEntry, targets: set<nat>, before: Ownership, ghost done: seq<ProcessEntry>)
    returns (ownership: Ownership, denied: nat, unreadable: nat)
    requires Indexes(before, targets, done, [], 0)
    ensures Indexes(ownership, targets, done + [process], [], 0)
    ensures denied == ProcessFaults(process, Denied) && unreadable == ProcessFaults(process, Other)
  {
    ownership, denied, unreadable := before, 0, 0;
    var pid := ParsePid(process.name);
    if pid.None? {
      SkipProcess(before, targets, done, process, 0);
    } else if process.descriptors.Unopened? {
      if process.descriptors.fault == Denied { denied := 1; }
      else if process.descriptors.fault != Vanished { unreadable := 1; }
      SkipProcess(before, targets, done, process, 0);
    } else {
      ownership, denied, unreadable := ScanDescriptors(process, pid.value, targets, before, done);
    }
  }

  method ScanTree(tree: ProcFs, targets: set<nat>) returns (ownership: Ownership, denied: nat, unreadable: nat)
    requires tree.Opened?
    ensures Indexes(ownership, targets, Visible(tree), [], 0)
    ensures denied == TreeFaults(Visible(tree), Denied) + BreakFaults(tree, Denied)
    ensures unreadable == TreeFaults(Visible(tree), Other) + BreakFaults(tree, Other)
  {
    ownership, denied, unreadable := map[], 0, 0;
    ghost var visible := Visible(tree);
    var at := 0;
    ghost var seen := 0;
    while at < |tree.entries|
      invariant at <= |tree.entries|
      invariant if at < |tree.entries| then at == seen < |visible| else seen == |visible|
      invariant Indexes(ownership, targets, visible[..seen], [], 0)
      invariant denied == TreeFaults(visible[..seen], Denied)
                          + if at < |tree.entries| then 0 else BreakFaults(tree, Denied)
      invariant unreadable == TreeFaults(visible[..seen], Other)
                              + if at < |tree.entries| then 0 else BreakFaults(tree, Other)
      decreases |tree.entries| - at
    {
      var process := tree.entries[at];
      var d, u;
      at, d, u := Advance(tree, at);
      denied, unreadable := denied + d, unreadable + u;
      assert visible[..seen + 1][..seen] == visible[..seen] && visible[seen] == process;
      assert visible[..seen] + [process] == visible[..seen + 1];
      ownership, d, u := ScanOne(process, targets, ownership, visible[..seen]);
      denied, unreadable := denied + d, unreadable + u;
      seen := seen + 1;
    }
    assert visible[..seen] == visible;
  }

  /** The non-zero inodes asked for. */
  method Targets(inodes: seq<nat>) returns (targets: set<nat>)
    ensures forall inode: nat :: inode in targets <==> inode in inodes && inode != 0
  {
    targets := {};
    for i := 0 to |inodes|
      invariant forall inode: nat :: inode in targets <==> inode in inodes[..i] && inode != 0
    {
      assert inodes[..i + 1] == inodes[..i] + [inodes[i]];
      if inodes[i] != 0 { targets := targets + {inodes[i]}; }
    }
    assert inodes[..|inodes|] == inodes;
  }

  method Resolve(tree: ProcFs, inodes: seq<nat>) returns (r: Result<Resolution>)
    ensures r.Failure? <==> tree.Unopened? && exists inode :: inode in inodes && inode != 0
    ensures r.Failure? ==> r.error == Error(CodeOf(tree.fault), false)
    ensures r.Success? ==> IsIndex(r.value.ownership, tree, inodes)
    ensures r.Success? ==> r.value.warnings == WarningsFor(tree, inodes)
  {
    var targets := Targets(inodes);
    if targets == {} {
      return Success(Resolution(map[], []));
    }
    ghost var wanted :| wanted in targets;
    if tree.Unopened? {
      return Fail(CodeOf(tree.fault));
    }

    var resolution := BuildIndex(tree, inodes, targets);
    r := Success(resolution);
  }

  method BuildIndex(tree: ProcFs, ghost inodes: seq<nat>, targets: set<nat>) returns (r: Resolution)
    requires tree.Opened?
    requires forall inode: nat :: inode in targets <==> inode in inodes && inode != 0
    ensures IsIndex(r.ownership, tree, inodes)
    ensures r.warnings == Warnings(TreeFaults(Visible(tree), Denied) + BreakFaults(tree, Denied),
                                   TreeFaults(Visible(tree), Other) + BreakFaults(tree, Other))
  {
    var ownership, denied, unreadable := ScanTree(tree, targets);
    IndexFromScan(ownership, tree, inodes, targets);
    r := Resolution(SortOwners(ownership), Warnings(denied, unreadable));
  }

  function Warnings(denied: nat, unreadable: nat): seq<ErrorCode> {
    (if denied != 0 then [PermissionDenied] else []) + if unreadable != 0 then [IoError] else []
  }

  /** The owner lists, each sorted and freed of repetitions. */
  function SortOwners(unsorted: Ownership): Ownership {
    map inode | inode in unsorted :: SortUnique(unsorted[inode])
  }

  ghost function WarningsFor(tree: ProcFs, inodes: seq<nat>): seq<ErrorCode> {
    if (forall inode :: inode in inodes ==> inode == 0) then []
    else Warnings(TreeFaults(Visible(tree), Denied) + BreakFaults(tree, Denied),
                  TreeFaults(Visible(tree), Other) + BreakFaults(tree, Other))
  }

  /** A resolution warns of denied access, and of other read failures, exactly when it met one; entries that vanished
      meanwhile pass without a word, and without a request nothing is read at all. */
  lemma WarningsExactly(tree: ProcFs, inodes: seq<nat>)
    ensures var asked := exists inode :: inode in inodes && inode != 0;
            var warnings := WarningsFor(tree, inodes);
            && (PermissionDenied in warnings <==> asked && (BreaksWith(tree, Denied) || SomeTroubled(tree, Denied)))
            && (IoError in warnings <==> asked && (BreaksWith(tree, Other) || SomeTroubled(tree, Other)))
            && |warnings| <= 2 && forall code :: code in warnings ==> code == PermissionDenied || code == IoError
  {
    TreeFaultsExactly(Visible(tree), Denied);
    TreeFaultsExactly(Visible(tree), Other);
  }

  ghost predicate SomeTroubled(tree: ProcFs, fault: Fault) {
    exists process :: process in Visible(tree) && Troubled(process, fault)
  }

  /** The finished index: each requested inode somebody holds, with its holders in strictly increasing order. */
  ghost predicate IsIndex(ownership: Ownership, tree: ProcFs, inodes: seq<nat>) {
    && (forall inode :: inode in ownership <==> inode in inodes && inode != 0 && exists pid :: Holds(tree, pid, inode))
    && (forall inode :: inode in ownership ==> Lists(ownership[inode], tree, inode))
  }

  ghost predicate Lists(owners: seq<int>, tree: ProcFs, inode: nat) {
    && StrictlyIncreasing(owners)
    && forall pid :: pid in owners <==> Holds(tree, pid, inode)
  }

  /** Sorting what the scan collected gives exactly the holders. */
  lemma IndexFromScan(unsorted: Ownership, tree: ProcFs, inodes: seq<nat>, targets: set<nat>)
    requires forall inode: nat :: inode in targets <==> inode in inodes && inode != 0
    requires Indexes(unsorted, targets, Visible(tree), [], 0)
    ensures IsIndex(SortOwners(unsorted), tree, inodes)
  {
    forall inode: nat
      ensures inode in unsorted <==> inode in inodes && inode != 0 && exists pid :: Holds(tree, pid, inode)
      ensures inode in unsorted ==> Lists(SortUnique(unsorted[inode]), tree, inode)
    {
      var raw := ScanProcesses(Visible(tree), inode);
      assert Entry(unsorted, targets, inode, raw + ScanLinks([], 0, inode));
      assert raw + ScanLinks([], 0, inode) == raw;
      if inode != 0 {
        OwnersAreHolders(tree, inode);
        SortUniqueCorrect(raw);
        assert raw != [] ==> raw[0] in SetOf(raw);
        assert Owners(tree, inode) != [] ==> Owners(tree, inode)[0] in SetOf(Owners(tree, inode));
      }
    }
  }

  /** The holders of one inode, found by a walk made for that inode alone. */
  function Owners(tree: ProcFs, inode: nat): seq<int> {
    if inode == 0 then [] else SortUnique(ScanProcesses(Visible(tree), inode))
  }

  lemma OwnersAreHolders(tree: ProcFs, inode: nat)
    requires inode != 0
    ensures Lists(Owners(tree, inode), tree, inode)
    ensures Owners(tree, inode) != [] <==> exists pid :: Holds(tree, pid, inode)
  {
    var raw := ScanProcesses(Visible(tree), inode);
    ScanProcessesMembers(Visible(tree), inode);
    SortUniqueCorrect(raw);
    forall pid ensures pid in Owners(tree, inode) <==> Holds(tree, pid, inode) {
      assert pid in SetOf(Owners(tree, inode)) <==> pid in SetOf(raw);
    }
    if Owners(tree, inode) != [] { assert Holds(tree, Owners(tree, inode)[0], inode); }
  }

  /** One scan for all inodes answers like one walk per inode: only tree and request decide the index. */
  lemma IndexAgreesWithWalks(index: Ownership, tree: ProcFs, inodes: seq<nat>)
    requires IsIndex(index, tree, inodes)
    ensures forall inode :: inode in index <==> inode in inodes && Owners(tree, inode) != []
    ensures forall inode :: inode in index ==> index[inode] == Owners(tree, inode)
  {
    forall inode: nat
      ensures inode in index <==> inode in inodes && Owners(tree, inode) != []
      ensures inode in index ==> index[inode] == Owners(tree, inode)
    {
      if inode != 0 {
        OwnersAreHolders(tree, inode);
        if inode in index {
          SameHolders(index[inode], Owners(tree, inode), tree, inode);
        }
      }
    }
  }

  lemma SameHolders(s: seq<int>, t: seq<int>, tree: ProcFs, inode: nat)
    requires Lists(s, tree, inode) && Lists(t, tree, inode)
    ensures s == t
  {
    forall pid ensures pid in SetOf(s) <==> pid in SetOf(t) {
      assert pid in s <==> pid in t;
    }
    StrictlyIncreasingUnique(s, t);
  }

  /** When no iteration breaks off, a holder is any process of the tree with a readable naming descriptor. */
  lemma UnbrokenHolders(tree: ProcFs, pid: int, inode: nat)
    requires tree.Opened? && tree.broken.None?
    requires forall process :: process in tree.entries ==> process.descriptors.Opened? ==> process.descriptors.broken.None?
    ensures Holds(tree, pid, inode)
       <==> exists process, link :: process in tree.entries && ParsePid(process.name) == Some(pid)
              && process.descriptors.Opened? && link in process.descriptors.entries && Names(link, inode)
  {
    if Holds(tree, pid, inode) {
      var process :| process in Visible(tree) && ParsePid(process.name) == Some(pid) && HasLink(process, inode);
      var link :| link in Visible(process.descriptors) && Names(link, inode);
      assert process.descriptors.Opened?;
    }
    if process, link :| (process in tree.entries && ParsePid(process.name) == Some(pid)
                         && process.descriptors.Opened? && link in process.descriptors.entries && Names(link, inode)) {
      assert HasLink(process, inode);
    }
  }
}
