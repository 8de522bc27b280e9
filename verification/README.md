# LX, verified

A Dafny model of the parts of LX (the Linux resource manager) in which several functions, or several snapshots of a
changing system, must fit together for a promise to hold, and proofs of those promises.

* **Releasing a port** (`PortTargets`, `PortPlan`, `PortPhases`, `PortSafety`, `PortFree`, `PortRuns`, `PortLog`, `PortDumps`). `lx port free`
  takes a snapshot, plans, asks, takes another snapshot, compares, signals every owner, waits, looks again, and
  escalates to SIGKILL, or stops the one service that owns the port. `World` answers every query arbitrarily, so every
  theorem holds whatever changes between two snapshots; it keeps a log of what LX did and a clock that never goes back.
  Each phase is a method proved against a predicate that says which runs it may have made, and the theorems are lemmas
  about all such runs.
* **Who holds a socket** (`SocketFdTarget`, `SocketInodeResolver`). One scan of procfs for many inodes.
* **INET_DIAG** (`InetDiagCodec`, `NetlinkSocketProvider`). The byte-level parser of Netlink datagrams, the multipart
  dump loop and the query over all family and protocol pairs.
* **The journal** (`Journal`, `InspectLogs`). Reading the end of a journal and following it while a writer appends, and
  merging the recent logs of several sources.
* **Sampling and background work** (`Dashboard`, `Metrics`, `TaskWorker`, `StatParser`, `SystemMetricsParser`).

`Common`, `Sockets`, `Ordering`, `Lexical`, `Decimal` and `Text` hold what these share: results, records, sorting and its
uniqueness, comparison, and decimal and field text.

Two things the code does differently from what a reader would expect, kept as they are:

* A release phase takes *any* NotFound, and any empty answer, for a free port. So it reports a held port released when
  the owner lookup answers NotFound because the procfs root is gone (`PortSafety.ReleasedWhileHeld`), and when the
  socket query succeeds without the one dump that would have shown the socket (`PortDumps.ReleasedWhileListening`).
  `PortDumps.ReleasedMeansNothingListens` is the exact
  condition under which the report is backed by its dumps: all of them completed and none showed a listener.
* After an empty initial batch, following a journal seeks to the tail, so entries appended between the query and the
  first move are never delivered. `Journal.NothingLostExactly` says exactly when that loses something, and
  `Journal.LosesAnEntry` is a follow that does.

`dafny verify dfyconfig.toml` checks the whole project.

## Model

| member | source | states |
|---|---|---|
| PortRuns.KillFollowsTerminate | src/cli/CliApp.cpp:976-999 | In every run of `port free`, whatever the snapshots show, each process sent SIGKILL was successfully sent SIGTERM by an earlier event of the same run |
| PortRuns.ForcedOwnersWereTerminated | src/cli/CliApp.cpp:998-999 | `force` is only ever given the remaining plan of `terminate`'s last snapshot; its owners are among the original ones, all of whom had been sent SIGTERM |
| PortRuns.ServiceRouteSendsNothing | src/cli/CliApp.cpp:946-969 | A run whose plan recommends a unit sends no signal at all |
| PortRuns.AtMostOneStop | src/cli/CliApp.cpp:946-969 | A run requests at most one service stop, and none unless the plan recommends a unit |
| PortRuns.ReleasedMeansFree | src/cli/CliApp.cpp:939-1010 | Whichever of the three routes reports the port released, its last snapshot looked free, and its socket query answered with no socket exactly when no provider answered NotFound on its own account |
| PortRuns.ReleasedOutcomeExactly | src/cli/CliApp.cpp:946-1010 | A run with a plan reports the port released exactly when its last snapshot looks free, and names the service, SIGKILL or SIGTERM by the route it took |
| PortRuns.NoPlanNoAct | src/cli/CliApp.cpp:940-944 | A run whose first snapshot yields no plan fails with that error and has done nothing but look once |
| PortDumps.ReleasedMeansNothingListens | src/application/PortService.cpp:186-194 | When a run reports the port released, every dump of its last snapshot completed and none showed a socket listening on the port, exactly when no provider answered NotFound on its own account and no dump failed |
| PortDumps.ReleasedOverNetlink | src/application/PortService.cpp:186-194 | Over a Netlink socket, whose operations never answer NotFound, that condition comes down to the procfs root being there and no dump having failed |
| PortDumps.AskSockets | src/application/PortService.cpp:183-185 | The socket query of a snapshot: what it answers is tied to the dumps it made, it passes a failing open on, and it answers NotFound only if the socket does |
| PortDumps.EmptyAnswerExactly | src/linux/netlink/NetlinkSocketProvider.cpp:15-20 | A socket query answers with no socket and no warning exactly when all its dumps completed and none showed a listening socket of the port |
| PortDumps.ReleasedWhileListening | src/application/PortService.cpp:186-194 | Counterexample: the kernel reports a TCP listener on the port, that dump breaks off and the other three complete; the query succeeds and `terminate` reports the port released |
| PortRuns.ForceReleases | src/application/PortService.cpp:414-430 | `force` succeeds exactly when its last snapshot looked free; it has no other success |
| PortLog.ActsAreConfirmed | src/cli/CliApp.cpp:946-997 | Without `--yes`, in the log of every run a stop comes after a yes to the question whether to stop the service, each signal after a yes to the question whether to send SIGTERM, and each SIGKILL also after a yes to the question whether to use it |
| PortLog.QuestionsFitThePlan | src/cli/CliApp.cpp:946-997 | A run asks whether to stop a service only if its first plan recommends one, whether to send SIGTERM only if it does not, and whether to use SIGKILL only then and after every owner was sent SIGTERM |
| PortRuns.RouteExactly | src/cli/CliApp.cpp:946-1010 | Which calls a run makes and how it ends: asked first exactly without `--yes`, the service stopped exactly if there is one, force exactly after a terminate that succeeded without releasing the port and was not refused; cancelled exactly by a no, and failed exactly as its last call did |
| PortLog.CancelledExactly | src/cli/CliApp.cpp:947-997 | A run is cancelled exactly when its log holds a question answered with no; with `--yes` it holds no question |
| PortLog.ActsAreBacked | src/cli/CliApp.cpp:939-1010 | In the log of every run each signal and each stop is justified by the last snapshot before it: the process owns the port there and holds one of its sockets, and is neither LX nor process 1; the unit is the one recommended there, with ".service" added if it lacks that |
| PortLog.LooksAtThePort | src/application/PortService.cpp:250-431 | Every snapshot in the log of a run is of the port the command was given |
| PortLog.StopsTheRecommended | src/application/ServiceService.cpp:30-48 | When the service manager only names units that end in ".service", as SystemdServiceProvider.cpp:347-354 sees to, the unit stopped is the very one the plan shown to the user recommends |
| PortRuns.StubbornPort | src/cli/CliApp.cpp:976-1002 | From every snapshot that yields a plan for signals there is a run with `--yes` that escalates: if nothing changes and no call fails, every owner is sent SIGTERM and then SIGKILL and the run times out |
| PortRuns.HeldPort | src/application/PortService.cpp:174-248 | Such snapshots exist for every port |
| PortFree.FreePort | src/cli/CliApp.cpp:939-1010 | The command makes exactly the events of a run in `FreePhase`, in that order, from plan to outcome |
| PortLog.SignalsFollowThePlan | src/application/PortService.cpp:306-335 | The log of a call is one look at the port and then the sends, in the order of the plan's owners, each after one that succeeded, to processes that look shows as owners |
| PortSafety.SignalledInFullExactly | src/application/PortService.cpp:317-335 | For a plan from prepareRelease every owner is signalled exactly when the targets matched and no send failed; waiting and looking again only happen then |
| PortSafety.RefusedExactly | src/application/PortService.cpp:306-320 | A call whose fresh snapshot fails or shows other targets signals nobody: NotFound counts as released, changed targets are a conflict, any other error is passed on |
| PortSafety.ActedExactly | src/application/PortService.cpp:317-431 | Otherwise it ends with the code of the send or wait that failed, or looks again after one wait per owner: a failing look is passed on, somebody new is a conflict, and remaining owners are a timeout after SIGKILL and the remaining plan after SIGTERM; a success lists one delivery per owner with the signal sent |
| PortSafety.PartialExactly | src/application/PortService.cpp:326-330 | An error is marked as partially signalled exactly when somebody but not everybody was signalled |
| PortSafety.TargetsHoldThePort | src/application/PortService.cpp:317-335 | Every process signalled is an owner in the fresh snapshot: it holds a descriptor of one of the port's sockets there |
| PortSafety.WaitsFitTheGracePeriod | src/application/PortService.cpp:337-349 | If no wait overruns its own timeout, all waits of a call together take no longer than the grace period |
| PortSafety.WaitsGetTheTimeLeft | src/application/PortService.cpp:337-345 | Each wait is given exactly the whole milliseconds from the clock reading before it to the deadline, which lies a grace period after the waits began; none once that has passed |
| PortSafety.ReleasedExactly | src/application/PortService.cpp:353-358 | `terminate` and `force` report the port released exactly when their last snapshot looked free |
| PortSafety.ServiceReleasedExactly | src/application/PortService.cpp:260-289 | Stopping a service succeeds exactly when its last look found the port free, and then reports it released |
| PortSafety.FreeMeansNoSocket | src/application/PortService.cpp:126-130 | A snapshot whose query answered with no socket looks free, and one that looks free is such a snapshot exactly when neither provider answered NotFound on its own account |
| PortSafety.ReleasedWhileHeld | src/linux/procfs/SocketInodeResolver.cpp:79-84 | Counterexample: with a socket on the port and a vanished procfs root, `terminate` reports the port released |
| PortLog.StopIsRevalidated | src/application/PortService.cpp:260-277 | In the log a stop comes right after a look that shows the plan's targets and recommends the same unit; polling follows exactly the stops that succeed |
| PortSafety.NoStopExactly | src/application/PortService.cpp:250-277 | When a stop is requested at all: a unit and a service manager, a fresh snapshot with the same targets and the same unit, and a name that is a unit's; the error code for each of these that is missing, and for a stop that fails |
| PortSafety.PollsAreBounded | src/application/PortService.cpp:280-302 | The poll loop ends: at most gracePeriod / 25 ms + 2 polls |
| PortSafety.PollsEndExactly | src/application/PortService.cpp:280-303 | A timeout is reported only of a look that still shows original owners and ended no earlier than a grace period after the stop; all looks before the last lie within it, 25 ms apart, and show the same |
| PortSafety.ToleratedPollsShowOriginals | src/application/PortService.cpp:290-294 | Every poll that is not the last shows only original owners |
| PortPhases.PortService.SignalOwners | src/application/PortService.cpp:322-335 | The sends follow the owner list up to the first that does not succeed, and the result is what they amount to |
| PortPhases.PortService.WaitForOwners | src/application/PortService.cpp:337-349 | One wait per owner, in order, each with the time then left before the deadline, until one fails |
| PortPhases.PortService.Terminate | src/application/PortService.cpp:306-369 | Its events and result are those of a SIGTERM run in `SignalPhase` |
| PortPhases.PortService.Force | src/application/PortService.cpp:371-431 | Its events and result are those of a SIGKILL run in `SignalPhase` |
| PortPhases.PortService.PollUntilReleased | src/application/PortService.cpp:280-303 | Polls until the port is free, somebody new holds it, a query fails or the deadline has passed, sleeps 25 ms between two looks, and terminates |
| PortPhases.PortService.StopManagedService | src/application/PortService.cpp:250-304 | Its events and result are those of a run in `StopPhase` |
| PortPhases.NormalizeExactly | src/application/ServiceService.cpp:9-48 | A unit name passes exactly with 1 to 247 characters, each a letter, a digit or one of six marks; it gets ".service" unless it ends in it |
| PortTargets.IdentityOrder | src/application/PortService.cpp:24-39 | The tuple order of socket identities is total and antisymmetric |
| PortTargets.SortedIdentities | src/application/PortService.cpp:28-39 | The loop and sort yield the sorted list of the plan's identities |
| PortTargets.CompareTargets | src/application/PortService.cpp:41-45 | Comparing two plans decides `SameTargets` |
| PortTargets.SameTargetsExactly | src/application/PortService.cpp:41-45 | Two plans match exactly when they have the same multiset of socket identities, whatever the enumeration order |
| PortTargets.ReplacedPort | src/application/PortService.cpp:24-45 | Exchanging one port of a plan for another is noticed exactly when protocol, family, address, port, inode or owners differ |
| PortTargets.SameTargetsSameOwners | src/application/PortService.cpp:41-45 | Matching prepared plans have the very same owner list |
| PortTargets.IncludesExactly | src/application/PortService.cpp:63-66 | On strictly increasing lists `std::includes` decides set inclusion |
| PortTargets.RemainingTargetsBelongTo | src/application/PortService.cpp:47-71 | The loop decides `Remains` |
| PortTargets.RemainsExactly | src/application/PortService.cpp:47-71 | A later snapshot passes exactly when each of its sockets has the protocol, family, endpoint and inode of an original one and no owner that one had not |
| PortTargets.RemainingOwnersAreOriginal | src/application/PortService.cpp:47-71 | Whoever owns the port in a snapshot that passes owned it in the original plan |
| PortPlan.Inspect | src/application/PortService.cpp:111-172 | Joining through hash maps agrees with looking up every socket's owners and every owner afresh |
| PortPlan.PrepareRelease | src/application/PortService.cpp:174-248 | The plan of a snapshot, or the error in the source's order of checks |
| PortPlan.PlanIsPrepared | src/application/PortService.cpp:196-213 | A plan has a socket, an owner for each of its sockets, and the strictly increasing union of all owners, each of which may be signalled |
| PortPlan.PlanOwnersAreHolders | src/application/PortService.cpp:196-245 | A process is in the owner list exactly when it holds one of the plan's sockets; none is LX or process 1 |
| PortPlan.PlanSucceedsExactly | src/application/PortService.cpp:174-248 | A snapshot yields a plan exactly when it has sockets, procfs could be listed, each socket has a holder and every holder may be signalled |
| PortPlan.PlanFailsExactly | src/application/PortService.cpp:174-248 | The error of a snapshot without a plan: zero port, failing query, procfs that cannot be listed, no socket, a socket nobody holds, a holder that may not be signalled, in this order |
| PortPlan.PlanShowsSockets | src/application/PortService.cpp:111-172 | A plan lists the sockets of its snapshot in the order reported, each as reported and with exactly its holders |
| PortPlan.RecordsExactly | src/application/PortService.cpp:145-172 | The owner records beside a socket are those of the holders that could be read, with name and unit, and nobody else's |
| PortPlan.RecommendedExactly | src/application/PortService.cpp:215-238 | Unit u is recommended exactly when every owner could be read and the service manager named u for each of them; a failing lookup counts as having no unit |
| PortPlan.NotFoundExactly | src/application/PortService.cpp:186-194 | Planning answers NotFound exactly for snapshots that look free |
| SocketFdTarget.ParseExactly | src/linux/procfs/SocketFdTarget.cpp:8-32 | A link target names an inode exactly when it is "socket:[", a 64-bit decimal and "]"; it is no socket exactly when that prefix is missing, and malformed otherwise |
| SocketFdTarget.ParseInvertsPrint | src/linux/procfs/SocketFdTarget.cpp:8-32 | Reading inverts printing for every 64-bit inode; anything larger is refused |
| SocketInodeResolver.ParsePidExactly | src/linux/procfs/SocketInodeResolver.cpp:36-47 | A directory name reads as a process exactly when it is a positive decimal that fits pid_t, and a printed pid reads back |
| SocketInodeResolver.ScanTree | src/linux/procfs/SocketInodeResolver.cpp:86-137 | The nested loops leave, for each inode, exactly what a walk for that inode alone collects, and count every denied or unreadable entry |
| SocketInodeResolver.Resolve | src/linux/procfs/SocketInodeResolver.cpp:68-161 | The index holds each requested non-zero inode with its strictly increasing holders and no other key; it fails exactly when the root cannot be opened and something was asked for |
| SocketInodeResolver.WarningsExactly | src/linux/procfs/SocketInodeResolver.cpp:86-158 | There is a warning of denied access, or of other failures, exactly when something was asked for and a read met one; entries that vanished pass without a word |
| SocketInodeResolver.IndexAgreesWithWalks | src/linux/procfs/SocketInodeResolver.cpp:68-143 | One scan for all inodes answers like one naive walk per inode |
| SocketInodeResolver.OwnersAreHolders | src/linux/procfs/SocketInodeResolver.cpp:139-143 | Sorting and removing repetitions yields the holders, each once, in ascending order |
| SocketInodeResolver.UnbrokenHolders | src/linux/procfs/SocketInodeResolver.cpp:90-137 | When no iteration breaks off, the holders are all processes with a readable descriptor naming the inode |
| InetDiagCodec.RequestLayout | src/linux/netlink/InetDiagCodec.cpp:11-20 | The 72 bytes of a request, byte by byte: a dump of one family and protocol in the given states under the given sequence, of any address, with an all-ones cookie |
| InetDiagCodec.AlignExactly | src/linux/netlink/InetDiagCodec.cpp:55 | 32-bit alignment keeps a length exactly up to 0xFFFFFFFC and wraps to zero beyond, where the loop would not advance |
| InetDiagCodec.DecodeInvertsEncode | src/linux/netlink/InetDiagCodec.cpp:43-53 | A socket record reads back field by field, whatever attributes follow it |
| InetDiagCodec.MessageExactly | src/linux/netlink/InetDiagCodec.cpp:33-48 | A message is accepted exactly when it carries the sequence number and is an uninterrupted DONE, a whole ERROR of zero, or, no overrun, a whole record of an IPv4 or IPv6 socket; an interrupted dump, a kernel error, an overrun and a cut-off body fail |
| InetDiagCodec.CutOffFails | src/linux/netlink/InetDiagCodec.cpp:29-32 | A datagram whose next header is cut off, or states a length below a header or beyond the datagram, is refused; an empty one is accepted |
| InetDiagCodec.WireLayout | src/linux/netlink/InetDiagCodec.cpp:33-53 | Which bytes of an accepted message each field of its socket comes from |
| InetDiagCodec.NextMessage | src/linux/netlink/InetDiagCodec.cpp:29-55 | One turn of the loop stays inside the buffer, moves on by at least 16 bytes, and reads what the recursive parser reads there |
| InetDiagCodec.ParseInetDiagDatagram | src/linux/netlink/InetDiagCodec.cpp:27-58 | For every byte string up to 65536 bytes the loop terminates and agrees with the recursive parser |
| InetDiagCodec.SocketsFitTheDatagram | src/linux/netlink/InetDiagCodec.cpp:29-55 | Every socket reported takes up at least 88 bytes of the datagram |
| InetDiagCodec.ParseConcat | src/linux/netlink/InetDiagCodec.cpp:27-58 | Parsing an aligned concatenation combines the two parses |
| InetDiagCodec.MessageRoundTrip | src/linux/netlink/InetDiagCodec.cpp:31-54 | A well-formed message parses to what it means |
| InetDiagCodec.DatagramRoundTrip | src/linux/netlink/InetDiagCodec.cpp:27-58 | The aligned concatenation of any well-formed messages parses to their sockets, in order |
| InetDiagCodec.MeaningDone | src/linux/netlink/InetDiagCodec.cpp:35 | and is done exactly when one of them is DONE |
| InetDiagCodec.PartlyPaddedLast | src/linux/netlink/InetDiagCodec.cpp:55 | A last message without its full padding is accepted only if it ends exactly at the end of the buffer |
| InetDiagCodec.AcceptedIsOwn | src/linux/netlink/InetDiagCodec.cpp:33 | A datagram holding a message of another sequence number anywhere is not accepted |
| NetlinkSocketProvider.One | src/linux/netlink/NetlinkSocketProvider.cpp:8-13 | One dump sends its request and takes exactly the datagrams `Dump` takes |
| NetlinkSocketProvider.ReceiveDump | src/linux/netlink/NetlinkSocketProvider.cpp:11 | The receive loop terminates and agrees with the recursive `Dump` |
| NetlinkSocketProvider.DumpExactly | src/linux/netlink/NetlinkSocketProvider.cpp:11 | A dump succeeds after n datagrams exactly when all n are accepted and the last is the first to say DONE; it then holds their sockets, in order, and nothing else |
| NetlinkSocketProvider.DumpFailsExactly | src/linux/netlink/NetlinkSocketProvider.cpp:11 | A failed dump accepted every datagram but its last, none of them a DONE, and fails with the error of the last |
| NetlinkSocketProvider.DumpIsolated | src/linux/netlink/NetlinkSocketProvider.cpp:8-13 | Every message a successful dump used carries its own sequence number, so leftovers of an aborted dump never add a socket |
| NetlinkSocketProvider.Query | src/linux/netlink/NetlinkSocketProvider.cpp:15-20 | The query sends one request per attempt, byte for byte the one for that attempt's family and protocol, and attempts both families of every protocol asked for. It fails exactly when every attempt fails, with the last error; otherwise it is a sorted permutation of the filtered union with one warning per failed attempt. It never answers NotFound unless the socket does |
| NetlinkSocketProvider.AsksForAll | src/linux/netlink/NetlinkSocketProvider.cpp:9-17 | The requests of a query, for TCP listeners and all UDP states, TCP before UDP and IPv4 before IPv6, under sequence numbers from 1 |
| NetlinkSocketProvider.KeptExactly | src/linux/netlink/NetlinkSocketProvider.cpp:17 | Each further dump adds each of its sockets as often as reported, except those at another port than asked for and UDP sockets with a peer when only listeners are wanted; a failed dump adds one warning |
| NetlinkSocketProvider.InOrderExactly | src/linux/netlink/NetlinkSocketProvider.cpp:19 | The order is by port, then protocol, then family, then address text |
| Journal.QueryTail | src/linux/systemd/SystemdJournalProvider.cpp:151-185 | The backward scan returns the last `limit` entries there were when it found the end |
| Journal.QuerySince | src/linux/systemd/SystemdJournalProvider.cpp:187-233 | The sliding window ends as the last `limit` of the entries from the first one at or after the time; a time before the epoch is refused |
| Journal.BatchIsStretch | src/linux/systemd/SystemdJournalProvider.cpp:281-296 | Either way the batch is a contiguous stretch ending where the scan ended, of at most `limit` entries |
| Journal.BatchExactly | src/linux/systemd/SystemdJournalProvider.cpp:151-233 | and as long as the limit lets it be: back to the first entry, or to the first one at or after the time |
| Journal.PositionAfterInitial | src/linux/systemd/SystemdJournalProvider.cpp:242-269 | The handle ends on the batch's last entry, or at the tail after an empty batch |
| Journal.Query | src/linux/systemd/SystemdJournalProvider.cpp:281-296 | A zero limit is refused; otherwise the result is the initial batch for the end its scan found |
| Journal.DeliverBatch | src/linux/systemd/SystemdJournalProvider.cpp:324-333 | Hands out the whole batch unless the sink refuses an entry or the stop predicate, asked before each, says yes |
| Journal.Drain | src/linux/systemd/SystemdJournalProvider.cpp:337-352 | Delivers the entries ahead without gap or repeat until the end, an error or a stop |
| Journal.Round | src/linux/systemd/SystemdJournalProvider.cpp:334-361 | One round asks whether to stop, delivers everything written when it began, and then waits once |
| Journal.Follow | src/linux/systemd/SystemdJournalProvider.cpp:298-363 | With a writer appending at any moment, the sink receives one contiguous stretch of the journal, each entry once: from the start of a non-empty batch, or from where the first move after the seek lands. A follow of a legal query ends only by one failing journal call, one refusal of the sink or one yes of the stop predicate; short of the first two, it has handed out the batch and what was written behind it before it was asked to stop more often than it had delivered |
| Journal.EndsForOneReason | src/linux/systemd/SystemdJournalProvider.cpp:298-363 | The code a follow ends with is that of the one fault or the one refusal in the scripts, or Interrupted after a yes |
| Journal.HandsOutTheBatch | src/linux/systemd/SystemdJournalProvider.cpp:320-333 | With a journal left alone, a sink that accepts and a stop predicate that says no often enough, a follow hands out exactly the last `limit` entries and ends interrupted |
| Journal.BatchIsContinued | src/linux/systemd/SystemdJournalProvider.cpp:320-363 | After a non-empty batch nothing is lost: the sink gets a prefix of everything that starts with that batch |
| Journal.NothingLostExactly | src/linux/systemd/SystemdJournalProvider.cpp:245-250 | For every follow that starts with an empty batch, the sink gets a prefix of everything from the end the query saw exactly when nothing had been appended up to where the first move after the seek landed, or nothing was delivered; the entries in between are never delivered |
| Journal.LosesAnEntry | src/linux/systemd/SystemdJournalProvider.cpp:245-250 | Counterexample: one entry appended between query and seek and one before the first move; nothing fails and only the second is delivered |
| InspectLogs.ResourceGraph.AddProcess | src/application/InspectService.cpp:29-35 | Appends a process unless its pid is listed |
| InspectLogs.ResourceGraph.AddService | src/application/InspectService.cpp:37-45 | Appends a service unless its name is listed |
| InspectLogs.ResourceGraph.AddLogs | src/application/InspectService.cpp:47-67 | Merges one source's entries, or records a warning |
| InspectLogs.ResourceGraph.FinalizeLogs | src/application/InspectService.cpp:69-81 | Stable sort by time, then the last twenty |
| InspectLogs.ResourceGraph.InspectPort | src/application/InspectService.cpp:112-148 | The port branch: its errors, and the whole graph it fills otherwise |
| InspectLogs.ProcessesOnce | src/application/InspectService.cpp:29-35 | Every owner is listed once, and nobody else |
| InspectLogs.FirstMentionKept | src/application/InspectService.cpp:29-35 | with the record of its first mention |
| InspectLogs.ServicesOnce | src/application/InspectService.cpp:37-45 | Every service that answered is listed, each name once |
| InspectLogs.SourcesExactly | src/application/InspectService.cpp:125-148 | Logs are read for exactly the owners' units and then the owners without one, each once and both ascending |
| Lexical.StringLeExactly | src/application/InspectService.cpp:125-148 | Units are ordered as strings are: a prefix first, otherwise by the first character that differs |
| InspectLogs.MergeAppendsUnseen | src/application/InspectService.cpp:56-66 | A source with distinct cursors adds exactly its entries that were not there before |
| InspectLogs.MergedExactly | src/application/InspectService.cpp:47-67 | The merge of several sources holds each entry of those that answered, itself or by one with its cursor, no cursor twice and nothing else; a source that failed adds nothing |
| InspectLogs.WarningsExactly | src/application/InspectService.cpp:47-54 | There is a warning for each service or log that could not be read and for nothing else |
| InspectLogs.TruncationIsHarmless | src/application/InspectService.cpp:47-81 | Merging only the newest twenty of each sorted source yields the same final timestamps as merging the complete logs |
| InspectLogs.PortLogsAreComplete | src/application/InspectService.cpp:125-148 | so the recent logs of a port, each source read by the journal's tail query, carry the times they would carry had every source been read in full |
| InspectLogs.FinalizedInOrder | src/application/InspectService.cpp:69-81 | The final list is in time order, and ties keep their order while nothing is dropped |
| InspectLogs.FinalizedAreNewest | src/application/InspectService.cpp:69-81 | Only what exceeds twenty entries is dropped, and nothing dropped is newer than anything kept |
| TaskWorker.TaskWorker.Submit | src/tui/FtxuiTuiRunner.cpp:130-138 | The critical section is the model's submit step; it is taken exactly when nothing is pending or running |
| TaskWorker.TaskWorker.Work | src/tui/FtxuiTuiRunner.cpp:150-171 | The thread between two points where others may run is the model's worker step |
| TaskWorker.TaskWorker.Execute | src/tui/FtxuiTuiRunner.cpp:115-180 | Under any schedule the object does what the step relation says |
| TaskWorker.RunKeepsInvariant | src/tui/FtxuiTuiRunner.cpp:115-180 | Every interleaving keeps the invariant |
| TaskWorker.InOrderAndOnce | src/tui/FtxuiTuiRunner.cpp:130-171 | At most one task is outstanding; tasks start and finish in submission order, each at most once |
| TaskWorker.AfterJoin | src/tui/FtxuiTuiRunner.cpp:121-129 | After the join every accepted task has finished, except one that stop overtook before it started |
| TaskWorker.ResultIsNotStale | src/tui/FtxuiTuiRunner.cpp:130-148 | While a task is outstanding the shown result is never an earlier task's |
| TaskWorker.FinishedIsShown | src/tui/FtxuiTuiRunner.cpp:130-171 | In every run, once a task has finished and until another is accepted or the result is cleared, the result shown is what that task came back with |
| TaskWorker.StepShows | src/tui/FtxuiTuiRunner.cpp:130-171 | An accepted task shows "Loading...", a clear shows nothing, and no other step but the end of a task changes the result |
| TaskWorker.ResultStays | src/tui/FtxuiTuiRunner.cpp:130-171 | so under any schedule the result stays while no task is accepted, none finishes and nobody clears it |
| TaskWorker.WaitingTaskStarts | src/tui/FtxuiTuiRunner.cpp:130-158 | No lost wake-up: from any reachable state with a waiting task, every schedule that does not stop the worker and gives it three turns starts that task |
| TaskWorker.StopIsPrompt | src/tui/FtxuiTuiRunner.cpp:150-171 | Once stop is set the worker makes at most five more steps and starts nothing |
| TaskWorker.StopIsNotBlocked | src/tui/FtxuiTuiRunner.cpp:121-155 | Until the worker has exited it can move, or the destructor's notification is about to wake it |
| TaskWorker.JoinReturns | src/tui/FtxuiTuiRunner.cpp:121-129 | Once the destructor has notified, every schedule that gives the worker the turns to its next decision, five at most, ends with the thread gone and the join able to return |
| Metrics.Compare | src/application/MetricsService.cpp:38-82 | The method with the source's clamp and index agrees with the figures defined without them |
| Metrics.HostPercentExactly | src/application/MetricsService.cpp:51-60 | A host figure is there exactly when time passed and the idle counter kept within the total; it is then the share of the ticks that were not idle: times the total it gives 100 times the busy ticks, 100 with none idle and 0 with all |
| Metrics.ProcessPercentExactly | src/application/MetricsService.cpp:51-79 | `compare` shows a process figure exactly when the host's counters ticked and a current sample of the pid has the start time of its last earlier one and a counter that did not go back; it is 100 times the ticks used times the processors over the total, at most 100 for each processor |
| Metrics.NewProcessHasNone | src/application/MetricsService.cpp:65-71 | A process without an earlier sample has no figure |
| Dashboard.AttachCpu | src/application/DashboardService.cpp:18-26 | Overwrites the figure of every row, also when there is none |
| Dashboard.DashboardService.RefreshAt | src/application/DashboardService.cpp:43-107 | After any history of refreshes, the three remembered fields and the snapshot are what that history determines |
| Dashboard.PanelsHoldLastSuccess | src/application/DashboardService.cpp:50-85 | Each panel holds its source's last good answer and is stale exactly when the last attempt failed |
| Dashboard.RowsShowTheirFigures | src/application/DashboardService.cpp:59-66 | A row shows the figure for its pid, if there is one, from comparing the sample of the refresh that listed it with the latest one before that |
| Dashboard.RowsWithoutFigures | src/application/DashboardService.cpp:59-66 | and is shown as it was listed when the metrics failed at that refresh |
| Dashboard.HostComparesLatestTwo | src/application/DashboardService.cpp:50-57 | Host figures always compare the two latest good samples, also while later attempts fail |
| Dashboard.FirstSampleIsHeld | src/application/DashboardService.cpp:53-57 | After exactly one good sample the panel keeps showing that one, without a CPU figure |
| Dashboard.NeverAnsweredIsBlank | src/application/DashboardService.cpp:46-103 | The panel of a source that never answered is blank and stale |
| Dashboard.WarningsExactly | src/application/DashboardService.cpp:43-107 | The warnings are those of the last refresh alone, one for each source that failed it, the services only if they were asked |
| Dashboard.LastListedIsLatest | src/application/DashboardService.cpp:87-98 | The remembered time is that of the latest successful service query |
| Dashboard.ListingsAreSpaced | src/application/DashboardService.cpp:87-98 | With time not going back, successful service queries are at least three seconds apart |
| Dashboard.QueriedExactly | src/application/DashboardService.cpp:87-98 | A refresh asks for the services exactly when three seconds have passed since every successful query before it |
| Dashboard.FailureIsRetried | src/application/DashboardService.cpp:87-102 | A failed service query is repeated by the very next refresh |
| Dashboard.ServicesPanel | src/application/DashboardService.cpp:87-103 | The services panel depends only on the refreshes that queried: stale exactly when the last of them failed, holding the last good listing |
| StatParser.ParseStat | src/linux/procfs/StatParser.cpp:32-65 | The trimming loop and searches agree with `StatOf` |
| StatParser.StatExactly | src/linux/procfs/StatParser.cpp:32-65 | What is read from any text, and when: the first "(", the last ") ", a pid before and a state and a parent behind them; every other text is refused |
| StatParser.RealCloseIsLast | src/linux/procfs/StatParser.cpp:35 | The last `) ` is the one that ends the name exactly when nothing after the name looks like one |
| StatParser.StatRoundTrip | src/linux/procfs/StatParser.cpp:32-65 | A printed record reads back, for every process name, exactly under that condition |
| StatParser.ParseProcessCpuStat | src/linux/procfs/StatParser.cpp:67-102 | The field-splitting loop agrees with splitting at blanks |
| StatParser.CpuFromExactly | src/linux/procfs/StatParser.cpp:86-101 | The CPU time is read exactly from 19 or more fields of which three are 64-bit counters with a sum that fits |
| StatParser.CpuReadsFields | src/linux/procfs/StatParser.cpp:73-101 | The CPU reader finds fields 14, 15 and 22 behind any process name |
| StatParser.CpuSumIsExact | src/linux/procfs/StatParser.cpp:90-101 | The time is the exact sum of fields 14 and 15, or the record is refused; there is no wrap-around |
| Text.SplitFields | src/linux/procfs/StatParser.cpp:75-84 | The shrinking-view loop splits at blanks |
| Text.SplitAtBlank | src/linux/procfs/StatParser.cpp:75-84 | A text falls apart at each of its blanks and nowhere else |
| Text.SplitInvertsSpaced | src/linux/procfs/StatParser.cpp:75-84 | Splitting gives back the fields a text was put together from |
| SystemMetricsParser.CheckedAdd | src/linux/procfs/SystemMetricsParser.cpp:25-32 | Adds, or refuses exactly when the sum does not fit 64 bits |
| SystemMetricsParser.ParseCpuTimes | src/linux/procfs/SystemMetricsParser.cpp:36-63 | A row is accepted exactly when it is labelled `cpu` and has four or more 64-bit counters whose sum fits 64 bits; the total is then that sum |
| SystemMetricsParser.IdleWithinSum | src/linux/procfs/SystemMetricsParser.cpp:54-56 | The idle ticks never exceed the total |
| SystemMetricsParser.TicksExactly | src/linux/procfs/SystemMetricsParser.cpp:36-63 | The total counts each counter once, idle is the fourth and fifth |
| SystemMetricsParser.PrintedRow | src/linux/procfs/SystemMetricsParser.cpp:36-63 | A printed row reads back as its counters, whatever lines follow |

## Left out

- Message texts: an error is its code and whether a release was partially signalled; errno values are dropped. A warning is the code of the failure it reports.
- Warnings inside successful observations: those a provider attaches to its answer, and the ones `PortService` and `DashboardService` pass on, are not kept; only warnings made from failures are, in `InspectLogs`, `Dashboard`, `NetlinkSocketProvider` and `SocketInodeResolver`.
- The operating system: system calls, sd-bus, sd-journal, Netlink sockets and pidfd are environments with arbitrary answers. A snapshot of a port is one `View`, since its parts are arbitrary anyway; a process provider answers about the pid it was asked about.
- Process identity beyond the pid in the release protocol: plans carry no start time, so nothing is said about reuse of a pid.
- PortPhases.PortService.Act: the signalling and waiting loops that `terminate` and `force` repeat are one method with the signal as its parameter; the mechanism of a delivery is not kept.
- `confirm`: how an answer is read from a line of text; a question is answered yes or no. Printing and exit codes likewise.
- PortSafety.WaitsFitTheGracePeriod: whether a single wait respects its timeout is up to the kernel and stays a hypothesis.
- InetDiagCodec.WireLayout: address text is an abstract function of family and raw bytes, because `inet_ntop` is library code; it never fails here.
- InetDiagCodec.MessageRoundTrip: an error message of the kernel with a non-zero number is a failure without that number, so negating the smallest 32-bit integer does not arise.
- NetlinkSocketProvider.ReceiveDump: a socket has finitely many datagrams to deliver; after the last one receiving fails.
- NetlinkSocketProvider.StdSort: where `std::sort` puts sockets with equal keys is left open.
- Journal.Follow: the journal is the append-only list of matching entries with distinct cursors and a finite history; vacuuming, rotation and the match filter are not modelled. What the writer, the caller's sink and its stop predicate do is fixed by scripts, all of them arbitrary; the endless loop is bounded by a stop that comes when the script of answers runs out. How far past the tail of the seek the first move lands is part of the script. Missing sinks and failing opens are not modelled. A journal call interrupted by a signal ends a follow with Interrupted whatever the stop predicate then answers, so that extra question is left out.
- InspectLogs.ResourceGraph.InspectPort: the process and service branches of `inspect` call the same helpers in other orders and are left out.
- InspectLogs.TruncationIsHarmless: which of several entries with equal time survive may differ, so the statement is about times.
- Metrics.Compare: percentages are exact rationals, so rounding in doubles is not modelled.
- TaskWorker.TaskWorker.Execute: the model starts after construction is complete (the thread member is declared before two flags it reads); each client call is one atomic critical section, and a task is a number with an arbitrary result.
- The snapshot's capture time, memory and uptime parsing, `lx status`, `find`, `doctor`, resource resolution, process listing, and everything that draws or formats: forwarding, simple branching or library code.
