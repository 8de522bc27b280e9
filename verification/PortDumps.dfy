/** The release protocol on top of the INET_DIAG query: what "no socket found" is worth when a query succeeds although
    some of its dumps failed. */
module PortDumps {
  import opened Common
  import opened Ordering
  import opened Sockets
  import opened InetDiagCodec
  import opened PortTargets
  import opened PortPlan
  import opened PortPhases
  import opened PortFree
  import opened PortSafety
  import opened PortRuns
  import opened SocketInodeResolver
  import Netlink = NetlinkSocketProvider

  /** src/application/PortService.cpp:183-184: this port, both protocols, and by default listening sockets only. */
  function ReleaseQuery(localPort: nat): Netlink.SocketQuery {
    Netlink.SocketQuery(Some(localPort), None, true)
  }

  /** What the snapshot's socket query found is what a query with these attempts answers. */
  ghost predicate AnsweredBy(view: View, localPort: nat, attempts: seq<Netlink.Attempt>) {
    && |attempts| == 4
    && (forall i :: 0 <= i < |attempts| ==> (attempts[i].protocol, attempts[i].family) == Netlink.Pairs(ReleaseQuery(localPort))[i])
    && if forall i :: 0 <= i < |attempts| ==> attempts[i].result.Failure? then
         view.sockets == Err(attempts[3].result.error.code)
       else
         && view.sockets.Ok?
         && multiset(view.sockets.value) == multiset(Netlink.Kept(ReleaseQuery(localPort), attempts))
         && view.missed == Netlink.Failures(attempts)
  }

  /** The query as a snapshot makes it. */
  method AskSockets(localPort: nat, opening: Reply<Netlink.Inbox>, text: AddressText, procfs: Directory<ProcessEntry>,
                    processes: int -> Reply<string>, units: int -> Reply<Option<string>>)
    returns (view: View, attempts: seq<Netlink.Attempt>, left: Netlink.Inbox)
    ensures opening.Err? ==> view.sockets == Err(opening.code)
    ensures opening.Ok? ==>
              && Netlink.Made(ReleaseQuery(localPort), opening.value, attempts, left, text)
              && AnsweredBy(view, localPort, attempts)
    ensures Netlink.NeverNotFound(opening, attempts) ==> view.sockets != Err(NotFound)
  {
    var r;
    ghost var requests;
    r, attempts, left, requests := Netlink.Query(ReleaseQuery(localPort), opening, text);
    view := match r
            case Failure(error) => View(Err(error.code), [], procfs, processes, units)
            case Success(found) => View(Ok(found.sockets), found.warnings, procfs, processes, units);
  }

  /** The dump completed and contained no socket that listens on the port; a connected UDP socket does not. */
  predicate Clear(localPort: nat, attempt: Netlink.Attempt) {
    && attempt.result.Success?
    && forall s :: s in attempt.result.value ==>
                     s.local.port != localPort || (attempt.protocol == Udp && s.remote.Some?)
  }

  predicate NothingListens(localPort: nat, attempts: seq<Netlink.Attempt>) {
    forall i :: 0 <= i < |attempts| ==> Clear(localPort, attempts[i])
  }

  lemma {:induction false} FilterNone<T>(keep: T -> bool, s: seq<T>)
    ensures Filter(keep, s) == [] <==> forall x :: x in s ==> !keep(x)
  {
    if s != [] {
      FilterNone(keep, s[1..]);
      assert s == [s[0]] + s[1..];
    }
  }

  lemma ClearExactly(localPort: nat, attempt: Netlink.Attempt)
    ensures Clear(localPort, attempt)
       <==> attempt.result.Success? && Netlink.KeptOf(ReleaseQuery(localPort), attempt) == []
  {
    if attempt.result.Success? {
      FilterNone(Netlink.Keeper(ReleaseQuery(localPort), attempt.protocol), attempt.result.value);
    }
  }

  lemma {:induction false} NothingKeptExactly(localPort: nat, attempts: seq<Netlink.Attempt>)
    ensures Netlink.Kept(ReleaseQuery(localPort), attempts) == [] && Netlink.Failures(attempts) == []
       <==> NothingListens(localPort, attempts)
  {
    if attempts != [] {
      var n := |attempts| - 1;
      NothingKeptExactly(localPort, attempts[..n]);
      ClearExactly(localPort, attempts[n]);
      assert NothingListens(localPort, attempts) <==> NothingListens(localPort, attempts[..n]) && Clear(localPort, attempts[n]) by {
        assert forall i :: 0 <= i < n ==> attempts[..n][i] == attempts[i];
      }
    }
  }

  /** A snapshot that found nothing and missed nothing is one of a port on which nothing listens, and only that. */
  lemma EmptyAnswerExactly(view: View, localPort: nat, attempts: seq<Netlink.Attempt>)
    requires AnsweredBy(view, localPort, attempts)
    ensures view.sockets == Ok([]) && view.missed == [] <==> NothingListens(localPort, attempts)
  {
    NothingKeptExactly(localPort, attempts);
    if view.sockets.Ok? {
      SameEmptiness(view.sockets.value, Netlink.Kept(ReleaseQuery(localPort), attempts));
    }
  }

  lemma SameEmptiness<T>(a: seq<T>, b: seq<T>)
    requires multiset(a) == multiset(b)
    ensures a == [] <==> b == []
  {
    assert |multiset(a)| == |a| && |multiset(b)| == |b|;
  }

  /** When a run reports the port released, nothing listens on it, as far as the dumps of its last snapshot tell,
      exactly when no provider answered NotFound on its own account and no dump of that snapshot failed. */
  lemma ReleasedMeansNothingListens(config: Config, localPort: nat, yes: bool, run: FreeRun, outcome: Outcome,
                                    attempts: seq<Netlink.Attempt>)
    requires FreePhase(config, localPort, yes, run, outcome)
    requires outcome in {ReleasedByService, ReleasedByTerminate, ReleasedByForce}
    requires AnsweredBy(LastSnapshot(run), localPort, attempts)
    ensures NothingListens(localPort, attempts) <==> Honest(LastSnapshot(run)) && LastSnapshot(run).missed == []
  {
    ReleasedMeansFree(config, localPort, yes, run, outcome);
    EmptyAnswerExactly(LastSnapshot(run), localPort, attempts);
  }

  /** Over a Netlink socket, whose operations never answer NotFound, that leaves the procfs root and the failed dumps. */
  lemma ReleasedOverNetlink(config: Config, localPort: nat, yes: bool, run: FreeRun, outcome: Outcome,
                            inbox: Netlink.Inbox, attempts: seq<Netlink.Attempt>, left: Netlink.Inbox, text: AddressText)
    requires FreePhase(config, localPort, yes, run, outcome)
    requires outcome in {ReleasedByService, ReleasedByTerminate, ReleasedByForce}
    requires Netlink.Made(ReleaseQuery(localPort), inbox, attempts, left, text)
    requires AnsweredBy(LastSnapshot(run), localPort, attempts) && Netlink.NeverNotFound(Ok(inbox), attempts)
    ensures NothingListens(localPort, attempts) <==> RootStands(LastSnapshot(run)) && LastSnapshot(run).missed == []
  {
    ReleasedMeansNothingListens(config, localPort, yes, run, outcome, attempts);
    AnswerIsNotNotFound(LastSnapshot(run), localPort, inbox, attempts, left, text);
  }

  lemma AnswerIsNotNotFound(view: View, localPort: nat, inbox: Netlink.Inbox, attempts: seq<Netlink.Attempt>,
                            left: Netlink.Inbox, text: AddressText)
    requires Netlink.Made(ReleaseQuery(localPort), inbox, attempts, left, text)
    requires AnsweredBy(view, localPort, attempts) && Netlink.NeverNotFound(Ok(inbox), attempts)
    ensures view.sockets != Err(NotFound)
  {
    Netlink.AttemptsNeverNotFound(inbox, attempts, left, text);
  }

  // ----- the other way to report a held port released -----

  function DoneDatagram(sequence: nat): (data: Netlink.Datagram)
  {
    Message.Done(0, []).Encode(sequence, 0)
  }

  lemma DoneReads(sequence: nat, protocol: Protocol, text: AddressText)
    requires sequence < 0x1_0000_0000
    ensures Parse(DoneDatagram(sequence), sequence, protocol, text) == Success(Batch([], true))
  {
    var item := Padded(Message.Done(0, []), 0, []);
    OnePadded(item, sequence, protocol, text);
    assert item.Bytes(sequence) == DoneDatagram(sequence);
  }

  /** The datagram that reports this listener. */
  function ListenerDatagram(listener: Record): Netlink.Datagram
    requires listener.Valid() && listener.family == AF_INET
  {
    Socket(20, 0, listener, []).Encode(1, 0)
  }

  lemma ListenerReads(listener: Record, text: AddressText)
    requires listener.Valid() && listener.family == AF_INET
    ensures Parse(ListenerDatagram(listener), 1, Tcp, text) == Success(Batch([SocketOf(listener, Tcp, text)], false))
  {
    var item := Padded(Socket(20, 0, listener, []), 0, []);
    OnePadded(item, 1, Tcp, text);
    assert item.Bytes(1) == ListenerDatagram(listener);
  }

  /** The kernel reports a TCP listener on the port, and then receiving fails; the other three dumps complete. */
  function HiddenInbox(listener: Record, code: ErrorCode): Netlink.Inbox
    requires listener.Valid() && listener.family == AF_INET
  {
    [Ok(ListenerDatagram(listener)), Err(code), Ok(DoneDatagram(2)), Ok(DoneDatagram(3)), Ok(DoneDatagram(4))]
  }

  function HiddenAttempts(code: ErrorCode): seq<Netlink.Attempt> {
    [Netlink.Attempt(Tcp, IPv4, Ok(()), Fail(code)), Netlink.Attempt(Tcp, IPv6, Ok(()), Success([])),
     Netlink.Attempt(Udp, IPv4, Ok(()), Success([])), Netlink.Attempt(Udp, IPv6, Ok(()), Success([]))]
  }

  lemma HiddenAttemptsAreMade(localPort: nat, listener: Record, code: ErrorCode, text: AddressText)
    requires listener.Valid() && listener.family == AF_INET
    ensures Netlink.Made(ReleaseQuery(localPort), HiddenInbox(listener, code), HiddenAttempts(code), [], text)
  {
    var inbox := HiddenInbox(listener, code);
    ListenerReads(listener, text);
    FirstBreaksOff(inbox, code, text, [SocketOf(listener, Tcp, text)]);
    var left := inbox[2..];
    assert left == [Ok(DoneDatagram(2)), Ok(DoneDatagram(3)), Ok(DoneDatagram(4))];
    var first := Netlink.Attempt(Tcp, IPv4, Ok(()), Fail(code));
    FirstIsMade(ReleaseQuery(localPort), inbox, first, left, text);
    ThreeMore(ReleaseQuery(localPort), inbox, first, Netlink.Attempt(Tcp, IPv6, Ok(()), Success([])),
              Netlink.Attempt(Udp, IPv4, Ok(()), Success([])), Netlink.Attempt(Udp, IPv6, Ok(()), Success([])), left, text);
  }

  lemma FirstBreaksOff(inbox: Netlink.Inbox, code: ErrorCode, text: AddressText, sockets: seq<FreshSocket>)
    requires |inbox| >= 2 && inbox[0].Ok? && inbox[1] == Err(code)
    requires Parse(inbox[0].value, 1, Tcp, text) == Success(Batch(sockets, false))
    ensures Netlink.AttemptedOnce(inbox, Netlink.Attempt(Tcp, IPv4, Ok(()), Fail(code)), 1, inbox[2..], text)
  {
    assert inbox[1..][0] == Err(code);
    assert Netlink.Dump(inbox[1..], 1, Tcp, text) == (Fail(code), 1);
  }

  lemma FirstIsMade(query: Netlink.SocketQuery, inbox: Netlink.Inbox, a: Netlink.Attempt, left: Netlink.Inbox,
                    text: AddressText)
    requires Netlink.AttemptedOnce(inbox, a, 1, left, text)
    requires query.protocol == None && a.protocol == Tcp && a.family == IPv4
    ensures Netlink.Made(query, inbox, [a], left, text)
  {
    Netlink.MadeMore(query, inbox, [], inbox, a, left, text);
    assert [] + [a] == [a];
  }

  lemma ThreeMore(query: Netlink.SocketQuery, inbox: Netlink.Inbox, a: Netlink.Attempt, b: Netlink.Attempt,
                  c: Netlink.Attempt, d: Netlink.Attempt, left: Netlink.Inbox, text: AddressText)
    requires Netlink.Made(query, inbox, [a], left, text) && query.protocol == None
    requires Completes(b, Tcp, IPv6) && Completes(c, Udp, IPv4) && Completes(d, Udp, IPv6)
    requires left == [Ok(DoneDatagram(2)), Ok(DoneDatagram(3)), Ok(DoneDatagram(4))]
    ensures Netlink.Made(query, inbox, [a, b, c, d], [], text)
  {
    MadeDone(query, inbox, [a], left, b, text);
    assert [a] + [b] == [a, b] && [a, b] + [c] == [a, b, c] && [a, b, c] + [d] == [a, b, c, d];
    MadeDone(query, inbox, [a, b], left[1..], c, text);
    MadeDone(query, inbox, [a, b, c], left[1..][1..], d, text);
  }

  predicate Completes(attempt: Netlink.Attempt, protocol: Protocol, family: Family) {
    attempt == Netlink.Attempt(protocol, family, Ok(()), Success([]))
  }

  /** One more dump that is done with its first datagram. */
  lemma MadeDone(query: Netlink.SocketQuery, inbox: Netlink.Inbox, attempts: seq<Netlink.Attempt>, before: Netlink.Inbox,
                 attempt: Netlink.Attempt, text: AddressText)
    requires Netlink.Made(query, inbox, attempts, before, text) && |attempts| < |Netlink.Pairs(query)|
    requires (attempt.protocol, attempt.family) == Netlink.Pairs(query)[|attempts|]
    requires attempt.sent == Ok(()) && attempt.result == Success([])
    requires before != [] && before[0] == Ok(DoneDatagram(|attempts| + 1)) && |attempts| < 4
    ensures Netlink.Made(query, inbox, attempts + [attempt], before[1..], text)
  {
    DoneTakesOne(|attempts| + 1, before, attempt.protocol, text);
    Netlink.MadeMore(query, inbox, attempts, before, attempt, before[1..], text);
  }

  lemma DoneTakesOne(sequence: nat, inbox: Netlink.Inbox, protocol: Protocol, text: AddressText)
    requires sequence < 0x1_0000_0000 && inbox != [] && inbox[0] == Ok(DoneDatagram(sequence))
    ensures Netlink.Dump(inbox, sequence, protocol, text) == (Success([]), 1)
  {
    DoneReads(sequence, protocol, text);
  }

  /** Counterexample: the kernel reports a listener on the port and its dump breaks off. The query answers with no
      socket and one warning, neither provider answers NotFound, and terminate reports the port released. */
  lemma ReleasedWhileListening(config: Config, plan: Plan, listener: Record, code: ErrorCode, text: AddressText,
                               view: View)
    requires plan.localPort != 0 && listener.Valid() && listener.family == AF_INET && listener.state == 10
    requires listener.sourcePort == plan.localPort
    requires view.sockets == Ok([]) && view.missed == [code]
    ensures Parse(ListenerDatagram(listener), 1, Tcp, text).Success?
    ensures var socket := Parse(ListenerDatagram(listener), 1, Tcp, text).value.sockets[0];
            socket.local.port == plan.localPort && socket.state == "listen"
    ensures Netlink.Made(ReleaseQuery(plan.localPort), HiddenInbox(listener, code), HiddenAttempts(code), [], text)
    ensures AnsweredBy(view, plan.localPort, HiddenAttempts(code)) && Honest(view)
    ensures SignalPhase(config, Signal.Terminate, plan, SignalRun(view, [], 0, [], None),
                        Success(ReleaseResult(true, [], None)))
  {
    HiddenListener(plan.localPort, listener, code, text, view);
    EmptyIsReleased(config, plan, view);
  }

  lemma HiddenListener(localPort: nat, listener: Record, code: ErrorCode, text: AddressText, view: View)
    requires listener.Valid() && listener.family == AF_INET && listener.state == 10 && listener.sourcePort == localPort
    requires view.sockets == Ok([]) && view.missed == [code]
    ensures Parse(ListenerDatagram(listener), 1, Tcp, text).Success?
    ensures var socket := Parse(ListenerDatagram(listener), 1, Tcp, text).value.sockets[0];
            socket.local.port == localPort && socket.state == "listen"
    ensures Netlink.Made(ReleaseQuery(localPort), HiddenInbox(listener, code), HiddenAttempts(code), [], text)
    ensures AnsweredBy(view, localPort, HiddenAttempts(code))
  {
    ListenerReads(listener, text);
    HiddenAttemptsAreMade(localPort, listener, code, text);
    HiddenKeepsNothing(localPort, code);
  }

  lemma EmptyIsReleased(config: Config, plan: Plan, view: View)
    requires plan.localPort != 0 && view.sockets == Ok([])
    ensures SignalPhase(config, Signal.Terminate, plan, SignalRun(view, [], 0, [], None),
                        Success(ReleaseResult(true, [], None)))
  {
    NotFoundExactly(config, plan.localPort, view);
  }

  lemma HiddenKeepsNothing(localPort: nat, code: ErrorCode)
    ensures Netlink.Kept(ReleaseQuery(localPort), HiddenAttempts(code)) == []
    ensures Netlink.Failures(HiddenAttempts(code)) == [code]
  {
    var query, attempts := ReleaseQuery(localPort), HiddenAttempts(code);
    assert attempts[..3][..2] == attempts[..2] && attempts[..2][..1] == attempts[..1];
    assert Netlink.Kept(query, attempts[..1]) == [] && Netlink.Failures(attempts[..1]) == [code];
    assert Netlink.Kept(query, attempts[..2]) == [] && Netlink.Failures(attempts[..2]) == [code];
    assert Netlink.Kept(query, attempts[..3]) == [] && Netlink.Failures(attempts[..3]) == [code];
  }
}
