/** src/linux/netlink/NetlinkSocketProvider.cpp: four dumps over one socket, merged, filtered and sorted. */
module NetlinkSocketProvider {
  import opened Common
  import opened Ordering
  import opened Sockets
  import opened Lexical
  import opened InetDiagCodec

  /** What one receive can return: no more than the receive buffer holds. */
  type Datagram = d: bytes | |d| <= BUFFER witness []

  type Inbox = seq<Reply<Datagram>>

  /** The socket: what the kernel will deliver on it is arbitrary but finite; afterwards receiving fails. */
  class NetlinkSocket {
    var inbox: Inbox
    ghost var requests: seq<bytes>

    constructor (inbox: Inbox)
      ensures this.inbox == inbox && requests == []
    {
      this.inbox, requests := inbox, [];
    }

    method Send(request: bytes) returns (reply: Reply<()>)
      modifies this`requests
      ensures requests == old(requests) + [request]
    {
      requests := requests + [request];
      reply := *;
    }

    method Receive() returns (reply: Reply<Datagram>)
      modifies this`inbox
      ensures old(inbox) == [] ==> reply == Err(IoError) && inbox == []
      ensures old(inbox) != [] ==> reply == old(inbox)[0] && inbox == old(inbox)[1..]
    {
      if inbox == [] {
        return Err(IoError);
      }
      reply, inbox := inbox[0], inbox[1..];
    }
  }

  // ----- one dump -----

  /** The sockets of a dump, or why it failed, and how many datagrams it took off the socket. */
  function Dump(inbox: Inbox, sequence: nat, protocol: Protocol, text: AddressText): (Result<seq<FreshSocket>>, nat) {
    if inbox == [] then (Fail(IoError), 0)
    else
      match inbox[0]
      case Err(code) => (Fail(code), 1)
      case Ok(data) =>
        match Parse(data, sequence, protocol, text)
        case Failure(error) => (Failure(error), 1)
        case Success(batch) =>
          if batch.done then (Success(batch.sockets), 1)
          else
            var (rest, taken) := Dump(inbox[1..], sequence, protocol, text);
            (match rest
             case Success(sockets) => Success(batch.sockets + sockets)
             case Failure(error) => Failure(error), taken + 1)
  }

  lemma {:induction false} DumpTakes(inbox: Inbox, sequence: nat, protocol: Protocol, text: AddressText)
    ensures Dump(inbox, sequence, protocol, text).1 <= |inbox|
  {
    if inbox != [] { DumpTakes(inbox[1..], sequence, protocol, text); }
  }

  function States(protocol: Protocol): nat {
    if protocol == Tcp then 1024 else 0xFFFF_FFFF
  }

  method One(socket: NetlinkSocket, family: Family, protocol: Protocol, sequence: nat, text: AddressText)
    returns (sent: Reply<()>, r: Result<seq<FreshSocket>>)
    modifies socket
    ensures socket.requests == old(socket.requests) + [BuildRequest(family, protocol, sequence, States(protocol))]
    ensures sent.Err? ==> r == Fail(sent.code) && socket.inbox == old(socket.inbox)
    ensures sent.Ok? ==> var (result, taken) := Dump(old(socket.inbox), sequence, protocol, text);
                         r == result && taken <= |old(socket.inbox)| && socket.inbox == old(socket.inbox)[taken..]
  {
    sent := socket.Send(BuildRequest(family, protocol, sequence, States(protocol)));
    if sent.Err? {
      r := Fail(sent.code);
    } else {
      r := ReceiveDump(socket, protocol, sequence, text);
    }
  }

  method ReceiveDump(socket: NetlinkSocket, protocol: Protocol, sequence: nat, text: AddressText)
    returns (r: Result<seq<FreshSocket>>)
    modifies socket`inbox
    ensures var (result, taken) := Dump(old(socket.inbox), sequence, protocol, text);
            r == result && taken <= |old(socket.inbox)| && socket.inbox == old(socket.inbox)[taken..]
  {
    var values: seq<FreshSocket> := [];
    ghost var all := socket.inbox;
    ghost var taken := 0;
    DumpTakes(all, sequence, protocol, text);
    ContinueFromStart(Dump(all, sequence, protocol, text));
    var done := false;
    while !done
      invariant taken <= |all| && socket.inbox == all[taken..]
      invariant if done then Dump(all, sequence, protocol, text) == (Success(values), taken)
                else Dump(all, sequence, protocol, text)
                     == Continue(values, taken, Dump(socket.inbox, sequence, protocol, text))
      decreases !done, |socket.inbox|
    {
      ghost var inbox := socket.inbox;
      var data := socket.Receive();
      if data.Err? {
        return Fail(data.code);
      }
      taken := taken + 1;
      var batch := ParseInetDiagDatagram(data.value, sequence, protocol, text);
      if batch.Failure? {
        return Failure(batch.error);
      }
      ContinueOnce(values, batch.value.sockets, taken - 1, Dump(inbox[1..], sequence, protocol, text));
      values := values + batch.value.sockets;
      done := batch.value.done;
    }
    r := Success(values);
  }

  function Continue(values: seq<FreshSocket>, taken: nat, rest: (Result<seq<FreshSocket>>, nat)): (Result<seq<FreshSocket>>, nat) {
    (match rest.0
     case Success(sockets) => Success(values + sockets)
     case Failure(error) => Failure(error), taken + rest.1)
  }

  lemma ContinueFromStart(rest: (Result<seq<FreshSocket>>, nat))
    ensures Continue([], 0, rest) == rest
  {
    if rest.0.Success? { assert [] + rest.0.value == rest.0.value; }
  }

  lemma ContinueOnce(a: seq<FreshSocket>, b: seq<FreshSocket>, taken: nat, rest: (Result<seq<FreshSocket>>, nat))
    ensures Continue(a, taken, Continue(b, 1, rest)) == Continue(a + b, taken + 1, rest)
  {
    if rest.0.Success? { assert a + (b + rest.0.value) == a + b + rest.0.value; }
  }

  // ----- what a dump can contain -----

  function Batched(data: Reply<Datagram>, sequence: nat, protocol: Protocol, text: AddressText): Result<Batch> {
    match data
    case Err(code) => Fail(code)
    case Ok(d) => Parse(d, sequence, protocol, text)
  }

  function SocketsIn(datagrams: Inbox, sequence: nat, protocol: Protocol, text: AddressText): seq<FreshSocket> {
    if datagrams == [] then []
    else
      (match Batched(datagrams[0], sequence, protocol, text)
       case Success(batch) => batch.sockets
       case Failure(_) => [])
      + SocketsIn(datagrams[1..], sequence, protocol, text)
  }

  /** The first `n` datagrams were all accepted, and the last of them is the first that says DONE. */
  ghost predicate Complete(inbox: Inbox, n: nat, sequence: nat, protocol: Protocol, text: AddressText) {
    && 0 < n <= |inbox|
    && (forall i :: 0 <= i < n ==> Batched(inbox[i], sequence, protocol, text).Success?)
    && (forall i :: 0 <= i < n ==> (Batched(inbox[i], sequence, protocol, text).value.done <==> i == n - 1))
  }

  /** A dump succeeds exactly when its datagrams are accepted through the first DONE, and it then holds their
      sockets, in order, and nothing else. */
  lemma {:induction false} DumpExactly(inbox: Inbox, n: nat, sequence: nat, protocol: Protocol, text: AddressText)
    ensures Dump(inbox, sequence, protocol, text).0.Success? && Dump(inbox, sequence, protocol, text).1 == n
       <==> Complete(inbox, n, sequence, protocol, text)
    ensures Complete(inbox, n, sequence, protocol, text) ==>
              Dump(inbox, sequence, protocol, text).0 == Success(SocketsIn(inbox[..n], sequence, protocol, text))
  {
    if inbox != [] && n > 0 {
      var head := Batched(inbox[0], sequence, protocol, text);
      if n == 1 {
        assert inbox[..1][1..] == [];
        if head.Success? && head.value.done { assert head.value.sockets + [] == head.value.sockets; }
        if head.Success? && !head.value.done { DumpPositive(inbox[1..], sequence, protocol, text); }
      } else {
        DumpExactly(inbox[1..], n - 1, sequence, protocol, text);
        CompleteShift(inbox, n, sequence, protocol, text);
        if n <= |inbox| { assert inbox[..n][1..] == inbox[1..][..n - 1]; }
      }
    } else if inbox != [] {
      DumpPositive(inbox, sequence, protocol, text);
    }
  }

  lemma DumpPositive(inbox: Inbox, sequence: nat, protocol: Protocol, text: AddressText)
    ensures Dump(inbox, sequence, protocol, text).0.Success? ==> Dump(inbox, sequence, protocol, text).1 > 0
  {
  }

  lemma CompleteShift(inbox: Inbox, n: nat, sequence: nat, protocol: Protocol, text: AddressText)
    requires inbox != [] && n > 1
    ensures Complete(inbox, n, sequence, protocol, text)
       <==> Batched(inbox[0], sequence, protocol, text).Success?
            && !Batched(inbox[0], sequence, protocol, text).value.done
            && Complete(inbox[1..], n - 1, sequence, protocol, text)
  {
    if Batched(inbox[0], sequence, protocol, text).Success?
       && !Batched(inbox[0], sequence, protocol, text).value.done
       && Complete(inbox[1..], n - 1, sequence, protocol, text) {
      forall i | 0 <= i < n
        ensures Batched(inbox[i], sequence, protocol, text).Success?
        ensures Batched(inbox[i], sequence, protocol, text).value.done <==> i == n - 1
      {
        if i > 0 { assert inbox[i] == inbox[1..][i - 1]; }
      }
    }
    if Complete(inbox, n, sequence, protocol, text) {
      forall i | 0 <= i < n - 1
        ensures Batched(inbox[1..][i], sequence, protocol, text).Success?
        ensures Batched(inbox[1..][i], sequence, protocol, text).value.done <==> i == n - 2
      {
        assert inbox[1..][i] == inbox[i + 1];
      }
    }
  }

  /** A dump that fails has accepted every datagram before its last and met no DONE in them. It ends with the error the
      last one gave, or, having used up all there was, with an I/O error. */
  lemma {:induction false} DumpFailsExactly(inbox: Inbox, sequence: nat, protocol: Protocol, text: AddressText)
    requires Dump(inbox, sequence, protocol, text).0.Failure?
    ensures var (result, taken) := Dump(inbox, sequence, protocol, text);
            && taken <= |inbox|
            && (forall i :: 0 <= i < taken - 1 ==> Undone(Batched(inbox[i], sequence, protocol, text)))
            && (|| (taken > 0 && Batched(inbox[taken - 1], sequence, protocol, text) == Failure(result.error))
                || (taken == |inbox| && result.error.code == IoError
                    && forall i :: 0 <= i < taken ==> Undone(Batched(inbox[i], sequence, protocol, text))))
  {
    if inbox != [] && Undone(Batched(inbox[0], sequence, protocol, text)) {
      DumpFailsExactly(inbox[1..], sequence, protocol, text);
      var taken := Dump(inbox, sequence, protocol, text).1;
      forall i | 0 < i < taken ensures inbox[i] == inbox[1..][i - 1] {
      }
    }
  }

  predicate Undone(batch: Result<Batch>) { batch.Success? && !batch.value.done }

  /** Every message of a successful dump carries the dump's own sequence number: what an aborted dump left on the
      socket can make a later one fail, but never adds a socket to it. */
  lemma DumpIsolated(inbox: Inbox, sequence: nat, protocol: Protocol, text: AddressText)
    requires Dump(inbox, sequence, protocol, text).0.Success?
    ensures Dump(inbox, sequence, protocol, text).1 <= |inbox|
    ensures forall i :: 0 <= i < Dump(inbox, sequence, protocol, text).1 ==> inbox[i].Ok? && AllOwn(inbox[i].value, sequence)
  {
    var n := Dump(inbox, sequence, protocol, text).1;
    DumpExactly(inbox, n, sequence, protocol, text);
    forall i | 0 <= i < n ensures inbox[i].Ok? && AllOwn(inbox[i].value, sequence) {
      assert Batched(inbox[i], sequence, protocol, text).Success?;
      AcceptedIsOwn(inbox[i].value, sequence, protocol, text);
    }
  }

  // ----- the whole query -----

  datatype SocketQuery = SocketQuery(localPort: Option<nat>, protocol: Option<Protocol>, listeningOnly: bool)

  datatype Attempt = Attempt(protocol: Protocol, family: Family, sent: Reply<()>, result: Result<seq<FreshSocket>>)

  datatype Observation = Observation(sockets: seq<FreshSocket>, warnings: seq<ErrorCode>)

  predicate Keeps(query: SocketQuery, protocol: Protocol, socket: SocketInfo) {
    && !(protocol == Udp && query.listeningOnly && socket.remote.Some?)
    && (query.localPort.Some? ==> socket.local.port == query.localPort.value)
  }

  function Keeper(query: SocketQuery, protocol: Protocol): FreshSocket -> bool {
    (s: FreshSocket) => Keeps(query, protocol, s)
  }

  function KeptOf(query: SocketQuery, attempt: Attempt): seq<FreshSocket> {
    match attempt.result
    case Success(sockets) => Filter(Keeper(query, attempt.protocol), sockets)
    case Failure(_) => []
  }

  /** The filtered union of the dumps that succeeded. */
  function Kept(query: SocketQuery, attempts: seq<Attempt>): seq<FreshSocket> {
    if attempts == [] then []
    else Kept(query, attempts[..|attempts| - 1]) + KeptOf(query, attempts[|attempts| - 1])
  }

  lemma {:induction false} FilterCounts<T>(keep: T -> bool, s: seq<T>, x: T)
    ensures multiset(Filter(keep, s))[x] == if keep(x) then multiset(s)[x] else 0
  {
    if s != [] {
      FilterCounts(keep, s[1..], x);
      assert s == [s[0]] + s[1..];
    }
  }

  /** Every further dump adds each of its sockets as often as it reported it, except those at another port than the one
      asked for and, when only listeners are wanted, UDP sockets with a peer; a dump that failed adds a warning. */
  lemma KeptExactly(query: SocketQuery, attempts: seq<Attempt>, next: Attempt, socket: FreshSocket)
    ensures Kept(query, []) == [] && Failures([]) == []
    ensures next.result.Failure? ==>
              && Kept(query, attempts + [next]) == Kept(query, attempts)
              && Failures(attempts + [next]) == Failures(attempts) + [next.result.error.code]
    ensures next.result.Success? ==>
              && Failures(attempts + [next]) == Failures(attempts)
              && multiset(Kept(query, attempts + [next]))[socket] - multiset(Kept(query, attempts))[socket]
                 == if (query.localPort == None || query.localPort == Some(socket.local.port))
                       && !(query.listeningOnly && next.protocol == Udp && socket.remote.Some?)
                    then multiset(next.result.value)[socket] else 0
  {
    assert (attempts + [next])[..|attempts|] == attempts;
    match next.result
    case Failure(_) =>
      assert Kept(query, attempts) + [] == Kept(query, attempts);
    case Success(sockets) =>
      assert Failures(attempts) + [] == Failures(attempts);
      FilterCounts(Keeper(query, next.protocol), sockets, socket);
  }

  function Failures(attempts: seq<Attempt>): seq<ErrorCode> {
    if attempts == [] then []
    else
      Failures(attempts[..|attempts| - 1])
      + match attempts[|attempts| - 1].result
        case Success(_) => []
        case Failure(error) => [error.code]
  }

  /** The protocol and family pairs a query asks for, in order. */
  function Pairs(query: SocketQuery): seq<(Protocol, Family)> {
    (if query.protocol == Some(Udp) then [] else [(Tcp, IPv4), (Tcp, IPv6)])
    + if query.protocol == Some(Tcp) then [] else [(Udp, IPv4), (Udp, IPv6)]
  }

  /** Attempt number i uses sequence number i + 1 and reads on where the one before it stopped. */
  ghost predicate Attempted(inbox: Inbox, attempts: seq<Attempt>, left: Inbox, text: AddressText) {
    if attempts == [] then left == inbox
    else
      var n := |attempts| - 1;
      var last := attempts[n];
      exists before :: Attempted(inbox, attempts[..n], before, text) && AttemptedOnce(before, last, n + 1, left, text)
  }

  ghost predicate AttemptedOnce(before: Inbox, attempt: Attempt, sequence: nat, after: Inbox, text: AddressText) {
    match attempt.sent
    case Err(code) => attempt.result == Fail(code) && after == before
    case Ok(_) =>
      var (result, taken) := Dump(before, sequence, attempt.protocol, text);
      attempt.result == result && taken <= |before| && after == before[taken..]
  }

  function Compare(a: SocketInfo, b: SocketInfo): int {
    Then(CompareInt(a.local.port, b.local.port),
    Then(CompareInt(ProtocolRank(a.protocol), ProtocolRank(b.protocol)),
    Then(CompareInt(FamilyRank(a.family), FamilyRank(b.family)),
         CompareSeq(Codes(a.local.address), Codes(b.local.address)))))
  }

  predicate InOrder(a: FreshSocket, b: FreshSocket) { Compare(a, b) <= 0 }

  lemma InOrderTotal()
    ensures TotalPreorder(InOrder)
  {
    forall a, b ensures InOrder(a, b) || InOrder(b, a) {
      CompareSeqSymmetric(Codes(a.local.address), Codes(b.local.address));
    }
    forall a, b, c | InOrder(a, b) && InOrder(b, c) ensures InOrder(a, c) {
      var x, y, z := Codes(a.local.address), Codes(b.local.address), Codes(c.local.address);
      if CompareSeq(x, y) <= 0 && CompareSeq(y, z) <= 0 { CompareSeqTransitive(x, y, z); }
    }
  }

  /** The order is by port, then protocol, then family, then address text. */
  lemma InOrderExactly(a: FreshSocket, b: FreshSocket)
    ensures var x, y := Codes(a.local.address), Codes(b.local.address);
            InOrder(a, b) <==>
              || a.local.port < b.local.port
              || (a.local.port == b.local.port && a.protocol == Tcp && b.protocol == Udp)
              || (a.local.port == b.local.port && a.protocol == b.protocol && a.family == IPv4 && b.family == IPv6)
              || (a.local.port == b.local.port && a.protocol == b.protocol && a.family == b.family
                  && (x <= y || exists k :: 0 <= k < |x| && k < |y| && x[..k] == y[..k] && x[k] < y[k]))
  {
    CompareSeqExactly(Codes(a.local.address), Codes(b.local.address));
  }

  /** std::sort: where sockets with equal keys end up is not promised. */
  method StdSort(sockets: seq<FreshSocket>) returns (sorted: seq<FreshSocket>)
    ensures multiset(sorted) == multiset(sockets) && Sorted(InOrder, sorted)
  {
    InOrderTotal();
    SortSorted(InOrder, sockets);
    sorted := Sort(InOrder, sockets);
  }

  method KeepFrom(query: SocketQuery, protocol: Protocol, sockets: seq<FreshSocket>, before: seq<FreshSocket>)
    returns (values: seq<FreshSocket>)
    ensures values == before + Filter(Keeper(query, protocol), sockets)
  {
    values := before;
    for i := 0 to |sockets|
      invariant values == before + Filter(Keeper(query, protocol), sockets[..i])
    {
      assert sockets[..i + 1] == sockets[..i] + [sockets[i]];
      FilterLast(Keeper(query, protocol), sockets[..i], sockets[i]);
      if protocol == Udp && query.listeningOnly && sockets[i].remote.Some? {
        continue;
      }
      if query.localPort.Some? && sockets[i].local.port != query.localPort.value {
        continue;
      }
      values := values + [sockets[i]];
    }
    assert sockets[..|sockets|] == sockets;
  }

  lemma AttemptedMore(inbox: Inbox, attempts: seq<Attempt>, before: Inbox, attempt: Attempt, left: Inbox, text: AddressText)
    requires Attempted(inbox, attempts, before, text)
    requires AttemptedOnce(before, attempt, |attempts| + 1, left, text)
    ensures Attempted(inbox, attempts + [attempt], left, text)
  {
    assert (attempts + [attempt])[..|attempts|] == attempts;
  }

  function LastError(attempts: seq<Attempt>): Option<Error> {
    if attempts == [] then None
    else
      match attempts[|attempts| - 1].result
      case Failure(error) => Some(error)
      case Success(_) => LastError(attempts[..|attempts| - 1])
  }

  lemma {:induction false} FailuresCount(attempts: seq<Attempt>)
    ensures |Failures(attempts)| <= |attempts|
    ensures |Failures(attempts)| == |attempts| <==> forall i :: 0 <= i < |attempts| ==> attempts[i].result.Failure?
    ensures LastError(attempts).Some? <==> Failures(attempts) != []
  {
    if attempts != [] {
      var n := |attempts| - 1;
      FailuresCount(attempts[..n]);
      assert attempts == attempts[..n] + [attempts[n]];
    }
  }

  /** The attempts made are the query's pairs in order, each reading on where the one before stopped. */
  ghost predicate Made(query: SocketQuery, inbox: Inbox, attempts: seq<Attempt>, left: Inbox, text: AddressText) {
    && |attempts| <= |Pairs(query)|
    && (forall i :: 0 <= i < |attempts| ==> (attempts[i].protocol, attempts[i].family) == Pairs(query)[i])
    && Attempted(inbox, attempts, left, text)
  }

  lemma MadeMore(query: SocketQuery, inbox: Inbox, attempts: seq<Attempt>, before: Inbox, attempt: Attempt, left: Inbox,
                 text: AddressText)
    requires Made(query, inbox, attempts, before, text) && |attempts| < |Pairs(query)|
    requires (attempt.protocol, attempt.family) == Pairs(query)[|attempts|]
    requires AttemptedOnce(before, attempt, |attempts| + 1, left, text)
    ensures Made(query, inbox, attempts + [attempt], left, text)
  {
    AttemptedMore(inbox, attempts, before, attempt, left, text);
  }

  function RequestsOf(pairs: seq<(Protocol, Family)>): seq<bytes> {
    seq(|pairs|, i requires 0 <= i < |pairs| => BuildRequest(pairs[i].1, pairs[i].0, i + 1, States(pairs[i].0)))
  }

  lemma OneMoreRequest(before: seq<bytes>, pairs: seq<(Protocol, Family)>, n: nat)
    requires n < |pairs|
    ensures before + RequestsOf(pairs[..n]) + [BuildRequest(pairs[n].1, pairs[n].0, n + 1, States(pairs[n].0))]
         == before + RequestsOf(pairs[..n + 1])
  {
    var more := [BuildRequest(pairs[n].1, pairs[n].0, n + 1, States(pairs[n].0))];
    assert RequestsOf(pairs[..n + 1]) == RequestsOf(pairs[..n]) + more;
    assert before + RequestsOf(pairs[..n]) + more == before + (RequestsOf(pairs[..n]) + more);
  }

  /** The bytes ask the kernel to dump the sockets of this protocol and family: all states of UDP, listeners of TCP. */
  ghost predicate AsksFor(request: bytes, sequence: nat, protocol: Protocol, family: Family) {
    && sequence < 256
    && request == [72, 0, 0, 0, 20, 0, 1, 3] + [sequence, 0, 0, 0] + [0, 0, 0, 0]
                  + ([if family == IPv4 then 2 else 10, if protocol == Tcp then 6 else 17, 0, 0]
                     + (if protocol == Tcp then [0, 4, 0, 0] else [255, 255, 255, 255])
                     + seq(40, _ => 0) + [255, 255, 255, 255, 255, 255, 255, 255])
  }

  /** A query asks for each protocol and family it is about once, TCP before UDP and IPv4 before IPv6, under sequence
      numbers from 1. */
  lemma AsksForAll(query: SocketQuery)
    ensures var (pairs, requests) := (Pairs(query), RequestsOf(Pairs(query)));
            && (forall p, f :: (p, f) in pairs <==> query.protocol == None || query.protocol == Some(p))
            && |pairs| == (if query.protocol == None then 4 else 2)
            && (forall i, j :: 0 <= i < j < |pairs| ==>
                  || (pairs[i].0 == Tcp && pairs[j].0 == Udp)
                  || (pairs[i].0 == pairs[j].0 && pairs[i].1 == IPv4 && pairs[j].1 == IPv6))
            && |requests| == |pairs|
            && forall i :: 0 <= i < |requests| ==> AsksFor(requests[i], i + 1, pairs[i].0, pairs[i].1)
  {
    PairsExactly(query);
    forall i | 0 <= i < |Pairs(query)|
      ensures AsksFor(RequestsOf(Pairs(query))[i], i + 1, Pairs(query)[i].0, Pairs(query)[i].1)
    {
      OneAsksFor(Pairs(query)[i].0, Pairs(query)[i].1, i + 1);
    }
  }

  lemma PairsExactly(query: SocketQuery)
    ensures var pairs := Pairs(query);
            && (forall p, f :: (p, f) in pairs <==> query.protocol == None || query.protocol == Some(p))
            && |pairs| == (if query.protocol == None then 4 else 2)
            && (forall i, j :: 0 <= i < j < |pairs| ==>
                  || (pairs[i].0 == Tcp && pairs[j].0 == Udp)
                  || (pairs[i].0 == pairs[j].0 && pairs[i].1 == IPv4 && pairs[j].1 == IPv6))
  {
    forall p, f ensures (p, f) in Pairs(query) <==> query.protocol == None || query.protocol == Some(p) {
      PairListed(query, p, f);
    }
  }

  lemma PairListed(query: SocketQuery, p: Protocol, f: Family)
    ensures (p, f) in Pairs(query) <==> query.protocol == None || query.protocol == Some(p)
  {
    BothFamilies(Tcp);
    BothFamilies(Udp);
    var (tcp, udp) := ([(Tcp, IPv4), (Tcp, IPv6)], [(Udp, IPv4), (Udp, IPv6)]);
    assert (p, f) in tcp + udp <==> (p, f) in tcp || (p, f) in udp;
    assert tcp + [] == tcp && [] + udp == udp;
    assert p == Tcp || p == Udp;
    assert query.protocol.Some? ==> query.protocol.value == Tcp || query.protocol.value == Udp;
  }

  lemma BothFamilies(protocol: Protocol)
    ensures forall p, f :: (p, f) in [(protocol, IPv4), (protocol, IPv6)] <==> p == protocol
  {
    var both := [(protocol, IPv4), (protocol, IPv6)];
    forall f ensures (protocol, f) in both {
      assert both[0] == (protocol, IPv4) && both[1] == (protocol, IPv6);
      assert f == IPv4 || f == IPv6;
    }
  }

  lemma OneAsksFor(protocol: Protocol, family: Family, sequence: nat)
    requires sequence < 256
    ensures AsksFor(BuildRequest(family, protocol, sequence, States(protocol)), sequence, protocol, family)
  {
    RequestLayout(family, protocol, sequence, States(protocol));
    LowBytes(sequence);
    assert Le32(1024) == [0, 4, 0, 0] && Le32(0xFFFF_FFFF) == [255, 255, 255, 255];
  }

  predicate Tried(attempts: seq<Attempt>, protocol: Protocol, family: Family) {
    exists i :: 0 <= i < |attempts| && attempts[i].protocol == protocol && attempts[i].family == family
  }

  /** One request per attempt, for the protocol and family it is labelled with; and every family of every protocol the
      query is about was tried. */
  ghost predicate AllAsked(query: SocketQuery, attempts: seq<Attempt>, requests: seq<bytes>) {
    && |requests| == |attempts|
    && (forall i :: 0 <= i < |requests| ==> AsksFor(requests[i], i + 1, attempts[i].protocol, attempts[i].family))
    && (forall p, f :: Tried(attempts, p, f) <==> query.protocol == None || query.protocol == Some(p))
  }

  lemma RequestsMatch(query: SocketQuery, attempts: seq<Attempt>)
    requires |attempts| == |Pairs(query)|
    requires forall i :: 0 <= i < |attempts| ==> (attempts[i].protocol, attempts[i].family) == Pairs(query)[i]
    ensures AllAsked(query, attempts, RequestsOf(Pairs(query)))
  {
    AsksForAll(query);
    var pairs := Pairs(query);
    forall p, f ensures Tried(attempts, p, f) <==> (p, f) in pairs {
      if (p, f) in pairs {
        var i :| 0 <= i < |pairs| && pairs[i] == (p, f);
        assert (attempts[i].protocol, attempts[i].family) == (p, f);
      }
      if Tried(attempts, p, f) {
        var i :| 0 <= i < |attempts| && attempts[i].protocol == p && attempts[i].family == f;
        assert pairs[i] == (p, f);
      }
    }
  }

  method AttemptPair(socket: NetlinkSocket, family: Family, protocol: Protocol, sequence: nat, text: AddressText)
    returns (attempt: Attempt)
    modifies socket
    ensures attempt.protocol == protocol && attempt.family == family
    ensures AttemptedOnce(old(socket.inbox), attempt, sequence, socket.inbox, text)
    ensures socket.requests == old(socket.requests) + [BuildRequest(family, protocol, sequence, States(protocol))]
  {
    var sent, result := One(socket, family, protocol, sequence, text);
    attempt := Attempt(protocol, family, sent, result);
  }

  /** What the loop over the pairs has put together. */
  datatype Tally = Tally(attempts: seq<Attempt>, observed: Observation, last: Option<Error>, failures: nat)
  {
    ghost predicate Valid(query: SocketQuery) {
      && observed == Observation(Kept(query, attempts), Failures(attempts))
      && last == LastError(attempts) && failures == |Failures(attempts)|
    }
  }

  method AttemptAll(socket: NetlinkSocket, query: SocketQuery, text: AddressText) returns (tally: Tally)
    modifies socket
    ensures tally.Valid(query) && |tally.attempts| == |Pairs(query)|
    ensures Made(query, old(socket.inbox), tally.attempts, socket.inbox, text)
    ensures socket.requests == old(socket.requests) + RequestsOf(Pairs(query))
  {
    tally := Tally([], Observation([], []), None, 0);
    var sequence := 1;
    var pairs := Pairs(query);
    while |tally.attempts| < |pairs|
      invariant |tally.attempts| <= |pairs| && sequence == |tally.attempts| + 1 && tally.Valid(query)
      invariant Made(query, old(socket.inbox), tally.attempts, socket.inbox, text)
      invariant socket.requests == old(socket.requests) + RequestsOf(pairs[..|tally.attempts|])
      decreases |pairs| - |tally.attempts|
    {
      tally := AttemptNext(socket, query, sequence, text, tally, old(socket.inbox));
      OneMoreRequest(old(socket.requests), pairs, |tally.attempts| - 1);
      sequence := sequence + 1;
    }
    assert pairs[..|pairs|] == pairs;
  }

  /** The attempt for the next pair. */
  method AttemptNext(socket: NetlinkSocket, query: SocketQuery, sequence: nat, text: AddressText, before: Tally,
                     ghost start: Inbox)
    returns (tally: Tally)
    requires before.Valid(query) && |before.attempts| < |Pairs(query)| && sequence == |before.attempts| + 1
    requires Made(query, start, before.attempts, socket.inbox, text)
    modifies socket
    ensures tally.Valid(query) && |tally.attempts| == |before.attempts| + 1
    ensures Made(query, start, tally.attempts, socket.inbox, text)
    ensures var (protocol, family) := Pairs(query)[|before.attempts|];
            socket.requests == old(socket.requests) + [BuildRequest(family, protocol, sequence, States(protocol))]
  {
    var (protocol, family) := Pairs(query)[|before.attempts|];
    ghost var inbox := socket.inbox;
    var attempt := AttemptPair(socket, family, protocol, sequence, text);
    MadeMore(query, start, before.attempts, inbox, attempt, socket.inbox, text);
    tally := Book(query, attempt, before);
  }

  /** Books one dump: its error as a warning, or its sockets that pass the filter. */
  method Book(query: SocketQuery, attempt: Attempt, before: Tally) returns (tally: Tally)
    requires before.Valid(query)
    ensures tally.Valid(query) && tally.attempts == before.attempts + [attempt]
  {
    var attempts := before.attempts + [attempt];
    assert attempts[..|before.attempts|] == before.attempts;
    var (sockets, warnings) := (before.observed.sockets, before.observed.warnings);
    match attempt.result {
      case Failure(error) =>
        assert sockets + [] == sockets;
        tally := Tally(attempts, Observation(sockets, warnings + [error.code]), Some(error), before.failures + 1);
      case Success(found) =>
        var kept := KeepFrom(query, attempt.protocol, found, sockets);
        assert warnings + [] == warnings;
        tally := Tally(attempts, Observation(kept, warnings), before.last, before.failures);
    }
  }

  /** None of the datagrams still to be received is NotFound. */
  ghost predicate Quiet(inbox: Inbox) {
    forall i :: 0 <= i < |inbox| ==> inbox[i] != Err(NotFound)
  }

  /** Neither opening the socket nor sending nor receiving answers NotFound, as NetlinkSocket.cpp:9 has it. */
  ghost predicate NeverNotFound(opening: Reply<Inbox>, attempts: seq<Attempt>) {
    && opening != Err(NotFound)
    && (opening.Ok? ==> Quiet(opening.value))
    && forall i :: 0 <= i < |attempts| ==> attempts[i].sent != Err(NotFound)
  }

  lemma {:induction false} DumpNeverNotFound(inbox: Inbox, sequence: nat, protocol: Protocol, text: AddressText)
    requires Quiet(inbox)
    ensures Dump(inbox, sequence, protocol, text).0.Failure? ==>
              Dump(inbox, sequence, protocol, text).0.error.code != NotFound
  {
    if inbox != [] && inbox[0].Ok? {
      FailsAlike(inbox[0].value, sequence, protocol, text);
      DumpNeverNotFound(inbox[1..], sequence, protocol, text);
    }
  }

  predicate FailsNotFound(attempt: Attempt) {
    attempt.result.Failure? && attempt.result.error.code == NotFound
  }

  lemma AttemptNeverNotFound(before: Inbox, attempt: Attempt, sequence: nat, after: Inbox, text: AddressText)
    requires AttemptedOnce(before, attempt, sequence, after, text) && Quiet(before) && attempt.sent != Err(NotFound)
    ensures Quiet(after) && !FailsNotFound(attempt)
  {
    DumpNeverNotFound(before, sequence, attempt.protocol, text);
  }

  lemma {:induction false} AttemptsNeverNotFound(inbox: Inbox, attempts: seq<Attempt>, left: Inbox, text: AddressText)
    requires Attempted(inbox, attempts, left, text) && Quiet(inbox)
    requires forall i :: 0 <= i < |attempts| ==> attempts[i].sent != Err(NotFound)
    ensures Quiet(left) && forall i :: 0 <= i < |attempts| ==> !FailsNotFound(attempts[i])
  {
    if attempts != [] {
      var n := |attempts| - 1;
      var before := InboxBefore(inbox, attempts, left, text);
      AttemptsNeverNotFound(inbox, attempts[..n], before, text);
      AttemptNeverNotFound(before, attempts[n], n + 1, left, text);
      forall i | 0 <= i < |attempts| ensures !FailsNotFound(attempts[i]) {
        assert i < n ==> attempts[..n][i] == attempts[i];
      }
    }
  }

  /** What was left before the last attempt. */
  lemma InboxBefore(inbox: Inbox, attempts: seq<Attempt>, left: Inbox, text: AddressText) returns (before: Inbox)
    requires Attempted(inbox, attempts, left, text) && attempts != []
    ensures Attempted(inbox, attempts[..|attempts| - 1], before, text)
    ensures AttemptedOnce(before, attempts[|attempts| - 1], |attempts|, left, text)
  {
    var n := |attempts| - 1;
    before :| Attempted(inbox, attempts[..n], before, text) && AttemptedOnce(before, attempts[n], n + 1, left, text);
  }

  /** The query fails exactly when every attempted pair fails, with the last error; otherwise it returns the filtered
      union of the dumps that succeeded, sorted, and a warning for each one that did not. `attempts` and `left` tell
      what was tried and what stayed unread, `requests` what was sent. */
  method Query(query: SocketQuery, opening: Reply<Inbox>, text: AddressText)
    returns (r: Result<Observation>, attempts: seq<Attempt>, left: Inbox, ghost requests: seq<bytes>)
    ensures opening.Err? ==> attempts == [] && requests == [] && r == Fail(opening.code)
    ensures opening.Ok? ==>
              && Made(query, opening.value, attempts, left, text) && |attempts| == |Pairs(query)|
              && AllAsked(query, attempts, requests) && Answers(query, attempts, r)
    ensures NeverNotFound(opening, attempts) && r.Failure? ==> r.error.code != NotFound
  {
    if opening.Err? {
      r, attempts, left, requests := Fail(opening.code), [], [], [];
      return;
    }
    r, attempts, left, requests := QueryOpened(query, opening.value, text);
    if NeverNotFound(opening, attempts) { AttemptsNeverNotFound(opening.value, attempts, left, text); }
  }

  /** What a query with these attempts answers. */
  ghost predicate Answers(query: SocketQuery, attempts: seq<Attempt>, r: Result<Observation>) {
    && attempts != []
    && (r.Failure? <==> forall i :: 0 <= i < |attempts| ==> attempts[i].result.Failure?)
    && (r.Failure? ==> attempts[|attempts| - 1].result == Failure(r.error))
    && (r.Success? ==>
          && multiset(r.value.sockets) == multiset(Kept(query, attempts))
          && Sorted(InOrder, r.value.sockets)
          && r.value.warnings == Failures(attempts))
  }

  method QueryOpened(query: SocketQuery, inbox: Inbox, text: AddressText)
    returns (r: Result<Observation>, attempts: seq<Attempt>, left: Inbox, ghost requests: seq<bytes>)
    ensures Made(query, inbox, attempts, left, text) && |attempts| == |Pairs(query)|
    ensures AllAsked(query, attempts, requests) && Answers(query, attempts, r)
  {
    var socket := new NetlinkSocket(inbox);
    var tally := AttemptAll(socket, query, text);
    attempts, left, requests := tally.attempts, socket.inbox, socket.requests;
    assert socket.requests == RequestsOf(Pairs(query));
    RequestsMatch(query, attempts);
    r := Conclude(query, tally);
  }

  method Conclude(query: SocketQuery, tally: Tally) returns (r: Result<Observation>)
    requires tally.Valid(query) && tally.attempts != []
    ensures Answers(query, tally.attempts, r)
  {
    FailuresCount(tally.attempts);
    if tally.last.Some? && tally.failures == |tally.attempts| {
      r := Failure(tally.last.value);
    } else {
      var sorted := StdSort(tally.observed.sockets);
      r := Success(tally.observed.(sockets := sorted));
    }
  }
}
