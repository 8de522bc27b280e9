/** src/linux/netlink/InetDiagCodec.cpp: INET_DIAG dumps, message by message. Header fields are in the byte order
    of a little-endian host, ports in network order; messages follow section 2.3.2 of RFC 3549. */
module InetDiagCodec {
  import opened Common
  import opened Sockets

  type byte = x: int | 0 <= x < 256

  type bytes = seq<byte>

  const HEADER := 16
  const RECORD := 72
  const ERROR_BODY := 20
  const BUFFER := 65536

  const NLMSG_ERROR := 2
  const NLMSG_DONE := 3
  const NLMSG_OVERRUN := 4
  const NLM_F_DUMP_INTR := 16
  const AF_INET := 2
  const AF_INET6 := 10

  /** inet_ntop, kept abstract. */
  type AddressText = (Family, bytes) -> string

  // ----- numbers in a buffer -----

  function LowByte(n: nat): byte { n % 256 }

  function Shift8(n: nat): nat { n / 256 }

  function Le16(n: nat): (b: bytes)
    ensures |b| == 2
  {
    [LowByte(n), LowByte(Shift8(n))]
  }

  function Le32(n: nat): (b: bytes)
    ensures |b| == 4
  {
    [LowByte(n), LowByte(Shift8(n)), LowByte(Shift8(Shift8(n))), LowByte(Shift8(Shift8(Shift8(n))))]
  }

  function Be16(n: nat): (b: bytes)
    ensures |b| == 2
  {
    [LowByte(Shift8(n)), LowByte(n)]
  }

  function ByteAt(b: bytes, at: nat): nat
    requires at < |b|
  {
    b[at]
  }

  function ReadLe16(b: bytes, at: nat): nat
    requires at + 2 <= |b|
  {
    ByteAt(b, at) + 256 * ByteAt(b, at + 1)
  }

  function ReadLe32(b: bytes, at: nat): nat
    requires at + 4 <= |b|
  {
    ByteAt(b, at) + 256 * ByteAt(b, at + 1) + 65536 * ByteAt(b, at + 2) + 16777216 * ByteAt(b, at + 3)
  }

  function ReadBe16(b: bytes, at: nat): nat
    requires at + 2 <= |b|
  {
    256 * ByteAt(b, at) + ByteAt(b, at + 1)
  }

  /** NLMSG_ALIGN: rounding up to a multiple of four in 32-bit arithmetic. */
  function Align(length: nat): nat {
    (length + 3) % 0x1_0000_0000 / 4 * 4
  }

  /** The rounding keeps what it rounds exactly when the sum does not wrap; beyond that it yields zero, and a
      parser that moved on by it would stay where it is. */
  lemma AlignExactly(length: nat)
    requires length < 0x1_0000_0000
    ensures length <= 0xFFFF_FFFC ==> length <= Align(length) < length + 4 && Align(length) % 4 == 0
    ensures length > 0xFFFF_FFFC ==> Align(length) == 0
    ensures length > 0 ==> (Align(length) >= length <==> length <= 0xFFFF_FFFC)
  {
  }

  /** A message header: length, kind, flags, sequence number and sender. */
  function Header(length: nat, kind: nat, flags: nat, sequence: nat, sender: nat): (b: bytes)
    ensures |b| == HEADER
  {
    var (l, k, f) := (Le32(length), Le16(kind), Le16(flags));
    var (q, p) := (Le32(sequence), Le32(sender));
    [l[0], l[1], l[2], l[3], k[0], k[1], f[0], f[1], q[0], q[1], q[2], q[3], p[0], p[1], p[2], p[3]]
  }

  lemma HeaderFields(length: nat, kind: nat, flags: nat, sequence: nat, sender: nat, rest: bytes)
    requires length < 0x1_0000_0000 && kind < 65536 && flags < 65536 && sequence < 0x1_0000_0000
    ensures var b := Header(length, kind, flags, sequence, sender) + rest;
            && ReadLe32(b, 0) == length && ReadLe16(b, 4) == kind && ReadLe16(b, 6) == flags
            && ReadLe32(b, 8) == sequence && b[HEADER..] == rest
  {
    var b := Header(length, kind, flags, sequence, sender) + rest;
    ReadAt32(b, 0, length);
    ReadAt16(b, 4, kind);
    ReadAt16(b, 6, flags);
    ReadAt32(b, 8, sequence);
  }

  // ----- one socket record -----

  datatype Record = Record(family: byte, state: byte, timers: bytes, sourcePort: nat, destinationPort: nat,
                           source: bytes, destination: bytes, interface: bytes, queues: bytes, uid: nat, inode: nat)
  {
    predicate Valid() {
      && |timers| == 2 && |source| == 16 && |destination| == 16 && |interface| == 12 && |queues| == 12
      && sourcePort < 65536 && destinationPort < 65536 && uid < 0x1_0000_0000 && inode < 0x1_0000_0000
    }
  }

  function Front(r: Record): (b: bytes)
    requires r.Valid()
    ensures |b| == 8
  {
    var (t, s, d) := (r.timers, Be16(r.sourcePort), Be16(r.destinationPort));
    [r.family, r.state, t[0], t[1], s[0], s[1], d[0], d[1]]
  }

  function Back(r: Record): (b: bytes)
    requires r.Valid()
    ensures |b| == 8
  {
    var (u, i) := (Le32(r.uid), Le32(r.inode));
    [u[0], u[1], u[2], u[3], i[0], i[1], i[2], i[3]]
  }

  function EncodeRecord(r: Record): (b: bytes)
    requires r.Valid()
    ensures |b| == RECORD
  {
    Front(r) + (r.source + (r.destination + (r.interface + (r.queues + Back(r)))))
  }

  function DecodeRecord(b: bytes): (r: Record)
    requires |b| >= RECORD
    ensures r.Valid()
  {
    Record(b[0], b[1], b[2..4], ReadBe16(b, 4), ReadBe16(b, 6), b[8..24], b[24..40], b[40..52], b[52..64],
           ReadLe32(b, 64), ReadLe32(b, 68))
  }

  /** Whatever attributes follow, the record comes back field by field. */
  lemma DecodeInvertsEncode(r: Record, attributes: bytes)
    requires r.Valid()
    ensures DecodeRecord(EncodeRecord(r) + attributes) == r
  {
    var b := EncodeRecord(r) + attributes;
    EncodedPieces(r, attributes, b);
    FrontFields(r, b);
    BackFields(r, b);
  }

  /** Where each piece of an encoded record stands. */
  lemma EncodedPieces(r: Record, attributes: bytes, b: bytes)
    requires r.Valid() && b == EncodeRecord(r) + attributes
    ensures |b| >= 72 && b[8..24] == r.source && b[24..40] == r.destination && b[40..52] == r.interface
    ensures b[52..64] == r.queues
    ensures forall i :: 0 <= i < 8 ==> b[i] == Front(r)[i] && b[64 + i] == Back(r)[i]
  {
    var s5 := Back(r) + attributes;
    var s4 := r.queues + s5;
    var s3 := r.interface + s4;
    var s2 := r.destination + s3;
    var s1 := r.source + s2;
    assert b == Front(r) + s1;
    Cut(b, 0, Front(r), s1);
    Cut(b, 8, r.source, s2);
    Cut(b, 24, r.destination, s3);
    Cut(b, 40, r.interface, s4);
    Cut(b, 52, r.queues, s5);
    Cut(b, 64, Back(r), attributes);
    forall i | 0 <= i < 8 ensures b[i] == Front(r)[i] {
      assert b[0 + i] == Front(r)[i];
    }
  }

  lemma FrontFields(r: Record, b: bytes)
    requires r.Valid() && |b| >= 8 && forall i :: 0 <= i < 8 ==> b[i] == Front(r)[i]
    ensures b[0] == r.family && b[1] == r.state && b[2..4] == r.timers
    ensures ReadBe16(b, 4) == r.sourcePort && ReadBe16(b, 6) == r.destinationPort
  {
    var front := Front(r);
    assert b[0] == front[0] && b[1] == front[1] && b[2] == front[2] && b[3] == front[3];
    assert b[4] == front[4] && b[5] == front[5] && b[6] == front[6] && b[7] == front[7];
    Words(r.sourcePort);
    Words(r.destinationPort);
  }

  lemma BackFields(r: Record, b: bytes)
    requires r.Valid() && |b| >= 72 && forall i :: 0 <= i < 8 ==> b[64 + i] == Back(r)[i]
    ensures ReadLe32(b, 64) == r.uid && ReadLe32(b, 68) == r.inode
  {
    forall i | 0 <= i < 4 ensures b[64 + i] == Le32(r.uid)[i] && b[68 + i] == Le32(r.inode)[i] {
      assert b[64 + i] == Back(r)[i] && b[64 + (4 + i)] == Back(r)[4 + i];
    }
    ReadAt32(b, 64, r.uid);
    ReadAt32(b, 68, r.inode);
  }

  /** What stands at `at`, and what follows it. */
  lemma Cut(b: bytes, at: nat, piece: bytes, rest: bytes)
    requires at <= |b| && b[at..] == piece + rest
    ensures at + |piece| <= |b| && b[at..at + |piece|] == piece && b[at + |piece|..] == rest
    ensures forall i :: 0 <= i < |piece| ==> b[at + i] == piece[i]
  {
    forall i | 0 <= i < |piece| ensures b[at + i] == piece[i] {
      assert b[at + i] == b[at..][i];
    }
    assert b[at + |piece|..] == b[at..][|piece|..];
  }

  lemma Words(n: nat)
    requires n < 65536
    ensures ReadBe16(Be16(n), 0) == n && ReadLe16(Le16(n), 0) == n
  {
  }

  lemma DoubleWords(n: nat)
    requires n < 0x1_0000_0000
    ensures ReadLe32(Le32(n), 0) == n
  {
  }

  const TCP_STATES: seq<string> := [
    "unknown", "established", "syn-sent", "syn-recv", "fin-wait-1", "fin-wait-2", "time-wait", "close", "close-wait",
    "last-ack", "listen", "closing", "new-syn-recv"]

  function TcpState(state: byte): string {
    if state < 13 then TCP_STATES[state] else "unknown"
  }

  predicate NonZero(b: bytes) {
    exists i :: 0 <= i < |b| && b[i] != 0
  }

  predicate KnownFamily(family: byte) {
    family == AF_INET || family == AF_INET6
  }

  function FamilyOf(family: byte): Family {
    if family == AF_INET then IPv4 else IPv6
  }

  function AddressOf(text: AddressText, family: Family, raw: bytes): string
    requires |raw| == 16
  {
    text(family, if family == IPv4 then raw[..4] else raw)
  }

  function SocketOf(r: Record, protocol: Protocol, text: AddressText): (socket: FreshSocket)
    requires r.Valid()
  {
    var family := FamilyOf(r.family);
    var remote := if r.destinationPort != 0 || NonZero(r.destination)
                  then Some(Endpoint(AddressOf(text, family, r.destination), r.destinationPort)) else None;
    var state := if protocol == Tcp then TcpState(r.state) else if remote.Some? then "connected" else "unconnected";
    SocketInfo(protocol, family, Endpoint(AddressOf(text, family, r.source), r.sourcePort), remote, state,
               r.uid, r.inode, [])
  }

  // ----- one message -----

  datatype Batch = Batch(sockets: seq<FreshSocket>, done: bool)

  const EMPTY := Batch([], false)

  function Join(a: Batch, b: Batch): Batch {
    Batch(a.sockets + b.sockets, a.done || b.done)
  }

  /** The first failure wins; otherwise the batches are joined. */
  function JoinResults(a: Result<Batch>, b: Result<Batch>): Result<Batch> {
    match a
    case Failure(_) => a
    case Success(first) =>
      match b
      case Failure(_) => b
      case Success(second) => Success(Join(first, second))
  }

  function Length(data: bytes): nat
    requires |data| >= HEADER
  {
    ReadLe32(data, 0)
  }

  function Sequence(data: bytes): nat
    requires |data| >= HEADER
  {
    ReadLe32(data, 8)
  }

  /** The NLM_F_DUMP_INTR bit. */
  predicate DumpInterrupted(flags: nat) {
    flags / NLM_F_DUMP_INTR % 2 == 1
  }

  /** One message of exactly its stated length, header included. */
  function ParseMessage(message: bytes, sequence: nat, protocol: Protocol, text: AddressText): Result<Batch>
    requires |message| >= HEADER
  {
    var kind := ReadLe16(message, 4);
    var flags := ReadLe16(message, 6);
    var payload := message[HEADER..];
    if Sequence(message) != sequence then Fail(ProtocolError)
    else if kind == NLMSG_DONE then
      if DumpInterrupted(flags) then Fail(ProtocolError) else Success(Batch([], true))
    else if kind == NLMSG_ERROR then
      if |payload| < ERROR_BODY || ReadLe32(payload, 0) != 0 then Fail(ProtocolError) else Success(EMPTY)
    else if kind == NLMSG_OVERRUN then Fail(ProtocolError)
    else if |payload| < RECORD then Fail(ProtocolError)
    else
      var record := DecodeRecord(payload);
      if !KnownFamily(record.family) then Fail(ProtocolError)
      else Success(Batch([SocketOf(record, protocol, text)], false))
  }

  /** Numbers are read byte by byte: the header's and the record's from the low end, ports from the high end. */
  lemma ReadsBytes(b: bytes, at: nat)
    requires at + 4 <= |b|
    ensures ReadLe16(b, at) == ByteAt(b, at) + 256 * ByteAt(b, at + 1)
    ensures ReadLe32(b, at)
         == ByteAt(b, at) + 256 * ByteAt(b, at + 1) + 65536 * ByteAt(b, at + 2) + 16777216 * ByteAt(b, at + 3)
    ensures ByteAt(b, at) == b[at]
    ensures ReadBe16(b, at) == 256 * ByteAt(b, at) + ByteAt(b, at + 1)
  {
  }

  lemma InterruptedExactly(flags: nat, low: byte, high: byte)
    requires flags == low + 256 * high
    ensures DumpInterrupted(flags) <==> low / 16 % 2 == 1
  {
    assert flags / 16 == low / 16 + 16 * high;
  }

  /** A message is accepted exactly when it carries the expected sequence number and is a DONE (3) whose dump was not
      interrupted (flag bit 16), an ERROR (2) with a whole body that says zero, or, unless it reports an overrun (4), a
      whole record of an IPv4 or IPv6 socket. Only DONE ends the dump, and only a record yields a socket. */
  lemma MessageExactly(message: bytes, sequence: nat, protocol: Protocol, text: AddressText)
    requires |message| >= 16
    ensures var kind := ReadLe16(message, 4);
            var r := ParseMessage(message, sequence, protocol, text);
            && (r.Success? <==>
                  && ReadLe32(message, 8) == sequence
                  && (|| (kind == 3 && message[6] / 16 % 2 == 0)
                      || (kind == 2 && |message| >= 36 && message[16] == message[17] == message[18] == message[19] == 0)
                      || (kind != 2 && kind != 3 && kind != 4 && |message| >= 88 && (message[16] == 2 || message[16] == 10))))
            && (r.Success? ==> (r.value.done <==> kind == 3) && |r.value.sockets| == if kind == 2 || kind == 3 then 0 else 1)
            && (r.Failure? ==> r.error.code == ProtocolError)
  {
    var payload := message[HEADER..];
    ReadsBytes(message, 4);
    ReadsBytes(message, 6);
    ReadsBytes(message, 8);
    InterruptedExactly(ReadLe16(message, 6), message[6], message[7]);
    if |payload| >= 4 {
      ReadsBytes(payload, 0);
      assert payload[0] == message[16] && payload[1] == message[17] && payload[2] == message[18] && payload[3] == message[19];
    }
  }

  /** Which bytes of a message each field of its socket comes from: offsets count from the start of the message. */
  lemma WireLayout(message: bytes, sequence: nat, protocol: Protocol, text: AddressText)
    requires |message| >= 88 && !(2 <= ReadLe16(message, 4) <= 4)
    requires ParseMessage(message, sequence, protocol, text).Success?
    ensures |ParseMessage(message, sequence, protocol, text).value.sockets| == 1
    ensures var s := ParseMessage(message, sequence, protocol, text).value.sockets[0];
            var size := if message[16] == 2 then 4 else 16;
            && s.protocol == protocol && (s.family == IPv4 <==> message[16] == 2)
            && s.local == Endpoint(text(s.family, message[24..24 + size]), ReadBe16(message, 20))
            && (s.remote.None? <==> message[22] == message[23] == 0 && forall i :: 40 <= i < 56 ==> message[i] == 0)
            && (s.remote.Some? ==>
                  s.remote.value == Endpoint(text(s.family, message[40..40 + size]), ReadBe16(message, 22)))
            && s.uid == ReadLe32(message, 80)
            && s.inode == ReadLe32(message, 84)
            && (protocol == Udp ==> s.state == if s.remote.Some? then "connected" else "unconnected")
            && (protocol == Tcp ==> s.state == TcpState(message[17])) && s.ownerPids == []
  {
    RecordSlices(message);
    RecordNumbers(message);
  }

  lemma RecordSlices(message: bytes)
    requires |message| >= 88
    ensures var payload := message[16..];
            && payload[8..24] == message[24..40] && payload[24..40] == message[40..56]
            && payload[8..24][..4] == message[24..28] && payload[24..40][..4] == message[40..44]
            && (NonZero(payload[24..40]) <==> exists i :: 40 <= i < 56 && message[i] != 0)
  {
    Front4(message, 24, 40);
    Front4(message, 40, 56);
    var destination := message[40..56];
    assert forall i :: 40 <= i < 56 ==> message[i] == destination[i - 40];
    assert forall i :: 0 <= i < 16 ==> destination[i] == message[40 + i];
  }

  lemma RecordNumbers(message: bytes)
    requires |message| >= 88
    ensures var payload := message[16..];
            && payload[0] == message[16] && payload[1] == message[17]
            && ReadBe16(payload, 4) == ReadBe16(message, 20) && ReadBe16(payload, 6) == ReadBe16(message, 22)
            && ReadLe32(payload, 64) == ReadLe32(message, 80) && ReadLe32(payload, 68) == ReadLe32(message, 84)
            && (ReadBe16(message, 22) == 0 <==> message[22] == message[23] == 0)
  {
  }

  lemma Front4(b: bytes, from: nat, to: nat)
    requires from + 4 <= to <= |b|
    ensures b[from..to][..4] == b[from..from + 4]
  {
  }

  /** The names of the TCP states, by number. */
  lemma TcpStateNames(state: byte)
    ensures TcpState(1) == "established" && TcpState(2) == "syn-sent" && TcpState(3) == "syn-recv"
    ensures TcpState(4) == "fin-wait-1" && TcpState(5) == "fin-wait-2" && TcpState(6) == "time-wait"
    ensures TcpState(7) == "close" && TcpState(8) == "close-wait" && TcpState(9) == "last-ack"
    ensures TcpState(10) == "listen" && TcpState(11) == "closing" && TcpState(12) == "new-syn-recv"
    ensures state == 0 || state > 12 ==> TcpState(state) == "unknown"
  {
  }

  // ----- a datagram -----

  predicate Fits(data: bytes) {
    |data| >= HEADER && HEADER <= Length(data) <= |data|
  }

  /** The reference parser, by recursion on the rest of the datagram. */
  function Parse(data: bytes, sequence: nat, protocol: Protocol, text: AddressText): Result<Batch>
    requires |data| <= BUFFER
    decreases |data|
  {
    if data == [] then Success(EMPTY)
    else if !Fits(data) then Fail(ProtocolError)
    else
      var length := Length(data);
      var first := ParseMessage(data[..length], sequence, protocol, text);
      AlignExactly(length);
      if first.Failure? then first
      else if Align(length) > |data| then
        if length != |data| then Fail(ProtocolError) else first
      else
        JoinResults(first, Parse(data[Align(length)..], sequence, protocol, text))
  }

  /** One turn of the loop: reads the message at `offset` and says where the next one starts. */
  method NextMessage(data: bytes, offset: nat, sequence: nat, protocol: Protocol, text: AddressText)
    returns (message: Result<Batch>, next: nat)
    requires offset < |data| <= BUFFER
    ensures message.Failure? ==> Parse(data[offset..], sequence, protocol, text) == message
    ensures message.Success? ==>
              && offset + HEADER <= next <= |data|
              && Parse(data[offset..], sequence, protocol, text)
                 == JoinResults(message, Parse(data[next..], sequence, protocol, text))
  {
    ghost var rest := data[offset..];
    next := offset;
    if |data| - offset < HEADER {
      return Fail(ProtocolError), next;
    }
    assert rest[0..4] == data[offset..offset + 4];
    var length := ReadLe32(data, offset);
    assert length == Length(rest);
    if length < HEADER || length > |data| - offset {
      return Fail(ProtocolError), next;
    }
    assert rest[..length] == data[offset..offset + length];
    message := ParseMessage(data[offset..offset + length], sequence, protocol, text);
    if message.Success? {
      AlignExactly(length);
      var aligned := Align(length);
      if aligned > |data| - offset {
        next := |data|;
        assert data[next..] == [];
        JoinAssociates(message.value, EMPTY, Success(EMPTY));
        if length != |data| - offset { message := Fail(ProtocolError); }
      } else {
        next := offset + aligned;
        assert rest[aligned..] == data[next..];
      }
    }
  }

  method ParseInetDiagDatagram(data: bytes, sequence: nat, protocol: Protocol, text: AddressText)
    returns (r: Result<Batch>)
    requires |data| <= 65536
    ensures r == Parse(data, sequence, protocol, text)
  {
    var batch := EMPTY;
    var offset := 0;
    assert data[0..] == data;
    JoinAssociates(EMPTY, EMPTY, Parse(data, sequence, protocol, text));
    while offset < |data|
      invariant 0 <= offset <= |data|
      invariant Parse(data, sequence, protocol, text)
             == JoinResults(Success(batch), Parse(data[offset..], sequence, protocol, text))
      decreases |data| - offset
    {
      var message, next := NextMessage(data, offset, sequence, protocol, text);
      if message.Failure? {
        return message;
      }
      JoinAssociates(batch, message.value, Parse(data[next..], sequence, protocol, text));
      batch := Join(batch, message.value);
      offset := next;
    }
    assert data[offset..] == [];
    JoinAssociates(batch, EMPTY, Success(EMPTY));
    r := Success(batch);
  }

  /** A datagram whose next message cannot be whole is refused: less than a header is left, or the message says it is
      shorter than its header or longer than what is left. An empty one is a batch of nothing. */
  lemma CutOffFails(data: bytes, sequence: nat, protocol: Protocol, text: AddressText)
    requires |data| <= 65536
    ensures data == [] ==> Parse(data, sequence, protocol, text) == Success(Batch([], false))
    ensures 0 < |data| < 16 ==> Parse(data, sequence, protocol, text) == Fail(ProtocolError)
    ensures |data| >= 16 && !(16 <= ReadLe32(data, 0) <= |data|) ==>
              Parse(data, sequence, protocol, text) == Fail(ProtocolError)
  {
    if |data| >= 16 { ReadsBytes(data, 0); }
  }

  /** Every socket reported takes up at least 88 bytes of the datagram. */
  lemma {:induction false} SocketsFitTheDatagram(data: bytes, sequence: nat, protocol: Protocol, text: AddressText)
    requires |data| <= BUFFER && Parse(data, sequence, protocol, text).Success?
    ensures 88 * |Parse(data, sequence, protocol, text).value.sockets| <= |data|
    decreases |data|
  {
    if data != [] {
      AlignExactly(Length(data));
      if Align(Length(data)) <= |data| {
        SocketsFitTheDatagram(data[Align(Length(data))..], sequence, protocol, text);
      }
    }
  }

  lemma JoinAssociates(a: Batch, b: Batch, r: Result<Batch>)
    ensures JoinResults(Success(a), JoinResults(Success(b), r)) == JoinResults(Success(Join(a, b)), r)
    ensures JoinResults(Success(a), Success(EMPTY)) == Success(a)
    ensures JoinResults(Success(EMPTY), r) == r
  {
    if r.Success? {
      assert a.sockets + (b.sockets + r.value.sockets) == a.sockets + b.sockets + r.value.sockets;
      assert [] + r.value.sockets == r.value.sockets;
    }
    assert a.sockets + [] == a.sockets;
  }

  // ----- concatenation -----

  /** `data` is cut by its own length fields into messages that are all padded to alignment. */
  predicate Framed(data: bytes)
    decreases |data|
  {
    data == []
    || (|data| <= BUFFER && Fits(data) && Align(Length(data)) <= |data| && Framed(data[Align(Length(data))..]))
  }

  /** Parsing an aligned concatenation combines the two parses. */
  lemma {:induction false} ParseConcat(a: bytes, b: bytes, sequence: nat, protocol: Protocol, text: AddressText)
    requires Framed(a) && |a + b| <= BUFFER
    ensures Parse(a + b, sequence, protocol, text)
         == JoinResults(Parse(a, sequence, protocol, text), Parse(b, sequence, protocol, text))
    decreases |a|
  {
    if a == [] {
      assert a + b == b;
      JoinAssociates(EMPTY, EMPTY, Parse(b, sequence, protocol, text));
    } else {
      var length := Length(a);
      var aligned := Align(length);
      assert Length(a + b) == length;
      assert (a + b)[..length] == a[..length];
      assert (a + b)[aligned..] == a[aligned..] + b;
      ParseConcat(a[aligned..], b, sequence, protocol, text);
      var first := ParseMessage(a[..length], sequence, protocol, text);
      var middle := Parse(a[aligned..], sequence, protocol, text);
      if first.Success? && middle.Success? {
        JoinAssociates(first.value, middle.value, Parse(b, sequence, protocol, text));
      }
    }
  }

  // ----- round trip -----

  /** The messages a kernel sends in a dump that goes well. */
  datatype Message =
    | Done(flags: nat, payload: bytes)
    | Acknowledgement(flags: nat, payload: bytes)
    | Socket(kind: nat, flags: nat, record: Record, attributes: bytes)
  {
    predicate Valid() {
      match this
      case Done(flags, payload) => flags < 65536 && !DumpInterrupted(flags)
      case Acknowledgement(flags, payload) => flags < 65536 && |payload| >= ERROR_BODY && ReadLe32(payload, 0) == 0
      case Socket(kind, flags, record, attributes) =>
        && kind < 65536 && kind !in {NLMSG_DONE, NLMSG_ERROR, NLMSG_OVERRUN}
        && flags < 65536 && record.Valid() && KnownFamily(record.family)
    }

    function Kind(): nat {
      match this
      case Done(_, _) => NLMSG_DONE
      case Acknowledgement(_, _) => NLMSG_ERROR
      case Socket(kind, _, _, _) => kind
    }

    function Payload(): bytes
      requires Valid()
    {
      match this
      case Done(_, payload) => payload
      case Acknowledgement(_, payload) => payload
      case Socket(_, _, record, attributes) => EncodeRecord(record) + attributes
    }

    /** The message without padding. */
    function Encode(sequence: nat, sender: nat): (b: bytes)
      requires Valid()
      ensures |b| == HEADER + |Payload()|
    {
      Header(HEADER + |Payload()|, Kind(), flags, sequence, sender) + Payload()
    }

    function Meaning(protocol: Protocol, text: AddressText): Batch
      requires Valid()
    {
      match this
      case Done(_, _) => Batch([], true)
      case Acknowledgement(_, _) => EMPTY
      case Socket(_, _, record, _) => Batch([SocketOf(record, protocol, text)], false)
    }
  }

  function Padding(length: nat): nat {
    (4 - length % 4) % 4
  }

  lemma MessageRoundTrip(m: Message, sequence: nat, sender: nat, protocol: Protocol, text: AddressText)
    requires m.Valid() && sequence < 0x1_0000_0000 && HEADER + |m.Payload()| <= BUFFER
    ensures Length(m.Encode(sequence, sender)) == |m.Encode(sequence, sender)|
    ensures ParseMessage(m.Encode(sequence, sender), sequence, protocol, text) == Success(m.Meaning(protocol, text))
  {
    HeaderFields(HEADER + |m.Payload()|, m.Kind(), m.flags, sequence, sender, m.Payload());
    if m.Socket? { DecodeInvertsEncode(m.record, m.attributes); }
  }

  datatype Padded = Padded(message: Message, sender: nat, padding: bytes) {
    predicate Valid(sequence: nat) {
      message.Valid() && |padding| == Padding(|message.Encode(sequence, sender)|)
    }

    function Bytes(sequence: nat): bytes
      requires Valid(sequence)
    {
      message.Encode(sequence, sender) + padding
    }
  }

  function EncodeAll(items: seq<Padded>, sequence: nat): bytes
    requires forall i :: 0 <= i < |items| ==> items[i].Valid(sequence)
  {
    if items == [] then []
    else items[0].Bytes(sequence) + EncodeAll(items[1..], sequence)
  }

  function MeaningOf(items: seq<Padded>, protocol: Protocol, text: AddressText): Batch
    requires forall i :: 0 <= i < |items| ==> items[i].message.Valid()
  {
    if items == [] then EMPTY
    else Join(items[0].message.Meaning(protocol, text), MeaningOf(items[1..], protocol, text))
  }

  lemma OnePadded(item: Padded, sequence: nat, protocol: Protocol, text: AddressText)
    requires item.Valid(sequence) && sequence < 0x1_0000_0000
    requires |item.Bytes(sequence)| <= BUFFER
    ensures Framed(item.Bytes(sequence))
    ensures Parse(item.Bytes(sequence), sequence, protocol, text) == Success(item.message.Meaning(protocol, text))
  {
    var m := item.message.Encode(sequence, item.sender);
    MessageRoundTrip(item.message, sequence, item.sender, protocol, text);
    ParseLast(m, item.padding, sequence, protocol, text);
  }

  lemma PaddedLength(m: bytes, padding: bytes)
    requires |m| >= HEADER && Length(m) == |m| <= BUFFER
    ensures Length(m + padding) == |m| && (m + padding)[..|m|] == m
    ensures Align(|m|) == |m| + Padding(|m|)
  {
    AlignPads(|m|);
  }

  lemma AlignPads(length: nat)
    requires length <= BUFFER
    ensures Align(length) == length + Padding(length)
  {
  }

  /** A datagram that is one message and some of its padding. */
  lemma ParseLast(m: bytes, padding: bytes, sequence: nat, protocol: Protocol, text: AddressText)
    requires |m| >= HEADER && Length(m) == |m| && |padding| <= Padding(|m|) && |m| + Padding(|m|) <= BUFFER
    ensures |padding| == Padding(|m|) ==> Framed(m + padding)
    ensures Parse(m + padding, sequence, protocol, text)
         == if padding == [] || |padding| == Padding(|m|) then ParseMessage(m, sequence, protocol, text)
            else Fail(ProtocolError)
  {
    var b := m + padding;
    PaddedLength(m, padding);
    var first := ParseMessage(m, sequence, protocol, text);
    MessageFailure(m, sequence, protocol, text);
    if |padding| == Padding(|m|) {
      assert b[Align(|m|)..] == [];
      assert Parse([], sequence, protocol, text) == Success(EMPTY);
      if first.Success? { JoinAssociates(first.value, EMPTY, Success(EMPTY)); }
    }
  }

  lemma MessageFailure(m: bytes, sequence: nat, protocol: Protocol, text: AddressText)
    requires |m| >= HEADER
    ensures ParseMessage(m, sequence, protocol, text).Failure?
        ==> ParseMessage(m, sequence, protocol, text) == Fail(ProtocolError)
  {
  }

  /** Parsing the aligned concatenation of any well-formed messages returns their sockets, in order, and is done
      when one of them is DONE. */
  lemma {:induction false} DatagramRoundTrip(items: seq<Padded>, sequence: nat, protocol: Protocol, text: AddressText)
    requires forall i :: 0 <= i < |items| ==> items[i].Valid(sequence)
    requires sequence < 0x1_0000_0000 && |EncodeAll(items, sequence)| <= BUFFER
    ensures Framed(EncodeAll(items, sequence))
    ensures Parse(EncodeAll(items, sequence), sequence, protocol, text) == Success(MeaningOf(items, protocol, text))
  {
    if items != [] {
      var first := items[0].Bytes(sequence);
      var rest := EncodeAll(items[1..], sequence);
      OnePadded(items[0], sequence, protocol, text);
      DatagramRoundTrip(items[1..], sequence, protocol, text);
      ParseConcat(first, rest, sequence, protocol, text);
      FramedConcat(first, rest);
    }
  }

  lemma {:induction false} FramedConcat(a: bytes, b: bytes)
    requires Framed(a) && Framed(b) && |a + b| <= BUFFER
    ensures Framed(a + b)
    decreases |a|
  {
    if a == [] {
      assert a + b == b;
    } else {
      assert Length(a + b) == Length(a);
      assert (a + b)[Align(Length(a))..] == a[Align(Length(a))..] + b;
      FramedConcat(a[Align(Length(a))..], b);
    }
  }

  lemma {:induction false} MeaningDone(items: seq<Padded>, protocol: Protocol, text: AddressText)
    requires forall i :: 0 <= i < |items| ==> items[i].message.Valid()
    ensures MeaningOf(items, protocol, text).done <==> exists i :: 0 <= i < |items| && items[i].message.Done?
  {
    if items != [] {
      MeaningDone(items[1..], protocol, text);
      if i :| 0 <= i < |items| && items[i].message.Done? {
        if i > 0 { assert items[1..][i - 1].message.Done?; }
      }
    }
  }

  /** A last message cut short of its padding is accepted only when it ends exactly at the end of the buffer. */
  lemma PartlyPaddedLast(a: bytes, item: Padded, kept: nat, sequence: nat, protocol: Protocol, text: AddressText)
    requires Framed(a) && item.Valid(sequence) && kept <= |item.padding| && sequence < 0x1_0000_0000
    requires |a| + |item.Bytes(sequence)| <= BUFFER
    ensures var b := item.message.Encode(sequence, item.sender) + item.padding[..kept];
            Parse(a + b, sequence, protocol, text)
              == if kept == 0 || kept == |item.padding|
                 then JoinResults(Parse(a, sequence, protocol, text), Success(item.message.Meaning(protocol, text)))
                 else Fail(ProtocolError)
  {
    var m := item.message.Encode(sequence, item.sender);
    MessageRoundTrip(item.message, sequence, item.sender, protocol, text);
    PartlyPaddedAfter(a, m, item.padding[..kept], sequence, protocol, text);
  }

  lemma PartlyPaddedAfter(a: bytes, m: bytes, padding: bytes, sequence: nat, protocol: Protocol, text: AddressText)
    requires Framed(a) && |m| >= HEADER && Length(m) == |m| && |padding| <= Padding(|m|)
    requires |a| + |m| + Padding(|m|) <= BUFFER
    ensures Parse(a + (m + padding), sequence, protocol, text)
         == if padding == [] || |padding| == Padding(|m|)
            then JoinResults(Parse(a, sequence, protocol, text), ParseMessage(m, sequence, protocol, text))
            else Fail(ProtocolError)
  {
    ParseConcat(a, m + padding, sequence, protocol, text);
    ParseLast(m, padding, sequence, protocol, text);
    if a == [] { JoinAssociates(EMPTY, EMPTY, ParseMessage(m, sequence, protocol, text)); }
    FailsAlike(a, sequence, protocol, text);
  }

  lemma {:induction false} FailsAlike(a: bytes, sequence: nat, protocol: Protocol, text: AddressText)
    requires |a| <= BUFFER
    ensures Parse(a, sequence, protocol, text).Failure? ==> Parse(a, sequence, protocol, text) == Fail(ProtocolError)
    decreases |a|
  {
    if a != [] && Fits(a) {
      MessageFailure(a[..Length(a)], sequence, protocol, text);
      AlignExactly(Length(a));
      if Align(Length(a)) <= |a| { FailsAlike(a[Align(Length(a))..], sequence, protocol, text); }
    }
  }

  // ----- whose messages they are -----

  /** Every message the parser reaches carries this sequence number. */
  predicate AllOwn(data: bytes, sequence: nat)
    requires |data| <= BUFFER
    decreases |data|
  {
    data == []
    || (&& Fits(data) && Sequence(data) == sequence
        && (Align(Length(data)) <= |data| ==> AllOwn(data[Align(Length(data))..], sequence)))
  }

  /** A datagram with a message of another dump is never accepted, wherever in it that message stands. */
  lemma {:induction false} AcceptedIsOwn(data: bytes, sequence: nat, protocol: Protocol, text: AddressText)
    requires |data| <= BUFFER && Parse(data, sequence, protocol, text).Success?
    ensures AllOwn(data, sequence)
    decreases |data|
  {
    if data != [] {
      var length := Length(data);
      assert Sequence(data[..length]) == Sequence(data);
      if Align(length) <= |data| {
        AcceptedIsOwn(data[Align(length)..], sequence, protocol, text);
      }
    }
  }

  // ----- the request -----

  const SOCK_DIAG_BY_FAMILY := 20
  const REQUEST_DUMP := 0x301
  const NO_COOKIE := 0xFFFF_FFFF

  function Zeros(n: nat): (b: bytes)
    ensures |b| == n
  {
    seq(n, _ => 0)
  }

  function RequestBody(family: Family, protocol: Protocol, states: nat): (b: bytes)
    ensures |b| == 56
  {
    var (m, c) := (Le32(states), Le32(NO_COOKIE));
    [if family == IPv4 then AF_INET else AF_INET6, if protocol == Tcp then 6 else 17, 0, 0, m[0], m[1], m[2], m[3]]
    + Zeros(40) + [c[0], c[1], c[2], c[3], c[0], c[1], c[2], c[3]]
  }

  function BuildRequest(family: Family, protocol: Protocol, sequence: nat, states: nat): bytes {
    Header(HEADER + 56, SOCK_DIAG_BY_FAMILY, REQUEST_DUMP, sequence, 0) + RequestBody(family, protocol, states)
  }

  /** A request is one message of 72 bytes that asks for a dump (20, flags 0x301) of one family and protocol, in the
      states of its mask, of any address and port, and with no cookie. */
  lemma RequestLayout(family: Family, protocol: Protocol, sequence: nat, states: nat)
    ensures BuildRequest(family, protocol, sequence, states)
         == [72, 0, 0, 0, 20, 0, 1, 3] + Le32(sequence) + [0, 0, 0, 0]
            + ([if family == IPv4 then 2 else 10, if protocol == Tcp then 6 else 17, 0, 0] + Le32(states)
               + seq(40, _ => 0) + [255, 255, 255, 255, 255, 255, 255, 255])
  {
    RequestHeader(sequence);
    assert Le32(NO_COOKIE) == [255, 255, 255, 255];
    assert Zeros(40) == seq(40, _ => 0);
  }

  lemma RequestHeader(sequence: nat)
    ensures Header(72, 20, 0x301, sequence, 0) == [72, 0, 0, 0, 20, 0, 1, 3] + Le32(sequence) + [0, 0, 0, 0]
  {
    LowBytes(72);
    LowBytes(0);
  }

  lemma LowBytes(n: byte)
    ensures Le32(n) == [n, 0, 0, 0]
  {
  }

  lemma ReadAt32(b: bytes, at: nat, n: nat)
    requires at + 4 <= |b| && (forall i :: 0 <= i < 4 ==> b[at + i] == Le32(n)[i]) && n < 0x1_0000_0000
    ensures ReadLe32(b, at) == n
  {
    assert b[at + 0] == Le32(n)[0] && b[at + 1] == Le32(n)[1] && b[at + 2] == Le32(n)[2] && b[at + 3] == Le32(n)[3];
    DoubleWords(n);
  }

  lemma ReadAt16(b: bytes, at: nat, n: nat)
    requires at + 2 <= |b| && (forall i :: 0 <= i < 2 ==> b[at + i] == Le16(n)[i]) && n < 65536
    ensures ReadLe16(b, at) == n
  {
    assert b[at + 0] == Le16(n)[0] && b[at + 1] == Le16(n)[1];
    Words(n);
  }
}
