/**
 * The framing and reassembly engine of a KableConnection, as functions of a
 * snapshot of the connection's state. The class in module Connection is
 * proved to follow these functions step by step; the lemmas here state what
 * the steps do.
 *
 * The functions follow the code as written, quirks included: the TCP
 * accumulator is cleared (not trimmed) after a delivery, the delivery test
 * uses the byte count taken before the prefix was stripped, a UDP read is
 * appended to the TCP accumulator, and a UDP delivery resets the TCP pending
 * frame.
 */
module Framing {
  import opened Wrappers
  import opened ByteOrder

  /** A frame whose length prefix has been read but which is not yet delivered. */
  datatype PendingPacket = PendingPacket(PayloadSize: int, CurrentPayload: seq<byte>)

  /** The events a connection raises, in the order it raises them. */
  datatype Event =
    | ConnectedEvent
    | ConnectErroredEvent
    | ConnectionErroredEvent
    | PacketReadyEvent(packet: seq<byte>)

  /**
   * What one reassembly step ends with: EXIT and CONTINUE of
   * `ProcessedResultType`, or Throw when `List.GetRange` throws an exception
   * that nothing catches (a negative size, or fewer bytes left than the size).
   */
  datatype StepOutcome = Exit | Continue | Throw

  /** How a drain ends: normally, or by an uncaught exception from a step. */
  datatype DrainOutcome = Completed | Threw

  /** The state of one connection that the framing engine reads and writes. */
  datatype ConnectionState = ConnectionState(
    connected: bool,
    closed: bool,
    backgroundProcessing: bool,
    maxProcessIterations: int,
    tcpPacketBuffer: seq<byte>,
    tcpPendingPacket: Option<PendingPacket>,
    udpPacketBuffer: seq<byte>,
    udpPendingPacket: Option<PendingPacket>,
    events: seq<Event>)

  /** A connection as its client-side constructor leaves it. */
  function Initial(): (s: ConnectionState)
    ensures !s.connected && !s.closed && !s.backgroundProcessing && s.maxProcessIterations == 5
    ensures s.tcpPacketBuffer == [] && s.udpPacketBuffer == [] && s.events == []
    ensures s.tcpPendingPacket.None? && s.udpPendingPacket.None?
  {
    ConnectionState(false, false, false, 5, [], None, [], None, [])
  }

  /** The `(uint)Count` cast of the send path: a truncation modulo 2^32. */
  function UIntCount(n: nat): (r: int)
    ensures 0 <= r < TwoTo32
    ensures n < TwoTo32 ==> r == n
  {
    n % TwoTo32
  }

  /** The bytes the send path hands to the socket: length prefix, then the payload. */
  function Frame(payload: seq<byte>): seq<byte>
  {
    UInt32ToBytes(UIntCount(|payload|)) + payload
  }

  /** The events a delivery raises: PacketReady, then ConnectionErrored if a subscriber threw. */
  function Deliver(payload: seq<byte>, subscriberFaults: bool): (r: seq<Event>)
    ensures |r| == if subscriberFaults then 2 else 1
    ensures r[0] == PacketReadyEvent(payload)
    ensures forall i :: 1 <= i < |r| ==> r[i] == ConnectionErroredEvent
  {
    [PacketReadyEvent(payload)] + if subscriberFaults then [ConnectionErroredEvent] else []
  }

  /** How many PacketReady events a log holds. */
  function PacketsIn(events: seq<Event>): nat
  {
    if events == [] then 0
    else (if events[|events| - 1].PacketReadyEvent? then 1 else 0) + PacketsIn(events[..|events| - 1])
  }

  lemma {:induction false} PacketsInAppend(a: seq<Event>, b: seq<Event>)
    ensures PacketsIn(a + b) == PacketsIn(a) + PacketsIn(b)
    decreases |b|
  {
    if b == [] {
      assert a + b == a;
    } else {
      assert (a + b)[..|a + b| - 1] == a + b[..|b| - 1];
      PacketsInAppend(a, b[..|b| - 1]);
    }
  }

  lemma DeliverHoldsOnePacket(payload: seq<byte>, subscriberFaults: bool)
    ensures PacketsIn(Deliver(payload, subscriberFaults)) == 1
  {
    var d := Deliver(payload, subscriberFaults);
    assert d[..1] == [PacketReadyEvent(payload)];
    assert d[..1][..0] == [];
    assert PacketsIn(d[..1]) == 1;
    if subscriberFaults {
      assert d[..|d| - 1] == d[..1];
      assert !d[|d| - 1].PacketReadyEvent?;
    } else {
      assert d == d[..1];
    }
  }

  /** Everything a step may change is the framing state and the event log. */
  ghost predicate SameConnection(s: ConnectionState, t: ConnectionState)
  {
    t.connected == s.connected && t.closed == s.closed &&
    t.backgroundProcessing == s.backgroundProcessing &&
    t.maxProcessIterations == s.maxProcessIterations
  }

  /** The log of `t` is the log of `s` followed by at most one delivery. */
  ghost predicate AtMostOneDelivery(s: ConnectionState, t: ConnectionState)
  {
    |s.events| <= |t.events| && t.events[..|s.events|] == s.events &&
    PacketsIn(t.events[|s.events|..]) <= 1
  }

  /**
   * One call of `ProcessBufferTcp`. The count is taken once, before the
   * prefix is stripped, and the delivery test compares that count with the
   * declared size. A delivery clears the whole TCP accumulator.
   */
  function TcpStep(s: ConnectionState, subscriberFaults: bool): (r: (StepOutcome, ConnectionState))
    ensures SameConnection(s, r.1) && r.1.udpPacketBuffer == s.udpPacketBuffer
    ensures r.1.udpPendingPacket == s.udpPendingPacket
    ensures (s.tcpPacketBuffer == [] || s.closed) ==> r == (Exit, s)
    ensures (s.tcpPendingPacket.None? && |s.tcpPacketBuffer| < HeaderSize) ==> r == (Exit, s)
    ensures r.0 == Exit ==> r.1 == s
  {
    var count := |s.tcpPacketBuffer|;
    if count <= 0 || s.closed then (Exit, s)
    else if s.tcpPendingPacket.None? && count < HeaderSize then (Exit, s)
    else
      var pending :=
        if s.tcpPendingPacket.None? then PendingPacket(BytesToInt32(s.tcpPacketBuffer), [])
        else s.tcpPendingPacket.value;
      var buffer :=
        if s.tcpPendingPacket.None? then s.tcpPacketBuffer[HeaderSize..] else s.tcpPacketBuffer;
      var parsed := s.(tcpPendingPacket := Some(pending), tcpPacketBuffer := buffer);
      if count < pending.PayloadSize then (Continue, parsed)
      else if pending.PayloadSize < 0 || |buffer| < pending.PayloadSize then (Throw, parsed)
      else
        var payload := pending.CurrentPayload + buffer[..pending.PayloadSize];
        if |payload| >= pending.PayloadSize then
          (Continue, parsed.(events := s.events + Deliver(payload, subscriberFaults),
                             tcpPacketBuffer := [], tcpPendingPacket := None))
        else (Continue, parsed.(tcpPendingPacket := Some(pending.(CurrentPayload := payload))))
  }

  /**
   * One call of `ProcessBufferUdp`. Parsing the prefix clears the UDP
   * accumulator; a delivery drops the delivered bytes from the UDP
   * accumulator, leaves the UDP pending frame in place and resets the TCP
   * pending frame instead.
   */
  function UdpStep(s: ConnectionState, subscriberFaults: bool): (r: (StepOutcome, ConnectionState))
    ensures SameConnection(s, r.1) && r.1.tcpPacketBuffer == s.tcpPacketBuffer
    ensures r.1.tcpPendingPacket == s.tcpPendingPacket || r.1.tcpPendingPacket.None?
    ensures (s.udpPacketBuffer == [] || s.closed) ==> r == (Exit, s)
    ensures (s.udpPendingPacket.None? && |s.udpPacketBuffer| < HeaderSize) ==> r == (Exit, s)
    ensures r.0 == Exit ==> r.1 == s
  {
    var count := |s.udpPacketBuffer|;
    if count <= 0 || s.closed then (Exit, s)
    else if s.udpPendingPacket.None? && count < HeaderSize then (Exit, s)
    else
      var pending :=
        if s.udpPendingPacket.None? then PendingPacket(BytesToInt32(s.udpPacketBuffer), [])
        else s.udpPendingPacket.value;
      var buffer := if s.udpPendingPacket.None? then [] else s.udpPacketBuffer;
      var parsed := s.(udpPendingPacket := Some(pending), udpPacketBuffer := buffer);
      if count < pending.PayloadSize then (Continue, parsed)
      else if pending.PayloadSize < 0 || |buffer| < pending.PayloadSize then (Throw, parsed)
      else
        var payload := pending.CurrentPayload + buffer[..pending.PayloadSize];
        var filled := parsed.(udpPendingPacket := Some(pending.(CurrentPayload := payload)));
        if |payload| >= pending.PayloadSize then
          (Continue, filled.(events := s.events + Deliver(payload, subscriberFaults),
                             udpPacketBuffer := buffer[pending.PayloadSize..], tcpPendingPacket := None))
        else (Continue, filled)
  }

  /**
   * The TCP loop of `ProcessBuffer`: at most `budget` steps, stopping after
   * the first EXIT; an uncaught exception ends the whole call. Returns how it
   * ended and the new state.
   */
  function DrainTcp(s: ConnectionState, budget: int, subscriberFaults: bool): (r: (DrainOutcome, ConnectionState))
    decreases budget
  {
    if budget <= 0 then (Completed, s)
    else
      var step := TcpStep(s, subscriberFaults);
      if step.0 == Exit then (Completed, step.1)
      else if step.0 == Throw then (Threw, step.1)
      else DrainTcp(step.1, budget - 1, subscriberFaults)
  }


  /** The UDP loop of `ProcessBuffer`, the same loop around `UdpStep`. */
  function DrainUdp(s: ConnectionState, budget: int, subscriberFaults: bool): (r: (DrainOutcome, ConnectionState))
    decreases budget
  {
    if budget <= 0 then (Completed, s)
    else
      var step := UdpStep(s, subscriberFaults);
      if step.0 == Exit then (Completed, step.1)
      else if step.0 == Throw then (Threw, step.1)
      else DrainUdp(step.1, budget - 1, subscriberFaults)
  }


  /** `ProcessBuffer`: nothing when closed, else the TCP loop, then (unless it threw) the UDP loop. */
  function ProcessBuffer(s: ConnectionState, subscriberFaults: bool): (r: (DrainOutcome, ConnectionState))
  {
    if s.closed then (Completed, s)
    else
      var tcp := DrainTcp(s, s.maxProcessIterations, subscriberFaults);
      if tcp.0 == Threw then tcp
      else DrainUdp(tcp.1, tcp.1.maxProcessIterations, subscriberFaults)
  }


  /**
   * The part of a read completion before re-arming, on either socket: the
   * first `bytesRead` bytes of the chunk join the TCP accumulator, and a read
   * of zero bytes is reported as a lost connection.
   */
  function Append(s: ConnectionState, bytesRead: int, chunk: seq<byte>): (t: ConnectionState)
    requires 0 <= bytesRead <= |chunk|
  {
    if bytesRead > 0 then s.(tcpPacketBuffer := s.tcpPacketBuffer + chunk[..bytesRead])
    else s.(events := s.events + [ConnectionErroredEvent], connected := false)
  }

  /** The size of the next receive buffer: the prefix width, or the pending frame's whole declared size. */
  function ReceiveSize(pending: Option<PendingPacket>): int
  {
    if pending.None? then HeaderSize else pending.value.PayloadSize
  }

  /**
   * `BeginRecieveTcp` and `BeginRecieveUdp`: nothing when closed; allocating
   * a buffer of negative size throws, which is reported as a connection
   * error; otherwise a read of that many bytes is armed.
   */
  function ArmReceive(s: ConnectionState, pending: Option<PendingPacket>): (r: (Option<nat>, ConnectionState))
  {
    if s.closed then (None, s)
    else if ReceiveSize(pending) < 0 then
      (None, s.(events := s.events + [ConnectionErroredEvent], connected := false))
    else (Some(ReceiveSize(pending)), s)
  }

  /**
   * A whole read completion (`OnTcpRecvCallback`, or `OnUdpRecvCallback` when
   * `udp`): append, then if still connected and open, drain when background
   * processing is on and re-arm the read of the same socket. Returns the size
   * of the re-armed read, whether a drain threw, and the new state.
   */
  function OnRecv(s: ConnectionState, udp: bool, bytesRead: int, chunk: seq<byte>, subscriberFaults: bool)
    : (r: (Option<nat>, bool, ConnectionState))
    requires 0 <= bytesRead <= |chunk|
  {
    if s.closed then (None, false, s)
    else
      var appended := Append(s, bytesRead, chunk);
      if !appended.connected || appended.closed then (None, false, appended)
      else
        var (o, drained) :=
          if appended.backgroundProcessing then ProcessBuffer(appended, subscriberFaults) else (Completed, appended);
        if o == Threw then (None, true, drained)
        else
          var (armed, t) := ArmReceive(drained, if udp then drained.udpPendingPacket else drained.tcpPendingPacket);
          (armed, false, t)
  }

  /**
   * `SendPacketTcpAsync` and `SendPacketUdpAsync`: nothing when closed or not
   * connected; otherwise the frame is handed to the socket, and a socket
   * failure is reported as ConnectErrored and drops the connection.
   */
  function SendFrame(s: ConnectionState, payload: seq<byte>, sendFails: bool): (r: (Option<seq<byte>>, ConnectionState))
  {
    if s.closed || !s.connected then (None, s)
    else if sendFails then (Some(Frame(payload)), s.(events := s.events + [ConnectErroredEvent], connected := false))
    else (Some(Frame(payload)), s)
  }

  /** `Connect`: nothing when closed; a connect that cannot be started is reported as ConnectErrored. */
  function BeginConnect(s: ConnectionState, beginConnectFails: bool): ConnectionState
  {
    if s.closed || !beginConnectFails then s
    else s.(events := s.events + [ConnectErroredEvent], connected := false)
  }

  /**
   * `ConnectCallback`: nothing when closed; a failed handshake raises
   * ConnectErrored; a completed one sets `connected` and raises Connected,
   * and a Connected subscriber that throws turns that into ConnectionErrored
   * and drops the connection. If still connected, both reads are armed.
   */
  function ConnectCompleted(s: ConnectionState, endConnectFails: bool, subscriberFaults: bool)
    : (r: (Option<nat>, Option<nat>, ConnectionState))
  {
    if s.closed then (None, None, s)
    else
      var t :=
        if endConnectFails then s.(events := s.events + [ConnectErroredEvent], connected := false)
        else if subscriberFaults then s.(events := s.events + [ConnectedEvent, ConnectionErroredEvent], connected := false)
        else s.(events := s.events + [ConnectedEvent], connected := true);
      if !t.connected then (None, None, t)
      else
        var (tcpRead, t1) := ArmReceive(t, t.tcpPendingPacket);
        var (udpRead, t2) := ArmReceive(t1, t1.udpPendingPacket);
        (tcpRead, udpRead, t2)
  }

  // ---------------------------------------------------------------------------
  // Properties of the steps
  // ---------------------------------------------------------------------------

  /** The frame is the 4-byte little-endian length, then the payload unchanged. */
  lemma {:induction false} FrameLayout(payload: seq<byte>)
    requires |payload| < TwoTo32
    ensures |Frame(payload)| == HeaderSize + |payload|
    ensures BytesToUInt32(Frame(payload)) == |payload|
    ensures Frame(payload)[HeaderSize..] == payload
  {
    UInt32RoundTrip(|payload|);
    assert Frame(payload)[..HeaderSize] == UInt32ToBytes(|payload|);
  }

  /**
   * A send on an open, connected connection hands over 4 + n bytes: the
   * little-endian length n, then the payload unchanged; a socket failure then
   * raises ConnectErrored and drops the connection, and a send that succeeds
   * changes nothing. On a closed or unconnected connection nothing is sent
   * and nothing changes.
   */
  lemma {:induction false} SendEffect(s: ConnectionState, payload: seq<byte>, sendFails: bool)
    requires |payload| <= MaxListCount
    ensures var (sent, t) := SendFrame(s, payload, sendFails);
      if s.closed || !s.connected then sent.None? && t == s
      else
        sent.Some? && |sent.value| == HeaderSize + |payload| &&
        BytesToInt32(sent.value) == |payload| && sent.value[HeaderSize..] == payload &&
        t == (if sendFails then s.(events := s.events + [ConnectErroredEvent], connected := false) else s)
  {
    FrameLayout(payload);
    LengthPrefixRoundTrip(|payload|);
    assert Frame(payload)[..HeaderSize] == UInt32ToBytes(|payload|);
  }

  /**
   * With no pending frame and at least four bytes buffered, a step reads the
   * declared size from the first four bytes, starts an empty payload and
   * removes exactly those four bytes; when the count is below the size it
   * stops there.
   */
  lemma ParseStep(s: ConnectionState, subscriberFaults: bool)
    requires !s.closed && s.tcpPendingPacket.None? && |s.tcpPacketBuffer| >= HeaderSize
    requires |s.tcpPacketBuffer| < BytesToInt32(s.tcpPacketBuffer)
    ensures TcpStep(s, subscriberFaults) ==
      (Continue, s.(tcpPendingPacket := Some(PendingPacket(BytesToInt32(s.tcpPacketBuffer), [])),
                    tcpPacketBuffer := s.tcpPacketBuffer[HeaderSize..]))
  {
  }

  /**
   * A pending frame whose declared size is covered by the buffer is
   * delivered: one PacketReady with the payload so far and the first
   * `PayloadSize` bytes, no pending frame, an empty TCP accumulator.
   */
  lemma DeliverStep(s: ConnectionState, subscriberFaults: bool)
    requires !s.closed && s.tcpPendingPacket.Some? && s.tcpPacketBuffer != []
    requires 0 <= s.tcpPendingPacket.value.PayloadSize <= |s.tcpPacketBuffer|
    ensures var p := s.tcpPendingPacket.value;
      TcpStep(s, subscriberFaults) ==
        (Continue, s.(events := s.events + Deliver(p.CurrentPayload + s.tcpPacketBuffer[..p.PayloadSize], subscriberFaults),
                      tcpPacketBuffer := [], tcpPendingPacket := None))
  {
  }

  /**
   * With no pending frame, a prefix whose size n the bytes after it cover is
   * parsed and the frame delivered in the same step: one PacketReady of the
   * n bytes after the prefix, no pending frame, an empty TCP accumulator.
   */
  lemma ParseAndDeliverStep(s: ConnectionState, subscriberFaults: bool)
    requires !s.closed && s.tcpPendingPacket.None? && |s.tcpPacketBuffer| >= HeaderSize
    requires 0 <= BytesToInt32(s.tcpPacketBuffer) <= |s.tcpPacketBuffer| - HeaderSize
    ensures var b := s.tcpPacketBuffer;
      var n := BytesToInt32(b);
      TcpStep(s, subscriberFaults) ==
        (Continue, s.(events := s.events + Deliver(b[HeaderSize..HeaderSize + n], subscriberFaults),
                      tcpPacketBuffer := [], tcpPendingPacket := None))
  {
    var b := s.tcpPacketBuffer;
    var n := BytesToInt32(b);
    assert [] + b[HeaderSize..][..n] == b[HeaderSize..HeaderSize + n];
  }

  /**
   * A step throws exactly when the declared size is negative, or is at most
   * the count taken before stripping the prefix but more than the bytes that
   * remain; the pending frame stays set and the prefix stays stripped.
   */
  lemma {:induction false} StepThrows(s: ConnectionState, subscriberFaults: bool)
    requires !s.closed && s.tcpPendingPacket.None? && |s.tcpPacketBuffer| >= HeaderSize
    ensures var size := BytesToInt32(s.tcpPacketBuffer);
      (TcpStep(s, subscriberFaults).0 == Throw <==>
         size < 0 || |s.tcpPacketBuffer| - HeaderSize < size <= |s.tcpPacketBuffer|)
    ensures TcpStep(s, subscriberFaults).0 == Throw ==>
      TcpStep(s, subscriberFaults).1 ==
        s.(tcpPendingPacket := Some(PendingPacket(BytesToInt32(s.tcpPacketBuffer), [])),
           tcpPacketBuffer := s.tcpPacketBuffer[HeaderSize..])
  {
  }

  /**
   * Round trip: the bytes of one frame built by the send path, read into an
   * empty TCP accumulator with no pending frame, are delivered by a single
   * step as one PacketReady carrying the original payload, leaving the
   * accumulator empty and no pending frame.
   */
  lemma {:induction false} FrameRoundTrip(s: ConnectionState, payload: seq<byte>)
    requires !s.closed && s.tcpPacketBuffer == [] && s.tcpPendingPacket.None?
    requires |payload| <= MaxListCount
    ensures var frame := Frame(payload);
      TcpStep(Append(s, |frame|, frame), false) ==
        (Continue, s.(events := s.events + [PacketReadyEvent(payload)]))
  {
    var frame := Frame(payload);
    FrameLayout(payload);
    LengthPrefixRoundTrip(|payload|);
    assert frame[..|frame|] == frame;
    var a := Append(s, |frame|, frame);
    assert a.tcpPacketBuffer == frame;
    assert BytesToInt32(a.tcpPacketBuffer) == |payload|;
    assert a.tcpPacketBuffer[HeaderSize..][..|payload|] == payload;
    assert [] + payload == payload;
    assert Deliver(payload, false) == [PacketReadyEvent(payload)];
  }

  /** A frame with an empty payload is delivered straight after its prefix, whatever follows it. */
  lemma {:induction false} EmptyFrameDelivered(s: ConnectionState, rest: seq<byte>)
    requires !s.closed && s.tcpPendingPacket.None? && s.tcpPacketBuffer == Frame([]) + rest
    ensures TcpStep(s, false) ==
      (Continue, s.(events := s.events + [PacketReadyEvent([])], tcpPacketBuffer := [], tcpPendingPacket := None))
  {
    FrameLayout([]);
    LengthPrefixRoundTrip(0);
    assert s.tcpPacketBuffer[..HeaderSize] == Frame([]);
    assert BytesToInt32(s.tcpPacketBuffer) == 0;
    assert s.tcpPacketBuffer[HeaderSize..][..0] == [];
    assert Deliver([], false) == [PacketReadyEvent([])];
  }

  /**
   * Two frames read in one chunk: the step delivers the first and, because
   * the accumulator is cleared rather than trimmed, the second is lost.
   */
  lemma {:induction false} BurstLosesSecondFrame(s: ConnectionState, p: seq<byte>, q: seq<byte>)
    requires !s.closed && s.tcpPendingPacket.None? && s.tcpPacketBuffer == Frame(p) + Frame(q)
    requires |p| <= MaxListCount && |q| <= MaxListCount
    ensures TcpStep(s, false) ==
      (Continue, s.(events := s.events + [PacketReadyEvent(p)], tcpPacketBuffer := [], tcpPendingPacket := None))
  {
    FrameLayout(p);
    LengthPrefixRoundTrip(|p|);
    var b := s.tcpPacketBuffer;
    assert b[..HeaderSize] == Frame(p)[..HeaderSize];
    assert BytesToInt32(b) == |p|;
    assert b[HeaderSize..][..|p|] == p;
    assert [] + p == p;
    assert Deliver(p, false) == [PacketReadyEvent(p)];
  }

  /**
   * A frame whose payload is one byte short, with a declared size of at
   * most four, makes the step throw instead of waiting for the missing byte:
   * the declared size is compared with the count taken before the prefix was
   * stripped.
   */
  lemma SplitPayloadThrows(s: ConnectionState, subscriberFaults: bool)
    requires !s.closed && s.tcpPendingPacket.None?
    requires s.tcpPacketBuffer == [4, 0, 0, 0, 10, 20, 30]
    ensures TcpStep(s, subscriberFaults).0 == Throw
  {
    assert BytesToInt32(s.tcpPacketBuffer) == 4;
  }

  /** A TCP step only appends to the log, and appends at most one PacketReady. */
  lemma TcpStepDeliversAtMostOne(s: ConnectionState, subscriberFaults: bool)
    ensures AtMostOneDelivery(s, TcpStep(s, subscriberFaults).1)
  {
    var count := |s.tcpPacketBuffer|;
    if count > 0 && !s.closed && (s.tcpPendingPacket.Some? || count >= HeaderSize) {
      var pending :=
        if s.tcpPendingPacket.None? then PendingPacket(BytesToInt32(s.tcpPacketBuffer), [])
        else s.tcpPendingPacket.value;
      var buffer :=
        if s.tcpPendingPacket.None? then s.tcpPacketBuffer[HeaderSize..] else s.tcpPacketBuffer;
      if 0 <= pending.PayloadSize <= count && pending.PayloadSize <= |buffer| {
        var payload := pending.CurrentPayload + buffer[..pending.PayloadSize];
        DeliverHoldsOnePacket(payload, subscriberFaults);
        assert (s.events + Deliver(payload, subscriberFaults))[|s.events|..] == Deliver(payload, subscriberFaults);
      }
    }
  }

  /** A UDP step only appends to the log, and appends at most one PacketReady. */
  lemma UdpStepDeliversAtMostOne(s: ConnectionState, subscriberFaults: bool)
    ensures AtMostOneDelivery(s, UdpStep(s, subscriberFaults).1)
  {
    var count := |s.udpPacketBuffer|;
    if count > 0 && !s.closed && (s.udpPendingPacket.Some? || count >= HeaderSize) {
      var pending :=
        if s.udpPendingPacket.None? then PendingPacket(BytesToInt32(s.udpPacketBuffer), [])
        else s.udpPendingPacket.value;
      var buffer := if s.udpPendingPacket.None? then [] else s.udpPacketBuffer;
      if 0 <= pending.PayloadSize <= count && pending.PayloadSize <= |buffer| {
        var payload := pending.CurrentPayload + buffer[..pending.PayloadSize];
        DeliverHoldsOnePacket(payload, subscriberFaults);
        assert (s.events + Deliver(payload, subscriberFaults))[|s.events|..] == Deliver(payload, subscriberFaults);
      }
    }
  }

  /**
   * The TCP loop takes at most `budget` steps, each raising at most one
   * PacketReady; it only appends to the log and leaves the UDP state alone.
   */
  lemma {:induction false} DrainTcpBound(s: ConnectionState, budget: int, subscriberFaults: bool)
    ensures var t := DrainTcp(s, budget, subscriberFaults).1;
      SameConnection(s, t) && t.udpPacketBuffer == s.udpPacketBuffer && t.udpPendingPacket == s.udpPendingPacket &&
      |s.events| <= |t.events| && t.events[..|s.events|] == s.events &&
      PacketsIn(t.events[|s.events|..]) <= (if budget < 0 then 0 else budget)
    decreases budget
  {
    if budget > 0 {
      TcpStepDeliversAtMostOne(s, subscriberFaults);
      var next := TcpStep(s, subscriberFaults).1;
      if TcpStep(s, subscriberFaults).0 == Continue {
        DrainTcpBound(next, budget - 1, subscriberFaults);
        LogsCompose(s.events, next.events, DrainTcp(next, budget - 1, subscriberFaults).1.events);
      }
    }
  }

  /** The same bound for the UDP loop, which leaves the TCP accumulator alone. */
  lemma {:induction false} DrainUdpBound(s: ConnectionState, budget: int, subscriberFaults: bool)
    ensures var t := DrainUdp(s, budget, subscriberFaults).1;
      SameConnection(s, t) && t.tcpPacketBuffer == s.tcpPacketBuffer &&
      |s.events| <= |t.events| && t.events[..|s.events|] == s.events &&
      PacketsIn(t.events[|s.events|..]) <= (if budget < 0 then 0 else budget)
    decreases budget
  {
    if budget > 0 {
      UdpStepDeliversAtMostOne(s, subscriberFaults);
      var next := UdpStep(s, subscriberFaults).1;
      if UdpStep(s, subscriberFaults).0 == Continue {
        DrainUdpBound(next, budget - 1, subscriberFaults);
        LogsCompose(s.events, next.events, DrainUdp(next, budget - 1, subscriberFaults).1.events);
      }
    }
  }

  /** A log extended by at most one delivery and then by at most `n` more holds at most `n + 1` new ones. */
  lemma LogsCompose(a: seq<Event>, b: seq<Event>, c: seq<Event>)
    requires |a| <= |b| <= |c| && b[..|a|] == a && c[..|b|] == b
    ensures c[..|a|] == a
    ensures PacketsIn(c[|a|..]) == PacketsIn(b[|a|..]) + PacketsIn(c[|b|..])
  {
    assert c[|a|..] == b[|a|..] + c[|b|..];
    PacketsInAppend(b[|a|..], c[|b|..]);
  }

  /**
   * One `ProcessBuffer` call raises at most `maxProcessIterations`
   * PacketReady events per transport, only appends to the log, and does not
   * touch the connection flags; a closed connection is left as it is.
   */
  lemma {:induction false} ProcessBufferBound(s: ConnectionState, subscriberFaults: bool)
    ensures var t := ProcessBuffer(s, subscriberFaults).1;
      SameConnection(s, t) && |s.events| <= |t.events| && t.events[..|s.events|] == s.events &&
      PacketsIn(t.events[|s.events|..]) <= 2 * (if s.maxProcessIterations < 0 then 0 else s.maxProcessIterations)
    ensures s.closed ==> ProcessBuffer(s, subscriberFaults) == (Completed, s)
  {
    if !s.closed {
      DrainTcpBound(s, s.maxProcessIterations, subscriberFaults);
      var tcp := DrainTcp(s, s.maxProcessIterations, subscriberFaults);
      if tcp.0 != Threw {
        var t := tcp.1;
        DrainUdpBound(t, t.maxProcessIterations, subscriberFaults);
        LogsCompose(s.events, t.events, DrainUdp(t, t.maxProcessIterations, subscriberFaults).1.events);
      }
    }
  }

  /** A TCP step that raises an event has just delivered, so it leaves the TCP accumulator empty. */
  lemma TcpDeliveryEmptiesBuffer(s: ConnectionState, subscriberFaults: bool)
    ensures TcpStep(s, subscriberFaults).1.events != s.events ==> TcpStep(s, subscriberFaults).1.tcpPacketBuffer == []
  {
  }

  /**
   * Because a delivery clears the TCP accumulator, the step after it exits:
   * however large its budget, the TCP loop as written raises at most one
   * PacketReady.
   */
  lemma {:induction false} DrainTcpDeliversAtMostOne(s: ConnectionState, budget: int, subscriberFaults: bool)
    ensures var t := DrainTcp(s, budget, subscriberFaults).1;
      |s.events| <= |t.events| && PacketsIn(t.events[|s.events|..]) <= 1
    decreases budget
  {
    if budget > 0 {
      var next := TcpStep(s, subscriberFaults).1;
      TcpStepDeliversAtMostOne(s, subscriberFaults);
      TcpDeliveryEmptiesBuffer(s, subscriberFaults);
      if TcpStep(s, subscriberFaults).0 == Continue {
        if next.events == s.events {
          DrainTcpDeliversAtMostOne(next, budget - 1, subscriberFaults);
        } else if budget > 1 {
          assert TcpStep(next, subscriberFaults) == (Exit, next);
          assert DrainTcp(next, budget - 1, subscriberFaults) == (Completed, next);
        }
      }
    } else {
      assert s.events[|s.events|..] == [];
    }
  }

  /**
   * In a reachable state the UDP accumulator is empty (UdpAccumulatorStaysEmpty),
   * so one `ProcessBuffer` as written raises at most one PacketReady, whatever
   * `maxProcessIterations` is.
   */
  lemma {:induction false} ProcessBufferDeliversAtMostOne(s: ConnectionState, subscriberFaults: bool)
    requires s.udpPacketBuffer == []
    ensures var t := ProcessBuffer(s, subscriberFaults).1;
      |s.events| <= |t.events| && PacketsIn(t.events[|s.events|..]) <= 1
  {
    UdpDrainIsInert(s, subscriberFaults);
    if s.closed {
      assert s.events[|s.events|..] == [];
    } else {
      DrainTcpDeliversAtMostOne(s, s.maxProcessIterations, subscriberFaults);
    }
  }

  /**
   * Nothing but `ProcessBufferUdp` writes the UDP accumulator, and it never
   * fills an empty one: starting from an empty UDP accumulator, draining
   * leaves it empty, and every UDP step is an EXIT that changes nothing.
   */
  lemma {:induction false} UdpDrainIsInert(s: ConnectionState, subscriberFaults: bool)
    requires s.udpPacketBuffer == []
    ensures ProcessBuffer(s, subscriberFaults).1.udpPacketBuffer == []
    ensures ProcessBuffer(s, subscriberFaults).1 == DrainTcp(s, s.maxProcessIterations, subscriberFaults).1 || s.closed
  {
    if !s.closed {
      DrainTcpBound(s, s.maxProcessIterations, subscriberFaults);
    }
  }

  /**
   * The UDP accumulator is empty in a new connection and no step or loop
   * fills it, because UDP reads are appended to the TCP accumulator. With
   * UdpAccumulatorStaysEmptyOnRead and UdpAccumulatorStaysEmptyOnSend it is
   * empty in every reachable state, so the UDP loop does nothing there
   * (UdpDrainIsInert).
   */
  lemma {:induction false} UdpAccumulatorStaysEmpty(s: ConnectionState, budget: int, subscriberFaults: bool)
    requires s.udpPacketBuffer == []
    ensures Initial().udpPacketBuffer == []
    ensures TcpStep(s, subscriberFaults).1.udpPacketBuffer == []
    ensures UdpStep(s, subscriberFaults).1.udpPacketBuffer == []
    ensures DrainTcp(s, budget, subscriberFaults).1.udpPacketBuffer == []
    ensures DrainUdp(s, budget, subscriberFaults).1.udpPacketBuffer == []
    ensures ProcessBuffer(s, subscriberFaults).1.udpPacketBuffer == []
  {
    DrainTcpBound(s, budget, subscriberFaults);
    if budget > 0 {
      assert UdpStep(s, subscriberFaults).0 == Exit;
    }
    UdpDrainIsInert(s, subscriberFaults);
  }

  /** A read completion, and the arming of a read, leave an empty UDP accumulator empty. */
  lemma {:induction false} UdpAccumulatorStaysEmptyOnRead(s: ConnectionState, udp: bool, bytesRead: int, chunk: seq<byte>,
                                                           subscriberFaults: bool)
    requires s.udpPacketBuffer == [] && 0 <= bytesRead <= |chunk|
    ensures Append(s, bytesRead, chunk).udpPacketBuffer == []
    ensures ArmReceive(s, s.tcpPendingPacket).1.udpPacketBuffer == []
    ensures ArmReceive(s, s.udpPendingPacket).1.udpPacketBuffer == []
    ensures OnRecv(s, udp, bytesRead, chunk, subscriberFaults).2.udpPacketBuffer == []
  {
    UdpDrainIsInert(Append(s, bytesRead, chunk), subscriberFaults);
  }

  /** Sends, `Connect` and the connect callback leave an empty UDP accumulator empty. */
  lemma UdpAccumulatorStaysEmptyOnSend(s: ConnectionState, payload: seq<byte>, fails: bool, subscriberFaults: bool)
    requires s.udpPacketBuffer == []
    ensures SendFrame(s, payload, fails).1.udpPacketBuffer == []
    ensures BeginConnect(s, fails).udpPacketBuffer == []
    ensures ConnectCompleted(s, fails, subscriberFaults).2.udpPacketBuffer == []
  {
  }

  /**
   * A UDP delivery resets the TCP pending frame and keeps the UDP one, which
   * then still holds the delivered payload.
   */
  lemma UdpDeliveryResetsTcpPending(s: ConnectionState, subscriberFaults: bool)
    requires !s.closed && s.udpPendingPacket.Some? && s.udpPacketBuffer != []
    requires 0 <= s.udpPendingPacket.value.PayloadSize <= |s.udpPacketBuffer|
    ensures var p := s.udpPendingPacket.value;
      var payload := p.CurrentPayload + s.udpPacketBuffer[..p.PayloadSize];
      UdpStep(s, subscriberFaults) ==
        (Continue, s.(events := s.events + Deliver(payload, subscriberFaults),
                      udpPacketBuffer := s.udpPacketBuffer[p.PayloadSize..],
                      udpPendingPacket := Some(p.(CurrentPayload := payload)),
                      tcpPendingPacket := None))
  {
  }

  /**
   * A read of `bytesRead > 0` bytes appends exactly the first `bytesRead`
   * bytes of the chunk after the accumulator's contents and changes nothing
   * else; a read of zero bytes adds one ConnectionErrored and drops the
   * connection, leaving the buffers alone.
   */
  lemma AppendEffect(s: ConnectionState, bytesRead: int, chunk: seq<byte>)
    requires 0 <= bytesRead <= |chunk|
    ensures var t := Append(s, bytesRead, chunk);
      if bytesRead > 0 then
        t.tcpPacketBuffer[..|s.tcpPacketBuffer|] == s.tcpPacketBuffer &&
        t.tcpPacketBuffer[|s.tcpPacketBuffer|..] == chunk[..bytesRead] &&
        t == s.(tcpPacketBuffer := t.tcpPacketBuffer)
      else
        t == s.(events := s.events + [ConnectionErroredEvent], connected := false)
  {
  }

  /**
   * A zero-byte read on an open connection raises exactly one
   * ConnectionErrored, clears `connected` and arms no further read.
   */
  lemma ZeroReadDisconnects(s: ConnectionState, udp: bool, chunk: seq<byte>, subscriberFaults: bool)
    requires !s.closed
    ensures OnRecv(s, udp, 0, chunk, subscriberFaults) ==
      (None, false, s.(events := s.events + [ConnectionErroredEvent], connected := false))
  {
  }

  /**
   * After a successful read on a connected, open connection without
   * background processing, the next read is armed with the prefix width when
   * no frame is pending and with the pending frame's whole declared size
   * otherwise; a negative declared size is reported as a connection error.
   */
  lemma ReceiveSizeChoice(s: ConnectionState, bytesRead: int, chunk: seq<byte>, subscriberFaults: bool)
    requires 0 < bytesRead <= |chunk| && !s.closed && s.connected && !s.backgroundProcessing
    ensures var (armed, threw, t) := OnRecv(s, false, bytesRead, chunk, subscriberFaults);
      !threw &&
      (s.tcpPendingPacket.None? ==> armed == Some(HeaderSize) && t == Append(s, bytesRead, chunk)) &&
      (s.tcpPendingPacket.Some? && s.tcpPendingPacket.value.PayloadSize >= 0 ==>
         armed == Some(s.tcpPendingPacket.value.PayloadSize) && t == Append(s, bytesRead, chunk)) &&
      (s.tcpPendingPacket.Some? && s.tcpPendingPacket.value.PayloadSize < 0 ==>
         armed == None && !t.connected && t.events == s.events + [ConnectionErroredEvent])
  {
  }

  /** A closed connection ignores steps, drains, read completions, sends and connects. */
  lemma {:induction false} ClosedIsInert(s: ConnectionState, bytesRead: int, chunk: seq<byte>, subscriberFaults: bool,
                                         sendFails: bool, connectFails: bool)
    requires s.closed && 0 <= bytesRead <= |chunk|
    ensures TcpStep(s, subscriberFaults) == (Exit, s) && UdpStep(s, subscriberFaults) == (Exit, s)
    ensures ProcessBuffer(s, subscriberFaults) == (Completed, s)
    ensures OnRecv(s, false, bytesRead, chunk, subscriberFaults) == (None, false, s)
    ensures OnRecv(s, true, bytesRead, chunk, subscriberFaults) == (None, false, s)
    ensures forall pending :: ArmReceive(s, pending) == (None, s)
    ensures SendFrame(s, chunk, sendFails) == (None, s)
    ensures BeginConnect(s, connectFails) == s
    ensures ConnectCompleted(s, connectFails, subscriberFaults) == (None, None, s)
  {
  }
}
