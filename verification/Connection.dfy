/**
 * A KableConnection with its sockets abstracted away: a read completion is a
 * call that brings the number of bytes read and the receive buffer, a send
 * returns the bytes it hands to the socket, and the events it raises are
 * appended to a log. Every method is proved to do what its twin function in
 * module Framing says of the connection's state: ProcessBufferTcp follows
 * TcpStep, ProcessBufferUdp UdpStep, ProcessBuffer ProcessBuffer, the two
 * receive callbacks OnRecv, the two sends SendFrame, the two BeginReceive
 * methods ArmReceive, Connect BeginConnect and ConnectCallback
 * ConnectCompleted.
 */
module Connection {
  import opened Wrappers
  import opened ByteOrder
  import opened Framing

  class KableConnection {
    var maxProcessIterations: int
    var connected: bool
    var closed: bool
    var backgroundProcessing: bool
    var tcpPacketBuffer: seq<byte>
    var tcpPendingPacket: Option<PendingPacket>
    var udpPacketBuffer: seq<byte>
    var udpPendingPacket: Option<PendingPacket>
    /** Every event raised so far, oldest first. */
    var events: seq<Event>

    /** The connection's state as a value. */
    function State(): ConnectionState
      reads this
    {
      ConnectionState(connected, closed, backgroundProcessing, maxProcessIterations,
                      tcpPacketBuffer, tcpPendingPacket, udpPacketBuffer, udpPendingPacket, events)
    }

    /** The client-side constructor: not connected until `Connect` completes. */
    constructor ()
      ensures State() == Initial()
    {
      maxProcessIterations := 5;
      connected := false;
      closed := false;
      backgroundProcessing := false;
      tcpPacketBuffer := [];
      tcpPendingPacket := None;
      udpPacketBuffer := [];
      udpPendingPacket := None;
      events := [];
    }

    /** The server-side constructor: wraps an accepted socket, so it starts connected. */
    constructor Accepted()
      ensures State() == Initial().(connected := true)
    {
      maxProcessIterations := 5;
      connected := true;
      closed := false;
      backgroundProcessing := false;
      tcpPacketBuffer := [];
      tcpPendingPacket := None;
      udpPacketBuffer := [];
      udpPendingPacket := None;
      events := [];
    }

    method EnableBackgroundProcessing()
      modifies this
      ensures State() == old(State()).(backgroundProcessing := true)
    {
      backgroundProcessing := true;
    }

    method Connect(beginConnectFails: bool)
      modifies this
      ensures State() == BeginConnect(old(State()), beginConnectFails)
    {
      if closed {
        return;
      }
      if beginConnectFails {
        events := events + [ConnectErroredEvent];
        connected := false;
      }
    }

    /** Completes the handshake; returns the sizes of the TCP and UDP reads it arms. */
    method ConnectCallback(endConnectFails: bool, subscriberFaults: bool) returns (tcpRead: Option<nat>, udpRead: Option<nat>)
      modifies this
      ensures (tcpRead, udpRead, State()) == ConnectCompleted(old(State()), endConnectFails, subscriberFaults)
    {
      tcpRead, udpRead := None, None;
      if closed {
        return;
      }
      if endConnectFails {
        events := events + [ConnectErroredEvent];
        connected := false;
      } else {
        connected := true;
        events := events + [ConnectedEvent];
        if subscriberFaults {
          events := events + [ConnectionErroredEvent];
          assert events == old(events) + [ConnectedEvent, ConnectionErroredEvent];
          connected := false;
        }
      }
      if connected && !closed {
        tcpRead := BeginReceiveTcp();
        udpRead := BeginReceiveUdp();
      }
    }

    /** Arms the next TCP read; returns its size, or None when no read is armed. */
    method BeginReceiveTcp() returns (size: Option<nat>)
      modifies this
      ensures (size, State()) == ArmReceive(old(State()), old(tcpPendingPacket))
    {
      if closed {
        return None;
      }
      var bufferSize := if tcpPendingPacket.None? then HeaderSize else tcpPendingPacket.value.PayloadSize;
      if bufferSize < 0 {
        // allocating the receive buffer throws
        events := events + [ConnectionErroredEvent];
        connected := false;
        return None;
      }
      return Some(bufferSize);
    }

    /** Arms the next UDP read; returns its size, or None when no read is armed. */
    method BeginReceiveUdp() returns (size: Option<nat>)
      modifies this
      ensures (size, State()) == ArmReceive(old(State()), old(udpPendingPacket))
    {
      if closed {
        return None;
      }
      var bufferSize := if udpPendingPacket.None? then HeaderSize else udpPendingPacket.value.PayloadSize;
      if bufferSize < 0 {
        events := events + [ConnectionErroredEvent];
        connected := false;
        return None;
      }
      return Some(bufferSize);
    }

    /** Frames the payload and hands it to the TCP socket; returns the bytes handed over. */
    method SendPacketTcpAsync(packetBuffer: seq<byte>, sendFails: bool) returns (sent: Option<seq<byte>>)
      modifies this
      ensures (sent, State()) == SendFrame(old(State()), packetBuffer, sendFails)
    {
      sent := None;
      if closed {
        return;
      }
      if connected {
        var sendBuffer: seq<byte> := [];
        sendBuffer := sendBuffer + UInt32ToBytes(UIntCount(|packetBuffer|));
        sendBuffer := sendBuffer + packetBuffer;
        assert sendBuffer == Frame(packetBuffer);
        sent := Some(sendBuffer);
        if sendFails {
          events := events + [ConnectErroredEvent];
          connected := false;
        }
      }
    }

    /** Frames the payload and hands it to the UDP socket; returns the bytes handed over. */
    method SendPacketUdpAsync(packetBuffer: seq<byte>, sendFails: bool) returns (sent: Option<seq<byte>>)
      modifies this
      ensures (sent, State()) == SendFrame(old(State()), packetBuffer, sendFails)
    {
      sent := None;
      if closed {
        return;
      }
      if connected {
        var sendBuffer: seq<byte> := [];
        sendBuffer := sendBuffer + UInt32ToBytes(UIntCount(|packetBuffer|));
        sendBuffer := sendBuffer + packetBuffer;
        assert sendBuffer == Frame(packetBuffer);
        sent := Some(sendBuffer);
        if sendFails {
          events := events + [ConnectErroredEvent];
          connected := false;
        }
      }
    }

    /**
     * A completed TCP read of `bytesRead` bytes into `chunk`. Returns the size
     * of the read it re-arms, and whether a background drain threw.
     */
    method OnTcpRecvCallback(bytesRead: int, chunk: seq<byte>, subscriberFaults: bool)
      returns (rearmed: Option<nat>, threw: bool)
      requires 0 <= bytesRead <= |chunk|
      modifies this
      ensures (rearmed, threw, State()) == OnRecv(old(State()), false, bytesRead, chunk, subscriberFaults)
    {
      rearmed, threw := None, false;
      if closed {
        return;
      }
      if bytesRead > 0 {
        tcpPacketBuffer := tcpPacketBuffer + chunk[..bytesRead];
      } else {
        events := events + [ConnectionErroredEvent];
        connected := false;
      }
      if connected && !closed {
        if backgroundProcessing {
          var outcome := ProcessBuffer(subscriberFaults);
          if outcome == Threw {
            return None, true;
          }
        }
        rearmed := BeginReceiveTcp();
      }
    }

    /**
     * A completed UDP read. The bytes join the TCP accumulator, as in the TCP
     * callback; the read re-armed is the UDP one.
     */
    method OnUdpRecvCallback(bytesRead: int, chunk: seq<byte>, subscriberFaults: bool)
      returns (rearmed: Option<nat>, threw: bool)
      requires 0 <= bytesRead <= |chunk|
      modifies this
      ensures (rearmed, threw, State()) == OnRecv(old(State()), true, bytesRead, chunk, subscriberFaults)
    {
      rearmed, threw := None, false;
      if closed {
        return;
      }
      if bytesRead > 0 {
        tcpPacketBuffer := tcpPacketBuffer + chunk[..bytesRead];
      } else {
        events := events + [ConnectionErroredEvent];
        connected := false;
      }
      if connected && !closed {
        if backgroundProcessing {
          var outcome := ProcessBuffer(subscriberFaults);
          if outcome == Threw {
            return None, true;
          }
        }
        rearmed := BeginReceiveUdp();
      }
    }

    /** One reassembly step on the TCP accumulator. */
    method ProcessBufferTcp(subscriberFaults: bool) returns (result: StepOutcome)
      modifies this
      ensures (result, State()) == TcpStep(old(State()), subscriberFaults)
    {
      var count := |tcpPacketBuffer|;
      if count <= 0 || closed {
        return Exit;
      }
      if tcpPendingPacket.None? {
        if count >= HeaderSize {
          var newPayloadSize := BytesToInt32(tcpPacketBuffer);
          tcpPendingPacket := Some(PendingPacket(newPayloadSize, []));
          tcpPacketBuffer := tcpPacketBuffer[HeaderSize..];
        } else {
          return Exit;
        }
      }
      var pending := tcpPendingPacket.value;
      if count >= pending.PayloadSize {
        if pending.PayloadSize < 0 || |tcpPacketBuffer| < pending.PayloadSize {
          // GetRange(0, PayloadSize) throws, and nothing catches it
          return Throw;
        }
        var payload := pending.CurrentPayload + tcpPacketBuffer[..pending.PayloadSize];
        tcpPendingPacket := Some(pending.(CurrentPayload := payload));
        if |payload| >= pending.PayloadSize {
          events := events + [PacketReadyEvent(payload)];
          if subscriberFaults {
            events := events + [ConnectionErroredEvent];
          }
          assert events == old(events) + Deliver(payload, subscriberFaults);
          tcpPacketBuffer := [];
          tcpPendingPacket := None;
        }
      }
      return Continue;
    }

    /** One reassembly step on the UDP accumulator. */
    method ProcessBufferUdp(subscriberFaults: bool) returns (result: StepOutcome)
      modifies this
      ensures (result, State()) == UdpStep(old(State()), subscriberFaults)
    {
      var count := |udpPacketBuffer|;
      if count <= 0 || closed {
        return Exit;
      }
      if udpPendingPacket.None? {
        if count >= HeaderSize {
          var newPayloadSize := BytesToInt32(udpPacketBuffer);
          udpPendingPacket := Some(PendingPacket(newPayloadSize, []));
          udpPacketBuffer := [];
        } else {
          return Exit;
        }
      }
      var pending := udpPendingPacket.value;
      if count >= pending.PayloadSize {
        if pending.PayloadSize < 0 || |udpPacketBuffer| < pending.PayloadSize {
          return Throw;
        }
        var payload := pending.CurrentPayload + udpPacketBuffer[..pending.PayloadSize];
        udpPendingPacket := Some(pending.(CurrentPayload := payload));
        if |payload| >= pending.PayloadSize {
          events := events + [PacketReadyEvent(payload)];
          if subscriberFaults {
            events := events + [ConnectionErroredEvent];
          }
          assert events == old(events) + Deliver(payload, subscriberFaults);
          udpPacketBuffer := udpPacketBuffer[pending.PayloadSize..];
          tcpPendingPacket := None;
        }
      }
      return Continue;
    }

    /**
     * Drains each accumulator with at most `maxProcessIterations` steps,
     * TCP first, stopping a transport at its first EXIT.
     */
    method ProcessBuffer(subscriberFaults: bool) returns (outcome: DrainOutcome)
      modifies this
      ensures (outcome, State()) == Framing.ProcessBuffer(old(State()), subscriberFaults)
    {
      if closed {
        return Completed;
      }
      ghost var start := State();
      var againCount := 0;
      while againCount < maxProcessIterations
        invariant 0 <= againCount && (againCount <= maxProcessIterations || againCount == 0)
        invariant !closed && maxProcessIterations == start.maxProcessIterations
        invariant DrainTcp(State(), maxProcessIterations - againCount, subscriberFaults) == DrainTcp(start, maxProcessIterations, subscriberFaults)
        decreases maxProcessIterations - againCount
      {
        againCount := againCount + 1;
        var result := ProcessBufferTcp(subscriberFaults);
        if result == Exit {
          break;
        }
        if result == Throw {
          assert DrainTcp(start, maxProcessIterations, subscriberFaults) == (Threw, State());
          return Threw;
        }
      }
      ghost var afterTcp := State();
      assert DrainTcp(start, maxProcessIterations, subscriberFaults) == (Completed, afterTcp);
      againCount := 0;
      while againCount < maxProcessIterations
        invariant 0 <= againCount && (againCount <= maxProcessIterations || againCount == 0)
        invariant maxProcessIterations == afterTcp.maxProcessIterations
        invariant DrainUdp(State(), maxProcessIterations - againCount, subscriberFaults) == DrainUdp(afterTcp, maxProcessIterations, subscriberFaults)
        decreases maxProcessIterations - againCount
      {
        againCount := againCount + 1;
        var result := ProcessBufferUdp(subscriberFaults);
        if result == Exit {
          break;
        }
        if result == Throw {
          assert DrainUdp(afterTcp, maxProcessIterations, subscriberFaults) == (Threw, State());
          return Threw;
        }
      }
      assert DrainUdp(afterTcp, maxProcessIterations, subscriberFaults) == (Completed, State());
      return Completed;
    }

    /** Marks the connection closed; closing the sockets cannot fail visibly. */
    method Close()
      modifies this
      ensures State() == old(State()).(closed := true)
    {
      closed := true;
    }
  }
}
