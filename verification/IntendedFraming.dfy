/**
 * A TCP reassembler that trims what it delivers: the delivery test compares
 * the declared size with the bytes that remain after the prefix, and a
 * delivery removes only the delivered bytes from the front of the
 * accumulator, so the bytes of the next frame are kept. Against the step as
 * written (Framing.TcpStep) this is what the two findings of the project
 * compare.
 */
module IntendedFraming {
  import opened Wrappers
  import opened ByteOrder
  import opened Framing

  /** One corrected reassembly step; it throws only on a negative declared size. */
  function TcpStepIntended(s: ConnectionState, subscriberFaults: bool): (r: (StepOutcome, ConnectionState))
    ensures SameConnection(s, r.1)
    ensures (s.tcpPacketBuffer == [] || s.closed) ==> r == (Exit, s)
    ensures r.0 == Exit ==> r.1 == s
    ensures r.0 == Throw ==> r.1.tcpPendingPacket.Some? && r.1.tcpPendingPacket.value.PayloadSize < 0
  {
    var count := |s.tcpPacketBuffer|;
    if count <= 0 || s.closed then (Exit, s)
    else if s.tcpPendingPacket.None? && count < HeaderSize then (Exit, s)
    else
      var pending :=
        if s.tcpPendingPacket.None? then PendingPacket(BytesToInt32(s.tcpPacketBuffer), [])
        else s.tcpPendingPacket.value;
      var buffer :=
        if s.tcpPendingPacket.None? then s.tcpPacketBuffer[HeaderSize..] else s.tcpPacketBuffer;
      var parsed := s.(tcpPendingPacket := Some(pending), tcpPacketBuffer := buffer);
      if |buffer| < pending.PayloadSize then (Continue, parsed)
      else if pending.PayloadSize < 0 then (Throw, parsed)
      else
        var payload := pending.CurrentPayload + buffer[..pending.PayloadSize];
        (Continue, parsed.(events := s.events + Deliver(payload, subscriberFaults),
                           tcpPacketBuffer := buffer[pending.PayloadSize..], tcpPendingPacket := None))
  }

  /** The corrected TCP loop: at most `budget` steps, stopping after the first EXIT or throw. */
  function DrainIntended(s: ConnectionState, budget: int, subscriberFaults: bool): (r: (DrainOutcome, ConnectionState))
    decreases budget
  {
    if budget <= 0 then (Completed, s)
    else
      var step := TcpStepIntended(s, subscriberFaults);
      if step.0 == Exit then (Completed, step.1)
      else if step.0 == Throw then (Threw, step.1)
      else DrainIntended(step.1, budget - 1, subscriberFaults)
  }

  /** The frames of a sequence of payloads, back to back. */
  function Frames(payloads: seq<seq<byte>>): seq<byte>
  {
    if payloads == [] then [] else Frame(payloads[0]) + Frames(payloads[1..])
  }

  /** One PacketReady per payload, in order. */
  function Packets(payloads: seq<seq<byte>>): (r: seq<Event>)
    ensures |r| == |payloads|
    ensures forall i :: 0 <= i < |r| ==> r[i] == PacketReadyEvent(payloads[i])
  {
    if payloads == [] then [] else [PacketReadyEvent(payloads[0])] + Packets(payloads[1..])
  }

  /** A whole frame at the front of the accumulator is delivered, and whatever follows it is kept. */
  lemma {:induction false} IntendedDeliversFrame(s: ConnectionState, payload: seq<byte>, rest: seq<byte>)
    requires !s.closed && s.tcpPendingPacket.None? && s.tcpPacketBuffer == Frame(payload) + rest
    requires |payload| <= MaxListCount
    ensures TcpStepIntended(s, false) ==
      (Continue, s.(events := s.events + [PacketReadyEvent(payload)], tcpPacketBuffer := rest))
  {
    FrameLayout(payload);
    LengthPrefixRoundTrip(|payload|);
    var b := s.tcpPacketBuffer;
    assert b[..HeaderSize] == Frame(payload)[..HeaderSize];
    assert BytesToInt32(b) == |payload|;
    assert b[HeaderSize..] == payload + rest;
    assert b[HeaderSize..][..|payload|] == payload;
    assert b[HeaderSize..][|payload|..] == rest;
    assert [] + payload == payload;
    assert Deliver(payload, false) == [PacketReadyEvent(payload)];
  }

  /** The prefix of a frame whose payload has not fully arrived is parsed and the frame waits. */
  lemma SplitPrefixParsed(s: ConnectionState)
    requires !s.closed && s.tcpPendingPacket.None?
    requires s.tcpPacketBuffer == [4, 0, 0, 0, 10, 20, 30]
    ensures TcpStepIntended(s, false) ==
      (Continue, s.(tcpPendingPacket := Some(PendingPacket(4, [])), tcpPacketBuffer := [10, 20, 30]))
  {
    assert BytesToInt32(s.tcpPacketBuffer) == 4;
    assert s.tcpPacketBuffer[HeaderSize..] == [10, 20, 30];
  }

  /** The missing byte completes the pending frame, which is then delivered. */
  lemma SplitPayloadCompleted(u: ConnectionState)
    requires !u.closed && u.tcpPendingPacket == Some(PendingPacket(4, []))
    requires u.tcpPacketBuffer == [10, 20, 30, 40]
    ensures TcpStepIntended(u, false) ==
      (Continue, u.(events := u.events + [PacketReadyEvent([10, 20, 30, 40])], tcpPacketBuffer := [], tcpPendingPacket := None))
  {
    assert u.tcpPacketBuffer[..4] == [10, 20, 30, 40];
    assert u.tcpPacketBuffer[4..] == [];
    assert [] + [10, 20, 30, 40] == [10, 20, 30, 40];
    assert Deliver([10, 20, 30, 40], false) == [PacketReadyEvent([10, 20, 30, 40])];
  }

  /**
   * Finding: the split read of Framing.SplitPayloadThrows, which the step
   * as written throws on, makes the corrected step wait with the frame
   * pending; the missing byte then completes it.
   */
  lemma IntendedWaitsForSplitPayload(s: ConnectionState)
    requires !s.closed && s.tcpPendingPacket.None?
    requires s.tcpPacketBuffer == [4, 0, 0, 0, 10, 20, 30]
    ensures var t := s.(tcpPendingPacket := Some(PendingPacket(4, [])), tcpPacketBuffer := [10, 20, 30]);
      TcpStepIntended(s, false) == (Continue, t) &&
      TcpStepIntended(t.(tcpPacketBuffer := t.tcpPacketBuffer + [40]), false) ==
        (Continue, s.(events := s.events + [PacketReadyEvent([10, 20, 30, 40])], tcpPacketBuffer := []))
  {
    SplitPrefixParsed(s);
    var t := s.(tcpPendingPacket := Some(PendingPacket(4, [])), tcpPacketBuffer := [10, 20, 30]);
    var u := t.(tcpPacketBuffer := t.tcpPacketBuffer + [40]);
    assert u.tcpPacketBuffer == [10, 20, 30, 40];
    SplitPayloadCompleted(u);
  }

  /**
   * Appending to an event log is associative. Stated on its own so that the
   * solver uses it without the surrounding drain facts in view.
   */
  lemma AppendAssociates(a: seq<Event>, b: seq<Event>, c: seq<Event>)
    ensures (a + b) + c == a + (b + c)
  {
  }

  /** The first frame of a burst is delivered and the frames after it stay in the accumulator. */
  lemma BurstFront(s: ConnectionState, payloads: seq<seq<byte>>, rest: seq<byte>)
    requires payloads != [] && |payloads[0]| <= MaxListCount
    requires !s.closed && s.tcpPendingPacket.None? && s.tcpPacketBuffer == Frames(payloads) + rest
    ensures TcpStepIntended(s, false) ==
      (Continue, s.(events := s.events + [PacketReadyEvent(payloads[0])], tcpPacketBuffer := Frames(payloads[1..]) + rest))
  {
    var after := Frames(payloads[1..]) + rest;
    assert s.tcpPacketBuffer == Frame(payloads[0]) + after;
    IntendedDeliversFrame(s, payloads[0], after);
  }

  /** A drain whose first step goes on continues from that step's state with one step fewer. */
  lemma DrainUnfolds(s: ConnectionState, budget: int, next: ConnectionState)
    requires budget > 0 && TcpStepIntended(s, false) == (Continue, next)
    ensures DrainIntended(s, budget, false) == DrainIntended(next, budget - 1, false)
  {
  }

  /** Delivering the first packet and then the others logs every packet of the burst, in order. */
  lemma BurstLog(s: ConnectionState, payloads: seq<seq<byte>>, rest: seq<byte>, next: ConnectionState)
    requires payloads != []
    requires next == s.(events := s.events + [PacketReadyEvent(payloads[0])], tcpPacketBuffer := next.tcpPacketBuffer)
    ensures next.(events := next.events + Packets(payloads[1..]), tcpPacketBuffer := rest) ==
      s.(events := s.events + Packets(payloads), tcpPacketBuffer := rest)
  {
    var head := [PacketReadyEvent(payloads[0])];
    assert Packets(payloads) == head + Packets(payloads[1..]);
    AppendAssociates(s.events, head, Packets(payloads[1..]));
  }

  /**
   * Finding: frames read back to back in one chunk are all delivered, in
   * order, by one drain with a budget of one step per frame, and the bytes
   * after them stay in the accumulator.
   */
  lemma {:induction false} IntendedDrainsBurst(s: ConnectionState, payloads: seq<seq<byte>>, rest: seq<byte>)
    requires !s.closed && s.tcpPendingPacket.None? && s.tcpPacketBuffer == Frames(payloads) + rest
    requires forall i :: 0 <= i < |payloads| ==> |payloads[i]| <= MaxListCount
    ensures DrainIntended(s, |payloads|, false) ==
      (Completed, s.(events := s.events + Packets(payloads), tcpPacketBuffer := rest))
    decreases |payloads|
  {
    if payloads == [] {
      assert s.events + Packets(payloads) == s.events;
      assert s.tcpPacketBuffer == rest;
    } else {
      var tail := payloads[1..];
      var next := s.(events := s.events + [PacketReadyEvent(payloads[0])], tcpPacketBuffer := Frames(tail) + rest);
      BurstFront(s, payloads, rest);
      DrainUnfolds(s, |payloads|, next);
      IntendedDrainsBurst(next, tail, rest);
      BurstLog(s, payloads, rest, next);
    }
  }
}
