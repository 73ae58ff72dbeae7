# KableNet connection engine in Dafny

This project models the framing and reassembly engine of KableNet's `KableConnection`, together with the two small value types `NetId` and `Identifier`.

A KableNet connection sends each packet as a frame: a 4-byte little-endian `uint` length, then the payload bytes. Received bytes collect in an accumulator. `ProcessBuffer` runs a bounded number of reassembly steps over each transport's accumulator. Each step reads a length prefix into a pending frame, or delivers a complete frame as a PacketReady event.

The model is sequential, and the sockets are abstracted away:

- A read completion is a call that takes the number of bytes read and the receive buffer.
- A send returns the bytes it hands to the socket.
- Every raised event is appended to a log.
- A socket failure or a throwing event subscriber is a boolean parameter of the call it affects.

Modules:

- `ByteOrder`: the 4-byte prefix. `BitConverter.GetBytes((uint)n)` and `BitConverter.ToInt32` are modelled on a little-endian host. `SizeHelper.Normal` is taken to be 4, the width of the `uint` prefix. `SizeHelper` is not part of this model, so this is an assumption.
- `Framing`: the engine as pure functions of a `ConnectionState` snapshot.
  - The functions are `TcpStep`, `UdpStep`, the two drain loops, `ProcessBuffer`, read completion, receive-size choice, send and connect.
  - The lemmas state what these functions do.
- `Connection`: the class `KableConnection`. Its fields are the ones the source updates in place. Each method ensures that its result and its new `State()` are those of its twin `Framing` function applied to the old state. `ProcessBuffer` keeps the source's two counter-driven loops.
  - The twins are: `ProcessBufferTcp` and `TcpStep`; `ProcessBufferUdp` and `UdpStep`; `ProcessBuffer` and `Framing.ProcessBuffer` (built from the loops `DrainTcp` and `DrainUdp`); the two receive callbacks and `OnRecv` (built from `Append`); the two sends and `SendFrame`; the two `BeginReceive` methods and `ArmReceive`; `Connect` and `BeginConnect`; `ConnectCallback` and `ConnectCompleted`.
  - Each class row in the table below also covers its twin function, which has no row of its own; the lemmas about the twin functions have their own rows.
- `IntendedFraming`: a corrected TCP step, used by the findings below. The connection class follows the code as written.
- `NetIds` and `Identifiers`: the value types. A nullable reference is an `Option`. An `object` argument is a small `Object` datatype: null, an instance of the class, or anything else. The `Identifier` datatype constructor stands for the C# constructor and stores both strings unchanged.

The code is followed as written, including its quirks. In several places this differs from a stream reassembler that trims what it delivers:

- After a delivery the TCP accumulator is cleared, not trimmed.
- The delivery test compares the declared size with the byte count taken before the prefix was stripped.
- A negative declared size, or a size larger than the bytes left, makes `List.GetRange` throw. Nothing catches that exception. It is modelled as the outcome `Throw`, and the state reached before the throw is kept.
- The UDP read callback appends to the TCP accumulator. Nothing else ever fills the UDP accumulator, so the UDP drain never does anything (`UdpDrainIsInert`).
- A UDP delivery resets the TCP pending frame and keeps the UDP one.
- The next read is sized to the pending frame's whole declared size, not to the bytes still missing.

## Model

| member | source | states |
|---|---|---|
| ByteOrder.UInt32ToBytes | Common/KableConnection.cs:230 | the `uint` prefix is exactly 4 bytes |
| ByteOrder.BytesToUInt32 | Common/KableConnection.cs:470 | the 4 bytes read least-significant first give a value in [0, 2^32) |
| ByteOrder.BytesToInt32 | Common/KableConnection.cs:470 | `ToInt32` gives a signed value in [-2^31, 2^31), negative exactly when the top byte is 0x80 or more, and congruent to the unsigned reading modulo 2^32 |
| ByteOrder.UInt32RoundTrip | Common/KableConnection.cs:230 | reading back an encoded `uint` gives the value written |
| ByteOrder.LengthPrefixRoundTrip | Common/KableConnection.cs:470 | a payload length up to `int.MaxValue` survives `GetBytes((uint)n)` followed by `ToInt32` |
| Framing.Initial | Common/KableConnection.cs:23-38 | a new client connection is not connected or closed, has empty accumulators, no pending frames, no events and an iteration limit of 5 |
| Framing.UIntCount | Common/KableConnection.cs:230 | the `(uint)Count` cast lies in [0, 2^32) and is the identity below 2^32 |
| Framing.Deliver | Common/KableConnection.cs:504-514 | a delivery raises one PacketReady carrying the payload, followed by one ConnectionErrored only when the subscriber threw |
| Framing.TcpStep | Common/KableConnection.cs:450-527 | a TCP step exits and changes nothing when the accumulator is empty, the connection is closed, or no frame is pending and fewer than 4 bytes are buffered; any EXIT leaves the state unchanged; a step never touches the flags or the UDP state |
| Framing.TcpStepDeliversAtMostOne | Common/KableConnection.cs:501-514 | a TCP step only appends to the event log, and appends at most one PacketReady |
| Framing.UdpStep | Common/KableConnection.cs:529-607 | the same exit cases on the UDP accumulator; a UDP step never touches the TCP accumulator, leaves the TCP pending frame either unchanged or reset |
| Framing.UdpStepDeliversAtMostOne | Common/KableConnection.cs:581-594 | a UDP step only appends to the event log, and appends at most one PacketReady |
| Framing.FrameLayout | Common/KableConnection.cs:225-233 | a frame is 4 + n bytes: the little-endian length n, then the payload unchanged |
| Framing.SendEffect | Common/KableConnection.cs:217-259 | an open, connected connection sends 4 + n bytes whose prefix decodes to n and whose tail is the payload, changing nothing unless the socket fails (then ConnectErrored is raised and `connected` becomes false); otherwise nothing is sent and nothing changes |
| Framing.ParseStep | Common/KableConnection.cs:462-481 | with no pending frame and at least 4 bytes, a step creates a pending frame sized by the first 4 bytes with an empty payload and removes exactly those 4 bytes, stopping there when the count is below the size |
| Framing.DeliverStep | Common/KableConnection.cs:493-522 | a pending frame whose size the buffer covers is delivered as one PacketReady of the first `PayloadSize` bytes; the pending frame is reset and the TCP accumulator cleared |
| Framing.ParseAndDeliverStep | Common/KableConnection.cs:462-522 | with no pending frame, a prefix whose size n (0 or more) is covered by the bytes after it is parsed and delivered in one step: one PacketReady of the n bytes after the prefix, no pending frame, and the TCP accumulator cleared |
| Framing.StepThrows | Common/KableConnection.cs:462-499 | after parsing a prefix, the step throws exactly when the size is negative or lies between the stripped and unstripped byte counts; the pending frame stays set and the prefix stays stripped |
| Framing.FrameRoundTrip | Common/KableConnection.cs:462-522 | a frame built by the send path, read into the empty accumulator of an open connection with no pending frame, is delivered by one step as one PacketReady of the original payload, leaving the accumulator empty with no pending frame |
| Framing.EmptyFrameDelivered | Common/KableConnection.cs:493-522 | a zero-length frame is delivered as an empty payload straight after its prefix |
| Framing.BurstLosesSecondFrame | Common/KableConnection.cs:516-520 | with two frames buffered, one step delivers the first and clears the second |
| Framing.SplitPayloadThrows | Common/KableConnection.cs:493-498 | a 4-byte frame with its last byte still unread makes the step throw |
| Framing.DrainTcpBound | Common/KableConnection.cs:620-633 | a TCP loop with a budget of `budget` steps raises at most `budget` PacketReady events (none for a budget of 0 or less), only appends to the log, and leaves the flags and UDP state alone |
| Framing.DrainUdpBound | Common/KableConnection.cs:635-646 | the same bound on PacketReady events for the UDP loop, which leaves the flags and the TCP accumulator alone |
| Framing.ProcessBufferBound | Common/KableConnection.cs:615-647 | one `ProcessBuffer` raises at most `maxProcessIterations` PacketReady events per transport and only appends to the log; on a closed connection it does nothing |
| Framing.TcpDeliveryEmptiesBuffer | Common/KableConnection.cs:516-520 | a TCP step that raises an event leaves the TCP accumulator empty |
| Framing.DrainTcpDeliversAtMostOne | Common/KableConnection.cs:620-633 | however large its budget, the TCP loop as written raises at most one PacketReady, because the step after a delivery finds the accumulator empty and exits |
| Framing.ProcessBufferDeliversAtMostOne | Common/KableConnection.cs:615-647 | with the UDP accumulator empty, as in every reachable state, one `ProcessBuffer` as written raises at most one PacketReady |
| Framing.UdpDrainIsInert | Common/KableConnection.cs:615-647 | when the UDP accumulator is empty, `ProcessBuffer` does exactly what its TCP loop does and leaves the UDP accumulator empty |
| Framing.UdpAccumulatorStaysEmpty | Common/KableConnection.cs:529-647 | the UDP accumulator is empty in a new connection and stays empty under every step and both loops of `ProcessBuffer` |
| Framing.UdpAccumulatorStaysEmptyOnRead | Common/KableConnection.cs:410-417 | a read completion on either socket, and the arming of a read, keep the UDP accumulator empty, because UDP reads are appended to the TCP accumulator |
| Framing.UdpAccumulatorStaysEmptyOnSend | Common/KableConnection.cs:69-325 | sends, `Connect` and the connect callback keep the UDP accumulator empty; with the two rows above, it is empty in every reachable state |
| Framing.UdpDeliveryResetsTcpPending | Common/KableConnection.cs:596-602 | a UDP delivery drops the delivered bytes, keeps the UDP pending frame holding the delivered payload, and resets the TCP pending frame |
| Framing.AppendEffect | Common/KableConnection.cs:347-363 | a read of `bytesRead > 0` bytes appends exactly the first `bytesRead` bytes after the kept contents and changes nothing else; a zero-byte read adds one ConnectionErrored and clears `connected` |
| Framing.ZeroReadDisconnects | Common/KableConnection.cs:357-385 | a zero-byte read on an open connection raises exactly one ConnectionErrored, clears `connected` and arms no further read |
| Framing.ReceiveSizeChoice | Common/KableConnection.cs:101-127 | the next read is 4 bytes with no pending frame and the pending frame's whole declared size otherwise; a negative size raises ConnectionErrored and arms nothing |
| Framing.ClosedIsInert | Common/KableConnection.cs:617-618 | on a closed connection, steps, drains, read completions, arming a read for any pending frame, sends, `Connect` and the connect callback change nothing |
| Connection.KableConnection.constructor | Common/KableConnection.cs:23-38 | the client constructor gives the initial state |
| Connection.KableConnection.Accepted | Common/KableConnection.cs:43-60 | the server constructor gives the initial state with `connected` set |
| Connection.KableConnection.EnableBackgroundProcessing | Common/KableConnection.cs:93-96 | only the background-processing flag becomes true |
| Connection.KableConnection.Connect | Common/KableConnection.cs:69-87 | nothing when closed; a connect that cannot be started raises ConnectErrored and clears `connected` |
| Connection.KableConnection.ConnectCallback | Common/KableConnection.cs:164-190 | nothing when closed; a failed handshake raises ConnectErrored; success sets `connected` and raises Connected (a throwing subscriber adds ConnectionErrored and clears `connected`); when still connected it arms both reads |
| Connection.KableConnection.BeginReceiveTcp | Common/KableConnection.cs:101-127 | arms a read of the size `ArmReceive` chooses from the TCP pending frame |
| Connection.KableConnection.BeginReceiveUdp | Common/KableConnection.cs:132-158 | arms a read of the size `ArmReceive` chooses from the UDP pending frame |
| Connection.KableConnection.SendPacketTcpAsync | Common/KableConnection.cs:217-259 | builds the frame step by step and behaves as `SendFrame` |
| Connection.KableConnection.SendPacketUdpAsync | Common/KableConnection.cs:287-325 | the same frame and state change on the UDP socket |
| Connection.KableConnection.OnTcpRecvCallback | Common/KableConnection.cs:331-386 | appends or reports a lost connection, drains when background processing is on, and re-arms the TCP read, as `OnRecv` states |
| Connection.KableConnection.OnUdpRecvCallback | Common/KableConnection.cs:393-448 | the same, except that the bytes join the TCP accumulator and the UDP read is re-armed |
| Connection.KableConnection.ProcessBufferTcp | Common/KableConnection.cs:450-527 | the new state and result are those of `TcpStep` |
| Connection.KableConnection.ProcessBufferUdp | Common/KableConnection.cs:529-607 | the new state and result are those of `UdpStep` |
| Connection.KableConnection.ProcessBuffer | Common/KableConnection.cs:615-647 | its two counter-driven loops reach the state and outcome of `Framing.ProcessBuffer`, which `ProcessBufferBound` bounds |
| Connection.KableConnection.Close | Common/KableConnection.cs:649-669 | only `closed` changes, to true, so closing twice is the same as closing once |
| IntendedFraming.TcpStepIntended | Common/KableConnection.cs:493-522 | the corrected step compares the size with the bytes left after the prefix; it throws only when the size is negative and keeps the flags |
| IntendedFraming.IntendedDeliversFrame | Common/KableConnection.cs:516-522 | the corrected step delivers a whole frame at the front of the accumulator and keeps what follows it |
| IntendedFraming.IntendedWaitsForSplitPayload | Common/KableConnection.cs:493-498 | on the split frame that makes the step as written throw, the corrected step waits with the frame pending, and the missing byte then completes it |
| IntendedFraming.IntendedDrainsBurst | Common/KableConnection.cs:516-520 | the corrected loop delivers k back-to-back frames in order with k steps and leaves the bytes after them buffered |
| NetIds.NetId.Equals | Math/NetId.cs:67-79 | `Equals` holds exactly when the argument is a NetId with the same raw string |
| NetIds.NetId.ToString | Math/NetId.cs:86-89 | the result is "<", the raw string, then ">" |
| NetIds.Parse | Math/NetId.cs:91-101 | returns a NetId exactly when the input has 26 characters, all in the alphabet, and the NetId's raw string is the input |
| NetIds.OpEquals | Math/NetId.cs:32-48 | `==` is true exactly when both sides are null or both hold equal NetIds |
| NetIds.OpNotEquals | Math/NetId.cs:49-65 | `!=` is the negation of `==` for all inputs, nulls included |
| NetIds.TryParse | Math/NetId.cs:102-110 | returns true exactly when the input is valid, with `Parse`'s result as the out parameter |
| NetIds.GenerateIdent | Math/NetId.cs:112-122 | 26 draws give 26 characters, character i being the alphabet at draw i, and `Parse` accepts the result |
| NetIds.Generate | Math/NetId.cs:81-84 | a generated NetId parses back to itself and is not `Empty` |
| NetIds.EqualsIsEquivalence | Math/NetId.cs:67-79 | `Equals` on NetIds is reflexive, symmetric and transitive |
| NetIds.EmptyNeverParsed | Math/NetId.cs:22-25 | "__NULL__" is rejected, so `Parse` never yields a NetId equal to `Empty` |
| Identifiers.Identifier.Equals | Math/Identifier.cs:59-70 | `Equals` holds exactly when the argument is an Identifier with equal path and equal value |
| Identifiers.Identifier.ToString | Math/Identifier.cs:72-75 | the result is the path, ':', then the value |
| Identifiers.OpEquals | Math/Identifier.cs:24-40 | `==` is true exactly when both sides are null or both hold equal Identifiers |
| Identifiers.OpNotEquals | Math/Identifier.cs:41-57 | `!=` is the negation of `==` for all inputs, nulls included |
| Identifiers.EqualsOnlyIdentifiers | Math/Identifier.cs:59-70 | null and non-Identifier arguments are never equal; an Identifier equals itself |
| Identifiers.ToStringIsNotInjective | Math/Identifier.cs:72-75 | two different Identifiers can print alike when a colon sits in the path or value |
| Identifiers.ToStringSplitsAtFirstColon | Math/Identifier.cs:72-75 | when the path has no colon, the printed form's first colon separates the path from the value |

## Left out

- Socket I/O: creating, configuring and binding sockets, `BeginConnect`/`EndConnect`, `BeginReceive`/`EndReceive`, `SendAsync`, and closing the sockets in `Close`. A read is modelled as its byte count and buffer, and a send as the bytes handed over.
- The blocking `.Wait()` wrappers `SendPacketTc`, `SendPacketTcp` and `SendPacketUdp`, and the `KablePacket` overloads. Each one checks `Closed` and forwards to the modelled send. `KablePacket` is not part of this model, so payloads are opaque byte sequences.
- Locks and concurrency: the model is sequential. The re-checks of `Closed` inside the `ProcessBuffer` loops (lines 626 and 639) are not modelled.
- Reentrant subscribers: a subscriber runs synchronously inside the step and receives the connection. One that calls back into the connection (`Close`, a send, `ProcessBuffer`) is not modelled, and the event log is its only trace. A reentrant `Close` would trip the re-checks at lines 626 and 639. They end the call where the model's next step would exit on `closed` anyway. A reentrant send on a failing socket would clear `connected` in the middle of a step (lines 249-253), which the step functions, whose flags never change, do not capture.
- Big-endian hosts: the `Array.Reverse` paths are not modelled. A little-endian host is assumed.
- Exception-type dispatch: only the failures listed here are modelled. A failed connect start, handshake or send raises ConnectErrored (a `SocketException`). A throwing subscriber or a negative receive size raises ConnectionErrored. Socket exceptions from `EndReceive`, and exceptions from allocating a huge receive buffer, are not modelled.
- Subscriber faults: only a PacketReady subscriber (the `subscriberFaults` flag of a drain call, passed to each of its steps) and a Connected subscriber (the flag of the connect callback) may throw. A ConnectionErrored or ConnectErrored subscriber that throws is not modelled. Its exception would be re-raised from a catch block (for example lines 373, 513 and 593) with nothing to catch it. The zero-byte read report at line 361 sits inside the `try` of line 335, so a throwing subscriber there is caught at line 371 and reported once more at line 373 before it escapes. The model's zero-byte read raises ConnectionErrored once and never carries a subscriber fault.
- Connection.KableConnection.Accepted: the server constructor also arms both reads. This arms 4-byte reads and changes no state, but a constructor cannot return the sizes, so the model does not report them.
- The `Address`, `Port`, `TcpSocket` and `UdpSocket` properties.
- The random source `KableHelper.rand` is replaced by a sequence of draws, each below 65. `KableHelper` is not part of this model.
- Null strings: `Parse` on a null string, and an `Identifier` with a null path or value, are not modelled.
- `Identifier.ToBytes` depends on the `KablePacket` encoder, and `GetHashCode` returns the base reference hash. Neither is modelled.
- `Server/KableServer.cs` is pure socket I/O. `Math/Vec2f.cs`, `Math/Vec3f.cs`, `Math/Vec2i.cs` and `Math/Vec3i.cs` only store fields. None of them is modelled.

## Findings

| source | as written | input that shows it | evidently intended | confidence | as-written member | corrected member |
|---|---|---|---|---|---|---|
| Common/KableConnection.cs:493 | the declared size is compared with the byte count taken before the 4-byte prefix was stripped, and then `GetRange(0, size)` runs on the stripped accumulator | accumulator `[4, 0, 0, 0, 10, 20, 30]`: a 4-byte payload whose last byte has not arrived yet; the step throws an uncaught exception | compare with the bytes left after the prefix and wait for the rest | high; not executed | Framing.SplitPayloadThrows | IntendedFraming.TcpStepIntended |
| Common/KableConnection.cs:519 | after a delivery the whole TCP accumulator is cleared | two frames read in one chunk: the second is discarded | remove only the delivered bytes, as the commented-out line 518 does | medium; not executed | Framing.BurstLosesSecondFrame | IntendedFraming.IntendedDrainsBurst |
