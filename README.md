# utp-punch in Dafny

This project models utp-punch, a µTP-style reliable transport over UDP with
UDP hole punching, and proves properties of the model. The model follows the
two files that hold the program's logic.

- **connection.js.** This is the wire codec and the transport state machine.
  - The codec writes a 20-byte big-endian header, optionally followed by a
    payload.
  - Each connection keeps two rings of `bufferSize` slots, indexed by sequence
    number modulo `bufferSize`.
  - It keeps 16-bit `seq` and `ack` cursors and an in-flight count.
  - It handles cumulative acks, MTU chunking behind a window gate, and the
    receive path: handshake, window filter and in-order drain.
  - It runs go-back-N retransmission, keep-alive, an idle timeout and the
    close sequence.
- **index.js.** This is the `Node` multiplexer and hole punching.
  - One UDP socket is shared by outbound connections, keyed `host/port`, and
    accepted ones, keyed `address:id`.
  - Every datagram is routed to a connection, creates one, or is dropped.
  - `bind`, `listen`, `connect` and `punch` refuse to run when the node is
    closed, already bound or already listening.
  - `close` counts down the connections it ends.
  - The `punch` closure exchanges PUNCH and PUNCHED probes with the peer.

Modules:

- `Modular` (`modular.dfy`): facts about remainders. The ring slot of a 16-bit
  number is consistent across the 65535 → 0 wrap when `bufferSize` divides
  2^16.
- `Packets` (`packets.dfy`): `uint16`, `uint32`, `packetToBuffer` (`Encode`)
  and `bufferToPacket` (`Decode`), with both round trips.
- `ConnectionState` (`connection_state.dfy`): the connection's state as a
  value, `Snapshot`. Each handler is a function on it, and the lemmas state
  what the handlers promise.
- `Transport` (`connection.dfy`): the class `Connection`.
  - The rings are arrays and the cursors and flags are fields.
  - The loops of `_recvAck`, `_write`, `_resend` and the drain loop are
    `while` loops with invariants.
  - Every method is proved to change the state exactly as the matching
    `ConnectionState` function says.
- `Mux` (`node.dfy`): registry keys, the routing decision `RouteMessage`, the
  node state as a value, and the class `Node`. The class's methods are proved
  against the node-state functions.
  - `close` counts open connections in a loop, `CountOpen`.
- `HolePunch` (`punch.dfy`): the punch closure as a value-level state machine
  with lemmas over arbitrary event sequences, and as the class `PunchSession`.

How the model represents the program's environment:

- **Events and sends.** Each `socket.send` and each emitted event is appended
  to an output log (`out` or `log`).
- **Time.** The clock (`Date.now()` in ms and `timestamp()` in µs) is passed
  in as a `Clock`.
- **Randomness.** The random initial sequence number is a constructor
  parameter.
- **Timers.** A timer firing is a method call.
- **Throwing paths.** A path on which the program would throw is a returned
  `fault` flag (the handlers) or a `NodeError` (the guards).

## Model

| member | source | states |
|---|---|---|
| Packets.Uint16 | connection.js:28-30 | `n & 0xffff` is a 16-bit value, and is the identity on 16-bit values |
| Packets.Uint16Congruent | connection.js:28-30 | `n & 0xffff` differs from n by a multiple of 2^16, so -1 wraps to 65535 and 65536 to 0 |
| Packets.Uint32 | connection.js:24-26 | `n >>> 0` is a 32-bit value congruent to n modulo 2^32, and is the identity on 32-bit values |
| Packets.TypeVersion | connection.js:57 | `id \| VERSION` sets the low bit and keeps the other bits of the type byte |
| Packets.TypeOf | connection.js:44 | `buffer[0] & ID_MASK` has a zero low nibble and differs from the byte only in that nibble |
| Packets.Encode | connection.js:55-67 | the buffer is exactly 20 bytes plus the payload length |
| Packets.EncodeLayout | connection.js:55-67 | byte 0 is type plus version; byte 1 is the extension; connection, seq and ack are read back big-endian at offsets 2, 16 and 18; timestamp, timediff and window at 4, 8 and 12; the payload follows the header |
| Packets.Decode | connection.js:42-53 | a packet is produced exactly when the buffer has at least 20 bytes (shorter buffers make the readers throw); its fields fit their widths; the payload is null exactly when nothing follows the header |
| Packets.DecodeEncode | connection.js:42-67 | decoding an encoded packet returns every header field unchanged; a non-empty payload returns byte-equal, and an empty or absent one returns as null |
| Packets.EncodeDecode | connection.js:42-67 | re-encoding a decoded buffer reproduces it exactly when its low nibble is the version and byte 1 is zero |
| ConnectionState.DefaultBufferSize | connection.js:22 | the default capacity 512 is a supported ring size (a power of two dividing 2^16) |
| ConnectionState.CreatePacket | connection.js:69-81 | a created packet always fits the wire format and carries the given type, seq, ack, payload and timestamp, a zero timediff and the fixed window; its connection field is the id, or uint16(id + 1) on the accepting side |
| ConnectionState.CreatedPacketRoundTrip | connection.js:69-81 | every packet a connection creates survives encoding and decoding |
| ConnectionState.Transmitted | connection.js:398 | the first transmission stamps `sent` with the packet's creation timestamp, later ones with the current time |
| ConnectionState.SendOutgoingSpec | connection.js:372-377 | `_sendOutgoing` advances seq by one modulo 2^16, counts one more packet in flight, marks the connection alive, sends one packet of the given type carrying the old seq, and changes nothing but the outgoing ring, seq, the count, the flag and the log |
| ConnectionState.SendAckSpec | connection.js:368-370 | `_sendAck` sends one STATE carrying the current seq and ack and no payload, marks the connection alive, and changes nothing else |
| ConnectionState.ConnectSpec | connection.js:217-219 | `_connect` sends one SYN carrying the current seq and the connection's id (plus one on the accepting side), stores it in slot seq stamped now, advances seq modulo 2^16 and counts it in flight |
| ConnectionState.InitSpec | connection.js:84-127 | a new connection is well formed, has nothing in flight, empty rings, seq = the initial seq, the mtu and timeout options or their defaults, and the idle deadline armed at now. An outbound one is connecting with ack 0, no cached reply and nothing sent. One created from a SYN has ack = syn.seq, is connected, and has sent exactly its cached reply: a STATE with the initial seq, ack syn.seq, connection uint16(id + 1), stamped now |
| ConnectionState.SendOutgoingEffect | connection.js:372-377 | `_sendOutgoing` stores the packet in slot seq mod bufferSize and keeps every other slot. seq becomes (seq + 1) mod 65536, the in-flight count grows by exactly one, and exactly that packet is sent |
| ConnectionState.ResetPacket | connection.js:174-188 | the RESET of `Connection.reset` is encodable, typed RESET, without payload and stamped now. Addressed with a connection it carries that connection's id (plus one on the accepting side), seq and ack; addressed with a bare id it carries that id, seq 0 and ack 0 |
| ConnectionState.RecvAckSpec | connection.js:293-306 | `_recvAck` changes only the outgoing ring, the in-flight count and the log, and logs at most a 'flush' |
| ConnectionState.Acked | connection.js:294-295 | the number of packets a cumulative ack covers is between 1 and 2^16 |
| ConnectionState.RecvAckEffect | connection.js:293-306 | an ack covering bufferSize packets or more changes nothing. Otherwise exactly the `acked` slots from seq - inflight are emptied and all others kept. The count becomes max(0, inflight - acked), so it never drops by more than bufferSize - 1, and 'flush' is emitted exactly when it reaches zero |
| ConnectionState.AckOfLastSent | connection.js:293-295 | after a send, an ack for the seq just sent covers the whole in-flight run, ending at that packet's slot, across the 16-bit wrap |
| ConnectionState.SendThenAck | connection.js:293-306 | sending one packet and then acking its seq empties its slot, leaves nothing in flight and emits 'flush' (ack undoes send) |
| ConnectionState.Payload | connection.js:250-253 | `_payload` is a prefix of the data of at most mtu bytes; it is all of the data exactly when the data fits in mtu |
| ConnectionState.WriteLoop | connection.js:228-237 | the write loop keeps the state well formed, changes only the outgoing ring, seq, in-flight count, alive flag and log, and only appends to the log. It ends either with every byte sent and at most bufferSize - 1 in flight, or waiting for 'flush' with at least bufferSize - 1 in flight |
| ConnectionState.WriteSpec | connection.js:225-238 | a write while connecting changes nothing and waits for 'connect' with all the data. Otherwise it ends as the write loop does: completed with at most bufferSize - 1 in flight, or waiting for 'flush' with at least bufferSize - 1; only the outgoing ring, seq, count, alive flag and log change |
| ConnectionState.WriteChunking | connection.js:225-253 | a write only appends DATA datagrams of at most mtu bytes each, numbered consecutively from seq and each counted in flight. Their payloads followed by the bytes left waiting are exactly the bytes written. Nothing is sent while connecting (the write waits for 'connect') or while bufferSize - 1 packets are in flight |
| ConnectionState.StaleFilterWindow | connection.js:351 | the filter as written admits, below ack 65535, exactly the seqs in (ack, ack + bufferSize) without wrapping. At ack 65535 it admits the seqs below bufferSize - 1 and 65535 itself |
| ConnectionState.StaleFilterWrapCases | connection.js:351 | with the default capacity, an in-window seq just past the wrap (2 after ack 65530) is dropped as old, and a repeat of 65535 at ack 65535 is accepted |
| ConnectionState.Drain | connection.js:358-363 | the drain loop keeps 16-bit ack and ring size, never adds packets, and always stops with the slot after the new ack empty |
| ConnectionState.DrainRun | connection.js:358-363 | if ack advanced k times, the k slots after the old ack were all occupied and are now empty, every other slot is untouched, exactly k packets were taken out, and the log is what those k packets deliver, in slot order |
| ConnectionState.DrainOutcome | connection.js:358-363 | as DrainRun; in addition, the loop takes at least one packet out when the slot after ack is occupied |
| ConnectionState.AcceptSpec | connection.js:351-365 | the post-handshake receive path keeps the state well formed, leaves connecting and closed as they were, and only appends to the log |
| ConnectionState.OutOfWindowResync | connection.js:351 | a packet the filter rejects leaves ack, in-flight count and both rings unchanged, and produces exactly one STATE carrying the current ack |
| ConnectionState.AcceptedDrains | connection.js:353-363 | an accepted non-STATE packet has its ack applied, is stored in slot seq, and is drained as DrainRun describes |
| ConnectionState.AcceptedAdvances | connection.js:356-363 | the next expected packet advances ack by at least one, and the slot after the new ack is left empty |
| ConnectionState.AcceptedDelivers | connection.js:358-365 | what an accepted packet makes visible is the ack's 'flush' if any, the DATA payloads and end-of-stream of the drained run in sequence order, then one STATE acknowledging the new ack |
| ConnectionState.ConnectedSpec | connection.js:342-347 | completing the handshake sets ack = uint16(seq - 1), leaves connecting, empties incoming slot seq, leaves the outgoing ring and in-flight count exactly as `_recvAck` of the STATE's ack does, logs that ack's output followed by 'connect', and changes nothing else |
| ConnectionState.RecvIncomingSpec | connection.js:308-366 | `_recvIncoming` keeps the state well formed and, on an open connection, re-arms the idle deadline at now. It throws exactly on a SYN reaching an open, connecting side. On an open, connected side every packet but RESET takes the accept path |
| ConnectionState.ClosedRepliesReset | connection.js:309 | on a closed connection every packet produces exactly one RESET carrying the connection's seq and ack, and no other change |
| ConnectionState.ResetDestroys | connection.js:331-334 | a RESET ends both sides of the stream and closes the connection |
| ConnectionState.HandshakeBuffers | connection.js:339-340 | while connecting, a packet other than STATE, SYN or RESET is only stored in incoming slot seq. Every other slot and all other state stay the same except the idle deadline, and nothing is sent |
| ConnectionState.RepeatedSyn | connection.js:335-338 | a SYN while connecting always throws, since only the outbound side connects and it holds no cached reply; apart from the idle deadline nothing changes |
| ConnectionState.HandshakeCompletes | connection.js:339-349 | while connecting, a STATE connects and emits 'connect'. A packet already stored in the STATE's slot is then replayed through the receive path; otherwise the slot stays empty |
| ConnectionState.ResendTestDirection | connection.js:263 | the test computes sent - now. A packet last sent between 1 µs and about 71 minutes before now counts as overdue; one stamped now does not |
| ConnectionState.ResendScanOccupied | connection.js:266-269 | when the in-flight run is at most bufferSize and fully occupied, the scan never throws and retransmits exactly the overdue packets, oldest first |
| ConnectionState.ResendSpec | connection.js:255-270 | `_resend` does nothing when the oldest in-flight slot is empty or its packet is not overdue; otherwise it changes only the outgoing ring, the alive flag and the log, and only appends to the log |
| ConnectionState.ResendScanKeepsSlots | connection.js:266-269 | the scan only restamps slots: an occupied slot stays occupied |
| ConnectionState.ResendNeverFaults | connection.js:255-270 | with the in-flight run occupied, `_resend` never throws, keeps the run occupied, and when the oldest packet is overdue sends exactly the overdue in-flight packets, oldest first |
| ConnectionState.SendKeepsOccupied | connection.js:372-377 | a send with fewer than bufferSize packets in flight extends the occupied in-flight run by the new packet's slot |
| ConnectionState.WriteKeepsOccupied | connection.js:225-238 | the write loop, which sends only below bufferSize - 1 in flight, keeps the in-flight run occupied |
| ConnectionState.AckKeepsOccupied | connection.js:293-306 | an ack removes a prefix of the in-flight run and leaves the rest occupied |
| ConnectionState.AcceptKeepsOccupied | connection.js:351-365 | the accept path keeps the in-flight run occupied |
| ConnectionState.ReceiveKeepsOccupied | connection.js:308-366 | every branch of `_recvIncoming` keeps the in-flight run occupied |
| ConnectionState.KeepAliveSpec | connection.js:272-275 | a tick after traffic only clears the alive flag; a quiet tick sends one STATE and marks the connection alive |
| ConnectionState.KeepAliveAlternates | connection.js:272-275 | of two ticks after traffic, the first is silent and the second probes |
| ConnectionState.TimeoutSpec | connection.js:277-285 | a tick changes only the deadline and the log. It emits 'timeout' exactly when the limit and the deadline are both non-zero and the limit has elapsed since the deadline, and then disarms the deadline |
| ConnectionState.SetTimeoutSpec | connection.js:190-193 | setTimeout sets the limit, re-arms the deadline at now, and changes nothing else |
| ConnectionState.DeadlineKept | connection.js:98 | the idle deadline and its limit are left alone by sending, acking, writing, resending, keep-alive, `_connect`, the FIN, the close steps and destroy; only the constructor, setTimeout and `_recvIncoming` arm it |
| ConnectionState.TimeoutOnce | connection.js:277-285 | after 'timeout' fired, no sequence of further ticks emits it again or changes anything |
| ConnectionState.RearmFiresAgain | connection.js:190-193 | setTimeout re-arms: once the new limit has elapsed, the next tick fires 'timeout' again |
| ConnectionState.ClosingSpec | connection.js:287-291 | `_closing` leaves the connection closed and schedules 'close' only when it was open |
| ConnectionState.ClosingIdempotent | connection.js:287-291 | a second `_closing` changes nothing, so 'close' is scheduled at most once |
| ConnectionState.DestroySpec | connection.js:207-211 | destroy ends the readable and writable sides and closes, scheduling 'close' only if not yet closed |
| ConnectionState.SendFinSpec | connection.js:143-160 | while connecting nothing changes; otherwise one FIN carrying the current seq is sent, seq advances modulo 2^16 and one more packet is in flight |
| ConnectionState.CloseTickSpec | connection.js:134-136 | each tick counts one; the connection is closed after it exactly when it already was or this is the second tick, and 'close' is scheduled only on a second tick of an open connection |
| ConnectionState.CloseAfterBothTicks | connection.js:134-136 | the close counter closes the connection on its second tick, not its first |
| ConnectionState.NoAnswerSpec | connection.js:137-140 | the no-answer timer ends the readable side and closes |
| Transport.Connection.constructor | connection.js:84-127 | the fields and fresh rings equal InitSpec: empty rings, options with defaults, and on the accepting side the STATE reply cached and sent |
| Transport.Connection.Transmit | connection.js:379-403 | the entry is restamped as Transmitted says, the connection is marked alive, and exactly its packet is sent |
| Transport.Connection.SendOutgoing | connection.js:372-377 | the new state is SendOutgoingSpec of the old (see SendOutgoingEffect), and validity is kept |
| Transport.Connection.SendAck | connection.js:368-370 | one STATE with the current seq and ack is sent |
| Transport.Connection.Connect | connection.js:217-219 | the SYN goes through `_sendOutgoing` |
| Transport.Connection.RecvAck | connection.js:293-306 | the deletion loop ends in the state RecvAckSpec gives (see RecvAckEffect) |
| Transport.Connection.Write | connection.js:225-238 | the loop's state and returned outcome are WriteSpec's (see WriteChunking) |
| Transport.Connection.Resend | connection.js:255-270 | the state and throw flag are ResendSpec's: nothing unless the oldest in-flight packet is overdue, then the scan |
| Transport.Connection.ResendRun | connection.js:266-269 | the for loop leaves the ring, the retransmitted packets and the throw flag exactly as ResendScan gives them |
| Transport.Connection.KeepAlive | connection.js:272-275 | the state is KeepAliveSpec's |
| Transport.Connection.Timeout | connection.js:277-285 | the state is TimeoutSpec's |
| Transport.Connection.SetTimeout | connection.js:190-193 | the new limit is set and the deadline re-armed from now |
| Transport.Connection.SetMtu | connection.js:199-201 | only mtu changes |
| Transport.Connection.Closing | connection.js:287-291 | the state is ClosingSpec's |
| Transport.Connection.Destroy | connection.js:207-211 | the state is DestroySpec's |
| Transport.Connection.SendFin | connection.js:143-160 | while connecting nothing is sent; otherwise the FIN takes the next seq through `_sendOutgoing` |
| Transport.Connection.CloseTick | connection.js:134-136 | the state is CloseTickSpec's |
| Transport.Connection.NoAnswer | connection.js:137-140 | the state is NoAnswerSpec's |
| Transport.Connection.Accept | connection.js:351-365 | the state is AcceptSpec's (see the Accepted lemmas) |
| Transport.Connection.DrainIncoming | connection.js:358-363 | the drain loop leaves the incoming ring, ack and deliveries exactly as Drain gives them |
| Transport.Connection.Connected | connection.js:342-347 | the state is ConnectedSpec's |
| Transport.Connection.RecvIncoming | connection.js:308-366 | the state and throw flag are RecvIncomingSpec's |
| Mux.Decimal | index.js:233 | the decimal text of a port is a non-empty string of digits |
| Mux.DecimalRoundTrip | index.js:233 | reading back the decimal text of a number gives the number |
| Mux.JoinKey | index.js:232-234 | a key consists of the host, then the separator, then the decimal number |
| Mux.JoinKeyInjective | index.js:232-234 | with a non-digit separator two keys are equal exactly when their hosts and numbers are, whatever the hosts contain |
| Mux.ClientKey | index.js:232-234 | `host/port` identifies the host and port: it equals another such key exactly when both parts are equal |
| Mux.ServerKey | index.js:207 | `address:n` identifies the address and n, where n is the packet's connection field, plus one modulo 2^16 on a SYN: it equals another such key exactly when both parts are equal |
| Mux.ServerKeyMatches | index.js:207 | a SYN tagged c and a later non-SYN from the same address share a server key exactly when the later tag is uint16(c + 1). Packets from another address never share it |
| Mux.RouteMessage | index.js:196-230 | a datagram goes to a registered client under its `host/port` key, or to a registered server entry, or creates an entry under an unregistered key; a server entry reached or created is the one under the packet's server key `address:n`; whatever reaches a connection is the decoded datagram |
| Mux.DispatchOrder | index.js:196-202 | a sender with a client entry is served only by the client path. Otherwise the server path serves it when listening, and it is dropped when not |
| Mux.ShortDropped | index.js:204-230 | a datagram shorter than 20 bytes is dropped on both paths |
| Mux.ClientFilter | index.js:222-230 | a datagram reaches a client exactly when it is a full header from that client's endpoint, not a SYN, and tagged with the client's receive id |
| Mux.CreateOnSyn | index.js:204-213 | a server connection is created exactly for a full-header SYN with an unregistered key, from a sender without a client entry, while listening and not closed |
| Mux.ServerFilter | index.js:196-209 | a datagram reaches a registered server entry exactly when the sender has no client entry, the node is listening, the datagram is a full header and its server key is registered |
| Mux.SynThenSameEntry | index.js:204-213 | once a SYN tagged c has created a server entry, a later non-SYN tagged uint16(c + 1) from the same sender is delivered to that same entry |
| Mux.InitNode | index.js:10-25 | a new node is unbound, open, not listening, with no clients and no output |
| Mux.BindSpec | index.js:35-46 | the node's own guard refuses bind exactly when closed or already bound, with the closed error exactly when closed, and a refusal changes nothing |
| Mux.BoundSpec | index.js:41-44 | once the socket listens, the node is bound and no deferred work is left waiting |
| Mux.FiredAll | index.js:41-44 | the deferred work runs in registration order, each piece once |
| Mux.WhenBound | index.js:157-163 | work runs at once when bound and is queued behind the earlier deferred work otherwise; nothing else changes |
| Mux.DeferredFiresOnBound | index.js:41-44 | deferring work before the socket is bound and then binding gives the same state as binding first and then running the work |
| Mux.ListenSpec | index.js:110-128 | listen is refused exactly when closed or already listening, and a refusal changes nothing; otherwise it creates an empty server registry, leaves the clients alone, and emits 'listening' at once when bound or once bound (WhenBound of EmitListening) |
| Mux.ConnectSpec | index.js:130-166 | connect is refused exactly when closed or when the `host/port` key is registered, and a refusal changes nothing. Otherwise the connection is registered under exactly that key, the server registry is untouched, and its `_connect` runs at once when bound or once bound (WhenBound of StartConnect) |
| Mux.PunchSpec | index.js:48-108 | punch is refused exactly when closed, and a refusal changes nothing; it never touches the registries; otherwise the first sendPunch runs at once when bound or once bound (WhenBound of StartPunch with the attempts, port and host or its default) |
| Mux.Registry | index.js:179-181 | the connections close visits are exactly the clients and, when listening, the server entries |
| Mux.OpenIn | index.js:183-188 | the connections close ends are among those it visited |
| Mux.CloseSpec | index.js:168-194 | close marks the node closed, leaves both registries as they were, and first ends exactly the registered connections not already closed |
| Mux.OnMessageSpec | index.js:196-220 | a datagram never changes the clients, the closed flag or the bound flag. A dropped one changes nothing; a routed one is delivered to the connection the route names; a new server connection is registered under the route's key and announced |
| Mux.PeerClosingSpec | index.js:184 | a connection's `_closing` only flips its record's closed flag; both registries keep their keys |
| Mux.CountdownHears | index.js:172-177 | one close event removes that connection from the countdown's waiting set |
| Mux.AllHear | index.js:186 | every pending countdown hears each close event |
| Mux.PeerClosedSpec | index.js:146-148 | a connection's 'close' removes exactly its key from its registry, changes no flag, and only appends to the log |
| Mux.ClosingNotEnded | index.js:183-188 | a connection that has run `_closing` is not ended again by a later close |
| Mux.ConnectThenClose | index.js:139-148 | connect registers the key. A second connect to the same endpoint is refused. The connection's 'close' removes exactly that key, restoring the client registry |
| Mux.ClosedRefusesAll | index.js:131-132 | once closed, connect, listen, bind and punch are all refused with no change, and no datagram creates a server connection |
| Mux.CountdownFiresOnce | index.js:172-177 | a close countdown fires (closes the socket and calls back) exactly once when every connection it waits for has closed, and never otherwise |
| Mux.NoMoreFires | index.js:172-177 | a countdown that has fired never fires again |
| Mux.CloseImmediately | index.js:190-193 | with no open connection, close closes the socket and calls back at once. Otherwise it does neither and starts a countdown over exactly the open connections |
| Mux.CountOpen | index.js:179-188 | the loop over the registry ends exactly the connections not already closing, and counts them |
| Mux.Node.constructor | index.js:10-25 | the node starts in InitNode's state |
| Mux.Node.Bind | index.js:35-46 | state and error are BindSpec's |
| Mux.Node.Bound | index.js:41-44 | the state is BoundSpec's |
| Mux.Node.Defer | index.js:157-163 | work runs now when bound and is queued for 'bound' otherwise |
| Mux.Node.Listen | index.js:110-128 | state and error are ListenSpec's |
| Mux.Node.Connect | index.js:130-166 | state and error are ConnectSpec's |
| Mux.Node.Punch | index.js:48-108 | state and error are PunchSpec's |
| Mux.Node.Close | index.js:168-194 | the state is CloseSpec's, with the ended set and count from CountOpen |
| Mux.Node.OnMessage | index.js:196-220 | the state is OnMessageSpec's |
| Mux.Node.PeerClosing | index.js:184 | the state is PeerClosingSpec's |
| Mux.Node.PeerClosed | index.js:146-148 | the state is PeerClosedSpec's |
| HolePunch.Init | index.js:60-61 | the punch starts not done, with counter 0 and nothing sent |
| HolePunch.TickSpec | index.js:79-101 | sendPunch never touches the flags, and once done it does nothing |
| HolePunch.MessageSpec | index.js:63-77 | a datagram never changes ackSent, done or the counter. Once done or from another endpoint it changes nothing; from the peer, PUNCH queues a PUNCHED reply, PUNCHED sets ackReceived, and anything else changes nothing |
| HolePunch.AckSentSpec | index.js:69-72 | once the first PUNCHED is sent, ackSent holds and exactly one more PUNCHED is sent; the other flags and the counter stay |
| HolePunch.Step | index.js:60-101 | every event appends at most one output and raises the counter by at most one; once done, `done`, `ackReceived` and the counter stay, and only a PUNCHED after a completed reply can still be sent (its callback may still set `ackSent`) |
| HolePunch.Occurrences | index.js:79-101 | counts how often an output was produced; the count is zero exactly when the output never occurs |
| HolePunch.StepInv | index.js:60-101 | every event preserves the invariant. done holds exactly when one outcome was reported. Success is reported only with both flags set. ackSent holds only once the follow-up PUNCHED was queued. Every counter step but the giving-up one sent a probe |
| HolePunch.RunInv | index.js:60-101 | the invariant holds after any sequence of events |
| HolePunch.PunchOutcome | index.js:60-101 | whatever the events, the outcome is reported at most once; success only after PUNCHED was received and the follow-up PUNCHED sent; and at most `attempts` probes are sent |
| HolePunch.TickOutcome | index.js:83-100 | a tick reports success exactly when running with both flags set, and failure exactly when running without them once the incremented counter exceeds attempts. Otherwise it probes |
| HolePunch.OtherEndpointIgnored | index.js:64-65 | datagrams from any other endpoint change nothing |
| HolePunch.FlagsStay | index.js:60-101 | ackSent, ackReceived and done are never cleared |
| HolePunch.NoReplyGivesUp | index.js:90-100 | with no reply, the punch probes until the counter passes attempts, then reports failure: from counter c, attempts - c probes and then one failure |
| HolePunch.PunchSession.constructor | index.js:57-61 | the closure starts in Init's state |
| HolePunch.PunchSession.SendPunch | index.js:79-101 | the state is TickSpec's |
| HolePunch.PunchSession.OnMessage | index.js:63-77 | the state is MessageSpec's |
| HolePunch.PunchSession.AckSendCompleted | index.js:69-72 | the state is AckSentSpec's |

## Left out

- I/O and scheduling are not modelled: the UDP socket, Duplex stream internals, EventEmitter listener registration, `setInterval`, `setTimeout` and `process.nextTick`. Timer firings are method calls. Sends and emitted events are entries appended to an output log.
- Listeners that an emit would run synchronously are not run inside the emitting handler; the caller runs them as separate calls. Examples are the write resumed on 'connect' or 'flush', and the close tick on 'flush' after a FIN.
- The clock is not modelled. `timestamp()` (process.hrtime mixed with Date.now) and `Date.now()` are given as a `Clock` parameter.
- Randomness is not modelled. The `Math.random` initial sequence number is a constructor parameter.
- Debug logging is left out.
- The `cyclist` ring library is not part of this model. The rings are arrays of `bufferSize` slots indexed by seq mod bufferSize, and `bufferSize` is restricted to powers of two between 2 and 2^15. With another size, cyclist's rounding of the capacity would make slot and window arithmetic disagree.
- Transport.Connection.SetMtu: requires mtu > 0. A zero or negative mtu would make `_write` send empty payloads forever.
- index.js builds `Connection` with five arguments (index.js:143, 212) against a six-parameter constructor (connection.js:84). It also reads `_recvId` (index.js:227), which connection.js never assigns. The node model does not reproduce this. A registered connection is an abstract `Peer` record holding its expected receive id and its closed flag. The record a SYN creates is a parameter of `OnMessage`.
- The effects a new connection has on itself (the constructor, `_connect`, `_recvIncoming` on the routed packet) are separate `Transport` calls; the node model logs them as outputs.
- Ports are natural numbers. `parseInt` and string ports are not modelled, and neither is the `String(port)` comparison in the punch listener: an endpoint is an address and a numeric port.
- The callback-in-place-of-host argument shuffle of `connect` and `punch` is not modelled: the host is optional and defaults to 127.0.0.1. Whether a punch callback was given is folded into the `Finished` output.
- Mux.CloseSpec: the order in which close ends connections is not modelled, because the model keeps them as a set, not in Map insertion order. The countdown's `openConnections` counter is the size of the set of connections it still awaits.
- The 'connect' listener of `connect` (resume and re-emit) and the 'connection' emit's resume are reduced to `Fired` and `EmitConnection` outputs.
- `MAX_CONNECTION_ID` is unused by the code, and is left out.
- `getTimeout`, `getMtu`, `address` and `getUdpSocket` are left out: they are plain field reads.
- Transport.Connection.ResendRun: the program hands each overdue packet to `_transmit` inside the loop. The model collects them, and `Resend` appends their sends and the alive flag after the loop. The resulting state is the same.
- ConnectionState.ResendNeverFaults: the model proves that every handler keeps the in-flight run occupied, but `_sendOutgoing` and the FIN only with fewer than bufferSize packets in flight (SendKeepsOccupied). That the program never reaches bufferSize in flight before a send follows from the write gate (bufferSize - 1), the single SYN at zero in flight and the single FIN; the model does not carry this count as a class invariant, so the `fault` flag of ResendScan stays in the model.
- Negative timeouts are not modelled: the timeout limit is a natural number (`Options.timeout`, `SetTimeoutSpec`, `Transport.Connection.SetTimeout`). The program accepts any number, and a negative limit fires 'timeout' on the next tick (connection.js:97, 190-193, 278-283).
- Errors thrown by the UDP socket itself are not modelled. The socket belongs to Node's dgram module, which is not part of this model. A second `bind` before 'listening' passes the node's `_bound` guard and dgram throws, but `BindSpec` logs a second `SocketBind`. A second `close` with nothing open calls `socket.close()` on a closed socket, which throws, but `CloseSpec` logs a second `SocketClose`.
