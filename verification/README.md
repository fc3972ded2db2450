# Lightning Node Connect: a verified model

Lightning Node Connect carries gRPC traffic between two peers through an untrusted mailbox. This
project models the three layers that make the connection reliable and private, and proves what they
promise:

- **Go-Back-N transport** (`gbn/`): a sliding window of `n` packets with 8-bit sequence numbers modulo
  `s = n + 1`, cumulative ACKs, NACKs that also acknowledge, resending from a snapshot, pings, message
  chunking, and a SYN handshake.
- **Noise machine** (`mailbox/noise.go`): an interpreter for handshake patterns, then a ratcheting
  cipher with buffered, resumable writes. It follows sections 5.1 to 5.3 and 7.3 of the Noise Protocol
  Framework (revision 34); the key rotation is that of BOLT #8.
- **Byte streams** (`mailbox/`): encrypted connections for TCP and gRPC, and the control messages that
  carry the stream through the mailbox.

`dafny verify dfyconfig.toml` checks the whole project.

## How the model is built

The transport is a machine whose steps are the points where its goroutines interact: a packet enters
the queue, a packet is sent, a resend snapshots the window, one packet of it is resent, a message is
handled, a wire loses or repeats a message. A schedule is any finite series of such steps by either
endpoint; timers and Go channel signals only decide when a step happens, so every timing is covered.
`Protocol` is this machine as the code runs it, on bytes and 8-bit numbers. `Unbounded` is the same
machine with indices that never wrap. `Simulation` proves that the two can take the same steps and stay
related on every schedule, using the invariant of `Unbounded`: this is where `s > n` is needed, and
`Tightness` proves that nothing less will do. `Guarantees`, `Progress`, `Recovery`, `Chunking` and
`Opening` draw the consequences for reachable states.

The objects of the source are classes (`Queue`, `Syncer`, `TimeoutManager`, `GoBackNConn`,
`CipherState`, `HandshakeState`, `ConnData`, `Machine`, `NoiseConn`, `NoiseGrpcConn`, `MsgDataRef`,
`ConnKit`) whose methods update their fields in place with the loops of the source; each method is proved
against the function that the theorems are about. Results about one endpoint take a parameter `left` and
hold for both.

Cryptography is symbolic (`Terms`): keys, digests and ciphertexts are terms that are equal only when
built alike, and the wire carries the individual bytes of such terms, so that lengths, truncation and
reading at the wrong place are part of the model. The packets of the transport carry the same bytes, so
that the layers can be put on top of each other (`FullStack`). During the handshake a read may be short, as a plain
`Read` may (`NoiseReads`); both machines run at the same time (`NoiseSides`). A masked ephemeral key is the point `k*G + m*N`, from
which unmasking subtracts its own multiple of `N`.

| file | models |
|---|---|
| Common, Messages | bytes; packets and their encoding |
| SequenceNumbers, SendQueue | 8-bit window arithmetic; queue and syncer |
| Network, Unbounded, Protocol, Simulation | schedules; the reference machine; the real one; their agreement |
| Guarantees, Progress | safety of every run; what moves the sender and the syncer on |
| Tightness, Recovery | how many numbers are needed; catching up after loss |
| Chunking, Connection, Opening | `Send`/`Recv`; the connection object; the SYN handshake |
| Terms, Ciphers, Transport | symbolic cryptography; ratcheting cipher; encrypted messages |
| ByteStreams, ControlMessages | stream connections; mailbox control messages |
| NoisePatterns, NoiseHandshake, NoiseAgreement | patterns; handshake functions; agreement of two machines |
| NoiseReads, NoiseSides | plain reads from packets; two machines at the same time |
| KeySchedule, NoiseSecrets, NoiseTranscripts | which secrets a handshake is made of; the keys it ends with; its bytes |
| NoiseSessions, NoiseMachine | from handshake to stream; the handshake object |
| FullStack | encrypted connections over lossy wires, all layers together |

## Properties that hold only under a condition

Where the code does not do what its documentation or its purpose suggests, the code is kept as it is and
the exact condition is proved.

- The syncer computes the ACK it waits for as `(s + top - 1) % s` on bytes. It is the ACK of the last
  packet if and only if `s + top <= 256` (`ExpectedAckExact`, with `ExpectedAckWraps` as an example), and
  a run in which it waits for another one exists if and only if `n >= 128` (`WrongAckExactly`).
  Nothing is lost otherwise: the resend ends by the NACK or by its timeout.
- The configuration comment asks only for `s > n`. The protocol is safe if and only if also `s > 1`
  (`SafeExactly`); with `s = n + 1` this excludes `n = 0`, which the source does not refuse.
- One resend over a perfect wire always delivers everything, but leaves the window empty if and only if
  it was empty already, a packet was missing, or one NACK was not throttled (`RecoveryExact`).
- With chunking enabled an empty message has no chunks and is never sent (`AllSendable`,
  `EmptyMessageDropped`).
- The handshake reads its fields with plain `Read` calls and does not check how many bytes came. An act is
  read if and only if no packet ends inside one of its fields (`ActReadExactly`); through the mailbox,
  where each act is one control message, that is always so (`MailboxExact`); over a connection that splits
  an act, compatible machines fail (`SplitActFails`). What both sides agree on when they do finish does
  not depend on it (`FinishedAgree`).
- An empty write makes the reader report `io.EOF` on a connection that goes on (`EofAfterEmptyWrite`);
  without empty writes this never happens (`NoEofExactly`, `EofExactly`).
- Version 0 of the handshake delivers auth data if and only if it is shorter than 65536 bytes and zero
  from byte 498 on (`FixedPayloadExact`, `FixedPayloadCuts`, `AuthDataExact`).
- A gRPC read reports the whole of what it hands over, however small the caller's buffer is. Reads with a
  buffer of `k` bytes always give a prefix of the bytes written if and only if `k` is at least 32 KiB
  (`GrpcSafeExactly`, with `LossyRun` for every smaller buffer).
- A control message parses back to itself if and only if its length fits four bytes or, for a length that
  is 0 modulo 2^32, the message it is parsed into already held the payload (`RoundTrip`, `StalePayload`).
- A NACK with a number of `s` or more breaks a queue whose window wraps around, and only such a queue;
  the source does not check for it (`Queue.ProcessNACK`, `NackSpoilsWindow`). No such number is ever in flight between two
  endpoints that follow the protocol (`WireAlwaysReadable`).

## Model

| member | source | states |
|---|---|---|
| `Guarantees.PrefixDelivery` | gbn/gbn_conn.go:447-608 | After every schedule over wires that lose, delay and repeat bytes, what each endpoint accepted is a prefix of what the other added: nothing lost in the middle, nothing twice, nothing out of order. |
| `Guarantees.WindowBounds` | gbn/queue.go:162-264 | In every reachable state the window of either endpoint holds at most `n` packets, and a packet leaves it only after the peer accepted it, however stale the ACKs and NACKs in flight are (base <= received <= top <= base + n). |
| `Guarantees.QueueHoldsUnacked` | gbn/queue.go:99-106 | In every reachable state, at either endpoint, the `i`-th unacknowledged packet is stored `i` slots after the base, under its own number: no slot of the window is ever overwritten. |
| `Guarantees.WindowAlwaysHolds` | gbn/queue.go:111-157 | In every reachable state every outstanding packet of either endpoint is stored, so `resend` finds what it needs. |
| `Guarantees.OutstandingExact` | gbn/queue.go:111-151 | In every reachable state what a resend sends with nothing else going on is the unacknowledged packets of that endpoint, in order, each under the number of its index. |
| `Guarantees.ResendExact` | gbn/queue.go:111-157 | A resend of either endpoint that runs to its end has emitted exactly the packets that were unacknowledged at its snapshot, in order, whatever ACKs and NACKs moved the base between its sends. |
| `Guarantees.ResendNeverStuck` | gbn/queue.go:141-151 | A resend of either endpoint never meets an empty slot: its next step, or its end, is always possible. |
| `Guarantees.SyncerAwaitsTop` | gbn/syncer.go:173-271 | While the syncer of either endpoint waits, its expected NACK is the top of the queue; its expected ACK is the number before the top if and only if `s + top <= 256`; on a non-empty queue either one empties the window (the ACK under that condition). |
| `Guarantees.RttSampleExact` | gbn/timeout_manager.go:371-439 | At either endpoint a data RTT sample is taken only for a packet that the peer accepted and that was transmitted exactly once, it is measured from that transmission, and no other recent packet carries the same number. |
| `Progress.SyncExact` | gbn/syncer.go:158-271 | Whatever step is taken in a reachable state, an endpoint is in a sync afterwards if and only if it has begun a resend, or was in one and did not finish the resend, run into a timer or receive the NACK for the top of its queue. No ACK, no data packet, no other NACK and no step of the peer ends a sync. |
| `Progress.SendExact` | gbn/gbn_conn.go:440-461 | In every reachable state an idle sender can take and send another packet if and only if fewer than `n` are unacknowledged; the packet then goes out under the number of its index. |
| `Progress.RttSampleTaken` | gbn/timeout_manager.go:309-439 | When the ACK of a packet still in the window arrives, a sample is taken if and only if the packet was transmitted once; it is the time since that transmission, and the send time is then forgotten. |
| `Guarantees.WireAlwaysReadable` | gbn/gbn_conn.go:509-512 | Nothing in flight on either wire is ever unreadable and every sequence number in flight is below `s`, so no connection ends on a parse error. |
| `Guarantees.ReachableFrom` | gbn/gbn_conn.go:364-673 | The two endpoints are interchangeable: the state seen from the other endpoint is reachable too. |
| `Unbounded.StepKeeps` | gbn/gbn_conn.go:364-673 | Every step of either endpoint keeps the invariant of both directions: base <= received <= sent <= base + n, replies in flight nondecreasing and between base and received, data in flight at most `n` behind what is expected now and after everything ahead of it. |
| `Unbounded.RunKeeps` | gbn/gbn_conn.go:364-673 | The invariant holds after every run of any length. |
| `Simulation.StepSimulates` | gbn/gbn_conn.go:364-673 | The machine with 8-bit numbers and raw bytes can take exactly the steps that the machine with unbounded indices can, and stays related to it: every number in flight decodes to its true index. |
| `Simulation.RunSimulates` | gbn/gbn_conn.go:364-673 | The two machines agree on every schedule from the initial state: same possible steps, related results, invariant kept. |
| `Recovery.RecoveryExact` | gbn/queue.go:111-264 | From every reachable state without handshake messages in flight, for either endpoint: finishing the current send, draining both wires, resending once and draining again delivers every packet of that endpoint; and base, received and top then coincide if and only if the window was empty before, a packet was missing, or one NACK was not throttled. |
| `Recovery.DrainEmpties` | gbn/gbn_conn.go:490-653 | Draining a wire terminates with the wire empty, keeps the invariant, and adds nothing but replies to the other wire. |
| `Recovery.CatchUp` | gbn/gbn_conn.go:526-608 | A receiver that reads a complete resent window ends up expecting the packet after it, and has said so if and only if a packet was missing or some NACK was not throttled. |
| `Recovery.ReadReplies` | gbn/queue.go:162-264 | Reading the replies empties the window if and only if it was empty or one of them asks for the packet after the last. |
| `Tightness.SafeExactly` | gbn/config.go:111-118 | For all window sizes and moduli: every run is free of wrongly accepted packets if and only if `s > n` and `s > 1`. |
| `Tightness.SafeForSource` | gbn/gbn_client.go:16-25 | With `s = n + 1`, the only window size that is not safe is 0, which the source does not refuse. |
| `Tightness.Confused` | gbn/gbn_conn.go:527-546 | For every modulus `s <= n` there is a run in which packet `s` is accepted in the place of packet 0. |
| `Tightness.AcceptedTwice` | gbn/gbn_conn.go:527-546 | With a single sequence number there is a run in which one packet is accepted twice. |
| `Tightness.WrongAckExactly` | gbn/syncer.go:173-190 | With `s = n + 1` there is a run in which the syncer waits for an ACK other than that of the last packet if and only if `n >= 128`. |
| `Chunking.EndToEnd` | gbn/gbn_conn.go:143-233 | In either direction, for every schedule, chunk size and placement of pings, the messages returned by `Recv` are a prefix of the (sendable) messages passed to `Send`, with their boundaries; and all of them once every packet was accepted. |
| `ControlMessages.StackDelivers` | mailbox/interface.go:121-145 | In either direction, control-message framing over chunking over the 8-bit protocol over lossy wires: the bytes read are a prefix of the bytes written, and all of them after enough reads once every packet was accepted. |
| `FullStack.ConnectionDelivers` | mailbox/grpc_noise_conn.go:78-130 | Over lossy wires, on every schedule, in either direction: if both machines have finished their handshakes on the control messages that came through, the bytes read from the encrypted connection are a prefix of the bytes written to the other, and all of them once every packet is accepted and read. |
| `FullStack.PairedAgree` | mailbox/noise.go:1014-1047 | Over lossy wires, on every schedule: machines that finish their handshakes on the control messages that came through were compatible and agree, and each has left unread a prefix of what the other sent after its handshake. |
| `FullStack.ArrivedPrefix` | mailbox/interface.go:121-145 | Control messages come through whole and in order: those that arrived are a prefix of those sent, in either direction. |
| `FullStack.FetchIsRead` | mailbox/interface.go:121-133 | A `Read` of the mailbox connection is the read that the handshake model uses. |
| `Messages.DecodeEncode` | gbn/messages.go:33-205 | Every packet of every type parses back to itself. |
| `Messages.Layout` | gbn/messages.go:8-152 | The bytes of every packet: type, number or window size, flags, payload. |
| `Messages.EncodeDecode` | gbn/messages.go:154-205 | A string parses to a packet if and only if it is readable and trims to the encoding of the packet; it is an encoding if and only if it trims to itself. |
| `Messages.Serialize` | gbn/messages.go:33-152 | The buffer built field by field is the encoding. |
| `SequenceNumbers.NextIsIncrement` | gbn/queue.go:105 | The model's successor is the 8-bit `(x + 1) % s` for every byte, wrap-around at 256 included. |
| `SequenceNumbers.SeqOfIsResidue` | gbn/queue.go:99-106 | Packet `j` carries the number `j mod s`. |
| `SequenceNumbers.SeqUnique` | gbn/config.go:111-118 | Indices less than `s` apart are told apart by their numbers. |
| `SequenceNumbers.SizeIsDistance` | gbn/queue.go:84-96 | `size` is the distance from base to top, for every window shorter than `s`. |
| `SequenceNumbers.ContainsExactlyWindow` | gbn/queue.go:269-288 | `containsSequence` holds exactly for the numbers of the packets in the window. |
| `SequenceNumbers.AckDecodes` | gbn/queue.go:162-214 | An ACK for any packet from just before the window to its end moves the base to exactly the packet after it, and counts as valid if and only if it is not the stale one. |
| `SequenceNumbers.NackDecodes` | gbn/queue.go:223-264 | A NACK for any packet from the base to the top moves the base to exactly that packet, asks for a resend if and only if it is not the top, and reports a moved base if and only if it is past the base or is the top. |
| `SendQueue.ExpectedAckExact` | gbn/syncer.go:173-190 | The syncer's 8-bit expected ACK is the number before top if and only if `s + top <= 256`; in particular always for `s <= 128`. |
| `SendQueue.ExpectedAckWraps` | gbn/syncer.go:173-190 | A concrete window for which the syncer waits for the wrong ACK. |
| `SendQueue.SyncEmptiesQueue` | gbn/syncer.go:225-271 | On a non-empty queue the expected NACK, and the expected ACK where it does not wrap, empty the window. |
| `SendQueue.NackSpoilsWindow` | gbn/queue.go:223-264 | A window that wraps around and a NACK number for which `processNACK` leaves a base that is no number of the queue. |
| `SendQueue.Syncer.constructor` | gbn/syncer.go:130-145 | A new syncer is not resending. |
| `SendQueue.Syncer.InitResendUpTo` | gbn/syncer.go:173-190 | The syncer then waits for the specified ACK and NACK of a resend up to `top`. |
| `SendQueue.Syncer.ProcessACK` | gbn/syncer.go:225-247 | The proceed timer starts if and only if a resend is under way and this is the expected ACK. |
| `SendQueue.Syncer.ProcessNACK` | gbn/syncer.go:252-271 | The new state of the syncer is that of the protocol step, for which `Progress.SyncExact` says when the sync ends. |
| `SendQueue.Syncer.WaitForSync` | gbn/syncer.go:203-220 | However the wait ends, the syncer is idle afterwards. |
| `SendQueue.Syncer.Reset` | gbn/syncer.go:158-166 | The syncer stops waiting and nothing else changes. |
| `SendQueue.Queue.constructor` | gbn/queue.go:62-77 | A new queue is an empty window with `s` empty slots. |
| `SendQueue.Queue.Size` | gbn/queue.go:84-96 | The distance from base to top, without 8-bit overflow. |
| `SendQueue.Queue.AddPacket` | gbn/queue.go:99-106 | The packet is labelled with top, stored in its slot, and top moves on; everything else stays. |
| `SendQueue.Queue.ProcessACK` | gbn/queue.go:162-214 | New base, validity and syncer notification for every byte received, the queue staying well formed. |
| `SendQueue.Queue.ProcessNACK` | gbn/queue.go:223-264 | New base, flags and syncer state for every byte received; the queue stays well formed if and only if the number is below `s` or the window does not wrap around. |
| `SendQueue.Queue.Resend` | gbn/queue.go:111-157 | Undisturbed, the loop sends the outstanding packets from base to top in order, and the syncer has synced up to top and is idle again; nothing happens when it resent recently or the queue is empty. |
| `Connection.TimeoutManager.constructor` | gbn/timeout_manager.go:259-305 | No send time is recorded. |
| `Connection.TimeoutManager.Sent` | gbn/timeout_manager.go:309-368 | A first transmission is timed under its number; a resend removes that time; only SYN and DATA are timed, and nothing with a static timeout. |
| `Connection.TimeoutManager.Received` | gbn/timeout_manager.go:371-439 | An ACK, or a SYN or SYNACK, yields the time since the recorded transmission and uses the record up; nothing else yields a sample, and nothing at all with a static timeout. |
| `Connection.GoBackNConn.constructor` | gbn/gbn_conn.go:76-140 | A connection with window `n` starts as the initial endpoint with modulus `n + 1`. |
| `Connection.GoBackNConn.ReceiveOne` | gbn/gbn_conn.go:490-673 | One iteration of the receiving loop on any bytes is one delivery step of the protocol: new state, reply, data passed up, RTT sample and the two signals; it ends the loop if and only if the bytes do not parse or are a control message. |
| `Connection.GoBackNConn.SendOne` | gbn/gbn_conn.go:447-454 | Adding and sending a packet are the two corresponding protocol steps, with the bytes sent. |
| `Connection.GoBackNConn.CheckRoom` | gbn/gbn_conn.go:456-461 | The loop goes on to the next packet if and only if fewer than `n` are outstanding. |
| `Connection.GoBackNConn.ResendQueue` | gbn/gbn_conn.go:364-388 | Undisturbed, a resend puts the encodings of the outstanding packets on the wire in order and leaves the connection as the series of protocol steps of a whole resend does. |
| `Connection.GoBackNConn.SendAll` | gbn/gbn_conn.go:339-356 | The packets go out encoded, in order, and the send times change as in the resend steps of the protocol. |
| `Connection.ResendIsSchedule` | gbn/queue.go:111-157 | That series is a schedule of the protocol: snapshot, one step for each outstanding packet, end. |
| `Chunking.Send` | gbn/gbn_conn.go:143-197 | The loop hands over the packets of the message that `Chunking.ChunksExact` describes. |
| `Chunking.ChunksExact` | gbn/gbn_conn.go:165-196 | A message becomes exactly the packets that are its bytes cut into payloads of the chunk size: all full but the last, none empty, the last alone final, no pings; and one final packet when splitting is off. |
| `Chunking.NonPingExact` | gbn/gbn_conn.go:548-552 | Of the packets accepted, pings are left out wherever they stand and everything else is passed up in its place. |
| `Chunking.Recv` | gbn/gbn_conn.go:200-233 | The loop returns the payloads up to the first final chunk, or blocks. |
| `Chunking.TakeSplit` | gbn/gbn_conn.go:165-232 | Reassembling the chunks of a message, whatever follows them, returns the message and leaves what follows. |
| `Chunking.TakePartial` | gbn/gbn_conn.go:216-232 | A proper prefix of the chunks of a message yields nothing yet. |
| `Chunking.AllSendable` | gbn/gbn_conn.go:165-196 | Every message is sent if and only if chunking is off or none of them is empty. |
| `Chunking.EmptyMessageDropped` | gbn/gbn_conn.go:165-196 | A series of messages whose empty one is dropped. |
| `Chunking.ReassemblePrefix` | gbn/gbn_conn.go:165-232 | Any prefix of the packets of a series of messages reassembles to a prefix of the series. |
| `Opening.ServerHandshake` | gbn/gbn_server.go:87-211 | The loop, with its jump back on a repeated SYN, does to phase, `n`, `resent` and the wire what the server part of the handshake model does, for every series of messages and timeouts; `Opening.ServerExact` says what that is. |
| `Opening.ClientHandshake` | gbn/gbn_client.go:104-194 | The nested retry loops do what the client part of the handshake model does, for every series of messages and timeouts; `Opening.ClientExact` says what that is. |
| `Opening.ServerExact` | gbn/gbn_server.go:87-211 | For any messages and timeouts: the first item that completes or breaks the handshake decides. A SYNACK right after a SYN, or a SYNACK or DATA packet at any later time, completes it with the window of the last SYN; an unreadable message, or one right after a SYN that is neither SYN nor SYNACK, ends it with an error. Each SYN is answered with the same window, in order, and nothing else is sent. |
| `Opening.ClientExact` | gbn/gbn_client.go:104-194 | For any messages and timeouts: the first SYN or unreadable message decides, and the client is open if and only if it is a SYN with its own window. It has sent one more SYN for each timeout and, if open, a SYNACK. |
| `Opening.ServerInHistory` | gbn/gbn_server.go:87-211 | The server part on its own is what the server does in a history of both sides. |
| `Opening.ClientInHistory` | gbn/gbn_client.go:104-194 | The client part on its own is what the client does in a history of both sides. |
| `Opening.PlainHandshake` | gbn/gbn_server.go:87-211 | For every window size from 1 to 254: SYN, SYN, SYNACK without loss is possible and leaves the client open and the server serving with the window of the client. |
| `Opening.ServerReadsExact` | gbn/gbn_server.go:87-211 | In every history, when the server reads a message: a SYNACK completes the handshake if and only if the server awaits it or has started over, a DATA packet if and only if it has started over; a SYN, and nothing else, is answered; anything else while a SYNACK is awaited, and nothing otherwise, ends it. |
| `Opening.ClientReadsExact` | gbn/gbn_client.go:118-190 | In every history, when the dialing client reads a message: a SYN opens the connection and is answered with a SYNACK, everything else is skipped. |
| `Opening.AlwaysCompletable` | gbn/gbn_server.go:87-211 | After every history of losses, repetitions, timeouts and data, the handshake can still complete on both sides if and only if the server has not given up. |
| `Opening.HappenKeeps` | gbn/gbn_server.go:87-211 | Every event of the handshake or of an open connection keeps the invariant: SYNs carry the client's window, a side that has not completed has sent only SYNs, and a serving server has an open client. |
| `Opening.HandshakeAgrees` | gbn/gbn_server.go:87-211 | From empty wires, under loss, repetition, timeouts and repeated SYNs: a server that completes has the client's window and the client has already completed; the client never fails over a wrong answer. |
| `Opening.SwallowedDataStays` | gbn/gbn_server.go:112-136 | In every history, before and after the server completes: the packets in the client's window are the last ones it added, and all earlier ones were accepted by the server's connection, so nothing the handshake swallows is lost. |
| `Opening.SwallowedDataCompletes` | gbn/gbn_server.go:112-136 | Every DATA packet the handshake reads completes it if and only if the server was waiting for a SYN, which it then does for the second time, and ends it with an error otherwise; when it completes, that packet and all others are still in the client's window and the new connection expects the first of them. |
| `Opening.DeliveryFromFirstSyn` | gbn/gbn_client.go:104-194 | From the first SYN on, what each side accepts is a prefix of what the other has added. |
| `Ciphers.OpenedSealed` | mailbox/noise.go:138-175 | A cipher in the same state opens what was sealed. |
| `Ciphers.OpenedExact` | mailbox/noise.go:160-175 | Bytes open to a text if and only if they are the ciphertext of it under this key, nonce and associated data. |
| `Ciphers.CipherState.constructor` | mailbox/noise.go:1134 | A fresh cipher state is all zero. |
| `Ciphers.CipherState.InitializeKey` | mailbox/noise.go:179-186 | New key, nonce 0, same salt. |
| `Ciphers.CipherState.InitializeKeyWithSalt` | mailbox/noise.go:190-193 | New key and salt, nonce 0. |
| `Ciphers.CipherState.RotateKey` | mailbox/noise.go:199-217 | The new state is the ratcheted one, which `Ciphers.RatchetExact` writes out. |
| `Ciphers.CipherState.Encrypt` | mailbox/noise.go:138-155 | Seals under the current key and nonce, then advances the state. |
| `Ciphers.CipherState.Decrypt` | mailbox/noise.go:160-175 | Opens under the current key and nonce and advances the state, on failure too. |
| `Ciphers.AfterIsEpoch` | mailbox/noise.go:138-217 | After `i` operations the key and salt have been ratcheted `i div 1000` times and the nonce is `i mod 1000`. |
| `Ciphers.RatchetExact` | mailbox/noise.go:138-217 | Operation `i` of a cipher uses nonce `i mod 1000`; it leaves key and salt alone unless it is the last of a thousand, and then the new salt and the new key are the two halves derived from the old salt and the old key. |
| `Ciphers.EpochsDistinct` | mailbox/noise.go:199-217 | Two operations have the same salt, and the same key, if and only if they lie in the same thousand. |
| `Ciphers.NoKeyNonceReuse` | mailbox/noise.go:138-217 | No two operations of one cipher use the same key and nonce. |
| `Ciphers.MessageWithinEpoch` | mailbox/noise.go:1157-1186 | Header and body of every message use the same key and consecutive nonces. |
| `Transport.ReadFrame` | mailbox/noise.go:1265-1324 | A receiver in step reads the message and stays in step. |
| `Transport.ReadExact` | mailbox/noise.go:1265-1324 | A message is read off a wire if and only if the wire starts with the ciphertext that an equal cipher makes of it, and then the cipher is two operations further. |
| `Transport.FrameExact` | mailbox/noise.go:1157-1186 | Message `k` byte for byte: the two-byte length under nonce `2k mod 1000`, the text under the next nonce, both with the key of that epoch and no associated data. |
| `Transport.FrameLimits` | mailbox/noise.go:1157-1186 | A message costs 34 bytes, and the longest accepted is the longest whose length the header can carry. |
| `Terms.Be16Order` | mailbox/noise.go:1177 | Two-byte numbers go most significant byte first: their bytes are ordered as they are. |
| `Terms.Be32Order` | mailbox/interface.go:241-250 | So are four-byte numbers. |
| `Transport.ReadPartial` | mailbox/noise.go:1265-1324 | A receiver that has only part of a message waits. |
| `Transport.ReadAllPrefix` | mailbox/noise.go:1157-1324 | From any prefix of the ciphertext of any number of messages the receiver reads a prefix of the messages, and all of them from all of it. |
| `Transport.FlushAccounts` | mailbox/noise.go:1196-1261 | One flush conserves bytes and plaintext count, whatever part of the writes succeeds. |
| `Transport.FlushReports` | mailbox/noise.go:1196-1261 | One flush writes exactly as many bytes as its writes report, and fails if and only if one of them does. |
| `Transport.FlushManyExact` | mailbox/noise.go:1196-1261 | Over any series of flushes with any partial writes, header and body go out exactly once in order and the counts add up to the plaintext length when the buffer empties. |
| `Transport.Machine.constructor` | mailbox/noise.go:1120-1149 | The transport phase starts with the two given ciphers and an empty buffer. |
| `Transport.Machine.WriteMessage` | mailbox/noise.go:1157-1186 | Accepted if and only if short enough and nothing is buffered; then the buffer holds header and body and the cipher has advanced by two; else nothing changes. |
| `Transport.Machine.Flush` | mailbox/noise.go:1196-1261 | The statements do to buffer, wire and count what the flush function of the accounting lemmas does. |
| `Transport.Machine.ReadNext` | mailbox/noise.go:1265-1324 | The next message, or why there is none, and in either case the cipher afterwards. |
| `ByteStreams.GrpcFetchExact` | mailbox/grpc_noise_conn.go:78-114 | At a buffer size of `k` no message and no carry-over loses a byte if and only if `k` is at least 32 KiB. |
| `ByteStreams.GrpcReports` | mailbox/grpc_noise_conn.go:78-114 | A read reports all of the carry-over or at most 32 KiB of the message, keeps the rest of the message, and copies as much of what it reports as the buffer holds. |
| `ByteStreams.GrpcSafeExactly` | mailbox/grpc_noise_conn.go:78-114 | Every run whose reads have a buffer of `k` bytes reads a prefix of the bytes written if and only if `k` is at least 32 KiB. |
| `ByteStreams.LossyRun` | mailbox/grpc_noise_conn.go:78-114 | For every smaller buffer a run of two writes and two reads whose result is no prefix. |
| `ByteStreams.StreamPrefix` | mailbox/tcp_noise_conn.go:122-186 | For writes of any length, partial writes and read sizes, bytes read are a prefix of the bytes taken over, and all of them when nothing is under way; without write errors these are all bytes written; for gRPC when every read buffer holds at least 32 KiB. |
| `ByteStreams.EofExactly` | mailbox/tcp_noise_conn.go:122-140 | With buffers of at least one byte, a run reports `io.EOF` only if a write was empty; and always then, if no write failed and everything has been read. |
| `ByteStreams.EofAfterEmptyWrite` | mailbox/tcp_noise_conn.go:122-140 | An empty write and the read that reports `io.EOF`. |
| `ByteStreams.PiecesNonEmpty` | mailbox/tcp_noise_conn.go:147-186 | An empty message is written if and only if `Write` is called with no bytes. |
| `ByteStreams.TakenExact` | mailbox/tcp_noise_conn.go:147-186 | A write takes over as many bytes as it reports written and has left in the buffer, and the whole of it when it does not fail. |
| `ByteStreams.WritePiecesExact` | mailbox/tcp_noise_conn.go:147-186 | What a write has sent and left in the buffer is the ciphertext of the messages it encrypted, and its count accounts for their bytes. |
| `ByteStreams.DoAllKeeps` | mailbox/tcp_noise_conn.go:122-186 | Any series of writes, flushes and reads keeps the ciphertext under way equal to that of the messages not yet taken, and both ciphers in step. |
| `ByteStreams.PiecesFlat` | mailbox/tcp_noise_conn.go:147-186 | The messages made of a write are its bytes in order, each short enough. |
| `ByteStreams.PiecesExact` | mailbox/tcp_noise_conn.go:147-186 | A write becomes exactly the messages that are its bytes cut into pieces of 65535, the last one not empty unless the write is. |
| `ByteStreams.WriteEndsAt` | mailbox/tcp_noise_conn.go:147-186 | A write ends with the first message that does not fit or is not written in full, and fails if and only if there is one; otherwise it reports its whole length and the ciphertext of all messages has gone out. |
| `ByteStreams.NoiseConn.constructor` | mailbox/tcp_noise_conn.go:18-26 | The read buffer starts empty. |
| `ByteStreams.NoiseConn.Read` | mailbox/tcp_noise_conn.go:122-140 | Returns buffered bytes first and reads one message only when there are none; what does not fit stays buffered, and a failed read leaves the buffer empty. |
| `ByteStreams.WriteAndFlush` | mailbox/tcp_noise_conn.go:150-156 | `WriteMessage` and `Flush` do what the write of one message does in the stream model. |
| `ByteStreams.NoiseConn.Write` | mailbox/tcp_noise_conn.go:147-186 | For any length, cipher, buffer, wire and return values are those of the write in the stream model, on success and on failure. |
| `ByteStreams.NoiseConn.WriteChunk` | mailbox/tcp_noise_conn.go:164-182 | One iteration ends the write or has written its chunk in full. |
| `ByteStreams.NoiseConn.WriteChunks` | mailbox/tcp_noise_conn.go:158-185 | The chunk loop, with the same promise as `Write`. |
| `ByteStreams.NoiseGrpcConn.constructor` | mailbox/grpc_noise_conn.go:42-56 | Nothing is carried over at first. |
| `ByteStreams.NoiseGrpcConn.Read` | mailbox/grpc_noise_conn.go:78-114 | What is reported, copied and carried over, for every buffer size; a failed read carries nothing over. |
| `ByteStreams.NoiseGrpcConn.Write` | mailbox/grpc_noise_conn.go:120-130 | One message, refused when too long, with the outcome of the write in the stream model. |
| `ControlMessages.RoundTrip` | mailbox/interface.go:241-284 | A control message parses back to itself if and only if its length fits four bytes or, when the length field is written as 0, the message it is parsed into already held the payload. |
| `ControlMessages.RoundTripFresh` | mailbox/interface.go:241-284 | Every control message below 2^32 bytes parses back to itself as the connection parses it. |
| `ControlMessages.StalePayload` | mailbox/interface.go:266-284 | An empty control message parsed into one that holds a payload. |
| `ControlMessages.MsgDataRef.constructor` | mailbox/interface.go:227-229 | Holds the version and payload given. |
| `ControlMessages.MsgDataRef.Serialize` | mailbox/interface.go:241-260 | The buffer built step by step is the encoding, length modulo 2^32 included. |
| `ControlMessages.MsgDataRef.Deserialize` | mailbox/interface.go:266-284 | The fields after success are the parsed ones; after failure the payload is untouched, and the version too unless the header was complete. |
| `ControlMessages.ConnKit.constructor` | mailbox/interface.go:102-116 | The receive buffer starts empty. |
| `ControlMessages.ConnKit.Read` | mailbox/interface.go:121-133 | Returns buffered bytes first and parses one control message only when there are none; on failure the buffer is unchanged. |
| `ControlMessages.ConnKit.Write` | mailbox/interface.go:138-145 | Sends the encoding of one control message. |
| `ControlMessages.ReadManyPrefix` | mailbox/interface.go:121-133 | For any read sizes, the bytes read from the first `n` control messages are a prefix of the bytes written. |
| `ControlMessages.ReadManyAll` | mailbox/interface.go:121-133 | Enough reads of at least one byte return all the bytes written, reads that report `io.EOF` included. |
| `ControlMessages.NoEofExactly` | mailbox/interface.go:121-133 | Reads of at least one byte never report `io.EOF` if and only if no write was empty. |
| `NoisePatterns.XXInOrder` | mailbox/noise_patterns.go:18-37 | The XX pattern with masked ephemeral has every key in place when a token needs it, and needs one ephemeral key on each side. |
| `NoisePatterns.KKInOrder` | mailbox/noise_patterns.go:46-70 | So has the KK pattern with its two pre-messages. |
| `NoiseHandshake.FixedPayloadExact` | mailbox/noise.go:416-652 | The 500-byte payload of version 0 delivers the auth data if and only if it is shorter than 65536 bytes and zero from byte 498 on. |
| `NoiseHandshake.FixedPayloadCuts` | mailbox/noise.go:416-652 | Auth data of 499 bytes that version 0 does not deliver. |
| `NoiseAgreement.SameSecret` | mailbox/noise.go:657-882 | For every DH token whose keys are available, writer and reader compute the same secret. |
| `NoiseAgreement.DecryptExact` | mailbox/noise.go:282-302 | A ciphertext opens if and only if key, nonce and digest agree, and then the digests agree afterwards. |
| `NoiseAgreement.TokensComplete` | mailbox/noise.go:657-882 | Sides that agree write and read any tokens with available keys and agree again, each having the keys the tokens carry. |
| `NoiseAgreement.TokensSound` | mailbox/noise.go:657-882 | Whenever writing and reading succeed, agreement afterwards implies agreement before and, for a masked key, the same passphrase; a received static key is the sender's. |
| `NoiseAgreement.PayloadExact` | mailbox/noise.go:416-652 | A payload of any act and version is read if and only if key, nonce and digest agree. |
| `NoiseAgreement.ActComplete` | mailbox/noise.go:416-652 | One act between sides that agree and fit succeeds, leaves nothing unread, and keeps them in agreement. |
| `NoiseAgreement.ActSound` | mailbox/noise.go:416-652 | One act that succeeds, whatever follows it, leaves the sides in agreement and shows that they agreed and fitted before. |
| `NoiseAgreement.PreExact` | mailbox/noise.go:393-407 | The digests after the pre-messages agree if and only if each side knows the static keys they name. |
| `NoiseAgreement.HandshakeExact` | mailbox/noise.go:1014-1047 | For every pattern whose tokens only use available keys, with acts of any number and order, and for all configurations: in turns and with exact reads both machines finish if and only if the configurations are compatible. |
| `NoiseAgreement.HandshakeSound` | mailbox/noise.go:1014-1047 | For every pattern that has an act, whatever its tokens: machines that finish in turns were compatible, have equal chaining key, digest and nonce, the settings the acts lead to, exactly the static keys that were sent or known before, and nothing unread. |
| `NoiseAgreement.ExchangeSound` | mailbox/noise.go:1014-1030 | For any series of acts between sides whose keys agree exactly when their chaining keys do: if all are read, both agree before and after, the settings fitted in every act, and every static key sent is the sender's. |
| `NoiseAgreement.ExchangeComplete` | mailbox/noise.go:1014-1030 | For any series of acts with available keys and fitting settings, sides that agree get through. |
| `NoiseAgreement.InTurnExact` | mailbox/noise.go:360-652 | For two or three acts in turn the compatibility of two configurations is the written-out condition on versions, passphrase, auth data and ephemerals, and both end with the responder's maximum version and the initiator with the payload that version delivers. |
| `NoiseSessions.SessionDelivers` | mailbox/noise.go:1120-1149 | For every pattern that has an act: when both machines have finished, over any connection, the send and receive ciphers are crossed, and any number of messages decrypts in both directions. |
| `NoiseSessions.DirectionsDisjoint` | mailbox/noise.go:1120-1149 | The two directions never use the same key, however often either is ratcheted. |
| `NoiseSessions.AuthDataExact` | mailbox/noise.go:416-652 | When both machines have finished, over any connection, both hold the responder's maximum version; the initiator has the auth data if and only if that version is at least 1 or the data survives the fixed-size payload. |
| `NoiseSessions.XXExact` | mailbox/noise_patterns.go:18-37 | Through a mailbox XX finishes if and only if the passphrases are equal, the version ranges nest and the auth data is short enough; whenever both sides finish, over any connection, each has the other's static key. |
| `NoiseSessions.KKExact` | mailbox/noise_patterns.go:46-70 | Through a mailbox KK finishes if and only if each side was given the other's static key and both support version 2; whenever both sides finish, over any connection, the auth data has arrived. |
| `NoiseSessions.Reconnect` | mailbox/conndata.go:114-188 | After a first connection made with the pairing phrase both sides look for each other at the same mailbox address with the same pattern, and that handshake finishes through a mailbox; at version 2 the address is new and the pattern KK, below both stay. |
| `NoiseSessions.SidExact` | mailbox/conndata.go:153-175 | Two parties have the same mailbox address if and only if both know no remote key and have the same phrase, or both know one and the products of the keys are equal, that is, they are made of the same two key pairs. |
| `NoiseSessions.SessionStream` | mailbox/tcp_noise_conn.go:122-186 | For every pattern that has an act: when both machines have finished, in either direction, bytes read are a prefix of the bytes taken over by writes of any length, which without write errors are all bytes written. |
| `NoiseSecrets.KeysExact` | mailbox/noise.go:249-262 | For every pattern whose keys are in order: machines that finish, over any connection, hold the chaining key made of the protocol name and of the Diffie-Hellman results of the pattern in order, each written with the private keys of the two parties; the initiator sends with the first half derived from it and receives with the second, the responder the other way round, with the chaining key as salt. |
| `NoiseSecrets.KeysCommit` | mailbox/noise.go:1120-1149 | Two sessions of any patterns and parties have the same key in the same direction if and only if they run the same protocol on the same secrets, and never the same key in opposite directions. |
| `NoiseSecrets.XXKeys` | mailbox/noise_patterns.go:18-37 | Whenever both sides complete XX, the chaining key is derived from the name by ee, es and se. |
| `NoiseSecrets.KKKeys` | mailbox/noise_patterns.go:46-70 | Whenever both sides complete KK, the chaining key is derived from the name by es, ss, ee and se. |
| `NoiseSecrets.XXCommit` | mailbox/noise_patterns.go:18-37 | Two completed XX sessions have the same key if and only if their ephemeral keys, and for either side its static key with the ephemeral key of the other, are the same pairs. |
| `KeySchedule.ChainInjective` | mailbox/noise.go:249-262 | A chaining key commits to the name it starts from and to every secret in it. |
| `KeySchedule.EcdhExact` | mailbox/noise.go:1051-1053 | Two products are equal if and only if they are made of the same two key pairs. |
| `NoiseTranscripts.XXTranscript` | mailbox/noise.go:416-882 | Through a mailbox, XX between fitting parties is three control messages that are written out byte for byte: versions, masked and plain keys, and every ciphertext with its key, nonce and digest. |
| `NoiseTranscripts.KKTranscript` | mailbox/noise.go:416-882 | Through a mailbox, KK between fitting parties is two control messages that are written out in the same way, with both static keys in the digest from the start. |
| `NoiseTranscripts.XXSizes` | mailbox/noise.go:416-652 | The acts of XX have 50, 599 (version 0) or 119 plus the auth data, and 66 bytes. |
| `NoiseTranscripts.KKSizes` | mailbox/noise.go:416-652 | The acts of KK have 50, and 70 plus the auth data, bytes. |
| `NoiseReads.FetchShort` | mailbox/noise.go:769-812 | A short read leaves bytes that are no key and no ciphertext. |
| `NoiseReads.ActInPacket` | mailbox/noise.go:521-652 | An act that arrives in a packet of its own is read as exact reads read it. |
| `NoiseReads.TokensFetch` | mailbox/noise.go:769-882 | The same for any series of tokens. |
| `NoiseReads.ActFetch` | mailbox/noise.go:521-652 | On any bytes, plain reads of an act succeed if and only if exact reads do and no packet ends inside a field, and then give the same result. |
| `NoiseSides.ReadActMore` | mailbox/noise.go:521-652 | Reading an act never looks beyond it. |
| `NoiseSides.FetchSideSound` | mailbox/noise.go:1014-1047 | A machine that finishes with plain reads does what exact reads do on the same bytes. |
| `NoiseSides.SidesByPacket` | mailbox/noise.go:1014-1047 | With one packet for each act, plain reads do the exchange in turns. |
| `NoiseSides.SidesCompose` | mailbox/noise.go:1014-1047 | An exchange in turns that succeeds is what two concurrent machines do. |
| `NoiseSides.SidesSound` | mailbox/noise.go:1014-1047 | Two machines that both finish on each other's output, with anything behind it, end as the exchange in turns does and leave exactly what came behind. |
| `NoiseSides.ActReadExactly` | mailbox/noise.go:521-652 | An act between sides that agree and fit, cut into packets in any way, is read if and only if no packet ends inside one of its fields. |
| `NoiseSides.SplitActFails` | mailbox/noise.go:769-800 | For every compatible pair: if the first act of XX arrives in two segments of which the first ends inside the masked key, the responder fails. |
| `NoiseSides.FinishedAgree` | mailbox/noise.go:1014-1047 | For every pattern that has an act: if both machines finish, concurrently, with plain reads and with the bytes cut into packets in any way, the configurations were compatible and both agree on keys, digest, settings and static keys. |
| `NoiseSides.MailboxExact` | mailbox/noise.go:1014-1047 | For every pattern whose tokens only use available keys and all configurations: two machines that run `DoHandshake` concurrently with plain reads, over a mailbox that delivers each act as one control message, both finish if and only if the configurations are compatible. |
| `NoiseMachine.HandshakeState.constructor` | mailbox/noise.go:353-392 | The state before the pre-messages: names, versions, keys. |
| `NoiseMachine.HandshakeState.MixPreMessages` | mailbox/noise.go:393-407 | The loop mixes the named static keys into the digest, and fails if and only if one is unknown. |
| `NoiseMachine.HandshakeState.MixKey` | mailbox/noise.go:249-266 | The new chaining key and cipher key are those of the token functions, which `NoiseSecrets.KeysExact` and `NoiseTranscripts.XXTranscript` write out. |
| `NoiseMachine.HandshakeState.MixHash` | mailbox/noise.go:271-277 | The digest absorbs the data; nothing else changes. |
| `NoiseMachine.HandshakeState.EncryptAndHash` | mailbox/noise.go:282-288 | Encrypts under the digest, then absorbs the ciphertext. |
| `NoiseMachine.HandshakeState.DecryptAndHash` | mailbox/noise.go:293-302 | Succeeds if and only if the ciphertext belongs to this key, nonce and digest, then absorbs it. |
| `NoiseMachine.HandshakeState.MixDh` | mailbox/noise.go:710-763 | Picks the key pair by token and role; fails if and only if one is missing. |
| `NoiseMachine.HandshakeState.WriteToken` | mailbox/noise.go:657-766 | One token: bytes written and new state, or failure. |
| `NoiseMachine.HandshakeState.ReadToken` | mailbox/noise.go:769-882 | One token: one plain read, what is left of the packets, and new state, or failure. |
| `NoiseMachine.HandshakeState.WriteTokens` | mailbox/noise.go:657-766 | The loop equals the recursive writer that the agreement lemmas are about. |
| `NoiseMachine.HandshakeState.ReadTokens` | mailbox/noise.go:769-882 | The loop equals the recursive reader with plain reads. |
| `NoiseMachine.HandshakeState.WritePayload` | mailbox/noise.go:429-515 | Payload of any act in any version; fails if and only if act or version is unknown or the data too long. |
| `NoiseMachine.HandshakeState.ReadSealed` | mailbox/noise.go:565-650 | One plain read of a ciphertext; fails if it is short or does not belong here. |
| `NoiseMachine.HandshakeState.ReadPayload` | mailbox/noise.go:565-652 | Payload of any act in any version, and the auth data it carries. |
| `NoiseMachine.HandshakeState.WriteMsgPattern` | mailbox/noise.go:416-515 | One act: version byte, tokens, payload. |
| `NoiseMachine.HandshakeState.ReadMsgPattern` | mailbox/noise.go:521-652 | One act: version negotiation, tokens, payload. |
| `NoiseMachine.HandshakeState.RunActs` | mailbox/noise.go:1014-1028 | The loop over the acts equals one side of the concurrent handshake, on any packets. |
| `NoiseMachine.HandshakeState.DoHandshake` | mailbox/noise.go:1014-1047 | One side of the concurrent handshake on any packets, then the split, the remote key from version 2 on, and the auth data for the initiator; what is stored when a callback fails. |
| `NoiseMachine.ConnData.constructor` | mailbox/conndata.go:58-71 | Holds the keys, entropy and auth data given. |
| `NoiseMachine.ConnData.SetRemote` | mailbox/conndata.go:114-128 | The remote key is stored if and only if the callback succeeds. |
| `NoiseMachine.ConnData.SetAuthData` | mailbox/conndata.go:133-147 | The auth data is stored if and only if the callback succeeds. |
| `NoiseMachine.ConnData.SID` | mailbox/conndata.go:153-175 | The mailbox address that the reconnection lemma is about. |
| `NoiseMachine.ConnData.ChoosePattern` | mailbox/conndata.go:179-188 | The pattern that the reconnection lemma is about. |
| `NoiseMachine.Split` | mailbox/noise.go:1120-1149 | The transport machine gets the two ciphers of its role, independent of the handshake object. |
| `NoiseMachine.NewBrontideMachine` | mailbox/noise.go:952-1009 | Fails if and only if KK is asked for below version 2 or a pre-message key is missing; else the machine of the agreement lemmas. |

## Left out

- Wall-clock time: tickers, backoff, keepalive deadlines, timeout boosting, RTT smoothing, pong limits. Their outcomes are free choices of the schedule or boolean parameters (`recently`, `mute`).
- Unconditional liveness: wake-up signals may be dropped and a sync may wait out its timeout, so progress is proved for one undisturbed round (`RecoveryExact`) and not for every run.
- Closing: a FIN, or a SYN or SYNACK that arrives late, ends the receiving loop; the model stops delivering at that point, and `RecoveryExact` asks for wires without such messages.
- Which timer ends a sync: delayed timers of an earlier sync can end a later one, so the model lets a timer end a sync at any moment.
- `Send` and `Recv` that give up on a timeout, and concurrent `Send` calls, whose chunks could interleave.
- Window size 0 in the opening handshake: the lemmas of `Opening` take `1 <= n < 255`, since a window of 0 is not safe (`SafeForSource`) and 255 is refused by the client. A server that receives a SYN for 255 gets the modulus 0, on which no step of the model is possible.
- Packets left in the mailbox by an earlier connection: the wires start empty.
- Locks: each step of the machine stands for a stretch of code that touches shared fields under one lock. Base and top of a resend are read under two locks, but only the sending goroutine moves the top, so the snapshot is taken as one step. Sending a packet and recording its send time is one step.
- Queue.Resend: describes the loop and the wait for the sync when no reply arrives between its sends; interleaved replies are covered by the steps of `Protocol` and `Guarantees.ResendExact`.
- GoBackNConn.ResendQueue: describes a resend without interleaved replies, as above.
- GoBackNConn.ReceiveOne: one iteration of an endless loop; the loop itself is the schedule. The same holds for `GoBackNConn.SendOne` and `GoBackNConn.CheckRoom`.
- GoBackNConn.constructor: leaves out the logger, tickers, contexts and channels of the connection.
- GoBackNConn.Valid: the connection is the one with dynamic timeouts; with a static timeout no send time is recorded and no sample taken, and everything else is the same.
- TimeoutManager.constructor: leaves out the timeout options but for the static-timeout switch.
- TimeoutManager.Sent: leaves out the timeout boosters, which only affect timeouts.
- TimeoutManager.Received: leaves out the response counters and the timeouts computed from a sample.
- Syncer.InitResendUpTo: leaves out the cancel channel, which is unbuffered and only written when someone is waiting, so that draining it finds nothing.
- Syncer.Reset: leaves out that it wakes a goroutine waiting on the cancel channel; when the waiting goroutine goes on is up to the schedule.
- Syncer.WaitForSync: leaves out that it returns without a reset when the connection quits.
- ServerHandshake: quit, context and stream errors end the handshake and are not events of the model; a message that the reader goroutine holds when the handshake ends counts as lost. The same holds for `ClientHandshake`.
- Real cryptography: secp256k1, ChaCha20-Poly1305, HKDF, SHA-256 and scrypt are symbolic; there are no secrecy claims. The stretched passphrase is a number, so equal passphrases mean equal stretched ones.
- A DH token whose key is missing is a failure of the model, where the source would dereference a nil key; patterns whose keys are in order never do this.
- HandshakeState.DoHandshake: a read that blocks for ever and a read at the end of the stream are both failures. Every `Write` of an act succeeds as a whole or the handshake fails.
- A short read whose zero bytes happen to complete a valid key by chance: in the symbolic model it is no key, so the handshake fails at once, where the real one fails at the next MAC.
- Machine.ReadNext: reads are exact, as with the `io.ReadFull` of the source; bytes consumed by a read that fails are not modelled further.
- Handshake patterns without any act, in which nothing is read that could show a disagreement.
- ConnData.constructor: the callbacks are outcomes given to the methods that call them.
- The temporary key that `mixKey` keeps in a field: it is only used for the cipher key.
- Mnemonics, mailbox, websocket and gRPC connections, status callbacks, listeners, reconnection, generated RPC code, mobile and WASM front ends, permission checks, logging.
