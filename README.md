# memberlist `net.go`: message handling and push/pull framing

This project models the deterministic core of memberlist's network layer (`net.go`).
memberlist is a gossip-based membership library. Its nodes exchange small UDP datagrams
(ping, indirect ping, ack, suspect, alive, dead, user, compound and compressed messages)
and, from time to time, a full push/pull state exchange over TCP. The modelled parts are:

- **Version acceptance** (`Wire.ValidVersion`). Each message starts with a type byte and a
  version byte. A version is accepted when it equals ours or ours minus one, modulo 256.
- **The inbound dispatcher** (`Dispatch`). `handleCommand` and the per-type handlers form a
  pure function of the datagram, the sender, the sequence-number counter and the decoders.
  It returns an `Outcome`: the effects in the order the code performs them (sending an ack,
  registering an ack handler, sending a ping, invoking an ack handler, a membership update,
  a delegate call, a log line), the counter afterwards, and whether a runtime panic ended
  the handling.
- **The outbound pipeline** (`Outbound`). `sendMsg` piggybacks queued broadcasts into a
  compound message. `rawSendMsg` compresses when configured.
- **Push/pull framing** (`PushPull`).
  - `sendLocalState` fills an array of records from the node table and writes the body step
    by step.
  - `readRemoteState` parses it back into a slice of exactly the declared length. Its
    user-state read is modelled both as written (one read) and corrected (read until the
    declared length is there); the rest of the model uses the corrected one. See Findings.
  - Both are methods with loops, proved equal to the specification functions
    `LocalStateWire` and `RemoteStateOf`.
- **The two ends of a push/pull exchange** (`Sync`). `handleConn` reads and then answers;
  `sendAndReceiveState` sends and then reads.
- **The UDP length guard** in front of the dispatcher (`Listener`). See Findings.

The codec is abstracted: msgpack, deflate, and compound framing and parsing. These are
fields of a `Codec` value (`codec.dfy`) whose byte layouts are not modelled. The properties
that relate them are assumptions, stated as predicates on that value:
- `StreamRoundTrip`: a record decodes back from its encoding followed by anything.
- `CompressRoundTrip`: a compressed message inflates to its input.
- `CompoundRoundTrip`: a compound decodes to its parts.

Lemmas that need these predicates take them as `requires`.

## Model

| member | source | states |
|---|---|---|
| Wire.OurVersion | net.go:49-62 | every message type in the version table is at version 0, and a type not in the table counts as version 0 |
| Wire.ValidVersion | net.go:624-632 | a version is accepted exactly when it is 0 or 255, which is ours or ours minus one with uint8 wrap-around; version 1 is refused |
| DispatchProperties.CommandKeeps | net.go:234-384 | at every nesting depth, handling a datagram sends acks and registers relay handlers only towards the datagram's sender, each registration is immediately followed by the ping that carries its number, and the counter advances exactly once per registration, modulo 2^32 (the count of registrations adds up over consecutive effects, `CountRelaysAppend`) |
| DispatchProperties.NestedKeeps | net.go:284-287 | the same invariant for a buffer taken from a compound or compressed message, including one too short to hold the header |
| DispatchProperties.PartsKeeps | net.go:284-287 | the same invariant for the loop over the parts of a compound message |
| DispatchProperties.HeaderChecks | net.go:234-268 | a bad version produces only a bad-version log line; a valid version whose type is outside the switch (push/pull, or above 9) produces only an unsupported-type log line; the counter does not change in either case |
| DispatchProperties.VersionOnlyGates | net.go:234-268 | the version byte only gates: two accepted versions of the same type with the same body give the same outcome, so what the handlers receive does not depend on it |
| DispatchProperties.PingAnsweredToSender | net.go:290-300 | a ping produces exactly one ack, sent to the sender and carrying the ping's sequence number; an undecodable ping produces only a log line |
| DispatchProperties.AckInvokesCarriedHandler | net.go:329-336 | an ack invokes the handler of exactly the sequence number it carries; an undecodable ack produces only a log line |
| DispatchProperties.MembershipForwardedVerbatim | net.go:338-363 | a suspect, alive or dead record is passed to the membership update exactly as decoded; a record that does not decode produces only a log line |
| DispatchProperties.UserMessageForwarded | net.go:365-371 | a user message's body is passed to the delegate unmodified when a delegate exists, and produces nothing otherwise |
| DispatchProperties.CompressedRedispatched | net.go:373-384 | an inflated payload is handled as a fresh datagram with the same sender and counter; a payload that fails to inflate produces only a log line |
| DispatchProperties.CompoundDispatchesParts | net.go:271-288 | a compound that fails to decode dispatches no part; otherwise every part is dispatched in order with the same sender, and a non-zero truncation count only adds a warning in front |
| DispatchProperties.PartsAppend | net.go:284-287 | handling parts `ps + qs` is handling `ps`, then, unless that panicked, handling `qs` from the counter `ps` left |
| DispatchProperties.ShortPartPanics | net.go:234-238 | a part shorter than two bytes panics at the header read, and the parts after it are never handled |
| DispatchProperties.CompoundOfCompressedPing | net.go:271-300 | a compound holding a compressed ping is answered with one ack to the original sender carrying the ping's number |
| DispatchProperties.IndirectProbeRelay | net.go:302-336 | an indirect ping draws the next sequence number k and registers a handler under k with the probe timeout, then pings the target (at the configured UDP port) with k; the target's ack for k invokes that handler, which, fired (`Dispatch.FireAckHandler`), acks the requester's own number back to the requester |
| Outbound.RawSendMsg | net.go:422-436 | the datagram carries the compressed form when compression is enabled and succeeds, and the original bytes otherwise; a warning is logged exactly when enabled compression fails |
| Outbound.SendMsg | net.go:398-420 | the broadcast queue is offered 1400 - len(msg) - 3 bytes at 2 bytes of overhead per entry; with no broadcasts the message goes out alone, otherwise as a compound of the message followed by the broadcasts in order; either way it then goes through `rawSendMsg` |
| Outbound.CompressionTransparent | net.go:373-384 | the receiver handles a compressed datagram exactly as it would the uncompressed bytes, one nesting level deeper |
| Outbound.PiggybackDelivered | net.go:400-420 | a receiver of what `sendMsg` transmits handles the message and then, unless it panicked, each piggybacked broadcast in order, all with the same sender, whether or not a compound or compression was added |
| PushPull.EncodeNodesFails | net.go:502-506 | once a record fails to encode, the whole table fails to encode |
| PushPull.CopyTable | net.go:468-477 | the array of records holds one record per table row, in table order, with the row's name, address, metadata, incarnation and state |
| PushPull.WriteRecords | net.go:502-506 | the encoder loop writes the records one after another in array order, and fails as soon as one record fails |
| PushPull.SendLocalState | net.go:466-533 | the bytes written are `[pushPullMsg, 0]`, then a header with Nodes = table size and UserStateLen = user-state length, then the records in table order, then the user bytes (the delegate's state, or none); they are compressed when enabled and possible; a failed record encoding aborts with nothing sent; an error is logged exactly when enabled compression fails |
| PushPull.DecodeNodes | net.go:599-604 | at most the requested number of records are decoded, and exactly that number when none failed |
| PushPull.DecodeNodesStops | net.go:600-603 | after the first record that fails to decode, no later record is decoded |
| PushPull.OpenRemote | net.go:540-588 | the header-byte read, the optional inflate and the type and version checks give exactly `OpenStream`: the stream positioned at the push/pull header, or the first error |
| PushPull.ReadRecords | net.go:596-604 | the slice has exactly the requested length; it holds the records decoded in order, then zero values, and reports whether all of them decoded |
| PushPull.ReadUserStateOnce | net.go:606-619 | the single `Read` as written: it agrees with reading the whole declared length whenever the read can hand over every byte left (as an inflated payload's reader does), and every success it reports is that full read's result |
| PushPull.ReadUserFull | net.go:606-619 | reading until the declared length is there: however many bytes each read hands over, the result is no bytes left gives EOF, fewer than declared gives a short-read error, otherwise exactly the declared bytes |
| PushPull.RemoteStateChecked | net.go:567-597 | the read with guards against a compress payload shorter than two bytes and a negative record count: it never panics on a negative count or a short inflate, and agrees with `readRemoteState` on every stream where that does not panic |
| PushPull.ReadRemoteState | net.go:536-622 | reading the stream gives exactly `RemoteStateOf`: header-byte checks, optional inflate and re-check, push/pull type check, header decode, a slice of exactly Nodes records filled by a loop, then the user-state read repeated until the declared bytes are there |
| PushPullProperties.DecodeNodesRoundTrip | net.go:502-506 | records encoded one after another decode back, in order, leaving the bytes that follow untouched |
| PushPullProperties.PayloadReadsBack | net.go:489-513 | the uncompressed body `sendLocalState` writes reads back (net.go:591-621) as the same records in table order and the same user bytes, with no error |
| PushPullProperties.WireReadsBack | net.go:466-622 | what `sendLocalState` writes, compressed or not, reads back as the table's records and the user state, with no error |
| PushPullProperties.CheckedWireReadsBack | net.go:466-622 | the guarded read still reads what `sendLocalState` writes back as the table's records and the user state, with no error |
| PushPullProperties.OpenedStreamIsPushPull | net.go:540-588 | a stream gets past the header checks only if its outer type and version bytes pass the version check and it is either a bare push/pull message or a compress message whose inflated payload is a push/pull message at an accepted version |
| PushPullProperties.OtherTypesRejected | net.go:579-588 | any type other than push/pull, bare or inside a compress message, is refused with no records |
| PushPullProperties.DeclaredCountKept | net.go:596-621 | the result always holds exactly Nodes records: the decoded ones in order, then zero values; a record decode error returns that partial slice with no user state; a user-state read shorter than UserStateLen is an error; on success the user state is exactly the declared number of bytes that followed the records |
| Sync.HandleConn | net.go:167-188 | the responder replies with its local state and merges exactly when the read succeeded; the records merged are those read; the delegate gets the user state exactly when one exists; a read that panics crashes the node before anything is written or merged |
| Sync.SendAndReceiveState | net.go:439-463 | the initiator sends its state before reading; a connect or encode failure sends nothing; a read error is returned with no records, so a partial read never reaches the caller; a read that panics never returns |
| Sync.NegativeCountCrashes | net.go:591-597 | a peer whose push/pull header declares a negative record count crashes the initiator and the responder, which replies nothing |
| PushPullProperties.PartialReadFails | net.go:606-619 | when the single read hands over fewer bytes than declared although all of them were sent, it reports a short read, while the full read returns exactly those bytes |
| Sync.PushPullExchange | net.go:167-188 | in a complete exchange the responder merges exactly the initiator's table and user state, and the initiator receives exactly the responder's |
| Listener.ReceiveAsWritten | net.go:218-230 | the read loop drops only empty packets; a one-byte packet passes and panics at the header read |
| Listener.OneBytePacketPanics | net.go:218-237 | a one-byte packet (a bare ping type) panics before any handler runs |
| Listener.Receive | net.go:218-237 | with the guard at two bytes, a packet is dispatched exactly when it holds the type and version bytes |
| Listener.ReceiveDiffersOnlyOnOneByte | net.go:218-268 | the corrected guard agrees with the loop as written on every packet except one-byte packets; a dispatched packet with a bad version produces only a log line |
| Listener.CompoundShortPartCrashes | net.go:234-287 | the two-byte guard covers only the outer header: a well-formed compound whose single part is one byte long still panics, because the parts loop hands that part to the same unchecked header read |

## Left out

- Sockets are not modelled. This covers the UDP and TCP listen loops, `setUDPRecvBuf`'s
  back-off, the blocking-time warning and the dial and close of connections. Whether a
  connect succeeded is a parameter of `Sync.SendAndReceiveState`.
- Write errors on the TCP and UDP sockets are not modelled.
- Goroutines, `nodeLock` and the concurrency between the listeners are not modelled.
- The msgpack codec, deflate, and `makeCompoundMessage`/`decodeCompoundMessage` are abstract
  functions. Their byte layouts and error cases are not modelled, and the model relies on
  round-trip assumptions about them.
- `encodeAndSendMsg` is not modelled. A handler's ack or ping is recorded as one
  `SendAck`/`SendPing` effect. `encode` (net.go:388) is an abstract step and is not
  modelled; `Outbound` models only `sendMsg` and `rawSendMsg`, on bytes already encoded.
- The ack-handler registry is recorded only as effects. Its timers and the expiry of
  handlers are not modelled.
- `suspectNode`, `aliveNode`, `deadNode`, `mergeState` and the delegate's callbacks are
  recorded only as effects or merged values. The membership state machine behind them is
  not part of this model.
- `nextSeqNo` is defined in memberlist.go, which is not part of this model. It is assumed
  to increment a uint32 counter and return the new value, wrapping at 2^32.
- Dispatch nesting is bounded by fuel. The source puts no bound on nesting. Running out of
  fuel is reported as the effect `FuelOut`, and the lemmas supply enough fuel for the
  nesting they describe.
- PushPullProperties.PayloadReadsBack, PushPullProperties.WireReadsBack,
  PushPullProperties.CheckedWireReadsBack, Sync.HandleConn, Sync.SendAndReceiveState and
  Sync.PushPullExchange use `RemoteStateOf`, which reads the user state until the declared
  length is there (the corrected read of the Findings). With the single `bufConn.Read` as
  written, an uncompressed user state that is not all in the 4096-byte buffered reader fails
  with a short read (`PushPullProperties.PartialReadFails`), so their round trips hold only
  when it is.
- The two-byte `conn.Read` of the outer header is assumed to return both bytes when both
  were sent. A one-byte stream is modelled as leaving the version byte at 0.
- PushPull.RemoteStateChecked: allocation limits are not modelled. A `make` whose count
  (Nodes at net.go:597, UserStateLen at net.go:609) is past what the runtime can allocate
  panics in the source; the model allocates any non-negative count.
- The msgpack decoder's read-ahead from the buffered connection is not modelled. The user
  state is read from the bytes that follow the last record.
- A record that fails to decode is modelled as the zero record. In the source it may be
  partly filled.
- The version table is followed as the code defines it: ours or ours minus one. The comment
  above `messageVersion` describes accepting "+1 greater", which the code does not do.
- A runtime panic in `readRemoteState` is carried as the error value `Panic` by
  `RemoteStateOf` and `ReadRemoteState`. `Sync` turns it into a crash, with no reply and no
  return.
- The corrected UDP guard (`Listener.Receive`) covers only the outer header. A part of a
  compound message, or an inflated payload, shorter than two bytes still panics in the model
  as in the source (`Listener.CompoundShortPartCrashes`); a corrected dispatcher that checks
  nested buffers is not part of this model.
- `handleCommand` requires at least two bytes at the top level. A nested part or inflated
  payload shorter than that is modelled as a runtime panic that stops the remaining parts.
- Node records and configuration carry only the fields these functions read or write.

## Findings

| source | as written | input that shows it | evidently intended | confidence | as-written member | corrected member |
|---|---|---|---|---|---|---|
| net.go:218-237 | the UDP loop drops only packets shorter than one byte, while `handleCommand` reads `buf[1]` unchecked | a one-byte datagram such as `[0]` passes the guard and indexes out of range, so the listener panics | packets shorter than the two header bytes are dropped before dispatch | high, not executed | Listener.ReceiveAsWritten, Listener.OneBytePacketPanics | Listener.Receive, Listener.ReceiveDiffersOnlyOnOneByte |
| net.go:591-597 | the push/pull header's record count is passed to `make` unchecked | a peer that sends a header with `Nodes = -1` makes `make` panic; the initiator never returns and a responder's node crashes (no `recover` anywhere) | a negative count (and, at net.go:569-570, an inflated payload shorter than two bytes) is returned as an error; counts past the allocation limit are not covered | high, not executed | Sync.SendAndReceiveState, Sync.NegativeCountCrashes | PushPull.RemoteStateChecked, PushPullProperties.CheckedWireReadsBack |
| net.go:606-619 | the user state is read with one `bufConn.Read`, and a read shorter than UserStateLen is an error | an uncompressed push/pull message whose 5000-byte user state follows the records: the 4096-byte buffered reader hands over at most what it holds, so the read returns fewer than 5000 bytes and the exchange fails | read until UserStateLen bytes are there or the stream ends, as `io.ReadFull` does | medium, not executed | PushPull.ReadUserStateOnce, PushPullProperties.PartialReadFails | PushPull.ReadUserFull, PushPull.ReadRemoteState |
