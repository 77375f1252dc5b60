/**
 * The inbound dispatcher: `handleCommand` and the per-type handlers it routes to.
 *
 * Handling a datagram is a pure function of the datagram, its sender, the value of
 * the sequence-number counter, and the external decoders. Its effects on the rest of
 * the node (sending, registering ack handlers, membership updates, delegate calls,
 * log lines) are returned as a list of actions in the order the code performs them.
 * The source puts no bound on how deeply compound and compressed messages may nest,
 * so the recursion carries fuel; running out of it is reported as `FuelOut`.
 */
module Dispatch {
  import opened Wire
  import opened Codec

  /** What a handler logs before it drops a message. */
  datatype LogEntry =
    | BadVersion(version: byte)
    | UnsupportedType(msgType: byte)
    | DecodeFailed(msgType: byte)
    | CompoundDecodeFailed
    | DecompressFailed

  datatype Action =
    | SendAck(to: Addr, seqNo: uint32)                  // encodeAndSendMsg(to, ackRespMsg, ack)
    | SetAckHandler(seqNo: uint32, relaySeqNo: uint32,  // setAckHandler(seqNo, relay, timeout); the
                    relayTo: Addr, timeout: int)        // relay acks relaySeqNo back to relayTo
    | SendPing(to: Addr, seqNo: uint32)                 // encodeAndSendMsg(to, pingMsg, ping)
    | InvokeAckHandler(seqNo: uint32)                   // invokeAckHandler(seqNo)
    | SuspectNode(sus: Suspect)                         // suspectNode(&sus)
    | AliveNode(live: Alive)                            // aliveNode(&live)
    | DeadNode(dead: Dead)                              // deadNode(&d)
    | NotifyMsg(payload: seq<byte>)                     // Delegate.NotifyMsg(buf)
    | LogError(entry: LogEntry)
    | LogTruncated(count: nat)                          // warning: parts lost to truncation
    | FuelOut                                           // nesting deeper than the model's fuel

  /**
   * The effects of handling one datagram, the sequence-number counter afterwards,
   * and whether handling ended in a Go runtime panic (an out-of-range index), which
   * unwinds every enclosing handler and so ends the processing of sibling parts.
   */
  datatype Outcome = Outcome(actions: seq<Action>, seqNo: uint32, crashed: bool)

  /** The sequence-number allocator: advance the counter, wrapping at 2^32, and hand out the new value. */
  function NextSeqNo(seqNo: uint32): uint32
  {
    (seqNo + 1) % Uint32Modulus
  }

  /** The effects of `a` followed by those of `b`, which started from the counter `a` left. */
  function Then(a: Outcome, b: Outcome): Outcome
  {
    Outcome(a.actions + b.actions, b.seqNo, b.crashed)
  }

  /** What the relay handler registered by an indirect ping does when it fires: ack the original prober. */
  function FireAckHandler(registered: Action): Action
    requires registered.SetAckHandler?
  {
    SendAck(registered.relayTo, registered.relaySeqNo)
  }

  /**
   * `handleCommand`: byte 0 is the type, byte 1 the version, and only the rest is
   * handed on. The caller must supply two bytes; the code indexes `buf[1]` unchecked.
   */
  function HandleCommand(c: Codec, cfg: Config, buf: seq<byte>, from: Addr, seqNo: uint32, fuel: nat): Outcome
    requires |buf| >= 2
    decreases fuel, 1, 0
  {
    var msgType, msgVersion, body := buf[0], buf[1], buf[2..];
    if !ValidVersion(msgType, msgVersion) then
      Outcome([LogError(BadVersion(msgVersion))], seqNo, false)
    else if msgType == CompoundMsg then HandleCompound(c, cfg, body, from, seqNo, fuel)
    else if msgType == PingMsg then Outcome(HandlePing(c, body, from), seqNo, false)
    else if msgType == IndirectPingMsg then HandleIndirectPing(c, cfg, body, from, seqNo)
    else if msgType == AckRespMsg then Outcome(HandleAck(c, body), seqNo, false)
    else if msgType == SuspectMsg then Outcome(HandleSuspect(c, body), seqNo, false)
    else if msgType == AliveMsg then Outcome(HandleAlive(c, body), seqNo, false)
    else if msgType == DeadMsg then Outcome(HandleDead(c, body), seqNo, false)
    else if msgType == UserMsg then Outcome(HandleUser(cfg, body), seqNo, false)
    else if msgType == CompressMsg then HandleCompressed(c, cfg, body, from, seqNo, fuel)
    else Outcome([LogError(UnsupportedType(msgType))], seqNo, false)
  }

  /** `handleCommand` applied to a buffer that came out of a compound or compressed message. */
  function HandleNested(c: Codec, cfg: Config, buf: seq<byte>, from: Addr, seqNo: uint32, fuel: nat): Outcome
    decreases fuel, 2, 0
  {
    if |buf| < 2 then Outcome([], seqNo, true)  // buf[1] is out of range: the runtime panics
    else HandleCommand(c, cfg, buf, from, seqNo, fuel)
  }

  /** The loop over the parts of a compound message: each in order, with the same sender. */
  function HandleParts(c: Codec, cfg: Config, parts: seq<seq<byte>>, from: Addr, seqNo: uint32, fuel: nat): Outcome
    decreases fuel, 3, |parts|
  {
    if parts == [] then Outcome([], seqNo, false)
    else
      var first := HandleNested(c, cfg, parts[0], from, seqNo, fuel);
      if first.crashed then first
      else Then(first, HandleParts(c, cfg, parts[1..], from, first.seqNo, fuel))
  }

  /** `handleCompound` */
  function HandleCompound(c: Codec, cfg: Config, body: seq<byte>, from: Addr, seqNo: uint32, fuel: nat): Outcome
    decreases fuel, 0, 0
  {
    match c.decodeCompound(body)
    case None => Outcome([LogError(CompoundDecodeFailed)], seqNo, false)
    case Some((trunc, parts)) =>
      var warning := if trunc > 0 then [LogTruncated(trunc)] else [];
      if fuel == 0 then Outcome(warning + [FuelOut], seqNo, false)
      else Then(Outcome(warning, seqNo, false), HandleParts(c, cfg, parts, from, seqNo, fuel - 1))
  }

  /** `handleCompressed`: the inflated payload is handled as a datagram of its own. */
  function HandleCompressed(c: Codec, cfg: Config, body: seq<byte>, from: Addr, seqNo: uint32, fuel: nat): Outcome
    decreases fuel, 0, 0
  {
    match c.decompressPayload(body)
    case None => Outcome([LogError(DecompressFailed)], seqNo, false)
    case Some(payload) =>
      if fuel == 0 then Outcome([FuelOut], seqNo, false)
      else HandleNested(c, cfg, payload, from, seqNo, fuel - 1)
  }

  /** `handlePing`: answer the sender with an ack carrying the ping's number. */
  function HandlePing(c: Codec, body: seq<byte>, from: Addr): seq<Action>
  {
    match c.decodePing(body)
    case None => [LogError(DecodeFailed(PingMsg))]
    case Some(p) => [SendAck(from, p.seqNo)]
  }

  /**
   * `handleIndirectPing`: draw a fresh local number, register a handler under it
   * that relays an ack with the requester's number to the requester, then ping the
   * target with the local number.
   */
  function HandleIndirectPing(c: Codec, cfg: Config, body: seq<byte>, from: Addr, seqNo: uint32): Outcome
  {
    match c.decodeIndirectPing(body)
    case None => Outcome([LogError(DecodeFailed(IndirectPingMsg))], seqNo, false)
    case Some(ind) =>
      var localSeqNo := NextSeqNo(seqNo);
      var destAddr := Addr(ind.target, cfg.udpPort);
      Outcome([SetAckHandler(localSeqNo, ind.seqNo, from, cfg.probeTimeout),
               SendPing(destAddr, localSeqNo)], localSeqNo, false)
  }

  /** `handleAck` */
  function HandleAck(c: Codec, body: seq<byte>): seq<Action>
  {
    match c.decodeAck(body)
    case None => [LogError(DecodeFailed(AckRespMsg))]
    case Some(ack) => [InvokeAckHandler(ack.seqNo)]
  }

  /** `handleSuspect` */
  function HandleSuspect(c: Codec, body: seq<byte>): seq<Action>
  {
    match c.decodeSuspect(body)
    case None => [LogError(DecodeFailed(SuspectMsg))]
    case Some(sus) => [SuspectNode(sus)]
  }

  /** `handleAlive` */
  function HandleAlive(c: Codec, body: seq<byte>): seq<Action>
  {
    match c.decodeAlive(body)
    case None => [LogError(DecodeFailed(AliveMsg))]
    case Some(live) => [AliveNode(live)]
  }

  /** `handleDead` */
  function HandleDead(c: Codec, body: seq<byte>): seq<Action>
  {
    match c.decodeDead(body)
    case None => [LogError(DecodeFailed(DeadMsg))]
    case Some(d) => [DeadNode(d)]
  }

  /** `handleUser`: the body goes to the delegate as it is, if there is a delegate. */
  function HandleUser(cfg: Config, body: seq<byte>): seq<Action>
  {
    if cfg.hasDelegate then [NotifyMsg(body)] else []
  }
}
