/**
 * The memberlist wire format: message types and their versions, the records that
 * travel inside messages, the sizing constants, and the version-acceptance rule.
 */
module Wire {

  /** An octet, as Go's `byte`, `messageType` and `messageVersion` (all uint8). */
  type byte = x: int | 0 <= x < 256

  /** Go's uint32, used for sequence numbers and incarnations. */
  type uint32 = x: int | 0 <= x < 0x1_0000_0000

  const Uint32Modulus: int := 0x1_0000_0000

  datatype Option<+T> = None | Some(value: T)

  datatype Result<+T, +E> = Success(value: T) | Failure(error: E)

  // The message types, numbered in declaration order (an iota block).
  const PingMsg: byte := 0
  const IndirectPingMsg: byte := 1
  const AckRespMsg: byte := 2
  const SuspectMsg: byte := 3
  const AliveMsg: byte := 4
  const DeadMsg: byte := 5
  const PushPullMsg: byte := 6
  const CompoundMsg: byte := 7
  const UserMsg: byte := 8  // carried for the user's delegate, never decoded here
  const CompressMsg: byte := 9

  /** The only compression algorithm. */
  const DeflateAlgo: byte := 0

  /** The current version of every message type: all of them are at version 0. */
  const MessageTypeVersions: map<byte, byte> :=
    map[PingMsg := 0, IndirectPingMsg := 0, AckRespMsg := 0, SuspectMsg := 0,
        AliveMsg := 0, DeadMsg := 0, PushPullMsg := 0, CompoundMsg := 0,
        UserMsg := 0, CompressMsg := 0]

  const CompoundHeaderOverhead: int := 3  // assumed header overhead of a compound message
  const CompoundOverhead: int := 2        // assumed overhead per entry of a compound message
  const MetaMaxSize: int := 128
  const UdpBufSize: int := 65536
  const UdpRecvBuf: int := 2 * 1024 * 1024
  const UdpSendBuf: int := 1400
  const UserMsgOverhead: int := 1

  /** The version this node speaks for a type; a type missing from the table is at version 0. */
  function OurVersion(msgType: byte): (v: byte)
    ensures v == 0
  {
    if msgType in MessageTypeVersions then MessageTypeVersions[msgType] else 0
  }

  /**
   * A received version is accepted when it equals ours or ours minus one, the
   * subtraction wrapping as uint8 arithmetic does. With every type at version 0
   * that admits exactly versions 0 and 255; version 1 ("one ahead") is refused.
   */
  function ValidVersion(msgType: byte, msgVersion: byte): (ok: bool)
    ensures ok <==> msgVersion == 0 || msgVersion == 255
  {
    var ours := OurVersion(msgType);
    msgVersion == ours || msgVersion == (ours + 255) % 256
  }

  // The records carried by the messages.

  datatype Ping = Ping(seqNo: uint32)

  datatype IndirectPingReq = IndirectPingReq(seqNo: uint32, target: seq<byte>)

  datatype AckResp = AckResp(seqNo: uint32)

  datatype Suspect = Suspect(incarnation: uint32, node: string)

  datatype Alive = Alive(incarnation: uint32, node: string, addr: seq<byte>, meta: seq<byte>)

  datatype Dead = Dead(incarnation: uint32, node: string)

  /** Precedes the node records of a push/pull exchange. Go `int` fields: a decoder may yield negatives. */
  datatype PushPullHeader = PushPullHeader(nodes: int, userStateLen: int)

  /** The lifecycle state of a node (its zero value is Alive). */
  datatype NodeStateType = StateAlive | StateSuspect | StateDead

  /** One row of the node table as it travels in a push/pull exchange. */
  datatype PushNodeState = PushNodeState(
    name: string, addr: seq<byte>, meta: seq<byte>, incarnation: uint32, state: NodeStateType)

  /** The zero value of a node record, which fills the rows a failed decode left untouched. */
  const ZeroNodeState: PushNodeState := PushNodeState("", [], [], 0, StateAlive)

  /** The envelope of a compressed message. */
  datatype Compress = Compress(algo: byte, buf: seq<byte>)

  /** A network address: an IP (raw bytes) and a port. */
  datatype Addr = Addr(ip: seq<byte>, port: int)

  /**
   * The configuration and delegate settings the core consults: the UDP port that
   * relayed pings go to, the probe timeout an indirect probe's handler waits, whether
   * payloads are compressed before sending, and whether a user delegate is installed.
   */
  datatype Config = Config(udpPort: int, probeTimeout: int, enableCompression: bool, hasDelegate: bool)
}
