/**
 * The length guard between the UDP read loop and the dispatcher. The loop drops
 * only empty packets, while `handleCommand` reads the version from byte 1, so a
 * one-byte packet reaches an out-of-range index. `ReceiveAsWritten` is the guard as
 * the loop has it; `Receive` is the guard that matches what the dispatcher needs,
 * and is the entry point the rest of the model assumes.
 */
module Listener {
  import opened Wire
  import opened Codec
  import opened Dispatch

  /** The loop's guard as written: packets of fewer than one byte are dropped, all others dispatched. */
  function ReceiveAsWritten(c: Codec, cfg: Config, packet: seq<byte>, from: Addr, seqNo: uint32, fuel: nat): (r: Option<Outcome>)
    ensures r.None? <==> |packet| < 1
    ensures |packet| == 1 ==> r == Some(Outcome([], seqNo, true))
    ensures |packet| >= 2 ==> r == Some(HandleCommand(c, cfg, packet, from, seqNo, fuel))
  {
    if |packet| < 1 then None
    else Some(HandleNested(c, cfg, packet, from, seqNo, fuel))
  }

  /** A one-byte packet such as a bare ping type passes the guard and panics before any handler runs. */
  lemma OneBytePacketPanics(c: Codec, cfg: Config, from: Addr, seqNo: uint32, fuel: nat)
    ensures ReceiveAsWritten(c, cfg, [PingMsg], from, seqNo, fuel) == Some(Outcome([], seqNo, true))
  {
  }

  /** The guard the dispatcher needs: packets shorter than the two header bytes are dropped. */
  function Receive(c: Codec, cfg: Config, packet: seq<byte>, from: Addr, seqNo: uint32, fuel: nat): (r: Option<Outcome>)
    ensures r.None? <==> |packet| < 2
    ensures r.Some? ==> r.value == HandleCommand(c, cfg, packet, from, seqNo, fuel)
  {
    if |packet| < 2 then None
    else Some(HandleCommand(c, cfg, packet, from, seqNo, fuel))
  }

  /**
   * With the corrected guard no packet panics at its outer header: a packet that is
   * dispatched is either refused at the header (only a log line) or reaches the
   * handler of its type, and it differs from the loop as written only on one-byte packets.
   */
  lemma ReceiveDiffersOnlyOnOneByte(c: Codec, cfg: Config, packet: seq<byte>, from: Addr, seqNo: uint32, fuel: nat)
    ensures |packet| != 1 ==> Receive(c, cfg, packet, from, seqNo, fuel) == ReceiveAsWritten(c, cfg, packet, from, seqNo, fuel)
    ensures Receive(c, cfg, packet, from, seqNo, fuel).Some? && !ValidVersion(packet[0], packet[1]) ==>
      Receive(c, cfg, packet, from, seqNo, fuel).value == Outcome([LogError(BadVersion(packet[1]))], seqNo, false)
  {
  }

  /**
   * The guard covers only the outer header: a well-formed compound whose single part
   * is one byte long still panics, since the parts loop hands that part to the same
   * unchecked header read.
   */
  lemma CompoundShortPartCrashes(c: Codec, cfg: Config, body: seq<byte>, from: Addr, seqNo: uint32, fuel: nat)
    requires c.decodeCompound(body) == Some((0, [[PingMsg]]))
    ensures Receive(c, cfg, [CompoundMsg, 0] + body, from, seqNo, fuel + 1).Some?
    ensures Receive(c, cfg, [CompoundMsg, 0] + body, from, seqNo, fuel + 1).value == Outcome([], seqNo, true)
  {
    assert ([CompoundMsg, 0] + body)[2..] == body;
    var parts: seq<seq<byte>> := [[PingMsg]];
    assert HandleNested(c, cfg, parts[0], from, seqNo, fuel) == Outcome([], seqNo, true);
    assert HandleParts(c, cfg, parts, from, seqNo, fuel) == Outcome([], seqNo, true);
    var packet := [CompoundMsg, 0] + body;
    assert HandleCommand(c, cfg, packet, from, seqNo, fuel + 1) == HandleCompound(c, cfg, body, from, seqNo, fuel + 1);
    assert HandleCompound(c, cfg, body, from, seqNo, fuel + 1)
        == Then(Outcome([], seqNo, false), HandleParts(c, cfg, parts, from, seqNo, fuel));
  }
}
