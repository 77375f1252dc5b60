/**
 * The outbound pipeline, `sendMsg` and `rawSendMsg`: offer the broadcast queue the
 * room left in the datagram, send the message alone or as the first part of a
 * compound with the piggybacked broadcasts, and compress the result when configured,
 * falling back to the uncompressed bytes when compression fails.
 */
module Outbound {
  import opened Wire
  import opened Codec
  import opened Dispatch
  import opened DispatchProperties

  /** A datagram handed to the UDP socket. */
  datatype Datagram = Datagram(to: Addr, payload: seq<byte>)

  /** The room offered to the broadcast queue: the send budget less the message and the compound header. */
  function PiggybackBudget(msg: seq<byte>): int
  {
    UdpSendBuf - |msg| - CompoundHeaderOverhead
  }

  /** The message alone when nothing is piggybacked, otherwise a compound with the message first. */
  function Framed(c: Codec, msg: seq<byte>, extra: seq<seq<byte>>): seq<byte>
  {
    if |extra| == 0 then msg else c.makeCompound([msg] + extra)
  }

  /** Whether `rawSendMsg` substitutes the compressed form of `msg`. */
  predicate Compresses(c: Codec, cfg: Config, msg: seq<byte>)
  {
    cfg.enableCompression && c.compressPayload(msg).Some?
  }

  /** The bytes `rawSendMsg` writes for `msg`. */
  function OnTheWire(c: Codec, cfg: Config, msg: seq<byte>): seq<byte>
  {
    if Compresses(c, cfg, msg) then c.compressPayload(msg).value else msg
  }

  /**
   * `rawSendMsg`: with compression enabled, the compressed form replaces the message
   * unless compression fails, in which case a warning is logged and the original goes out.
   */
  method RawSendMsg(c: Codec, cfg: Config, to: Addr, msg: seq<byte>) returns (d: Datagram, warned: bool)
    ensures d == Datagram(to, OnTheWire(c, cfg, msg))
    ensures warned <==> cfg.enableCompression && c.compressPayload(msg).None?
  {
    var out := msg;
    warned := false;
    if cfg.enableCompression {
      var buf := c.compressPayload(msg);
      if buf.None? {
        warned := true;
      } else {
        out := buf.value;
      }
    }
    d := Datagram(to, out);
  }

  /**
   * `sendMsg`: the broadcast queue (`getBroadcasts(overhead, limit)`) is offered
   * 1400 - len(msg) - 3 bytes at 2 bytes of overhead per entry; with nothing to
   * piggyback the message goes out as it is, otherwise as a compound of the message
   * followed by the broadcasts in the order the queue gave them.
   */
  method SendMsg(c: Codec, cfg: Config, to: Addr, msg: seq<byte>, getBroadcasts: (int, int) -> seq<seq<byte>>)
    returns (d: Datagram, warned: bool)
    ensures var extra := getBroadcasts(CompoundOverhead, UdpSendBuf - |msg| - CompoundHeaderOverhead);
      && (|extra| == 0 ==> d.payload == OnTheWire(c, cfg, msg))
      && (|extra| > 0 ==> d.payload == OnTheWire(c, cfg, c.makeCompound([msg] + extra)))
    ensures d.to == to
    ensures warned <==> (cfg.enableCompression &&
      c.compressPayload(Framed(c, msg, getBroadcasts(CompoundOverhead, PiggybackBudget(msg)))).None?)
  {
    var bytesAvail := UdpSendBuf - |msg| - CompoundHeaderOverhead;
    var extra := getBroadcasts(CompoundOverhead, bytesAvail);
    if |extra| == 0 {
      d, warned := RawSendMsg(c, cfg, to, msg);
      return;
    }
    var msgs: seq<seq<byte>> := [];
    msgs := msgs + [msg];
    msgs := msgs + extra;
    assert msgs == [msg] + extra;
    var compound := c.makeCompound(msgs);
    d, warned := RawSendMsg(c, cfg, to, compound);
  }

  /** How many wrapping levels (compound, compression) the receiver unwraps to reach the message. */
  function WrapDepth(c: Codec, cfg: Config, msg: seq<byte>, extra: seq<seq<byte>>): nat
  {
    (if |extra| == 0 then 0 else 1) + (if Compresses(c, cfg, Framed(c, msg, extra)) then 1 else 0)
  }

  /**
   * A datagram compressed by `rawSendMsg` is handled by the receiver exactly as the
   * uncompressed bytes would be, one nesting level deeper.
   */
  lemma CompressionTransparent(c: Codec, cfg: Config, x: seq<byte>, from: Addr, seqNo: uint32, fuel: nat)
    requires CompressRoundTrip(c)
    requires |x| >= 2
    ensures var wire := OnTheWire(c, cfg, x);
      && |wire| >= 2
      && HandleCommand(c, cfg, wire, from, seqNo, fuel + (if Compresses(c, cfg, x) then 1 else 0))
         == HandleCommand(c, cfg, x, from, seqNo, fuel)
  {
    if Compresses(c, cfg, x) {
      var out := c.compressPayload(x).value;
      assert IsCompressedForm(c, out, x);
      CompressedRedispatched(c, cfg, out[2..], out[1], from, seqNo, fuel);
      assert [CompressMsg, out[1]] + out[2..] == out;
    }
  }

  /**
   * What `sendMsg` transmits is handled by the receiver as the message itself
   * followed, unless that panicked, by each piggybacked broadcast in order, all with
   * the same sender, whether or not a compound or compression was added on the way.
   */
  lemma {:induction false} PiggybackDelivered(c: Codec, cfg: Config, msg: seq<byte>, extra: seq<seq<byte>>,
                                              from: Addr, seqNo: uint32, fuel: nat)
    requires CompoundRoundTrip(c) && CompressRoundTrip(c)
    requires |msg| >= 2 && Frameable([msg] + extra)
    ensures var wire := OnTheWire(c, cfg, Framed(c, msg, extra));
      var first := HandleCommand(c, cfg, msg, from, seqNo, fuel);
      && |wire| >= 2
      && HandleCommand(c, cfg, wire, from, seqNo, fuel + WrapDepth(c, cfg, msg, extra))
         == if first.crashed then first else Then(first, HandleParts(c, cfg, extra, from, first.seqNo, fuel))
  {
    var framed := Framed(c, msg, extra);
    var first := HandleCommand(c, cfg, msg, from, seqNo, fuel);
    var unwrapped := fuel + (if |extra| == 0 then 0 else 1);
    if |extra| == 0 {
      assert Then(first, HandleParts(c, cfg, extra, from, first.seqNo, fuel)).actions == first.actions + [];
    } else {
      var msgs := [msg] + extra;
      assert |framed| >= 2 && framed[0] == CompoundMsg && framed[1] == 0;
      assert c.decodeCompound(framed[2..]) == Some((0, msgs));
      CompoundDispatchesParts(c, cfg, framed[2..], 0, from, seqNo, fuel);
      assert [CompoundMsg, 0] + framed[2..] == framed;
      assert msgs[0] == msg && msgs[1..] == extra;
    }
    CompressionTransparent(c, cfg, framed, from, seqNo, unwrapped);
  }
}
