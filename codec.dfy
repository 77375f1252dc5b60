/**
 * The collaborators whose code lies outside net.go: the msgpack `decode`/encoder,
 * the compound framing (`makeCompoundMessage`, `decodeCompoundMessage`) and the deflate
 * wrapper (`compressPayload`, `decompressPayload`, `decompressBuffer`). Each is a
 * function value; their byte layouts are not modelled. What the model assumes of them
 * is stated once, as the predicates below, and only lemmas that need it require it.
 */
module Codec {
  import opened Wire

  datatype Codec = Codec(
    // `decode(buf, &msg)` on a whole UDP body, one function per message record
    decodePing: seq<byte> -> Option<Ping>,
    decodeIndirectPing: seq<byte> -> Option<IndirectPingReq>,
    decodeAck: seq<byte> -> Option<AckResp>,
    decodeSuspect: seq<byte> -> Option<Suspect>,
    decodeAlive: seq<byte> -> Option<Alive>,
    decodeDead: seq<byte> -> Option<Dead>,
    // `decodeCompoundMessage`: the truncated-part count and the parts, or an error
    decodeCompound: seq<byte> -> Option<(nat, seq<seq<byte>>)>,
    // `makeCompoundMessage`: a whole compound message, header included
    makeCompound: seq<seq<byte>> -> seq<byte>,
    // `compressPayload`: a whole compress message, header included, or an error
    compressPayload: seq<byte> -> Option<seq<byte>>,
    // `decompressPayload` on the body of a compress message
    decompressPayload: seq<byte> -> Option<seq<byte>>,
    // the streaming msgpack encoder and decoder of a push/pull connection;
    // a decoder returns the value and the stream left after it
    encodeHeader: PushPullHeader -> Option<seq<byte>>,
    decodeHeader: seq<byte> -> Option<(PushPullHeader, seq<byte>)>,
    encodeNode: PushNodeState -> Option<seq<byte>>,
    decodeNode: seq<byte> -> Option<(PushNodeState, seq<byte>)>,
    decodeCompress: seq<byte> -> Option<(Compress, seq<byte>)>,
    // `decompressBuffer`: inflate the buffer of a compress envelope
    decompressBuffer: Compress -> Option<seq<byte>>
  )

  /** The streaming decoder reads back exactly what the encoder wrote, whatever follows it. */
  ghost predicate StreamRoundTrip(c: Codec)
  {
    && (forall h: PushPullHeader, tail: seq<byte> :: c.encodeHeader(h).Some? ==>
          c.decodeHeader(c.encodeHeader(h).value + tail) == Some((h, tail)))
    && (forall n: PushNodeState, tail: seq<byte> :: c.encodeNode(n).Some? ==>
          c.decodeNode(c.encodeNode(n).value + tail) == Some((n, tail)))
  }

  /** `out` is a compress message (type and version header) whose payload inflates to `payload`. */
  ghost predicate IsCompressedForm(c: Codec, out: seq<byte>, payload: seq<byte>)
  {
    && |out| >= 2
    && out[0] == CompressMsg && out[1] == OurVersion(CompressMsg)
    && c.decompressPayload(out[2..]) == Some(payload)
    && c.decodeCompress(out[2..]).Some?
    && c.decompressBuffer(c.decodeCompress(out[2..]).value.0) == Some(payload)
  }

  /** Whatever `compressPayload` produces is a compress message that restores its input. */
  ghost predicate CompressRoundTrip(c: Codec)
  {
    forall payload: seq<byte> :: c.compressPayload(payload).Some? ==>
      IsCompressedForm(c, c.compressPayload(payload).value, payload)
  }

  /** A batch the framing can carry: at most 255 parts, each shorter than 64 KiB. */
  ghost predicate Frameable(msgs: seq<seq<byte>>)
  {
    |msgs| <= 255 && forall i :: 0 <= i < |msgs| ==> |msgs[i]| <= 65535
  }

  /** A compound message of a frameable batch carries the compound header and decodes to the batch, untruncated. */
  ghost predicate CompoundRoundTrip(c: Codec)
  {
    forall msgs: seq<seq<byte>> :: Frameable(msgs) ==>
      && |c.makeCompound(msgs)| >= 2
      && c.makeCompound(msgs)[0] == CompoundMsg
      && c.makeCompound(msgs)[1] == OurVersion(CompoundMsg)
      && c.decodeCompound(c.makeCompound(msgs)[2..]) == Some((0, msgs))
  }
}
