/**
 * What the push/pull framing promises: the parser reads back what the serializer
 * wrote (compressed or not), rejects anything that is not a push/pull message,
 * always returns exactly the declared number of records, keeps the records decoded
 * before an error, and fails a short user-state read.
 */
module PushPullProperties {
  import opened Wire
  import opened Codec
  import opened PushPull

  /** The records decode back, in order, from their encoding followed by anything at all. */
  lemma {:induction false} DecodeNodesRoundTrip(c: Codec, ns: seq<PushNodeState>, tail: seq<byte>)
    requires StreamRoundTrip(c) && EncodeNodes(c, ns).Some?
    ensures DecodeNodes(c, EncodeNodes(c, ns).value + tail, |ns|) == (ns, tail, true)
    decreases |ns|
  {
    if ns != [] {
      var init, last := ns[..|ns| - 1], ns[|ns| - 1];
      var encInit, encLast := EncodeNodes(c, init).value, c.encodeNode(last).value;
      var s := EncodeNodes(c, ns).value + tail;
      assert s == encInit + (encLast + tail);
      DecodeNodesRoundTrip(c, init, encLast + tail);
      assert DecodeNodes(c, s, |ns| - 1) == (init, encLast + tail, true);
      assert c.decodeNode(encLast + tail) == Some((last, tail));
      assert init + [last] == ns;
      assert DecodeNodes(c, s, |ns|) == (ns, tail, true);
    } else {
      assert EncodeNodes(c, ns).value + tail == tail;
    }
  }

  /** The uncompressed body `sendLocalState` builds reads back as the snapshot and the user bytes, with no error. */
  lemma PayloadReadsBack(c: Codec, nodes: seq<Node>, user: seq<byte>)
    requires StreamRoundTrip(c) && LocalStatePayload(c, nodes, user).Some?
    ensures RemoteStateOf(c, LocalStatePayload(c, nodes, user).value) == RemoteState(PushStates(nodes), user, None)
  {
    var header := PushPullHeader(|nodes|, |user|);
    var h := c.encodeHeader(header).value;
    var records := EncodeNodes(c, PushStates(nodes)).value;
    var p := LocalStatePayload(c, nodes, user).value;
    assert p[2..] == h + (records + user);
    assert OpenStream(c, p) == Success(p[2..]);
    assert c.decodeHeader(p[2..]) == Some((header, records + user));
    DecodeNodesRoundTrip(c, PushStates(nodes), user);
    assert PushStates(nodes) + Zeros(0) == PushStates(nodes);
    assert ReadUserState(user, |user|) == Success(user) by {
      if |user| > 0 { assert user[..|user|] == user; }
    }
  }

  /**
   * Whatever `sendLocalState` writes, compressed or not, `readRemoteState` reads
   * back as the same node records in table order and the same user bytes, with no error.
   */
  lemma WireReadsBack(c: Codec, cfg: Config, nodes: seq<Node>, localState: seq<byte>)
    requires StreamRoundTrip(c) && CompressRoundTrip(c)
    requires LocalStateWire(c, cfg, nodes, localState).Some?
    ensures RemoteStateOf(c, LocalStateWire(c, cfg, nodes, localState).value)
         == RemoteState(PushStates(nodes), UserData(cfg, localState), None)
  {
    var user := UserData(cfg, localState);
    var p := LocalStatePayload(c, nodes, user).value;
    PayloadReadsBack(c, nodes, user);
    if cfg.enableCompression && c.compressPayload(p).Some? {
      var out := c.compressPayload(p).value;
      assert IsCompressedForm(c, out, p);
      assert OpenStream(c, out) == OpenStream(c, p);
    }
  }

  /** With the guards added, what `sendLocalState` writes still reads back unchanged. */
  lemma CheckedWireReadsBack(c: Codec, cfg: Config, nodes: seq<Node>, localState: seq<byte>)
    requires StreamRoundTrip(c) && CompressRoundTrip(c)
    requires LocalStateWire(c, cfg, nodes, localState).Some?
    ensures RemoteStateChecked(c, LocalStateWire(c, cfg, nodes, localState).value)
         == RemoteState(PushStates(nodes), UserData(cfg, localState), None)
  {
    WireReadsBack(c, cfg, nodes, localState);
  }

  /**
   * After the optional unwrap only a push/pull message at an accepted version gets
   * through; a compress message gets through only when its payload inflates to one.
   */
  lemma OpenedStreamIsPushPull(c: Codec, stream: seq<byte>, rest: seq<byte>)
    requires OpenStream(c, stream) == Success(rest)
    ensures |stream| >= 1
    ensures ValidVersion(stream[0], if |stream| >= 2 then stream[1] else 0)
    ensures stream[0] == PushPullMsg || stream[0] == CompressMsg
    ensures stream[0] == PushPullMsg ==> rest == (if |stream| >= 2 then stream[2..] else [])
    ensures stream[0] == CompressMsg ==>
      var envelope := c.decodeCompress(if |stream| >= 2 then stream[2..] else []);
      && envelope.Some?
      && c.decompressBuffer(envelope.value.0).Some?
      && var inner := c.decompressBuffer(envelope.value.0).value;
      && |inner| >= 2 && inner[0] == PushPullMsg && ValidVersion(inner[0], inner[1]) && rest == inner[2..]
  {
  }

  /** A type other than push/pull, bare or inside a compress message, is refused with no records. */
  lemma OtherTypesRejected(c: Codec, stream: seq<byte>)
    requires |stream| >= 2
    ensures stream[0] != PushPullMsg && stream[0] != CompressMsg ==>
      RemoteStateOf(c, stream) == Failed(if ValidVersion(stream[0], stream[1]) then InvalidMsgType(stream[0])
                                         else BadVersion(stream[1]))
    ensures stream[0] == CompressMsg && ValidVersion(stream[0], stream[1]) ==>
      var envelope := c.decodeCompress(stream[2..]);
      envelope.Some? && c.decompressBuffer(envelope.value.0).Some? ==>
        var inner := c.decompressBuffer(envelope.value.0).value;
        |inner| >= 2 && inner[0] != PushPullMsg ==> RemoteStateOf(c, stream) == Failed(InvalidMsgType(inner[0]))
  {
  }

  /**
   * Once the push/pull header is decoded with a non-negative count, the result holds
   * exactly that many records: those decoded, in order, then zero values. A record
   * that fails to decode ends the read with that partial slice and no user state;
   * fewer remaining bytes than the declared user-state length is an error; success
   * carries exactly the declared number of user bytes, as they followed the records.
   */
  lemma DeclaredCountKept(c: Codec, stream: seq<byte>, rest: seq<byte>, header: PushPullHeader, after: seq<byte>)
    requires OpenStream(c, stream) == Success(rest)
    requires c.decodeHeader(rest) == Some((header, after))
    requires header.nodes >= 0
    ensures var r := RemoteStateOf(c, stream);
      var records := DecodeNodes(c, after, header.nodes);
      && |r.nodes| == header.nodes
      && r.nodes[..|records.0|] == records.0
      && (forall j :: |records.0| <= j < header.nodes ==> r.nodes[j] == ZeroNodeState)
      && (!records.2 ==> r.err == Some(NodeDecodeError) && r.userState == [])
      && (records.2 && header.userStateLen > |records.1| ==> r.err.Some? && r.userState == [])
      && (r.err.None? ==> r.userState == records.1[..if header.userStateLen > 0 then header.userStateLen else 0])
  {
    var records := DecodeNodes(c, after, header.nodes);
    var r := RemoteStateOf(c, stream);
    assert r.nodes == records.0 + Zeros(header.nodes - |records.0|);
    assert (records.0 + Zeros(header.nodes - |records.0|))[..|records.0|] == records.0;
  }

  /**
   * The single read as written loses a user state that is all there but not all
   * buffered: when the read hands over fewer bytes than declared, it reports a short
   * read, while reading until the declared length is there returns those bytes.
   */
  lemma PartialReadFails(rest: seq<byte>, want: int, avail: nat)
    requires 1 <= avail < want <= |rest|
    ensures ReadUserStateOnce(rest, want, avail) == Failure(ShortUserState(avail, want))
    ensures ReadUserState(rest, want) == Success(rest[..want])
  {
  }
}
