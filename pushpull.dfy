/**
 * The push/pull anti-entropy framing: `sendLocalState` writes the type and version
 * bytes, a push/pull header, one record per node of the table and the raw user
 * state; `readRemoteState` reads that framing back, first unwrapping a compressed
 * message. Both are methods over arrays, each proved equal to a specification
 * function that the lemmas of PushPullProperties reason about.
 */
module PushPull {
  import opened Wire
  import opened Codec

  /** A row of the local node table: the fields `sendLocalState` copies out of it. */
  datatype Node = Node(name: string, addr: seq<byte>, meta: seq<byte>, incarnation: uint32, state: NodeStateType)

  function ToPushState(n: Node): PushNodeState
  {
    PushNodeState(n.name, n.addr, n.meta, n.incarnation, n.state)
  }

  /** The snapshot of the table, one record per row, in table order. */
  function PushStates(nodes: seq<Node>): seq<PushNodeState>
  {
    seq(|nodes|, i requires 0 <= i < |nodes| => ToPushState(nodes[i]))
  }

  /** The user state that is sent: the delegate's local state, or nothing when there is no delegate. */
  function UserData(cfg: Config, localState: seq<byte>): seq<byte>
  {
    if cfg.hasDelegate then localState else []
  }

  // ---------------------------------------------------------------------------
  // Sending

  /** The node records encoded one after the other, or None as soon as one fails to encode. */
  function EncodeNodes(c: Codec, ns: seq<PushNodeState>): Option<seq<byte>>
    decreases |ns|
  {
    if ns == [] then Some([])
    else
      match EncodeNodes(c, ns[..|ns| - 1])
      case None => None
      case Some(init) =>
        match c.encodeNode(ns[|ns| - 1])
        case None => None
        case Some(last) => Some(init + last)
  }

  /** The uncompressed body `sendLocalState` builds: type, version, header, records, user bytes. */
  function LocalStatePayload(c: Codec, nodes: seq<Node>, userData: seq<byte>): Option<seq<byte>>
  {
    match c.encodeHeader(PushPullHeader(|nodes|, |userData|))
    case None => None
    case Some(header) =>
      match EncodeNodes(c, PushStates(nodes))
      case None => None
      case Some(records) => Some([PushPullMsg, OurVersion(PushPullMsg)] + header + records + userData)
  }

  /** What `sendLocalState` writes to the connection: the body, compressed when enabled and possible. */
  function LocalStateWire(c: Codec, cfg: Config, nodes: seq<Node>, localState: seq<byte>): Option<seq<byte>>
  {
    match LocalStatePayload(c, nodes, UserData(cfg, localState))
    case None => None
    case Some(payload) =>
      Some(if cfg.enableCompression && c.compressPayload(payload).Some? then c.compressPayload(payload).value
           else payload)
  }

  lemma {:induction false} EncodeNodesFails(c: Codec, ns: seq<PushNodeState>, k: nat)
    requires k <= |ns| && EncodeNodes(c, ns[..k]).None?
    ensures EncodeNodes(c, ns).None?
    decreases |ns| - k
  {
    if k < |ns| {
      var next := ns[..k + 1];
      assert next[..|next| - 1] == ns[..k];
      EncodeNodesFails(c, ns, k + 1);
    } else {
      assert ns[..k] == ns;
    }
  }

  /** The copy of the node table into a fresh array of records, one per row, in table order. */
  method CopyTable(nodes: seq<Node>) returns (localNodes: array<PushNodeState>)
    ensures fresh(localNodes)
    ensures localNodes[..] == PushStates(nodes)
  {
    localNodes := new PushNodeState[|nodes|](_ => ZeroNodeState);
    for idx := 0 to |nodes|
      invariant forall j :: 0 <= j < idx ==> localNodes[j] == ToPushState(nodes[j])
    {
      localNodes[idx] := ToPushState(nodes[idx]);
    }
  }

  /** The encoder loop: each record in turn, stopping at the first that fails to encode. */
  method WriteRecords(c: Codec, localNodes: array<PushNodeState>) returns (out: Option<seq<byte>>)
    ensures out == EncodeNodes(c, localNodes[..])
  {
    var buf: seq<byte> := [];
    for i := 0 to localNodes.Length
      invariant EncodeNodes(c, localNodes[..i]) == Some(buf)
    {
      var record := c.encodeNode(localNodes[i]);
      assert localNodes[..i + 1][..i] == localNodes[..i];
      if record.None? {
        EncodeNodesFails(c, localNodes[..], i + 1);
        return None;
      }
      buf := buf + record.value;
    }
    assert localNodes[..localNodes.Length] == localNodes[..];
    return Some(buf);
  }

  /**
   * `sendLocalState`: copy the table into an array of records, then write the
   * header, each record and the user bytes into a buffer, stopping at the first
   * encoding error; when compression is enabled the compressed form replaces the
   * buffer, unless compressing fails (a logged error, the plain buffer is sent).
   */
  method SendLocalState(c: Codec, cfg: Config, nodes: seq<Node>, localState: seq<byte>)
    returns (sent: Option<seq<byte>>, warned: bool)
    ensures sent == LocalStateWire(c, cfg, nodes, localState)
    ensures warned <==> (sent.Some? && cfg.enableCompression &&
                         c.compressPayload(LocalStatePayload(c, nodes, UserData(cfg, localState)).value).None?)
  {
    var localNodes := CopyTable(nodes);

    var userData: seq<byte> := [];
    if cfg.hasDelegate {
      userData := localState;
    }

    var header := PushPullHeader(localNodes.Length, |userData|);
    var bufConn: seq<byte> := [PushPullMsg, OurVersion(PushPullMsg)];
    var encoded := c.encodeHeader(header);
    if encoded.None? {
      return None, false;
    }
    bufConn := bufConn + encoded.value;
    var records := WriteRecords(c, localNodes);
    if records.None? {
      return None, false;
    }
    bufConn := bufConn + records.value;
    bufConn := bufConn + userData;
    assert LocalStatePayload(c, nodes, userData) == Some(bufConn);

    var sendBuf := bufConn;
    warned := false;
    if cfg.enableCompression {
      var compressed := c.compressPayload(bufConn);
      if compressed.None? {
        warned := true;
      } else {
        sendBuf := compressed.value;
      }
    }
    sent := Some(sendBuf);
  }

  // ---------------------------------------------------------------------------
  // Receiving

  datatype ReadError =
    | ReadEOF                            // the connection had no (more) bytes
    | BadVersion(version: byte)
    | InvalidMsgType(msgType: byte)      // not a push/pull message after unwrapping
    | DecodeError                        // the compress envelope or the header did not decode
    | DecompressError
    | NodeDecodeError                    // a node record did not decode
    | ShortUserState(got: nat, want: int)
    | Panic                              // a Go runtime panic: index out of range or a negative make
    | MalformedState                     // what a guarded read returns where the unguarded one panics

  /** What `readRemoteState` returns: the node records, the user state and the error, if any. */
  datatype RemoteState = RemoteState(nodes: seq<PushNodeState>, userState: seq<byte>, err: Option<ReadError>)

  function Failed(e: ReadError): RemoteState
  {
    RemoteState([], [], Some(e))
  }

  /** The type check and the second version check, after the optional unwrap. */
  function CheckPushPull(msgType: byte, msgVersion: byte, rest: seq<byte>): Result<seq<byte>, ReadError>
  {
    if msgType != PushPullMsg then Failure(InvalidMsgType(msgType))
    else if !ValidVersion(msgType, msgVersion) then Failure(BadVersion(msgVersion))
    else Success(rest)
  }

  /**
   * Everything before the push/pull header: read the two header bytes (a one-byte
   * read leaves the version at its initial 0), check the version, inflate a compress
   * message and re-read its two header bytes, then require a push/pull message.
   * On success, the stream positioned at the push/pull header.
   */
  function OpenStream(c: Codec, stream: seq<byte>): Result<seq<byte>, ReadError>
  {
    if |stream| == 0 then Failure(ReadEOF)
    else
      var msgType := stream[0];
      var msgVersion := if |stream| >= 2 then stream[1] else 0;
      var rest := if |stream| >= 2 then stream[2..] else [];
      if !ValidVersion(msgType, msgVersion) then Failure(BadVersion(msgVersion))
      else if msgType == CompressMsg then
        match c.decodeCompress(rest)
        case None => Failure(DecodeError)
        case Some(envelope) =>
          match c.decompressBuffer(envelope.0)
          case None => Failure(DecompressError)
          case Some(decomp) =>
            if |decomp| < 2 then Failure(Panic)
            else CheckPushPull(decomp[0], decomp[1], decomp[2..])
      else CheckPushPull(msgType, msgVersion, rest)
  }

  /**
   * Decode up to `k` node records: the records decoded, the stream after them, and
   * whether all `k` decoded (otherwise decoding stopped at the first failure).
   */
  function DecodeNodes(c: Codec, s: seq<byte>, k: nat): (r: (seq<PushNodeState>, seq<byte>, bool))
    ensures |r.0| <= k
    ensures r.2 ==> |r.0| == k
    decreases k
  {
    if k == 0 then ([], s, true)
    else
      var prior := DecodeNodes(c, s, k - 1);
      if !prior.2 then prior
      else
        match c.decodeNode(prior.1)
        case None => (prior.0, prior.1, false)
        case Some(next) => (prior.0 + [next.0], next.1, true)
  }

  /** `n` zero-valued records: what a freshly made slice holds. */
  function Zeros(n: nat): seq<PushNodeState>
  {
    seq(n, _ => ZeroNodeState)
  }

  /**
   * The user-state read that waits for the whole declared length: no bytes left is
   * EOF, fewer than `want` is a short read, otherwise exactly the first `want` bytes.
   */
  function ReadUserState(rest: seq<byte>, want: int): Result<seq<byte>, ReadError>
  {
    if want <= 0 then Success([])
    else if |rest| == 0 then Failure(ReadEOF)
    else if |rest| < want then Failure(ShortUserState(|rest|, want))
    else Success(rest[..want])
  }

  /**
   * The user-state read as written: one `Read`, which hands over at most `avail`
   * bytes. An inflated payload is a byte reader and hands over everything left
   * (`avail >= |rest|`); the connection's buffered reader hands over only what it
   * holds at that moment, or one read of the connection when it holds nothing.
   */
  function ReadUserStateOnce(rest: seq<byte>, want: int, avail: nat): (r: Result<seq<byte>, ReadError>)
    requires avail >= 1
    ensures avail >= |rest| ==> r == ReadUserState(rest, want)
    ensures r.Success? ==> r == ReadUserState(rest, want)
  {
    if want <= 0 then Success([])
    else if |rest| == 0 then Failure(ReadEOF)
    else
      var got := if avail < want then avail else want;
      var got := if |rest| < got then |rest| else got;
      if got != want then Failure(ShortUserState(got, want))
      else Success(rest[..got])
  }

  /** What `readRemoteState` returns for the bytes `stream` of a connection. */
  function RemoteStateOf(c: Codec, stream: seq<byte>): RemoteState
  {
    match OpenStream(c, stream)
    case Failure(e) => Failed(e)
    case Success(rest) =>
      match c.decodeHeader(rest)
      case None => Failed(DecodeError)
      case Some(decoded) =>
        var header := decoded.0;
        if header.nodes < 0 then Failed(Panic)
        else
          var records := DecodeNodes(c, decoded.1, header.nodes);
          var nodes := records.0 + Zeros(header.nodes - |records.0|);
          if !records.2 then RemoteState(nodes, [], Some(NodeDecodeError))
          else
            match ReadUserState(records.1, header.userStateLen)
            case Failure(e) => RemoteState(nodes, [], Some(e))
            case Success(user) => RemoteState(nodes, user, None)
  }

  /**
   * The read with the two guards it lacks: a compress payload too short for its
   * header bytes and a negative record count are returned as an error instead of
   * panicking; every other stream reads exactly as before.
   */
  function RemoteStateChecked(c: Codec, stream: seq<byte>): (r: RemoteState)
    ensures r.err != Some(Panic)
    ensures RemoteStateOf(c, stream).err != Some(Panic) ==> r == RemoteStateOf(c, stream)
    ensures RemoteStateOf(c, stream).err == Some(Panic) ==> r == Failed(MalformedState)
  {
    match OpenStream(c, stream)
    case Failure(e) => Failed(if e == Panic then MalformedState else e)
    case Success(rest) =>
      match c.decodeHeader(rest)
      case None => Failed(DecodeError)
      case Some(decoded) =>
        if decoded.0.nodes < 0 then Failed(MalformedState)
        else RemoteStateOf(c, stream)
  }

  /** Once a record fails to decode, decoding more records changes nothing. */
  lemma {:induction false} DecodeNodesStops(c: Codec, s: seq<byte>, i: nat, k: nat)
    requires i < k
    requires DecodeNodes(c, s, i).2 && c.decodeNode(DecodeNodes(c, s, i).1).None?
    ensures DecodeNodes(c, s, k) == (DecodeNodes(c, s, i).0, DecodeNodes(c, s, i).1, false)
    decreases k
  {
    if k > i + 1 {
      DecodeNodesStops(c, s, i, k - 1);
    }
  }

  /**
   * The first half of `readRemoteState`: read and check the two header bytes, swap to
   * the inflated stream for a compress message, and require a push/pull message.
   */
  method OpenRemote(c: Codec, stream: seq<byte>) returns (res: Result<seq<byte>, ReadError>)
    ensures res == OpenStream(c, stream)
  {
    if |stream| == 0 {
      return Failure(ReadEOF);
    }
    var msgType := stream[0];
    var msgVersion: byte := 0;
    var bufConn: seq<byte> := [];
    if |stream| >= 2 {
      msgVersion := stream[1];
      bufConn := stream[2..];
    }
    if !ValidVersion(msgType, msgVersion) {
      return Failure(BadVersion(msgVersion));
    }

    if msgType == CompressMsg {
      var envelope := c.decodeCompress(bufConn);
      if envelope.None? {
        return Failure(DecodeError);
      }
      var decomp := c.decompressBuffer(envelope.value.0);
      if decomp.None? {
        return Failure(DecompressError);
      }
      if |decomp.value| < 2 {
        return Failure(Panic);
      }
      msgType := decomp.value[0];
      msgVersion := decomp.value[1];
      bufConn := decomp.value[2..];
    }

    if msgType != PushPullMsg {
      return Failure(InvalidMsgType(msgType));
    }
    if !ValidVersion(msgType, msgVersion) {
      return Failure(BadVersion(msgVersion));
    }
    return Success(bufConn);
  }

  /**
   * The record loop of `readRemoteState`: a slice of exactly `count` zero records,
   * filled in order until a record fails to decode.
   */
  method ReadRecords(c: Codec, bufConn: seq<byte>, count: nat)
    returns (remoteNodes: array<PushNodeState>, rest: seq<byte>, ok: bool)
    ensures fresh(remoteNodes)
    ensures var d := DecodeNodes(c, bufConn, count);
      remoteNodes[..] == d.0 + Zeros(count - |d.0|) && rest == d.1 && ok == d.2
  {
    remoteNodes := new PushNodeState[count](_ => ZeroNodeState);
    rest := bufConn;
    for i := 0 to count
      invariant DecodeNodes(c, bufConn, i) == (remoteNodes[..i], rest, true)
      invariant forall j :: i <= j < count ==> remoteNodes[j] == ZeroNodeState
    {
      var record := c.decodeNode(rest);
      if record.None? {
        DecodeNodesStops(c, bufConn, i, count);
        assert remoteNodes[..] == remoteNodes[..i] + Zeros(count - i);
        return remoteNodes, rest, false;
      }
      remoteNodes[i] := record.value.0;
      rest := record.value.1;
      assert remoteNodes[..i + 1] == remoteNodes[..i] + [record.value.0];
    }
    assert remoteNodes[..] == remoteNodes[..count] + Zeros(0);
    ok := true;
  }

  /**
   * The user-state read that repeats `Read` until the declared length is there or
   * the stream ends, as `io.ReadFull` does. `chunk(i)` is how many bytes the `i`-th
   * read hands over (a read returns at least one byte while any are left); the
   * result does not depend on it.
   */
  method ReadUserFull(bufConn: seq<byte>, want: int, chunk: nat -> nat) returns (res: Result<seq<byte>, ReadError>)
    ensures res == ReadUserState(bufConn, want)
  {
    if want <= 0 {
      return Success([]);
    }
    if |bufConn| == 0 {
      return Failure(ReadEOF);
    }
    var userBuf: seq<byte> := [];
    var calls := 0;
    while |userBuf| < want && |userBuf| < |bufConn|
      invariant |userBuf| <= want && |userBuf| <= |bufConn|
      invariant userBuf == bufConn[..|userBuf|]
      decreases want - |userBuf|
    {
      var got := |userBuf|;
      var n := chunk(calls);
      if n == 0 {
        n := 1;
      }
      if n > want - got {
        n := want - got;
      }
      if n > |bufConn| - got {
        n := |bufConn| - got;
      }
      assert bufConn[..got + n] == bufConn[..got] + bufConn[got..got + n];
      userBuf := userBuf + bufConn[got..got + n];
      calls := calls + 1;
    }
    if |userBuf| != want {
      return Failure(ShortUserState(|userBuf|, want));
    }
    return Success(userBuf);
  }

  /**
   * `readRemoteState`: open the stream, decode the push/pull header, fill a slice of
   * exactly `Nodes` records (returning it, partly filled, on a decode error), then
   * read `UserStateLen` bytes of user state, reading until they are all there.
   * `chunk` is how many bytes each read of the user state hands over.
   */
  method ReadRemoteState(c: Codec, stream: seq<byte>, chunk: nat -> nat) returns (r: RemoteState)
    ensures r == RemoteStateOf(c, stream)
  {
    var start := OpenRemote(c, stream);
    if start.Failure? {
      return Failed(start.error);
    }
    var decoded := c.decodeHeader(start.value);
    if decoded.None? {
      return Failed(DecodeError);
    }
    var header := decoded.value.0;
    if header.nodes < 0 {
      return Failed(Panic);
    }
    var remoteNodes, bufConn, ok := ReadRecords(c, decoded.value.1, header.nodes);
    if !ok {
      return RemoteState(remoteNodes[..], [], Some(NodeDecodeError));
    }
    var userBuf := ReadUserFull(bufConn, header.userStateLen, chunk);
    if userBuf.Failure? {
      return RemoteState(remoteNodes[..], [], Some(userBuf.error));
    }
    return RemoteState(remoteNodes[..], userBuf.value, None);
  }
}
