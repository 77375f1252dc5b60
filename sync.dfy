/**
 * The two ends of a push/pull exchange over one TCP connection. The initiator
 * (`sendAndReceiveState`) writes its state and then reads the peer's; the responder
 * (`handleConn`) reads first, answers with its own state and then merges. The bytes
 * each side reads are a parameter: what the peer wrote, as the connection delivered it.
 */
module Sync {
  import opened Wire
  import opened Codec
  import opened PushPull
  import opened PushPullProperties

  /**
   * What the responder did with one connection: the bytes it wrote back (none when
   * the read failed or its own state did not encode), the node records handed to
   * `mergeState`, the user state handed to the delegate's `MergeRemoteState`, and
   * whether the read panicked. Nothing recovers a panic, so it ends the process
   * before anything is written or merged.
   */
  datatype Responder = Responder(reply: Option<seq<byte>>,
                                 merged: Option<seq<PushNodeState>>,
                                 mergedUserState: Option<seq<byte>>,
                                 crashed: bool)

  /**
   * `handleConn`: a failed read ends the connection with nothing written and nothing
   * merged; otherwise the local state is sent (a failure there is only logged) and
   * the remote records and user state are merged.
   */
  function HandleConn(c: Codec, cfg: Config, nodes: seq<Node>, localState: seq<byte>, incoming: seq<byte>): (r: Responder)
    ensures var remote := RemoteStateOf(c, incoming);
      && (r.crashed <==> remote.err == Some(Panic))
      && (r.merged.Some? <==> remote.err.None?)
      && (r.merged.Some? ==> r.merged.value == remote.nodes)
      && (r.reply.Some? ==> r.merged.Some?)
      && (remote.err.None? ==> r.reply == LocalStateWire(c, cfg, nodes, localState))
      && (r.mergedUserState.Some? <==> r.merged.Some? && cfg.hasDelegate)
      && (r.mergedUserState.Some? ==> r.mergedUserState.value == remote.userState)
  {
    var remote := RemoteStateOf(c, incoming);
    if remote.err.Some? then Responder(None, None, None, remote.err == Some(Panic))
    else
      Responder(LocalStateWire(c, cfg, nodes, localState),
                Some(remote.nodes),
                if cfg.hasDelegate then Some(remote.userState) else None,
                false)
  }

  datatype SyncError =
    | DialFailed                 // the connection could not be opened
    | EncodeFailed               // our own state did not encode
    | ReadFailed(e: ReadError)   // the peer's state did not read back

  /**
   * How `sendAndReceiveState` ends: it returns what it sent (if anything) and the
   * peer's state or an error, or, after writing `written`, the read panics and the
   * process ends without returning.
   */
  datatype Initiated =
    | Returned(sent: Option<seq<byte>>, result: Result<(seq<PushNodeState>, seq<byte>), SyncError>)
    | Crashed(written: seq<byte>)

  /**
   * `sendAndReceiveState`: connect, write our state, then read the peer's. Any
   * returned error comes with no records and no user state, so a partial read never
   * reaches the caller; a read that panics never returns. `dialed` stands for the
   * outcome of the connect; `incoming` for what the peer wrote back.
   */
  function SendAndReceiveState(c: Codec, cfg: Config, nodes: seq<Node>, localState: seq<byte>,
                               dialed: bool, incoming: seq<byte>): (r: Initiated)
    ensures var wire, remote := LocalStateWire(c, cfg, nodes, localState), RemoteStateOf(c, incoming);
      && (r.Crashed? <==> dialed && wire.Some? && remote.err == Some(Panic))
      && (r.Crashed? ==> wire == Some(r.written))
      && (r.Returned? ==> (r.sent.Some? <==> dialed && wire.Some?))
      && (r.Returned? && r.sent.Some? ==> r.sent == wire)
      && (r.Returned? ==> (r.result.Success? <==> r.sent.Some? && remote.err.None?))
      && (r.Returned? && r.result.Success? ==> r.result.value == (remote.nodes, remote.userState))
      && (r.Returned? && r.sent.Some? && remote.err.Some? ==>
            r.result == Failure(ReadFailed(remote.err.value)) && remote.err.value != Panic)
  {
    if !dialed then Returned(None, Failure(DialFailed))
    else
      match LocalStateWire(c, cfg, nodes, localState)
      case None => Returned(None, Failure(EncodeFailed))
      case Some(sent) =>
        var remote := RemoteStateOf(c, incoming);
        if remote.err == Some(Panic) then Crashed(sent)
        else if remote.err.Some? then Returned(Some(sent), Failure(ReadFailed(remote.err.value)))
        else Returned(Some(sent), Success((remote.nodes, remote.userState)))
  }

  /**
   * A peer whose push/pull header declares a negative record count makes the read
   * panic at the allocation of the record slice: the initiator never returns, and a
   * responder crashes without replying or merging.
   */
  lemma NegativeCountCrashes(c: Codec, cfg: Config, nodes: seq<Node>, localState: seq<byte>,
                             rest: seq<byte>, header: PushPullHeader, after: seq<byte>)
    requires LocalStateWire(c, cfg, nodes, localState).Some?
    requires c.decodeHeader(rest) == Some((header, after)) && header.nodes < 0
    ensures SendAndReceiveState(c, cfg, nodes, localState, true, [PushPullMsg, 0] + rest).Crashed?
    ensures HandleConn(c, cfg, nodes, localState, [PushPullMsg, 0] + rest).crashed
    ensures HandleConn(c, cfg, nodes, localState, [PushPullMsg, 0] + rest).reply.None?
  {
    assert ([PushPullMsg, 0] + rest)[2..] == rest;
  }

  /**
   * A complete exchange between two nodes: the responder merges exactly the
   * initiator's table and user state, and the initiator receives exactly the
   * responder's, whether or not either side compressed.
   */
  lemma PushPullExchange(c: Codec, cfgA: Config, nodesA: seq<Node>, stateA: seq<byte>,
                         cfgB: Config, nodesB: seq<Node>, stateB: seq<byte>)
    requires StreamRoundTrip(c) && CompressRoundTrip(c)
    requires LocalStateWire(c, cfgA, nodesA, stateA).Some? && LocalStateWire(c, cfgB, nodesB, stateB).Some?
    ensures var responder := HandleConn(c, cfgB, nodesB, stateB, LocalStateWire(c, cfgA, nodesA, stateA).value);
      && !responder.crashed && responder.reply.Some?
      && responder.merged == Some(PushStates(nodesA))
      && (cfgB.hasDelegate ==> responder.mergedUserState == Some(UserData(cfgA, stateA)))
      && var initiator := SendAndReceiveState(c, cfgA, nodesA, stateA, true, responder.reply.value);
      && initiator == Returned(LocalStateWire(c, cfgA, nodesA, stateA), Success((PushStates(nodesB), UserData(cfgB, stateB))))
  {
    WireReadsBack(c, cfgA, nodesA, stateA);
    WireReadsBack(c, cfgB, nodesB, stateB);
  }
}
