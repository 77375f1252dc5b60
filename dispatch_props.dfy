/**
 * What the dispatcher promises: the header is checked before anything else, each
 * handler's effect, the order in which compound parts are handled, the relay of an
 * indirect probe, and three invariants that hold at every nesting depth.
 */
module DispatchProperties {
  import opened Wire
  import opened Codec
  import opened Dispatch

  // ---------------------------------------------------------------------------
  // Invariants of a whole dispatch

  /** Every ack and every relayed ack produced while handling a datagram goes back to its sender. */
  ghost predicate AnswersOnlySender(acts: seq<Action>, from: Addr)
  {
    forall i :: 0 <= i < |acts| ==>
      (acts[i].SendAck? ==> acts[i].to == from) && (acts[i].SetAckHandler? ==> acts[i].relayTo == from)
  }

  /** Every handler registration is immediately followed by the ping carrying the number it was registered under. */
  ghost predicate RelaysPaired(acts: seq<Action>)
  {
    forall i :: 0 <= i < |acts| && acts[i].SetAckHandler? ==>
      i + 1 < |acts| && acts[i + 1].SendPing? && acts[i + 1].seqNo == acts[i].seqNo
  }

  /** The number of ack handlers registered. */
  function CountRelays(acts: seq<Action>): nat
  {
    if acts == [] then 0
    else (if acts[0].SetAckHandler? then 1 else 0) + CountRelays(acts[1..])
  }

  /** The counter advanced once per registration, and replies went only to the sender. */
  ghost predicate Keeps(r: Outcome, from: Addr, seqNo: uint32)
  {
    && AnswersOnlySender(r.actions, from)
    && RelaysPaired(r.actions)
    && r.seqNo == (seqNo + CountRelays(r.actions)) % Uint32Modulus
  }

  lemma {:induction false} CountRelaysAppend(a: seq<Action>, b: seq<Action>)
    ensures CountRelays(a + b) == CountRelays(a) + CountRelays(b)
    decreases |a|
  {
    if a == [] {
      assert a + b == b;
    } else {
      assert (a + b)[1..] == a[1..] + b;
      CountRelaysAppend(a[1..], b);
    }
  }

  lemma ModAdd(s: int, x: nat, y: nat)
    ensures ((s + x) % Uint32Modulus + y) % Uint32Modulus == (s + x + y) % Uint32Modulus
  {
    var m := Uint32Modulus;
    var q := (s + x) / m;
    assert s + x == q * m + (s + x) % m;
    assert (s + x + y) == (s + x) % m + y + q * m;
    assert ((s + x) % m + y + q * m) % m == ((s + x) % m + y) % m;
  }

  /** Running `b` after `a` keeps the invariants when each keeps them from where it started. */
  lemma KeepsThen(a: Outcome, b: Outcome, from: Addr, seqNo: uint32)
    requires Keeps(a, from, seqNo) && Keeps(b, from, a.seqNo)
    ensures Keeps(Then(a, b), from, seqNo)
  {
    var acts := a.actions + b.actions;
    forall i | 0 <= i < |acts| && acts[i].SetAckHandler?
      ensures i + 1 < |acts| && acts[i + 1].SendPing? && acts[i + 1].seqNo == acts[i].seqNo
    {
      if i < |a.actions| {
        assert acts[i] == a.actions[i];
      } else {
        assert acts[i] == b.actions[i - |a.actions|];
      }
    }
    CountRelaysAppend(a.actions, b.actions);
    ModAdd(seqNo, CountRelays(a.actions), CountRelays(b.actions));
  }

  lemma KeepsQuiet(acts: seq<Action>, from: Addr, seqNo: uint32, crashed: bool)
    requires forall i :: 0 <= i < |acts| ==> acts[i].LogError? || acts[i].LogTruncated? || acts[i].FuelOut?
    ensures Keeps(Outcome(acts, seqNo, crashed), from, seqNo)
  {
    if acts != [] {
      KeepsQuiet(acts[1..], from, seqNo, crashed);
    }
  }

  /**
   * At every depth of compound and compressed nesting: acks (direct or relayed)
   * go only to the datagram's sender, every registered relay handler is paired with
   * the ping that carries its number, and the counter advances exactly once per
   * registration (modulo 2^32).
   */
  lemma {:induction false} CommandKeeps(c: Codec, cfg: Config, buf: seq<byte>, from: Addr, seqNo: uint32, fuel: nat)
    requires |buf| >= 2
    ensures Keeps(HandleCommand(c, cfg, buf, from, seqNo, fuel), from, seqNo)
    decreases fuel, 1, 0
  {
    var msgType, msgVersion, body := buf[0], buf[1], buf[2..];
    var r := HandleCommand(c, cfg, buf, from, seqNo, fuel);
    if !ValidVersion(msgType, msgVersion) {
      KeepsQuiet(r.actions, from, seqNo, false);
    } else if msgType == CompoundMsg {
      assert r == HandleCompound(c, cfg, body, from, seqNo, fuel);
      match c.decodeCompound(body)
      case None =>
        KeepsQuiet(r.actions, from, seqNo, false);
      case Some((trunc, parts)) =>
        var warning := if trunc > 0 then [LogTruncated(trunc)] else [];
        if fuel == 0 {
          KeepsQuiet(warning + [FuelOut], from, seqNo, false);
        } else {
          KeepsQuiet(warning, from, seqNo, false);
          PartsKeeps(c, cfg, parts, from, seqNo, fuel - 1);
          KeepsThen(Outcome(warning, seqNo, false), HandleParts(c, cfg, parts, from, seqNo, fuel - 1), from, seqNo);
        }
    } else if msgType == CompressMsg {
      assert r == HandleCompressed(c, cfg, body, from, seqNo, fuel);
      match c.decompressPayload(body)
      case None =>
        KeepsQuiet(r.actions, from, seqNo, false);
      case Some(payload) =>
        if fuel == 0 {
          KeepsQuiet(r.actions, from, seqNo, false);
        } else {
          NestedKeeps(c, cfg, payload, from, seqNo, fuel - 1);
        }
    } else if msgType == IndirectPingMsg {
      if c.decodeIndirectPing(body).None? {
        KeepsQuiet(r.actions, from, seqNo, false);
      } else {
        assert r == HandleIndirectPing(c, cfg, body, from, seqNo);
        assert CountRelays(r.actions) == 1 by {
          assert r.actions[1..] == [r.actions[1]];
          assert CountRelays(r.actions[1..][1..]) == 0 by { assert r.actions[1..][1..] == []; }
        }
      }
    } else if msgType in {PingMsg, AckRespMsg, SuspectMsg, AliveMsg, DeadMsg, UserMsg} {
      assert CountRelays(r.actions) == 0 by {
        if r.actions != [] { assert r.actions[1..] == []; }
      }
    } else {
      KeepsQuiet(r.actions, from, seqNo, false);
    }
  }

  lemma {:induction false} NestedKeeps(c: Codec, cfg: Config, buf: seq<byte>, from: Addr, seqNo: uint32, fuel: nat)
    ensures Keeps(HandleNested(c, cfg, buf, from, seqNo, fuel), from, seqNo)
    decreases fuel, 2, 0
  {
    if |buf| >= 2 {
      CommandKeeps(c, cfg, buf, from, seqNo, fuel);
    }
  }

  lemma {:induction false} PartsKeeps(c: Codec, cfg: Config, parts: seq<seq<byte>>, from: Addr, seqNo: uint32, fuel: nat)
    ensures Keeps(HandleParts(c, cfg, parts, from, seqNo, fuel), from, seqNo)
    decreases fuel, 3, |parts|
  {
    if parts != [] {
      var first := HandleNested(c, cfg, parts[0], from, seqNo, fuel);
      NestedKeeps(c, cfg, parts[0], from, seqNo, fuel);
      if !first.crashed {
        PartsKeeps(c, cfg, parts[1..], from, first.seqNo, fuel);
        KeepsThen(first, HandleParts(c, cfg, parts[1..], from, first.seqNo, fuel), from, seqNo);
      }
    }
  }

  // ---------------------------------------------------------------------------
  // The header and the routing

  /**
   * A version other than ours or ours minus one is only logged; so is a type the
   * switch does not list (push/pull, which travels over TCP, and anything above 9).
   */
  lemma HeaderChecks(c: Codec, cfg: Config, buf: seq<byte>, from: Addr, seqNo: uint32, fuel: nat)
    requires |buf| >= 2
    ensures !ValidVersion(buf[0], buf[1]) ==>
      HandleCommand(c, cfg, buf, from, seqNo, fuel) == Outcome([LogError(BadVersion(buf[1]))], seqNo, false)
    ensures ValidVersion(buf[0], buf[1]) && (buf[0] == PushPullMsg || buf[0] > CompressMsg) ==>
      HandleCommand(c, cfg, buf, from, seqNo, fuel) == Outcome([LogError(UnsupportedType(buf[0]))], seqNo, false)
  {
  }

  /**
   * The version byte only gates: any two accepted versions of the same type lead to
   * the same outcome, so nothing past the check depends on which one was sent.
   */
  lemma VersionOnlyGates(c: Codec, cfg: Config, msgType: byte, v1: byte, v2: byte, body: seq<byte>,
                         from: Addr, seqNo: uint32, fuel: nat)
    requires ValidVersion(msgType, v1) && ValidVersion(msgType, v2)
    ensures HandleCommand(c, cfg, [msgType, v1] + body, from, seqNo, fuel)
         == HandleCommand(c, cfg, [msgType, v2] + body, from, seqNo, fuel)
  {
    assert ([msgType, v1] + body)[2..] == body == ([msgType, v2] + body)[2..];
  }

  /** A ping is answered by exactly one ack, to its sender, carrying its number; an undecodable one is dropped. */
  lemma PingAnsweredToSender(c: Codec, cfg: Config, body: seq<byte>, v: byte, from: Addr, seqNo: uint32, fuel: nat)
    requires ValidVersion(PingMsg, v)
    ensures var r := HandleCommand(c, cfg, [PingMsg, v] + body, from, seqNo, fuel);
      && r.seqNo == seqNo && !r.crashed
      && r.actions == match c.decodePing(body)
                      case Some(p) => [SendAck(from, p.seqNo)]
                      case None => [LogError(DecodeFailed(PingMsg))]
  {
    assert ([PingMsg, v] + body)[2..] == body;
  }

  /** An ack invokes the handler of exactly the number it carries; an undecodable one is dropped. */
  lemma AckInvokesCarriedHandler(c: Codec, cfg: Config, body: seq<byte>, v: byte, from: Addr, seqNo: uint32, fuel: nat)
    requires ValidVersion(AckRespMsg, v)
    ensures var r := HandleCommand(c, cfg, [AckRespMsg, v] + body, from, seqNo, fuel);
      && r.seqNo == seqNo && !r.crashed
      && r.actions == match c.decodeAck(body)
                      case Some(ack) => [InvokeAckHandler(ack.seqNo)]
                      case None => [LogError(DecodeFailed(AckRespMsg))]
  {
    assert ([AckRespMsg, v] + body)[2..] == body;
  }

  /** Suspect, alive and dead records reach the membership state machine exactly as decoded. */
  lemma MembershipForwardedVerbatim(c: Codec, cfg: Config, msgType: byte, body: seq<byte>, v: byte, from: Addr, seqNo: uint32, fuel: nat)
    requires msgType in {SuspectMsg, AliveMsg, DeadMsg} && ValidVersion(msgType, v)
    ensures var r := HandleCommand(c, cfg, [msgType, v] + body, from, seqNo, fuel);
      && r.seqNo == seqNo && !r.crashed
      && (msgType == SuspectMsg && c.decodeSuspect(body).Some? ==> r.actions == [SuspectNode(c.decodeSuspect(body).value)])
      && (msgType == AliveMsg && c.decodeAlive(body).Some? ==> r.actions == [AliveNode(c.decodeAlive(body).value)])
      && (msgType == DeadMsg && c.decodeDead(body).Some? ==> r.actions == [DeadNode(c.decodeDead(body).value)])
      && (msgType == SuspectMsg && c.decodeSuspect(body).None? ==> r.actions == [LogError(DecodeFailed(SuspectMsg))])
      && (msgType == AliveMsg && c.decodeAlive(body).None? ==> r.actions == [LogError(DecodeFailed(AliveMsg))])
      && (msgType == DeadMsg && c.decodeDead(body).None? ==> r.actions == [LogError(DecodeFailed(DeadMsg))])
  {
    assert ([msgType, v] + body)[2..] == body;
  }

  /** A user message's body goes to the delegate unmodified, and nowhere when there is no delegate. */
  lemma UserMessageForwarded(c: Codec, cfg: Config, body: seq<byte>, v: byte, from: Addr, seqNo: uint32, fuel: nat)
    requires ValidVersion(UserMsg, v)
    ensures var r := HandleCommand(c, cfg, [UserMsg, v] + body, from, seqNo, fuel);
      && r.seqNo == seqNo && !r.crashed
      && r.actions == (if cfg.hasDelegate then [NotifyMsg(body)] else [])
  {
    assert ([UserMsg, v] + body)[2..] == body;
  }

  /**
   * A compressed message whose payload inflates is handled as a fresh datagram, with
   * the same sender and counter; one that does not inflate is only logged.
   */
  lemma CompressedRedispatched(c: Codec, cfg: Config, body: seq<byte>, v: byte, from: Addr, seqNo: uint32, fuel: nat)
    requires ValidVersion(CompressMsg, v)
    ensures var r := HandleCommand(c, cfg, [CompressMsg, v] + body, from, seqNo, fuel + 1);
      match c.decompressPayload(body)
      case None => r == Outcome([LogError(DecompressFailed)], seqNo, false)
      case Some(payload) => r == HandleNested(c, cfg, payload, from, seqNo, fuel)
  {
    assert ([CompressMsg, v] + body)[2..] == body;
  }

  // ---------------------------------------------------------------------------
  // Compound messages

  /**
   * A compound body that does not decode dispatches no part. One that decodes
   * dispatches its parts, in order and with the same sender, after a warning when
   * some parts were truncated; the truncation changes nothing else.
   */
  lemma CompoundDispatchesParts(c: Codec, cfg: Config, body: seq<byte>, v: byte, from: Addr, seqNo: uint32, fuel: nat)
    requires ValidVersion(CompoundMsg, v)
    ensures var r := HandleCommand(c, cfg, [CompoundMsg, v] + body, from, seqNo, fuel + 1);
      && (c.decodeCompound(body).None? ==> r == Outcome([LogError(CompoundDecodeFailed)], seqNo, false))
      && (c.decodeCompound(body).Some? ==>
            var trunc, parts := c.decodeCompound(body).value.0, c.decodeCompound(body).value.1;
            var parted := HandleParts(c, cfg, parts, from, seqNo, fuel);
            && (trunc == 0 ==> r == parted)
            && (trunc > 0 ==> r == Outcome([LogTruncated(trunc)] + parted.actions, parted.seqNo, parted.crashed)))
  {
    assert ([CompoundMsg, v] + body)[2..] == body;
    if c.decodeCompound(body).Some? {
      var parted := HandleParts(c, cfg, c.decodeCompound(body).value.1, from, seqNo, fuel);
      assert [] + parted.actions == parted.actions;
    }
  }

  /**
   * The parts loop is sequential composition: handling `ps + qs` is handling `ps`,
   * then, unless that panicked, handling `qs` from the counter `ps` left.
   */
  lemma {:induction false} PartsAppend(c: Codec, cfg: Config, ps: seq<seq<byte>>, qs: seq<seq<byte>>, from: Addr, seqNo: uint32, fuel: nat)
    ensures var a := HandleParts(c, cfg, ps, from, seqNo, fuel);
      HandleParts(c, cfg, ps + qs, from, seqNo, fuel) ==
        if a.crashed then a else Then(a, HandleParts(c, cfg, qs, from, a.seqNo, fuel))
    decreases |ps|
  {
    if ps == [] {
      assert ps + qs == qs;
    } else {
      assert (ps + qs)[0] == ps[0];
      assert (ps + qs)[1..] == ps[1..] + qs;
      var first := HandleNested(c, cfg, ps[0], from, seqNo, fuel);
      if !first.crashed {
        PartsAppend(c, cfg, ps[1..], qs, from, first.seqNo, fuel);
        var mid := HandleParts(c, cfg, ps[1..], from, first.seqNo, fuel);
        if !mid.crashed {
          var last := HandleParts(c, cfg, qs, from, mid.seqNo, fuel);
          assert first.actions + (mid.actions + last.actions) == (first.actions + mid.actions) + last.actions;
        }
      }
    }
  }

  /** A part that is shorter than the two header bytes makes the runtime panic, and the parts after it are never handled. */
  lemma ShortPartPanics(c: Codec, cfg: Config, short: seq<byte>, rest: seq<seq<byte>>, from: Addr, seqNo: uint32, fuel: nat)
    requires |short| < 2
    ensures HandleParts(c, cfg, [short] + rest, from, seqNo, fuel) == Outcome([], seqNo, true)
  {
    assert ([short] + rest)[0] == short;
  }

  /**
   * A compound holding one compressed message whose payload is a ping is answered
   * with one ack, to the original sender, carrying the ping's number.
   */
  lemma CompoundOfCompressedPing(c: Codec, cfg: Config, compoundBody: seq<byte>, compressBody: seq<byte>,
                                 pingBody: seq<byte>, p: Ping, from: Addr, seqNo: uint32, fuel: nat)
    requires c.decodeCompound(compoundBody) == Some((0, [[CompressMsg, 0] + compressBody]))
    requires c.decompressPayload(compressBody) == Some([PingMsg, 0] + pingBody)
    requires c.decodePing(pingBody) == Some(p)
    ensures HandleCommand(c, cfg, [CompoundMsg, 0] + compoundBody, from, seqNo, fuel + 2)
         == Outcome([SendAck(from, p.seqNo)], seqNo, false)
  {
    var inner := [CompressMsg, 0] + compressBody;
    var ping := [PingMsg, 0] + pingBody;
    CompoundDispatchesParts(c, cfg, compoundBody, 0, from, seqNo, fuel + 1);
    CompressedRedispatched(c, cfg, compressBody, 0, from, seqNo, fuel);
    PingAnsweredToSender(c, cfg, pingBody, 0, from, seqNo, fuel);
    assert HandleNested(c, cfg, inner, from, seqNo, fuel + 1) == HandleNested(c, cfg, ping, from, seqNo, fuel);
    assert HandleParts(c, cfg, [inner], from, seqNo, fuel + 1) == Outcome([SendAck(from, p.seqNo)], seqNo, false) by {
      var none: seq<seq<byte>> := [];
      assert [inner][1..] == none;
    }
  }

  // ---------------------------------------------------------------------------
  // The indirect probe relay

  /**
   * An indirect ping from `from` registers, under a freshly drawn number k, a handler
   * with the probe timeout, then pings the requested target with k. When the target's
   * ack for k comes back it invokes the handler registered under k, and that handler
   * acks the requester's own number back to the requester.
   */
  lemma IndirectProbeRelay(c: Codec, cfg: Config, body: seq<byte>, ind: IndirectPingReq, from: Addr,
                           seqNo: uint32, fuel: nat, ackBody: seq<byte>, target: Addr)
    requires c.decodeIndirectPing(body) == Some(ind)
    requires c.decodeAck(ackBody) == Some(AckResp(NextSeqNo(seqNo)))
    ensures var k := NextSeqNo(seqNo);
      var r := HandleCommand(c, cfg, [IndirectPingMsg, 0] + body, from, seqNo, fuel);
      && r == Outcome([SetAckHandler(k, ind.seqNo, from, cfg.probeTimeout),
                       SendPing(Addr(ind.target, cfg.udpPort), k)], k, false)
      && HandleCommand(c, cfg, [AckRespMsg, 0] + ackBody, target, k, fuel).actions == [InvokeAckHandler(k)]
      && FireAckHandler(r.actions[0]) == SendAck(from, ind.seqNo)
  {
    assert ([IndirectPingMsg, 0] + body)[2..] == body;
    AckInvokesCarriedHandler(c, cfg, ackBody, 0, target, NextSeqNo(seqNo), fuel);
  }
}
