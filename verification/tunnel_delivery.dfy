/**
 Two tunnels from end to end: a packet handed to one that has no session yet is queued, the
 handshake that it starts is answered and completed, the queue is flushed, and the other tunnel
 hands out exactly the packets that were queued, in order.
 */
module TunnelDelivery {
  import opened Wrappers
  import opened Words
  import opened ByteStrings
  import opened Crypto
  import opened Wire
  import opened ReplayWindow
  import opened Sessions
  import opened Handshakes
  import opened Tunnels
  import opened TunnelFlush
  import opened TunnelTimers
  import TunnelRuns

  // ---------------------------------------------------------------- the receiving end

  /** Datagrams that arrive one after the other and pass the rate limiter. */
  ghost function DeliverAll(c: Primitives, t: Tunn, datagrams: seq<Bytes>, env: Env): seq<TunnResult>
    requires t.WellFormed() && env.cap >= DATA_OVERHEAD_SZ
    requires forall d :: d in datagrams ==> |d| <= env.cap
    decreases |datagrams|
  {
    if datagrams == [] then []
    else
      match ParseIncomingPacket(datagrams[0])
      case Failure(e) => [Err(e)] + DeliverAll(c, t, datagrams[1..], env)
      case Success(packet) =>
        var (t', r) := HandleVerified(c, t, packet, env);
        HandlingKeepsForm(c, t, packet, env);
        [r] + DeliverAll(c, t', datagrams[1..], env)
  }

  lemma HandlingKeepsForm(c: Primitives, t: Tunn, p: Packet, env: Env)
    requires t.WellFormed() && env.cap >= DATA_OVERHEAD_SZ && (p.PacketData? ==> env.cap >= |p.encapsulated|)
    ensures HandleVerified(c, t, p, env).0.WellFormed()
  {
    hide ReceiveInitiation, ReceiveResponse, ReceiveCookieReply, ReceivePacketData, IpHeader, FormatPacketData;
  }

  /** What a tunnel hands out for a packet that it has recovered. */
  function Verdict(packet: Bytes): TunnResult {
    if packet == [] then Done
    else
      match IpHeader(packet)
      case None => Err(InvalidPacket)
      case Some((length, source)) =>
        if length > |packet| then Err(InvalidPacket)
        else if |source| == 4 then WriteToTunnelV4(packet[..length], source)
        else WriteToTunnelV6(packet[..length], source)
  }

  function Verdicts(packets: seq<Bytes>): (r: seq<TunnResult>)
    ensures |r| == |packets| && forall i :: 0 <= i < |r| ==> r[i] == Verdict(packets[i])
  {
    seq(|packets|, i requires 0 <= i < |packets| => Verdict(packets[i]))
  }

  /** An IPv4 packet, field by field: the total length is in the third and fourth byte, highest first,
      the source address follows the twelfth. */
  lemma Ipv4Header(first: byte, tos: byte, high: byte, low: byte, middle: Bytes, source: Bytes, rest: Bytes)
    requires 0x40 <= first <= 0x4f && |middle| == 8 && |source| == 4 && |rest| >= 4
    ensures IpHeader([first, tos, high, low] + middle + source + rest) == Some((256 * high as nat + low as nat, source))
  {
    var p := [first, tos, high, low] + middle + source + rest;
    assert p[2..4] == [high, low] && p[12..16] == source;
    TwoBytes(high, low);
  }

  /** An IPv6 packet: the length behind the header of 40 bytes is in the fifth and sixth byte, the source
      address follows the eighth. */
  lemma Ipv6Header(first: byte, flow: Bytes, high: byte, low: byte, next: Bytes, source: Bytes, rest: Bytes)
    requires 0x60 <= first <= 0x6f && |flow| == 3 && |next| == 2 && |source| == 16 && |rest| >= 16
    ensures IpHeader([first] + flow + [high, low] + next + source + rest) ==
            Some((40 + 256 * high as nat + low as nat, source))
  {
    var p := [first] + flow + [high, low] + next + source + rest;
    assert p[4..6] == [high, low] && p[8..24] == source;
    TwoBytes(high, low);
  }

  /** Nothing else is taken for an IP packet. */
  lemma NoIpHeader(p: Bytes)
    ensures IpHeader(p).None? <==>
            !(p != [] && ((0x40 <= p[0] <= 0x4f && |p| >= 20) || (0x60 <= p[0] <= 0x6f && |p| >= 40)))
  {
  }

  lemma TwoBytes(high: byte, low: byte)
    ensures FromBigEndian([high, low]) == 256 * high as nat + low as nat
  {
    assert [high, low][..1] == [high] && [high][..0] == [];
    assert FromBigEndian([high]) == high as nat;
  }

  /** An IP packet that is as long as its header says is handed out as it is. */
  lemma IpPacketUnchanged(packet: Bytes)
    requires IpHeader(packet).Some? && IpHeader(packet).value.0 == |packet|
    ensures var r := Verdict(packet);
            (r.WriteToTunnelV4? || r.WriteToTunnelV6?) && r.packet == packet
  {
    assert packet[..|packet|] == packet;
  }

  /** The tunnel has the session for what this sender sends, and has seen nothing it will still send. */
  ghost predicate Expects(t: Tunn, sender: SessionState) {
    && t.WellFormed()
    && var slot := t.sessions[sender.sendingIndex % N_SESSIONS];
    && slot.Some? && Crossed(sender, slot.value)
    && slot.value.window.Consistent() && slot.value.window.next <= sender.sendCounter
  }

  /** The same keys and indices, and as much sent. */
  predicate SameSession(s: Option<SessionState>, s': Option<SessionState>) {
    s.Some? && s'.Some? && s.value == s'.value.(window := s.value.window, receiveCnt := s.value.receiveCnt)
  }

  /** What is sent next is received and leaves the receiver expecting what is sent after it. */
  lemma NextIsReceived(c: Primitives, sender: SessionState, receiver: SessionState, packet: Bytes)
    requires c.Lawful() && Crossed(sender, receiver)
    requires receiver.window.Consistent() && receiver.window.next <= sender.sendCounter
    requires sender.sendingIndex < U32_LIMIT && sender.sendCounter < U64_LIMIT
    ensures var (sender', datagram) := FormatPacketData(c, sender, packet);
            var p := ParseIncomingPacket(datagram);
            && |datagram| == |packet| + DATA_OVERHEAD_SZ
            && p.Success? && p.value.PacketData? && p.value.receiverIdx == sender.sendingIndex
            && |p.value.encapsulated| <= |datagram|
            && var (receiver', r) := ReceivePacketData(c, receiver, p.value);
            && r == Success(packet) && sender'.sendingIndex == sender.sendingIndex
            && SameSession(Some(receiver'), Some(receiver))
            && Crossed(sender', receiver') && receiver'.window.Consistent()
            && receiver'.window.next <= sender'.sendCounter
  {
    PacketIsRecovered(c, sender, receiver, packet);
    FormattedCounter(c, sender, packet);
    var p := ParseIncomingPacket(FormatPacketData(c, sender, packet).1).value;
    assert p.receiverIdx == sender.sendingIndex && p.counter == sender.sendCounter;
  }

  lemma DataArrives(c: Primitives, t: Tunn, sender: SessionState, packet: Bytes, env: Env)
    requires c.Lawful() && Expects(t, sender)
    requires sender.sendingIndex < U32_LIMIT && sender.sendCounter < U64_LIMIT
    requires env.cap >= |packet| + DATA_OVERHEAD_SZ
    ensures var (sender', datagram) := FormatPacketData(c, sender, packet);
            var p := ParseIncomingPacket(datagram);
            && |datagram| == |packet| + DATA_OVERHEAD_SZ
            && p.Success? && p.value.PacketData? && |p.value.encapsulated| <= env.cap
            && var (t', r) := HandleVerified(c, t, p.value, env);
            && Expects(t', sender') && r == Verdict(packet)
            && var slot, was := sender.sendingIndex % 8, t.current % 8;
            && t'.current == (if t.sessions[was].None? || t.timers.sessionTimers[slot] >= t.timers.sessionTimers[was]
                              then sender.sendingIndex else t.current)
            && SameSession(t'.sessions[slot], t.sessions[slot])
  {
    hide IpHeader, ParseIncomingPacket, FormatPacketData, ValidateDecapsulated, ReceivePacketData;
    var slot := sender.sendingIndex % N_SESSIONS;
    var receiver := t.sessions[slot].value;
    NextIsReceived(c, sender, receiver, packet);
    var p := ParseIncomingPacket(FormatPacketData(c, sender, packet).1).value;
    var (receiver', r) := ReceivePacketData(c, receiver, p);
    var t1 := t.(sessions := t.sessions[slot := Some(receiver')]);
    DataHandedOut(SetCurrentSession(t1, p.receiverIdx).Tick(TimeLastPacketReceived), packet);
    ReceivingRecords(c, t, p, env);
  }

  lemma DataHandedOut(t: Tunn, packet: Bytes)
    ensures ValidateDecapsulated(t, packet).1 == Verdict(packet)
    ensures ValidateDecapsulated(t, packet).0.sessions == t.sessions
    ensures ValidateDecapsulated(t, packet).0.timers.sessionTimers == t.timers.sessionTimers
  {
    hide IpHeader;
  }

  ghost predicate RoomFor(packets: seq<Bytes>, cap: nat) {
    cap >= DATA_OVERHEAD_SZ && forall p :: p in packets ==> cap >= |p| + DATA_OVERHEAD_SZ
  }

  lemma {:induction false} AllDelivered(c: Primitives, t: Tunn, sender: SessionState, packets: seq<Bytes>, env: Env)
    requires c.Lawful() && Expects(t, sender) && RoomFor(packets, env.cap)
    requires sender.sendingIndex < U32_LIMIT && sender.sendCounter + |packets| <= U64_LIMIT
    ensures var datagrams := FormatAll(c, sender, packets).1;
            && (forall d :: d in datagrams ==> |d| <= env.cap)
            && DeliverAll(c, t, datagrams, env) == Verdicts(packets)
    decreases |packets|
  {
    hide HandleVerified, Expects, FormatPacketData, ParseIncomingPacket, Verdict;
    if packets == [] {
      assert t.WellFormed() by { ExpectsForm(t, sender); }
    } else {
      ExpectsForm(t, sender);
      assert packets[0] in packets;
      DataArrives(c, t, sender, packets[0], env);
      var (sender', datagram) := FormatPacketData(c, sender, packets[0]);
      FormattedStep(c, sender, packets[0]);
      var (t', r) := HandleVerified(c, t, ParseIncomingPacket(datagram).value, env);
      AllDelivered(c, t', sender', packets[1..], env);
      assert Verdicts(packets) == [r] + Verdicts(packets[1..]);
      var rest := FormatAll(c, sender', packets[1..]).1;
      assert ([datagram] + rest)[1..] == rest;
    }
  }

  lemma ExpectsForm(t: Tunn, sender: SessionState)
    requires Expects(t, sender)
    ensures t.WellFormed()
  {
  }

  lemma FormattedStep(c: Primitives, s: SessionState, packet: Bytes)
    ensures FormatPacketData(c, s, packet).0 == s.(sendCounter := s.sendCounter + 1)
  {
  }

  // ---------------------------------------------------------------- the handshake between tunnels

  /** A packet for a tunnel without a session is queued and starts a handshake. */
  lemma Initiates(c: Primitives, t: Tunn, src: Bytes, env: Env)
    requires t.WellFormed() && t.CurrentSession().None? && !t.handshake.InProgress()
    requires env.cap >= |src| + DATA_OVERHEAD_SZ && env.cap >= HANDSHAKE_INIT_SZ
    ensures var (t', r) := Encapsulate(c, t, src, env);
            var (h, sent) := FormatInitiation(c, t.handshake, env.cap, env.ephemeral, env.timestamp, env.sent);
            && sent.Success? && r == WriteToNetwork(sent.value)
            && t'.WellFormed() && t'.handshake == h && t'.queue == QueuePacket(t, src).queue
            && t'.sessions == t.sessions && t'.current == t.current
  {
    hide InitiationMessage, AppendMacs;
  }

  lemma Answers(c: Primitives, t: Tunn, p: Packet, env: Env)
    requires t.WellFormed() && p.HandshakeInit? && env.cap >= DATA_OVERHEAD_SZ
    requires ReceiveInitiation(c, t.handshake, p, env.cap, env.ephemeral).1.Success?
    ensures var (t', r) := HandleVerified(c, t, p, env);
            var (h, answer) := ReceiveInitiation(c, t.handshake, p, env.cap, env.ephemeral);
            var (datagram, session) := answer.value;
            && r == WriteToNetwork(datagram) && t'.WellFormed() && t'.handshake == h
            && t'.sessions[session.receivingIndex % N_SESSIONS] == Some(session)
  {
    hide ReceiveInitiation;
  }

  lemma Completes(c: Primitives, t: Tunn, p: Packet, env: Env)
    requires t.WellFormed() && p.HandshakeResponse? && env.cap >= DATA_OVERHEAD_SZ && t.CurrentSession().None?
    requires ReceiveResponse(c, t.handshake, p, env.now).1.Success?
    ensures var (t', r) := HandleVerified(c, t, p, env);
            var session := ReceiveResponse(c, t.handshake, p, env.now).1.value;
            var (session', keepalive) := FormatPacketData(c, session, []);
            && r == WriteToNetwork(keepalive) && t'.WellFormed() && t'.queue == t.queue
            && t'.current == session.receivingIndex && t'.CurrentSession() == Some(session')
  {
    hide ReceiveResponse, FormatPacketData;
  }

  /** The packet of a result that was written to the network. */
  function Sent(r: TunnResult): Result<Packet, WireGuardError> {
    if r.WriteToNetwork? then ParseIncomingPacket(r.datagram) else Failure(InvalidPacket)
  }

  /** The two tunnels after the three messages of a handshake, the third being the keepalive. */
  datatype Exchanged = Exchanged(initiator: Tunn, responder: Tunn, keepalive: Bytes)

  ghost predicate Buffers(src: Bytes, start: Env, answer: Env, finish: Env) {
    && start.cap >= |src| + DATA_OVERHEAD_SZ && start.cap >= HANDSHAKE_INIT_SZ
    && answer.cap >= HANDSHAKE_RESP_SZ && finish.cap >= DATA_OVERHEAD_SZ
  }

  /** A packet is handed to the first tunnel, and each message that is written is handed to the other
      tunnel, if it is of the right kind. */
  ghost function Exchange(c: Primitives, a: Tunn, b: Tunn, src: Bytes, start: Env, answer: Env, finish: Env)
    : (r: Option<Exchanged>)
    requires a.WellFormed() && b.WellFormed() && Buffers(src, start, answer, finish)
    ensures r.Some? ==> r.value.initiator.WellFormed() && r.value.responder.WellFormed()
  {
    var (a1, r1) := Encapsulate(c, a, src, start);
    EncapsulateKeepsForm(c, a, src, start);
    if Sent(r1).Failure? || !Sent(r1).value.HandshakeInit? then None
    else
      var (b1, r2) := HandleVerified(c, b, Sent(r1).value, answer);
      HandlingKeepsForm(c, b, Sent(r1).value, answer);
      if Sent(r2).Failure? || !Sent(r2).value.HandshakeResponse? then None
      else
        var (a2, r3) := HandleVerified(c, a1, Sent(r2).value, finish);
        HandlingKeepsForm(c, a1, Sent(r2).value, finish);
        if !r3.WriteToNetwork? then None else Some(Exchanged(a2, b1, r3.datagram))
  }

  lemma EncapsulateKeepsForm(c: Primitives, t: Tunn, src: Bytes, env: Env)
    requires t.WellFormed() && env.cap >= |src| + DATA_OVERHEAD_SZ
    ensures Encapsulate(c, t, src, env).0.WellFormed()
  {
    hide OpenInitiation, MixKey2;
  }

  /** Two tunnels of which the first has no session and no handshake yet, and the second has accepted
      nothing as new as what the first is about to send. */
  ghost predicate Strangers(c: Primitives, a: Tunn, b: Tunn, start: Env) {
    && c.Lawful() && Paired(c, a.handshake.params, b.handshake.params)
    && a.WellFormed() && a.CurrentSession().None? && !a.handshake.InProgress() && b.WellFormed()
    && a.handshake.nextIndex < U32_LIMIT && b.handshake.nextIndex < U32_LIMIT
    && |start.timestamp| == 12 && ParseTai64N(start.timestamp).After(b.handshake.lastTimestamp)
    && |a.queue| <= MAX_QUEUE_DEPTH
  }

  /** What is queued with one packet more. */
  function Queued(queue: seq<Bytes>, src: Bytes): seq<Bytes> {
    if |queue| < 256 then queue + [src] else queue
  }

  /** The three messages: the session the initiator ends up with is what the responder expects, and the
      session of the responder crosses it. */
  lemma HandshakeBetween(c: Primitives, a: Tunn, b: Tunn, src: Bytes, start: Env, answer: Env, finish: Env)
    returns (session: SessionState, peer: SessionState)
    requires Strangers(c, a, b, start) && Buffers(src, start, answer, finish)
    ensures Exchange(c, a, b, src, start, answer, finish).Some?
    ensures var x := Exchange(c, a, b, src, start, answer, finish).value;
            var (session', keepalive) := FormatPacketData(c, session, []);
            && x.keepalive == keepalive && x.initiator.queue == Queued(a.queue, src)
            && x.initiator.CurrentSession() == Some(session')
            && x.initiator.current == session.receivingIndex == peer.sendingIndex < U32_LIMIT
            && session.sendingIndex < U32_LIMIT && session.sendCounter == 0 && session.window == EmptyWindow
            && Expects(x.responder, session) && Crossed(peer, session) && peer.sendCounter == 0
            && x.responder.sessions[session.sendingIndex % N_SESSIONS] == Some(peer)
            && x.responder.current == b.current
            && x.responder.timers.sessionTimers ==
               b.timers.sessionTimers[session.sendingIndex % 8 := b.timers.times.current]
  {
    hide Encapsulate, HandleVerified, HandleInit, FormatInitiation, ReceiveInitiation, ReceiveResponse;
    hide FormatPacketData;
    hide ParseIncomingPacket, IncIndex, ParseHandshakeAnon, NewParams;
    HandshakeAgreement(c, a.handshake, b.handshake, start.cap, answer.cap, start.ephemeral, answer.ephemeral,
                       start.timestamp, start.sent, finish.now);
    Initiates(c, a, src, start);
    var (a1, r1) := Encapsulate(c, a, src, start);
    Answers(c, b, Sent(r1).value, answer);
    AnsweringRecords(c, b, Sent(r1).value, answer);
    DispatchOfInit(c, b, Sent(r1).value, answer);
    var (b1, r2) := HandleVerified(c, b, Sent(r1).value, answer);
    Completes(c, a1, Sent(r2).value, finish);
    session := ReceiveResponse(c, a1.handshake, Sent(r2).value, finish.now).1.value;
    peer := ReceiveInitiation(c, b.handshake, Sent(r1).value, answer.cap, answer.ephemeral).1.value.1;
    IncIndexKeepsWidth(a.handshake.nextIndex);
    FormattedIndex(c, a.handshake, start);
  }

  lemma DispatchOfInit(c: Primitives, t: Tunn, p: Packet, env: Env)
    requires t.WellFormed() && p.HandshakeInit? && env.cap >= DATA_OVERHEAD_SZ
    ensures HandleVerified(c, t, p, env) == HandleInit(c, t, p, env)
  {
  }

  lemma FormattedIndex(c: Primitives, h: Handshake, env: Env)
    requires env.cap >= HANDSHAKE_INIT_SZ
    ensures FormatInitiation(c, h, env.cap, env.ephemeral, env.timestamp, env.sent).0.nextIndex == IncIndex(h.nextIndex)
  {
  }

  /** A packet handed to a tunnel without a session starts a handshake; the peer answers; the answer
      completes it; flushing the queue ends; and of what was then written, the peer makes first
      nothing (the keepalive) and then exactly the queued packets, in order. */
  lemma QueuedPacketsArrive(c: Primitives, a: Tunn, b: Tunn, src: Bytes, start: Env, answer: Env, finish: Env,
                            flush: seq<Env>, deliver: Env)
    requires Strangers(c, a, b, start) && Buffers(src, start, answer, finish)
    requires RoomForQueue(Queued(a.queue, src), flush) && |flush| > |Queued(a.queue, src)|
    requires RoomFor(Queued(a.queue, src), deliver.cap)
    ensures Exchange(c, a, b, src, start, answer, finish).Some?
    ensures var x := Exchange(c, a, b, src, start, answer, finish).value;
            && x.initiator.queue == Queued(a.queue, src)
            && var f := Flush(c, x.initiator, flush);
            && f.finished && f.t.queue == []
            && (forall d :: d in [x.keepalive] + f.written ==> |d| <= deliver.cap)
            && DeliverAll(c, x.responder, [x.keepalive] + f.written, deliver) ==
               [Done] + Verdicts(Queued(a.queue, src))
  {
    hide Exchange, FormatPacketData, Flush, DeliverAll, FormatAll, Verdict, RoomForQueue, Expects, RoomFor, Paired;
    var packets := Queued(a.queue, src);
    var session, _ := HandshakeBetween(c, a, b, src, start, answer, finish);
    var x := Exchange(c, a, b, src, start, answer, finish).value;
    FlushWithSession(c, x.initiator, flush);
    KeepaliveFirst(c, session, packets);
    RoomForKeepalive(packets, deliver.cap);
    AllDelivered(c, x.responder, session, [[]] + packets, deliver);
    VerdictOnKeepalive(packets);
  }

  lemma KeepaliveFirst(c: Primitives, s: SessionState, packets: seq<Bytes>)
    ensures var (s', keepalive) := FormatPacketData(c, s, []);
            FormatAll(c, s, [[]] + packets).1 == [keepalive] + FormatAll(c, s', packets).1
  {
    assert ([[]] + packets)[1..] == packets;
  }

  lemma RoomForKeepalive(packets: seq<Bytes>, cap: nat)
    requires RoomFor(packets, cap)
    ensures RoomFor([[]] + packets, cap)
  {
  }

  lemma VerdictOnKeepalive(packets: seq<Bytes>)
    ensures Verdicts([[]] + packets) == [Done] + Verdicts(packets)
  {
    assert Verdict([]) == Done;
  }

  // ---------------------------------------------------------------- and back

  /** What a tunnel writes for packets handed to it one after the other. */
  ghost function WrittenFor(c: Primitives, t: Tunn, packets: seq<Bytes>, env: Env): seq<TunnResult>
    requires t.WellFormed() && RoomFor(packets, env.cap)
    decreases |packets|
  {
    if packets == [] then []
    else
      assert packets[0] in packets;
      var (t', r) := Encapsulate(c, t, packets[0], env);
      EncapsulateKeepsForm(c, t, packets[0], env);
      [r] + WrittenFor(c, t', packets[1..], env)
  }

  lemma {:induction false} CurrentSessionWrites(c: Primitives, t: Tunn, packets: seq<Bytes>, env: Env)
    requires t.WellFormed() && RoomFor(packets, env.cap) && t.CurrentSession().Some?
    ensures var written := WrittenFor(c, t, packets, env);
            var datagrams := FormatAll(c, t.CurrentSession().value, packets).1;
            && |written| == |datagrams| == |packets|
            && forall k :: 0 <= k < |packets| ==> written[k] == WriteToNetwork(datagrams[k])
    decreases |packets|
  {
    hide FormatPacketData, Encapsulate;
    if packets != [] {
      assert packets[0] in packets;
      OneWritten(c, t, packets[0], env);
      CurrentSessionWrites(c, Encapsulate(c, t, packets[0], env).0, packets[1..], env);
    }
  }

  lemma OneWritten(c: Primitives, t: Tunn, src: Bytes, env: Env)
    requires t.WellFormed() && env.cap >= |src| + DATA_OVERHEAD_SZ && t.CurrentSession().Some?
    ensures var (t', r) := Encapsulate(c, t, src, env);
            var (s, datagram) := FormatPacketData(c, t.CurrentSession().value, src);
            t'.WellFormed() && t'.CurrentSession() == Some(s) && r == WriteToNetwork(datagram)
  {
    hide FormatPacketData;
  }

  lemma {:induction false} FormattingCounts(c: Primitives, s: SessionState, packets: seq<Bytes>)
    ensures FormatAll(c, s, packets).0 == s.(sendCounter := s.sendCounter + |packets|)
    decreases |packets|
  {
    if packets != [] {
      FormattingCounts(c, FormatPacketData(c, s, packets[0]).0, packets[1..]);
    }
  }

  /** The keepalive makes the new session the peer's current one. */
  ghost function Used(c: Primitives, x: Exchanged, env: Env): (t: Tunn)
    requires x.responder.WellFormed() && env.cap >= |x.keepalive| && env.cap >= DATA_OVERHEAD_SZ
    ensures t.WellFormed()
  {
    var p := ParseIncomingPacket(x.keepalive);
    if p.Failure? then x.responder
    else
      HandlingKeepsForm(c, x.responder, p.value, env);
      HandleVerified(c, x.responder, p.value, env).0
  }

  lemma KeepaliveIsUsed(c: Primitives, a: Tunn, b: Tunn, src: Bytes, start: Env, answer: Env, finish: Env, deliver: Env)
    returns (session: SessionState, peer: SessionState)
    requires Strangers(c, a, b, start) && Buffers(src, start, answer, finish)
    requires TunnelRuns.SlotTimersPast(b) && deliver.cap >= DATA_OVERHEAD_SZ
    ensures Exchange(c, a, b, src, start, answer, finish).Some?
    ensures var x := Exchange(c, a, b, src, start, answer, finish).value;
            && |x.keepalive| == DATA_OVERHEAD_SZ
            && var t := Used(c, x, deliver);
            && t.CurrentSession() == Some(peer) && t.current == peer.receivingIndex
            && peer.sendCounter == 0 && peer.sendingIndex == x.initiator.current < U32_LIMIT
            && Crossed(peer, session) && session.window == EmptyWindow
            && x.initiator.CurrentSession() == Some(FormatPacketData(c, session, []).0)
            && x.initiator.queue == Queued(a.queue, src)
  {
    hide Exchange, FormatPacketData, HandleVerified, Paired;
    session, peer := HandshakeBetween(c, a, b, src, start, answer, finish);
    var x := Exchange(c, a, b, src, start, answer, finish).value;
    DataArrives(c, x.responder, session, [], deliver);
    FormattedStep(c, session, []);
    BecomesCurrent(b, x.responder, Used(c, x, deliver), session, peer);
    peer := Used(c, x, deliver).CurrentSession().value;
  }

  /** From then on whatever is handed to the peer is written on that session, and the initiator, its
      queue flushed, hands out exactly that, in order. */
  lemma RepliesArrive(c: Primitives, a: Tunn, b: Tunn, src: Bytes, start: Env, answer: Env, finish: Env,
                      flush: seq<Env>, deliver: Env, replies: seq<Bytes>)
    requires Strangers(c, a, b, start) && Buffers(src, start, answer, finish) && TunnelRuns.SlotTimersPast(b)
    requires RoomForQueue(Queued(a.queue, src), flush) && |flush| > |Queued(a.queue, src)|
    requires RoomFor(replies, deliver.cap) && |replies| < U64_LIMIT
    ensures Exchange(c, a, b, src, start, answer, finish).Some?
    ensures var x := Exchange(c, a, b, src, start, answer, finish).value;
            && |x.keepalive| <= deliver.cap && |x.initiator.queue| <= MAX_QUEUE_DEPTH
            && RoomForQueue(x.initiator.queue, flush)
            && var written := WrittenFor(c, Used(c, x, deliver), replies, deliver);
            && (forall k :: 0 <= k < |written| ==> written[k].WriteToNetwork?)
            && (forall d :: d in Datagrams(written) ==> |d| <= deliver.cap)
            && var t := Flush(c, x.initiator, flush).t;
            && t.WellFormed()
            && DeliverAll(c, t, Datagrams(written), deliver) == Verdicts(replies)
  {
    hide Exchange, FormatPacketData, Flush, DeliverAll, FormatAll, WrittenFor, Used;
    hide Verdict, RoomForQueue, Paired, Datagrams;
    var session, peer := KeepaliveIsUsed(c, a, b, src, start, answer, finish, deliver);
    hide Strangers, Buffers, RoomFor;
    var x := Exchange(c, a, b, src, start, answer, finish).value;
    CurrentSessionWrites(c, Used(c, x, deliver), replies, deliver);
    FlushWithSession(c, x.initiator, flush);
    FormattingCounts(c, x.initiator.CurrentSession().value, x.initiator.queue);
    FormattedStep(c, session, []);
    AllDelivered(c, Flush(c, x.initiator, flush).t, peer, replies, deliver);
    DatagramsOfWritten(WrittenFor(c, Used(c, x, deliver), replies, deliver), FormatAll(c, peer, replies).1);
  }

  function Datagrams(written: seq<TunnResult>): (r: seq<Bytes>)
    requires forall k :: 0 <= k < |written| ==> written[k].WriteToNetwork?
    ensures |r| == |written| && forall k :: 0 <= k < |r| ==> r[k] == written[k].datagram
  {
    seq(|written|, k requires 0 <= k < |written| => written[k].datagram)
  }

  lemma DatagramsOfWritten(written: seq<TunnResult>, datagrams: seq<Bytes>)
    requires |written| == |datagrams| && forall k :: 0 <= k < |written| ==> written[k] == WriteToNetwork(datagrams[k])
    ensures Datagrams(written) == datagrams
  {
  }

  /** The slot timer of the newest session is behind no other. */
  lemma BecomesCurrent(b: Tunn, b1: Tunn, b2: Tunn, session: SessionState, peer: SessionState)
    requires b.WellFormed() && TunnelRuns.SlotTimersPast(b) && b1.WellFormed() && b2.WellFormed()
    requires var slot, was := session.sendingIndex % 8, b1.current % 8;
             && b1.timers.sessionTimers == b.timers.sessionTimers[slot := b.timers.times.current]
             && b1.sessions[slot] == Some(peer) && SameSession(b2.sessions[slot], b1.sessions[slot])
             && b2.current == (if b1.sessions[was].None?
                                  || b1.timers.sessionTimers[slot] >= b1.timers.sessionTimers[was]
                               then session.sendingIndex else b1.current)
    ensures b2.current == session.sendingIndex && SameSession(b2.CurrentSession(), Some(peer))
  {
  }
}
