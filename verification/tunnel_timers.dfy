/**
 What each operation does to the timers, the flags and the current slot of a tunnel, and what the
 periodic call decides from them, with every time written out.
 */
module TunnelTimers {
  import opened Wrappers
  import opened ByteStrings
  import opened Crypto
  import opened Wire
  import opened Words
  import opened Sessions
  import opened Handshakes
  import opened Tunnels
  import opened TunnelRuns

  const S: nat := 1_000_000_000

  // ---------------------------------------------------------------- what operations record

  /** Something was sent: a handshake is wanted if nothing comes back, and no keepalive any more. */
  function NoteSent(m: Timers): Timers {
    m.(times := m.times.(packetSent := m.times.current), wantHandshake := true, wantKeepalive := false)
  }

  /** Something was received: a keepalive is wanted if nothing is sent, and no handshake any more. */
  function NoteReceived(m: Timers): Timers {
    m.(times := m.times.(packetReceived := m.times.current), wantKeepalive := true, wantHandshake := false)
  }

  function NoteSession(m: Timers, initiator: bool, slot: nat): Timers
    requires |m.sessionTimers| == 8 && slot < 8
  {
    m.(times := m.times.(sessionEstablished := m.times.current), isInitiator := initiator,
       sessionTimers := m.sessionTimers[slot := m.times.current])
  }

  /** Sending on a session: the time of the packet, that of data only if there is any, and the bytes. */
  lemma SendingRecords(c: Primitives, t: Tunn, src: Bytes, env: Env)
    requires t.WellFormed() && env.cap >= |src| + DATA_OVERHEAD_SZ && t.sessions[t.current % 8].Some?
    ensures var (t', r) := Encapsulate(c, t, src, env);
            var sent := NoteSent(t.timers);
            && r.WriteToNetwork? && |r.datagram| == |FormatPacketData(c, t.sessions[t.current % 8].value, src).1|
            && t'.timers == (if src == [] then sent
                             else sent.(times := sent.times.(dataSent := t.timers.times.current)))
            && t'.txBytes == t.txBytes + |src| && t'.rxBytes == t.rxBytes
            && t'.current == t.current && t'.queue == t.queue && t'.handshake == t.handshake
  {
  }

  /** Without a session: the packet is queued behind the others, unless 256 are, and a handshake starts
      unless one is in progress. */
  lemma QueueingRecords(c: Primitives, t: Tunn, src: Bytes, env: Env)
    requires t.WellFormed() && env.cap >= |src| + DATA_OVERHEAD_SZ && t.sessions[t.current % 8].None?
    ensures var (t', r) := Encapsulate(c, t, src, env);
            && t'.queue == (if |t.queue| < 256 then t.queue + [src] else t.queue)
            && t'.sessions == t.sessions && t'.current == t.current
            && t'.txBytes == t.txBytes && t'.rxBytes == t.rxBytes
            && (t.handshake.InProgress() ==> r == Done && t'.timers == t.timers && t'.handshake == t.handshake)
            && (!t.handshake.InProgress() ==> (r.WriteToNetwork? <==> env.cap >= 148) && (r.Err? <==> env.cap < 148))
  {
    hide OpenInitiation, MixKey2;
  }

  /** An initiation that is written: a new attempt starts now; one that goes on keeps its start. After
      an expiry all timers start again at that time. */
  lemma InitiationRecords(c: Primitives, t: Tunn, env: Env, force: bool)
    ensures var (t', r) := SendInitiation(c, t, env, force);
            var started := !t.handshake.state.InitSent? && !t.handshake.state.InitReceived?;
            var before := if t.handshake.state.Expired?
                          then Timers(t.timers.isInitiator, AllAt(env.cleared), t.timers.sessionTimers, false, false,
                                      t.timers.persistentKeepalive)
                          else t.timers;
            var now := before.times.current;
            && (r.WriteToNetwork? <==> (started || force) && env.cap >= 148)
            && (r.WriteToNetwork? ==>
                && t'.timers == NoteSent(if started then before.(times := before.times.(handshakeStarted := now))
                                         else before)
                && t' == t.(handshake := t'.handshake, timers := t'.timers))
            && (!(started || force) ==> t' == t && r == Done)
  {
    hide OpenInitiation, MixKey2;
  }

  /** Answering an initiation: received, sent, and a session of a responder. The current slot stays:
      the new session is not used for sending before the other end has used it. */
  lemma AnsweringRecords(c: Primitives, t: Tunn, p: Packet, env: Env)
    requires t.WellFormed() && p.HandshakeInit?
    requires ReceiveInitiation(c, t.handshake, p, env.cap, env.ephemeral).1.Success?
    ensures var (t', r) := HandleInit(c, t, p, env);
            var session := ReceiveInitiation(c, t.handshake, p, env.cap, env.ephemeral).1.value.1;
            && t'.timers == NoteSession(NoteSent(NoteReceived(t.timers)), false, session.receivingIndex % 8)
            && t'.current == t.current && t'.queue == t.queue
            && t'.sessions == t.sessions[session.receivingIndex % 8 := Some(session)]
  {
    hide ReceiveInitiation;
  }

  /** A response: received, a session of an initiator, and this session is the current one from now on,
      in every state where no slot timer is ahead. */
  lemma CompletionRecords(c: Primitives, t: Tunn, p: Packet, env: Env)
    requires t.WellFormed() && p.HandshakeResponse? && env.cap >= DATA_OVERHEAD_SZ && SlotTimersPast(t)
    requires ReceiveResponse(c, t.handshake, p, env.now).1.Success?
    ensures var (t', r) := HandleResponse(c, t, p, env);
            var session := ReceiveResponse(c, t.handshake, p, env.now).1.value;
            && t'.timers == NoteSession(NoteReceived(t.timers), true, session.receivingIndex % 8)
            && t'.current == session.receivingIndex && t'.queue == t.queue
            && t'.CurrentSession() == Some(session.(sendCounter := session.sendCounter + 1))
  {
    hide ReceiveResponse;
  }

  /** A cookie: received, and the time of it. */
  lemma CookieRecords(c: Primitives, t: Tunn, p: Packet)
    requires p.PacketCookieReply? && ReceiveCookieReply(c, t.handshake, p).Success?
    ensures var (t', r) := HandleCookieReply(c, t, p);
            var received := NoteReceived(t.timers);
            t'.timers == received.(times := received.times.(cookieReceived := t.timers.times.current)) && r == Done
  {
    hide ReceiveCookieReply;
  }

  /** A data packet that is received: its session becomes the current one if there was none in the
      current slot, or if its slot timer is not older; and the data is counted if it is an IP packet. */
  lemma ReceivingRecords(c: Primitives, t: Tunn, p: Packet, env: Env)
    requires t.WellFormed() && p.PacketData? && env.cap >= |p.encapsulated|
    requires t.sessions[p.receiverIdx % 8].Some?
    requires ReceivePacketData(c, t.sessions[p.receiverIdx % 8].value, p).1.Success?
    ensures var (t', r) := HandleData(c, t, p, env);
            var (session, plain) := ReceivePacketData(c, t.sessions[p.receiverIdx % 8].value, p);
            var slot, was := p.receiverIdx % 8, t.current % 8;
            var received := NoteReceived(t.timers);
            && t'.sessions == t.sessions[slot := Some(session)]
            && t'.current == (if t.sessions[was].None? || t.timers.sessionTimers[slot] >= t.timers.sessionTimers[was]
                              then p.receiverIdx else t.current)
            && (t'.current == p.receiverIdx ==> t'.CurrentSession() == Some(session))
            && (r.WriteToTunnelV4? || r.WriteToTunnelV6? ==>
                  t'.timers == received.(times := received.times.(dataReceived := t.timers.times.current))
                  && t'.rxBytes == t.rxBytes + |r.packet|)
            && (r == Done || r.Err? ==> t'.timers == received && t'.rxBytes == t.rxBytes)
            && t'.txBytes == t.txBytes && t'.queue == t.queue && t'.handshake == t.handshake
  {
    hide ReceivePacketData, IpHeader;
  }

  /** A data packet that is refused changes nothing in the tunnel but, at most, in its session. */
  lemma RefusalRecords(c: Primitives, t: Tunn, p: Packet, env: Env)
    requires t.WellFormed() && p.PacketData? && env.cap >= |p.encapsulated|
    requires t.sessions[p.receiverIdx % 8].Some? ==>
               ReceivePacketData(c, t.sessions[p.receiverIdx % 8].value, p).1.Failure?
    ensures var (t', r) := HandleData(c, t, p, env);
            && r.Err? && t' == t.(sessions := t'.sessions)
            && (t.sessions[p.receiverIdx % 8].None? ==> t' == t && r == Err(NoCurrentSession))
  {
  }

  /** A new static key: the parameters are those made from it, for the same peer and preshared key; the
      sessions are gone, and nothing else changes. */
  lemma NewKeyRecords(c: Primitives, t: Tunn, key: Bytes, was: Bytes, wasPublic: Bytes, peer: Bytes,
                      psk: Option<Bytes>)
    requires t.handshake.params == NewParams(c, was, wasPublic, peer, psk)
    ensures var t' := SetStaticPrivate(c, t, key);
            && t'.handshake == t.handshake.(params := NewParams(c, key, c.publicKey(key), peer, psk))
            && t' == t.(handshake := t'.handshake, sessions := [None, None, None, None, None, None, None, None])
  {
    assert NoSessions() == [None, None, None, None, None, None, None, None];
  }

  /** A new tunnel: eight empty slots, nothing queued or counted, all times at the start, and an index
      that leaves the low byte to the handshakes. */
  lemma NewTunnelIs(params: Params, index: nat, keepalive: nat)
    ensures var t := NewTunn(params, index, keepalive);
            && t.sessions == [None, None, None, None, None, None, None, None]
            && t.current == 0 && t.queue == [] && t.txBytes == t.rxBytes == 0
            && t.timers == Timers(false, Times(0, 0, 0, 0, 0, 0, 0, 0, 0), [0, 0, 0, 0, 0, 0, 0, 0], false, false,
                                  keepalive)
            && t.handshake == Handshake(params, 256 * index, NoHandshake, NoHandshake, Cookies(None, 0, None),
                                        Tai64N(0, 0), None)
  {
    assert NoSessions() == [None, None, None, None, None, None, None, None];
    assert seq(N_SESSIONS, _ => 0) == [0, 0, 0, 0, 0, 0, 0, 0];
  }

  // ---------------------------------------------------------------- what the periodic call decides

  /** Nothing was heard for so long that the keys are gone, or the attempt has taken too long. */
  predicate GivesUp(t: Tunn, now: nat) {
    || now >= t.timers.times.sessionEstablished + 540 * S
    || (t.handshake.state.InitSent? && now >= t.timers.times.handshakeStarted + 90 * S)
  }

  /** Unasked for 5 s by the second reading of the clock, the initiation goes out again. */
  predicate AsksAgain(t: Tunn, env: Env) {
    t.handshake.state.InitSent? && env.probe >= t.handshake.state.timeSent + 5 * S
  }

  /** The initiator of a session replaces it when it has sent on it and it is 120 s old, or received on
      it and it is 165 s old; and anybody does who has sent data and heard nothing for 15 s since. */
  predicate AsksAnew(t: Tunn, now: nat) {
    var m := t.timers;
    && !t.handshake.state.InitSent?
    && (|| (m.isInitiator && m.times.dataSent > m.times.sessionEstablished
            && now >= m.times.sessionEstablished + 120 * S)
        || (m.isInitiator && m.times.dataReceived > m.times.sessionEstablished
            && now >= m.times.sessionEstablished + 165 * S)
        || (m.wantHandshake && Unheard(m, now)))
  }

  /** Data was sent and nothing received after it, and the last packet came 15 s ago or earlier. */
  predicate Unheard(m: Timers, now: nat) {
    m.times.dataSent > m.times.packetReceived && now >= m.times.packetReceived + 15 * S
  }

  /** Data was received and nothing sent after it, and the last packet went 10 s ago or earlier. */
  predicate Unanswered(m: Timers, now: nat) {
    m.times.dataReceived > m.times.packetSent && now >= m.times.packetSent + 10 * S
  }

  predicate Persistent(m: Timers, now: nat) {
    m.persistentKeepalive > 0 && now >= m.times.persistentKeepalive + m.persistentKeepalive * S
  }

  predicate SpeaksUp(t: Tunn, now: nat) {
    && !t.handshake.state.InitSent?
    && ((t.timers.wantKeepalive && Unanswered(t.timers, now)) || Persistent(t.timers, now))
  }

  /** What a tunnel that is alive goes on from, once the current time has moved. */
  ghost predicate GoesOn(t: Tunn, t1: Tunn, now: nat) {
    && t.WellFormed() && t1.WellFormed() && t1.current == t.current && t1.queue == t.queue
    && t1.timers.times == t.timers.times.(current := now)
    && t1.timers.isInitiator == t.timers.isInitiator && t1.timers.persistentKeepalive == t.timers.persistentKeepalive
    && t1.timers.wantHandshake == t.timers.wantHandshake && t1.timers.wantKeepalive == t.timers.wantKeepalive
    && t1.handshake == t.handshake.(cookies := t.handshake.cookies.(writeCookie :=
         if now >= t.timers.times.cookieReceived + 120 * S then None else t.handshake.cookies.writeCookie))
    && (forall i :: 0 <= i < 8 ==>
          var tooOld := now > t.timers.sessionTimers[i] + 180 * S;
          && t1.sessions[i] == (if tooOld then None else t.sessions[i])
          && t1.timers.sessionTimers[i] == if tooOld then now else t.timers.sessionTimers[i])
  }

  lemma MovesOn(t: Tunn, now: nat)
    requires t.WellFormed() && ClockSafe(t, now) && !t.handshake.state.Expired?
    ensures GoesOn(t, ExpireCookie(AdvanceTo(t, now), now), now)
    ensures ClockSafe(ExpireCookie(AdvanceTo(t, now), now), now)
  {
  }

  /** The decision of a tunnel that is alive. */
  ghost predicate Decided(c: Primitives, t: Tunn, t1: Tunn, env: Env, t': Tunn, r: TunnResult)
    requires t1.WellFormed() && env.cap >= 148
  {
    var now := env.now;
    if GivesUp(t, now) then
      && r == Err(ConnectionExpired)
      && t'.sessions == NoSessions() && t'.queue == [] && t'.timers.times == AllAt(env.cleared)
      && t'.handshake == t1.handshake.(previous := Expired, state := Expired)
      && !t'.timers.wantHandshake && !t'.timers.wantKeepalive
    else if AsksAgain(t, env) then (t', r) == SendInitiation(c, t1, env, true)
    else if t.handshake.state.InitSent? then (t', r) == (t1, Done)
    else
      var t2 := t1.(timers := t1.timers.(wantHandshake := t1.timers.wantHandshake && !Unheard(t.timers, now)));
      if AsksAnew(t, now) then (t', r) == SendInitiation(c, t2, env, true)
      else
        var m := t2.timers.(wantKeepalive := t2.timers.wantKeepalive && !Unanswered(t.timers, now));
        var t3 := t2.(timers := if Persistent(t.timers, now) then m.(times := m.times.(persistentKeepalive := now))
                                else m);
        if SpeaksUp(t, now) then (t', r) == Encapsulate(c, t3, [], env) else (t', r) == (t3, Done)
  }

  lemma LiveDecides(c: Primitives, t: Tunn, t1: Tunn, env: Env)
    requires t.WellFormed() && GoesOn(t, t1, env.now) && ClockSafe(t1, env.now) && ClockSafe(t, env.now)
    requires env.Monotone() && env.cap >= 148
    ensures var (t', r) := UpdateLiveTimers(c, t1, env);
            Decided(c, t, t1, env, t', r)
  {
    hide SendInitiation, Encapsulate;
  }

  /** The periodic call: nothing but the age of sessions changes in a tunnel that has expired; any other
      moves on, drops an old cookie and old sessions, and decides as written above. */
  lemma TickDecides(c: Primitives, t: Tunn, env: Env)
    requires t.WellFormed() && ClockSafe(t, env.now) && env.Monotone() && env.cap >= 148
    ensures var (t', r) := UpdateTimers(c, t, env);
            if t.handshake.state.Expired? then r == Err(ConnectionExpired) && t'.handshake == t.handshake
            else exists t1 :: GoesOn(t, t1, env.now) && Decided(c, t, t1, env, t', r)
  {
    if !t.handshake.state.Expired? {
      hide UpdateLiveTimers;
      MovesOn(t, env.now);
      LiveDecides(c, t, ExpireCookie(AdvanceTo(t, env.now), env.now), env);
    }
  }

  /** The result alone: given up, an initiation, a keepalive on the current session, or nothing. */
  lemma TickWrites(c: Primitives, t: Tunn, env: Env)
    requires t.WellFormed() && ClockSafe(t, env.now) && env.Monotone() && env.cap >= 148
    requires !t.handshake.state.Expired? && !t.handshake.state.InitReceived?
    ensures var (t', r) := UpdateTimers(c, t, env);
            var now, slot := env.now, t.current % 8;
            var usable := t.sessions[slot].Some? && now <= t.timers.sessionTimers[slot] + 180 * S;
            if GivesUp(t, now) then r == Err(ConnectionExpired) && t'.handshake.state.Expired?
            else if AsksAgain(t, env) || AsksAnew(t, now) then
              r.WriteToNetwork? && t'.handshake.state.InitSent? && t'.handshake.state.timeSent == env.sent
            else if SpeaksUp(t, now) && usable then
              r == WriteToNetwork(FormatPacketData(c, t.sessions[slot].value, []).1)
            else if SpeaksUp(t, now) && !t.handshake.state.InitSent? then
              r.WriteToNetwork? && t'.handshake.state.InitSent? && t'.handshake.state.timeSent == env.sent
            else r == Done
  {
    hide UpdateTimers, GivesUp, AsksAgain, FormatPacketData, SendInitiation, Encapsulate;
    TickDecides(c, t, env);
    var (t', r) := UpdateTimers(c, t, env);
    var t1 :| GoesOn(t, t1, env.now) && Decided(c, t, t1, env, t', r);
    var now := env.now;
    InitiationWritten(c, t1, env);
    var t2 := t1.(timers := t1.timers.(wantHandshake := t1.timers.wantHandshake && !Unheard(t.timers, now)));
    InitiationWritten(c, t2, env);
    var m := t2.timers.(wantKeepalive := t2.timers.wantKeepalive && !Unanswered(t.timers, now));
    var t3 := t2.(timers := if Persistent(t.timers, now) then m.(times := m.times.(persistentKeepalive := now)) else m);
    EmptyPacketWritten(c, t3, env);
  }

  lemma InitiationWritten(c: Primitives, t: Tunn, env: Env)
    requires env.cap >= 148
    ensures var (t', r) := SendInitiation(c, t, env, true);
            r.WriteToNetwork? && t'.handshake.state.InitSent? && t'.handshake.state.timeSent == env.sent
  {
  }

  lemma EmptyPacketWritten(c: Primitives, t: Tunn, env: Env)
    requires t.WellFormed() && env.cap >= 148
    ensures var (t', r) := Encapsulate(c, t, [], env);
            if t.sessions[t.current % 8].Some? then
              r == WriteToNetwork(FormatPacketData(c, t.sessions[t.current % 8].value, []).1)
            else if t.handshake.state.NoHandshake? then
              r.WriteToNetwork? && t'.handshake.state.InitSent? && t'.handshake.state.timeSent == env.sent
            else true
  {
  }
}
