/**
 What holds in every state a tunnel can reach, over whole runs of its public operations with a
 monotone clock: expiry leaves nothing behind, no clock subtraction underflows, sessions do not
 outlive their keys, retransmissions are spaced and bounded, and indices find their slots.
 */
module TunnelRuns {
  import opened Wrappers
  import opened ByteStrings
  import opened Crypto
  import opened Wire
  import opened Sessions
  import opened Handshakes
  import opened Tunnels

  // ---------------------------------------------------------------- steps

  datatype Event =
    | Outgoing(src: Bytes)          // a packet from the interface
    | Flush                         // the repeated call with an empty datagram
    | Incoming(packet: Packet)      // a verified packet from the network
    | Tick                          // the periodic timer call
    | Initiate(force: bool)         // a handshake asked for from outside
    | NewStaticKey(key: Bytes)

  /** The buffer is as large as the documentation of the operations demands. */
  ghost predicate RoomFor(t: Tunn, ev: Event, cap: nat) {
    && cap >= HANDSHAKE_INIT_SZ
    && match ev
       case Outgoing(src) => cap >= |src| + DATA_OVERHEAD_SZ
       case Flush => t.queue != [] ==> cap >= |t.queue[0]| + DATA_OVERHEAD_SZ
       case Incoming(p) => p.PacketData? ==> cap >= |p.encapsulated|
       case _ => true
  }

  ghost predicate Enabled(t: Tunn, ev: Event, env: Env) {
    && t.WellFormed() && ClockSafe(t, env.now) && env.Monotone() && RoomFor(t, ev, env.cap)
  }

  ghost function Step(c: Primitives, t: Tunn, ev: Event, env: Env): (Tunn, TunnResult)
    requires Enabled(t, ev, env)
  {
    match ev
    case Outgoing(src) => Encapsulate(c, t, src, env)
    case Flush => SendQueued(c, t, env)
    case Incoming(p) => HandleVerified(c, t, p, env)
    case Tick => UpdateTimers(c, t, env)
    case Initiate(force) => SendInitiation(c, t, env, force)
    case NewStaticKey(key) => (SetStaticPrivate(c, t, key), Done)
  }

  // ---------------------------------------------------------------- the handshake slots

  /** No received initiation is left unanswered; the initiation in flight carries the newest
      index, and the one before it, if also in flight, the index just before. */
  ghost predicate SlotsOk(h: Handshake, prefix: nat) {
    && h.nextIndex / 256 == prefix
    && !h.state.InitReceived? && !h.previous.InitReceived?
    && (h.state.InitSent? ==> h.state.localIndex == h.nextIndex)
    && (h.previous.InitSent? ==> h.previous.localIndex / 256 == prefix)
    && (h.state.InitSent? && h.previous.InitSent? ==> h.state.localIndex == IncIndex(h.previous.localIndex))
    && (h.state.Expired? ==> h.previous.Expired?)
  }

  ghost predicate SentBy(h: Handshake, clock: nat) {
    && (h.state.InitSent? ==> h.state.timeSent <= clock)
    && (h.previous.InitSent? ==> h.previous.timeSent <= clock)
  }

  lemma IncIndexKeepsPrefix(i: nat)
    ensures IncIndex(i) / 256 == i / 256
  {
  }

  lemma InitiationKeepsSlots(c: Primitives, h: Handshake, env: Env, prefix: nat)
    requires SlotsOk(h, prefix) && SentBy(h, env.now) && env.Monotone() && env.cap >= HANDSHAKE_INIT_SZ
    ensures var (h', r) := FormatInitiation(c, h, env.cap, env.ephemeral, env.timestamp, env.sent);
            && r.Success? && SlotsOk(h', prefix) && SentBy(h', env.sent)
            && h'.state.InitSent? && h'.state.timeSent == env.sent && h'.previous == h.state
            && h'.lastTimestamp == h.lastTimestamp
  {
    IncIndexKeepsPrefix(h.nextIndex);
  }

  /** Receiving an initiation: refused without a trace, or answered at once. */
  lemma AnswerKeepsSlots(c: Primitives, h: Handshake, p: Packet, env: Env, prefix: nat)
    requires p.HandshakeInit? && SlotsOk(h, prefix) && SentBy(h, env.now) && env.cap >= HANDSHAKE_INIT_SZ
    ensures var (h', r) := ReceiveInitiation(c, h, p, env.cap, env.ephemeral);
            && SlotsOk(h', prefix) && SentBy(h', env.now)
            && (r.Failure? ==> h' == h)
            && (r.Success? ==>
                && h'.state == NoHandshake && h'.previous == h.state && r.value.1.Counted()
                && r.value.1.receivingIndex == h'.nextIndex == IncIndex(h.nextIndex)
                && h'.lastTimestamp.After(h.lastTimestamp))
  {
    IncIndexKeepsPrefix(h.nextIndex);
  }

  lemma ResponseKeepsSlots(c: Primitives, h: Handshake, p: Packet, now: nat, prefix: nat)
    requires p.HandshakeResponse? && SlotsOk(h, prefix) && SentBy(h, now)
    ensures var (h', r) := ReceiveResponse(c, h, p, now);
            && SlotsOk(h', prefix) && SentBy(h', now)
            && h'.lastTimestamp == h.lastTimestamp
            && (r.Failure? ==> h' == h)
            && (r.Success? ==> r.value.receivingIndex == p.receiverIdx && p.receiverIdx / 256 == prefix
                               && r.value.Counted()
                               && !h.state.Expired? && !h'.state.Expired?)
            && (h'.state.InitSent? ==> h'.state == h.state)
  {
  }

  // ---------------------------------------------------------------- the ring of sessions

  /** A session is stored in the slot its index names, under the tunnel's own 24-bit prefix. */
  ghost predicate RingOk(sessions: seq<Option<SessionState>>, prefix: nat) {
    && |sessions| == N_SESSIONS
    && forall i :: 0 <= i < N_SESSIONS && sessions[i].Some? ==>
         sessions[i].value.receivingIndex % N_SESSIONS == i && sessions[i].value.receivingIndex / 256 == prefix
  }

  /** Every stored session has counted what it received. */
  ghost predicate AllCounted(sessions: seq<Option<SessionState>>) {
    forall i :: 0 <= i < |sessions| && sessions[i].Some? ==> sessions[i].value.Counted()
  }

  /** The sessions a lookup by full index could find. */
  ghost predicate StoredUnder(sessions: seq<Option<SessionState>>, index: nat, s: SessionState) {
    Some(s) in sessions && s.receivingIndex == index
  }

  /** Looking in slot index mod 8 and then comparing the index, as the receive path does, finds
      a session exactly when one is stored under that index anywhere; and there is only one. */
  lemma SlotLookupIsIndexLookup(sessions: seq<Option<SessionState>>, prefix: nat, index: nat, s: SessionState)
    requires RingOk(sessions, prefix)
    ensures StoredUnder(sessions, index, s) <==>
            sessions[index % N_SESSIONS] == Some(s) && s.receivingIndex == index
  {
  }

  // ---------------------------------------------------------------- the invariant

  ghost predicate Inv(t: Tunn, prefix: nat, clock: nat) {
    && t.WellFormed()
    && SlotsOk(t.handshake, prefix)
    && SentBy(t.handshake, clock)
    && RingOk(t.sessions, prefix)
    && AllCounted(t.sessions)
    && (t.current == 0 || t.current / 256 == prefix)
    && |t.queue| <= MAX_QUEUE_DEPTH
    && t.timers.times.AtMost(clock)
    && SlotTimersPast(t)
    && (t.handshake.state.Expired? ==> t.sessions == NoSessions() && t.queue == [])
  }

  /** No slot timer is ahead of the tunnel's current time. */
  ghost predicate SlotTimersPast(t: Tunn) {
    forall i :: 0 <= i < |t.timers.sessionTimers| ==> t.timers.sessionTimers[i] <= t.timers.times.current
  }

  lemma InvIsClockSafe(t: Tunn, prefix: nat, clock: nat, now: nat)
    requires Inv(t, prefix, clock) && clock <= now
    ensures ClockSafe(t, now)
  {
  }

  lemma SendInitiationKeepsInv(c: Primitives, t: Tunn, env: Env, force: bool, prefix: nat)
    requires Inv(t.(queue := []), prefix, env.now) && |t.queue| <= MAX_QUEUE_DEPTH
    requires env.Monotone() && env.cap >= HANDSHAKE_INIT_SZ
    ensures var (t', r) := SendInitiation(c, t, env, force);
            && Inv(t', prefix, env.sent) && t'.handshake.state.InitSent?
            && t'.queue == t.queue && t'.sessions == t.sessions
            && (r == Done || r.WriteToNetwork?)
  {
    InitiationKeepsSlots(c, t.handshake, env, prefix);
  }

  lemma EncapsulateKeepsInv(c: Primitives, t: Tunn, src: Bytes, env: Env, prefix: nat)
    requires Inv(t, prefix, env.now) && env.Monotone() && RoomFor(t, Outgoing(src), env.cap)
    ensures Inv(Encapsulate(c, t, src, env).0, prefix, env.sent)
  {
    if t.CurrentSession().None? {
      hide SendInitiation;
      SendInitiationKeepsInv(c, QueuePacket(t, src), env, false, prefix);
    } else {
      hide SendInitiation, SlotsOk, SentBy;
    }
  }

  lemma SendQueuedKeepsInv(c: Primitives, t: Tunn, env: Env, prefix: nat)
    requires Inv(t, prefix, env.now) && env.Monotone() && RoomFor(t, Flush, env.cap)
    ensures Inv(SendQueued(c, t, env).0, prefix, env.sent)
  {
    if t.queue != [] {
      var t0 := t.(queue := t.queue[1..]);
      EncapsulateKeepsInv(c, t0, t.queue[0], env, prefix);
      if t.CurrentSession().None? {
        SendInitiationKeepsInv(c, QueuePacket(t0, t.queue[0]), env, false, prefix);
      }
    }
  }

  lemma HandleInitKeepsInv(c: Primitives, t: Tunn, p: Packet, env: Env, prefix: nat)
    requires p.HandshakeInit? && Inv(t, prefix, env.now) && env.cap >= HANDSHAKE_INIT_SZ
    ensures Inv(HandleInit(c, t, p, env).0, prefix, env.now)
  {
    AnswerKeepsSlots(c, t.handshake, p, env, prefix);
    hide ReceiveInitiation, SlotsOk, SentBy;
  }

  lemma HandleResponseKeepsInv(c: Primitives, t: Tunn, p: Packet, env: Env, prefix: nat)
    requires p.HandshakeResponse? && Inv(t, prefix, env.now) && env.cap >= HANDSHAKE_INIT_SZ
    ensures Inv(HandleResponse(c, t, p, env).0, prefix, env.now)
  {
    ResponseKeepsSlots(c, t.handshake, p, env.now, prefix);
    hide ReceiveResponse, SlotsOk, SentBy;
  }

  lemma ValidateKeepsInv(t: Tunn, packet: Bytes, prefix: nat, clock: nat)
    requires Inv(t, prefix, clock)
    ensures Inv(ValidateDecapsulated(t, packet).0, prefix, clock)
    ensures ValidateDecapsulated(t, packet).0.handshake == t.handshake
  {
    hide SlotsOk, SentBy, IpHeader;
  }

  lemma HandleDataKeepsInv(c: Primitives, t: Tunn, p: Packet, env: Env, prefix: nat)
    requires p.PacketData? && Inv(t, prefix, env.now) && RoomFor(t, Incoming(p), env.cap)
    ensures Inv(HandleData(c, t, p, env).0, prefix, env.now)
    ensures HandleData(c, t, p, env).0.handshake == t.handshake
  {
    var slot := t.sessions[p.receiverIdx % N_SESSIONS];
    if slot.Some? {
      ReceiveKeepsCounted(c, slot.value, p);
      hide ReceivePacketData, ValidateDecapsulated, SlotsOk, SentBy;
      var (session, r) := ReceivePacketData(c, slot.value, p);
      if r.Success? {
        var t1 := t.(sessions := t.sessions[p.receiverIdx % N_SESSIONS := Some(session)]);
        ValidateKeepsInv(SetCurrentSession(t1, p.receiverIdx).Tick(TimeLastPacketReceived), r.value, prefix, env.now);
      }
    }
  }

  lemma HandleVerifiedKeepsInv(c: Primitives, t: Tunn, p: Packet, env: Env, prefix: nat)
    requires Inv(t, prefix, env.now) && RoomFor(t, Incoming(p), env.cap) && env.Monotone()
    ensures Inv(HandleVerified(c, t, p, env).0, prefix, env.sent)
  {
    hide HandleInit, HandleResponse, HandleData, HandleCookieReply;
    match p
    case HandshakeInit(_, _, _, _) => HandleInitKeepsInv(c, t, p, env, prefix);
    case HandshakeResponse(_, _, _, _) => HandleResponseKeepsInv(c, t, p, env, prefix);
    case PacketCookieReply(_, _, _) => HandleCookieKeepsInv(c, t, p, env, prefix);
    case PacketData(_, _, _) => HandleDataKeepsInv(c, t, p, env, prefix);
  }

  lemma HandleCookieKeepsInv(c: Primitives, t: Tunn, p: Packet, env: Env, prefix: nat)
    requires p.PacketCookieReply? && Inv(t, prefix, env.now)
    ensures Inv(HandleCookieReply(c, t, p).0, prefix, env.now)
  {
    hide RingOk, AllCounted;
  }

  lemma AdvanceKeepsInv(t: Tunn, prefix: nat, now: nat)
    requires Inv(t, prefix, now) && ClockSafe(t, now)
    ensures Inv(AdvanceTo(t, now), prefix, now) && ClockSafe(AdvanceTo(t, now), now)
    ensures AdvanceTo(t, now).handshake == t.handshake
  {
  }

  lemma ExpireKeepsInv(t: Tunn, env: Env, prefix: nat)
    requires Inv(t, prefix, env.now) && env.Monotone()
    ensures Inv(ExpireConnection(t, env).0, prefix, env.sent)
  {
  }

  lemma UpdateWaitingKeepsInv(c: Primitives, t: Tunn, env: Env, prefix: nat)
    requires Inv(t, prefix, env.now) && ClockSafe(t, env.now) && env.Monotone() && env.cap >= HANDSHAKE_INIT_SZ
    requires t.handshake.state.InitSent?
    ensures Inv(UpdateWaiting(c, t, env).0, prefix, env.sent)
  {
    ExpireKeepsInv(t, env, prefix);
    SendInitiationKeepsInv(c, t, env, true, prefix);
  }

  lemma SendKeepalivesKeepsInv(c: Primitives, t: Tunn, env: Env, prefix: nat)
    requires Inv(t, prefix, env.now) && ClockSafe(t, env.now) && env.Monotone() && env.cap >= HANDSHAKE_INIT_SZ
    ensures Inv(SendKeepalives(c, t, env).0, prefix, env.sent)
  {
    KeepaliveDueKeepsInv(t, prefix, env.now);
    EncapsulateKeepsInv(c, KeepaliveDue(t, env.now).0, [], env, prefix);
  }

  lemma KeepaliveDueKeepsInv(t: Tunn, prefix: nat, now: nat)
    requires Inv(t, prefix, now)
    ensures Inv(KeepaliveDue(t, now).0, prefix, now)
    ensures KeepaliveDue(t, now).0.handshake == t.handshake
  {
  }

  lemma UpdateIdleTimersKeepsInv(c: Primitives, t: Tunn, env: Env, prefix: nat)
    requires Inv(t, prefix, env.now) && ClockSafe(t, env.now) && env.Monotone() && env.cap >= HANDSHAKE_INIT_SZ
    ensures Inv(UpdateIdleTimers(c, t, env).0, prefix, env.sent)
  {
    hide SendInitiation, SendKeepalives;
    var t1 := HandshakeDue(t, env.now).0;
    SendInitiationKeepsInv(c, t1, env, true, prefix);
    SendKeepalivesKeepsInv(c, t1, env, prefix);
  }

  lemma UpdateTimersKeepsInv(c: Primitives, t: Tunn, env: Env, prefix: nat)
    requires Inv(t, prefix, env.now) && Enabled(t, Event.Tick, env)
    ensures Inv(UpdateTimers(c, t, env).0, prefix, env.sent)
  {
    AdvanceKeepsInv(t, prefix, env.now);
    LiveTimersKeepInv(c, ExpireCookie(AdvanceTo(t, env.now), env.now), env, prefix);
  }

  lemma LiveTimersKeepInv(c: Primitives, t: Tunn, env: Env, prefix: nat)
    requires Inv(t, prefix, env.now) && ClockSafe(t, env.now) && env.Monotone() && env.cap >= HANDSHAKE_INIT_SZ
    ensures Inv(UpdateLiveTimers(c, t, env).0, prefix, env.sent)
  {
    ExpireKeepsInv(t, env, prefix);
    if t.handshake.state.InitSent? {
      UpdateWaitingKeepsInv(c, t, env, prefix);
    } else {
      UpdateIdleTimersKeepsInv(c, t, env, prefix);
    }
  }

  /** Every operation keeps the invariant and leaves all its times at or before the last reading. */
  lemma StepKeepsInv(c: Primitives, t: Tunn, ev: Event, env: Env, prefix: nat)
    requires Inv(t, prefix, env.now) && Enabled(t, ev, env)
    ensures Inv(Step(c, t, ev, env).0, prefix, env.sent)
  {
    match ev
    case Outgoing(src) => EncapsulateKeepsInv(c, t, src, env, prefix);
    case Flush => SendQueuedKeepsInv(c, t, env, prefix);
    case Incoming(p) => HandleVerifiedKeepsInv(c, t, p, env, prefix);
    case Tick => UpdateTimersKeepsInv(c, t, env, prefix);
    case Initiate(force) => SendInitiationKeepsInv(c, t, env, force, prefix);
    case NewStaticKey(_) =>
  }

  // ---------------------------------------------------------------- leaving Expired

  /** An expired tunnel holds no keys and no packets, and only three things wake it: a packet to
      send, a handshake asked for, or an initiation it accepts. */
  lemma OnlyThreeThingsLeaveExpired(c: Primitives, t: Tunn, ev: Event, env: Env, prefix: nat)
    requires Inv(t, prefix, env.now) && Enabled(t, ev, env) && t.handshake.state.Expired?
    ensures t.handshake.previous.Expired? && t.sessions == NoSessions() && t.queue == []
    ensures Step(c, t, ev, env).0.handshake.state.Expired? <==>
            !(ev.Outgoing? || ev.Initiate?
              || (ev.Incoming? && ev.packet.HandshakeInit? && CheckInitiation(c, t.handshake, ev.packet).Success?))
  {
    match ev
    case Outgoing(src) => SendInitiationKeepsInv(c, QueuePacket(t, src), env, false, prefix);
    case Initiate(force) => SendInitiationKeepsInv(c, t, env, force, prefix);
    case Tick => AdvanceKeepsInv(t, prefix, env.now);
    case _ =>
  }

  // ---------------------------------------------------------------- one attempt at a handshake

  /** What a step may do to a handshake attempt that goes on through it: nothing, or send again;
      and the periodic call only within the attempt time, a timeout after the last sending. */
  ghost predicate AttemptGoesOn(t: Tunn, ev: Event, env: Env, t': Tunn, r: TunnResult)
    requires t.handshake.state.InitSent? && t'.handshake.state.InitSent?
  {
    && t'.timers.times.handshakeStarted == t.timers.times.handshakeStarted
    && (t'.handshake.state == t.handshake.state || t'.handshake.state.timeSent == env.sent)
    && (ev.Tick? && r.WriteToNetwork? ==>
        && t'.handshake.state.timeSent == env.sent
        && env.now < t.timers.times.handshakeStarted + REKEY_ATTEMPT_TIME
        && t.handshake.state.timeSent + REKEY_TIMEOUT <= env.probe)
  }

  lemma AttemptStep(c: Primitives, t: Tunn, ev: Event, env: Env, prefix: nat)
    requires Inv(t, prefix, env.now) && Enabled(t, ev, env)
    ensures var (t', r) := Step(c, t, ev, env);
            t'.handshake.state.InitSent? ==>
              if t.handshake.state.InitSent? then AttemptGoesOn(t, ev, env, t', r)
              else t'.handshake.state.timeSent == env.sent && t'.timers.times.handshakeStarted <= env.sent
  {
    match ev
    case Outgoing(src) => OutgoingAttempt(c, t, src, env, prefix);
    case Flush => FlushAttempt(c, t, env, prefix);
    case Incoming(p) => IncomingAttempt(c, t, p, env, prefix);
    case Tick =>
      TickAttempt(c, t, env, prefix);
      StepKeepsInv(c, t, ev, env, prefix);
    case Initiate(force) => SendInitiationKeepsInv(c, t, env, force, prefix);
    case NewStaticKey(_) =>
  }

  lemma OutgoingAttempt(c: Primitives, t: Tunn, src: Bytes, env: Env, prefix: nat)
    requires Inv(t, prefix, env.now) && Enabled(t, Outgoing(src), env)
    ensures var (t', r) := Encapsulate(c, t, src, env);
            t'.handshake.state.InitSent? ==>
              if t.handshake.state.InitSent? then AttemptGoesOn(t, Outgoing(src), env, t', r)
              else t'.handshake.state.timeSent == env.sent && t'.timers.times.handshakeStarted <= env.sent
  {
    hide OpenInitiation, MixKey2;
    SendInitiationKeepsInv(c, QueuePacket(t, src), env, false, prefix);
    EncapsulateKeepsInv(c, t, src, env, prefix);
  }

  lemma FlushAttempt(c: Primitives, t: Tunn, env: Env, prefix: nat)
    requires Inv(t, prefix, env.now) && Enabled(t, Flush, env)
    ensures var (t', r) := SendQueued(c, t, env);
            t'.handshake.state.InitSent? ==>
              if t.handshake.state.InitSent? then AttemptGoesOn(t, Flush, env, t', r)
              else t'.handshake.state.timeSent == env.sent && t'.timers.times.handshakeStarted <= env.sent
  {
    SendQueuedKeepsInv(c, t, env, prefix);
    if t.queue != [] {
      SendInitiationKeepsInv(c, QueuePacket(t.(queue := t.queue[1..]), t.queue[0]), env, false, prefix);
    }
  }

  lemma IncomingAttempt(c: Primitives, t: Tunn, p: Packet, env: Env, prefix: nat)
    requires Inv(t, prefix, env.now) && RoomFor(t, Incoming(p), env.cap)
    ensures var t' := HandleVerified(c, t, p, env).0;
            t'.handshake.state.InitSent? ==>
              && t'.handshake.state == t.handshake.state
              && t'.timers.times.handshakeStarted == t.timers.times.handshakeStarted
  {
    hide OpenInitiation, MixKey2, CloseResponse, TransportKeys, IpHeader, ReceivePacketData;
    match p
    case HandshakeInit(_, _, _, _) => AnswerKeepsSlots(c, t.handshake, p, env, prefix);
    case HandshakeResponse(_, _, _, _) => ResponseKeepsSlots(c, t.handshake, p, env.now, prefix);
    case _ =>
  }

  lemma TickAttempt(c: Primitives, t: Tunn, env: Env, prefix: nat)
    requires Inv(t, prefix, env.now) && Enabled(t, Event.Tick, env)
    ensures var (t', r) := UpdateTimers(c, t, env);
            t'.handshake.state.InitSent? ==>
              if t.handshake.state.InitSent? then AttemptGoesOn(t, Event.Tick, env, t', r)
              else t'.handshake.state.timeSent == env.sent
  {
    AdvanceKeepsInv(t, prefix, env.now);
    LiveAttempt(c, ExpireCookie(AdvanceTo(t, env.now), env.now), env, prefix);
  }

  lemma LiveAttempt(c: Primitives, t: Tunn, env: Env, prefix: nat)
    requires Inv(t, prefix, env.now) && ClockSafe(t, env.now) && env.Monotone() && env.cap >= HANDSHAKE_INIT_SZ
    ensures var (t', r) := UpdateLiveTimers(c, t, env);
            t'.handshake.state.InitSent? ==>
              if t.handshake.state.InitSent? then AttemptGoesOn(t, Event.Tick, env, t', r)
              else t'.handshake.state.timeSent == env.sent
  {
    if t.handshake.state.InitSent? {
      SendInitiationKeepsInv(c, t, env, true, prefix);
    } else {
      IdleAttempt(c, t, env, prefix);
    }
  }

  lemma IdleAttempt(c: Primitives, t: Tunn, env: Env, prefix: nat)
    requires Inv(t, prefix, env.now) && ClockSafe(t, env.now) && env.Monotone() && env.cap >= HANDSHAKE_INIT_SZ
    requires !t.handshake.state.InitSent?
    ensures var t' := UpdateIdleTimers(c, t, env).0;
            t'.handshake.state.InitSent? ==> t'.handshake.state.timeSent == env.sent
  {
    hide FormatPacketData, SendInitiation;
    var t1 := HandshakeDue(t, env.now).0;
    InitiationSent(c, t1, env, true);
    InitiationSent(c, QueuePacket(KeepaliveDue(t1, env.now).0, []), env, false);
  }

  lemma InitiationSent(c: Primitives, t: Tunn, env: Env, force: bool)
    ensures var t' := SendInitiation(c, t, env, force).0;
            t'.handshake.state.InitSent? ==>
              t'.handshake.state == t.handshake.state || t'.handshake.state.timeSent == env.sent
  {
  }

  /** The first periodic call at or after the attempt time, still without a response, expires
      the connection and drops everything. */
  lemma AttemptTimeExpires(c: Primitives, t: Tunn, env: Env, prefix: nat)
    requires Inv(t, prefix, env.now) && Enabled(t, Event.Tick, env) && t.handshake.state.InitSent?
    requires env.now >= t.timers.times.handshakeStarted + REKEY_ATTEMPT_TIME
    ensures var (t', r) := UpdateTimers(c, t, env);
            && r == Err(ConnectionExpired)
            && t'.handshake.state.Expired? && t'.handshake.previous.Expired?
            && t'.sessions == NoSessions() && t'.queue == []
  {
  }

  // ---------------------------------------------------------------- histories

  /** A tunnel with what an observer of the whole run would have noted. */
  datatype History = History(
    t: Tunn,
    clock: nat,                   // the last reading of any call
    ticks: seq<nat>,              // per slot, the tunnel's current time when its session was stored
    born: seq<nat>,               // per slot, the clock when its session was stored
    resends: seq<nat>,            // when the periodic call sent the pending initiation again
    accepted: seq<Tai64N>)        // time stamps of the initiations accepted

  /** The slot a step stores a new session in. */
  ghost function StoredSlot(c: Primitives, t: Tunn, ev: Event, env: Env): (slot: Option<nat>)
    ensures slot.Some? ==> slot.value < N_SESSIONS
  {
    if !ev.Incoming? then None
    else if ev.packet.HandshakeInit? then
      match ReceiveInitiation(c, t.handshake, ev.packet, env.cap, env.ephemeral).1
      case Success((_, session)) => Some(session.receivingIndex % N_SESSIONS)
      case Failure(_) => None
    else if ev.packet.HandshakeResponse? then
      match ReceiveResponse(c, t.handshake, ev.packet, env.now).1
      case Success(session) => Some(session.receivingIndex % N_SESSIONS)
      case Failure(_) => None
    else None
  }

  /** What the observer notes of a call that took the tunnel to t' with result r. */
  ghost function Note(h: History, t': Tunn, r: TunnResult, slot: Option<nat>, ev: Event, env: Env): History
    requires |h.ticks| == |h.born| == N_SESSIONS && (slot.Some? ==> slot.value < N_SESSIONS)
  {
    History(
      t',
      env.sent,
      if slot.Some? then h.ticks[slot.value := h.t.timers.times.current] else h.ticks,
      if slot.Some? then h.born[slot.value := env.now] else h.born,
      if !t'.handshake.state.InitSent? || !h.t.handshake.state.InitSent? then []
      else if ev.Tick? && r.WriteToNetwork? then h.resends + [env.sent] else h.resends,
      if slot.Some? && AnInitiation(ev) then h.accepted + [t'.handshake.lastTimestamp] else h.accepted)
  }

  ghost predicate AnInitiation(ev: Event) {
    ev.Incoming? && ev.packet.HandshakeInit?
  }

  ghost function Advance(c: Primitives, h: History, ev: Event, env: Env): History
    requires Enabled(h.t, ev, env) && |h.ticks| == |h.born| == N_SESSIONS
  {
    var (t', r) := Step(c, h.t, ev, env);
    Note(h, t', r, StoredSlot(c, h.t, ev, env), ev, env)
  }

  ghost predicate Start(h: History, params: Params, index: nat, persistentKeepalive: nat) {
    && h.t == NewTunn(params, index, persistentKeepalive)
    && |h.ticks| == |h.born| == N_SESSIONS
    && h.resends == [] && h.accepted == []
  }

  /** A call made no earlier than the last one returned; `single` restricts runs to calls that
      are served by one reading of the clock. */
  ghost predicate Next(c: Primitives, h: History, h': History, ev: Event, env: Env, single: bool) {
    && h.clock <= env.now && (single ==> env.SingleReading())
    && Enabled(h.t, ev, env) && |h.ticks| == |h.born| == N_SESSIONS
    && h' == Advance(c, h, ev, env)
  }

  /** A run is given by the calls made and what each takes from its surroundings. */
  ghost predicate IsRun(c: Primitives, hs: seq<History>, calls: seq<(Event, Env)>,
                        params: Params, index: nat, keepalive: nat, single: bool)
  {
    && |hs| == |calls| + 1 && Start(hs[0], params, index, keepalive)
    && forall i :: 0 <= i < |calls| ==> CallLeads(c, hs, calls, single, i)
  }

  /** Call number i leads from the history before it to the one after it. */
  ghost predicate CallLeads(c: Primitives, hs: seq<History>, calls: seq<(Event, Env)>, single: bool, i: nat)
    requires |hs| == |calls| + 1 && i < |calls|
  {
    Next(c, hs[i], hs[i + 1], calls[i].0, calls[i].1, single)
  }

  // ---------------------------------------------------------------- what histories show

  /** Stored sessions carry the time they were stored at. */
  ghost predicate AgesKnown(h: History) {
    && |h.ticks| == |h.born| == |h.t.sessions| == |h.t.timers.sessionTimers| == N_SESSIONS
    && forall i :: 0 <= i < N_SESSIONS && h.t.sessions[i].Some? ==>
         h.t.timers.sessionTimers[i] == h.ticks[i] <= h.born[i]
  }

  const MOST_RESENDS: nat := 18

  /** Within one attempt the resends are a timeout apart, the first a timeout after the start,
      and bounded in number. */
  ghost predicate ResendsPaced(h: History, single: bool) {
    h.t.handshake.state.InitSent? ==>
      var started := h.t.timers.times.handshakeStarted;
      && (forall k :: 0 <= k < |h.resends| ==> h.resends[k] >= started + (k + 1) * REKEY_TIMEOUT)
      && (forall k :: 0 <= k < |h.resends| - 1 ==> h.resends[k + 1] >= h.resends[k] + REKEY_TIMEOUT)
      && (forall k :: 0 <= k < |h.resends| - 1 ==> h.resends[k] < started + REKEY_ATTEMPT_TIME)
      && (h.resends != [] ==> h.resends[|h.resends| - 1] <= h.t.handshake.state.timeSent)
      && h.t.handshake.state.timeSent >= started + |h.resends| * REKEY_TIMEOUT
      && |h.resends| <= if single then MOST_RESENDS - 1 else MOST_RESENDS
  }

  ghost predicate TimestampsIncrease(h: History) {
    && (forall k :: 0 <= k < |h.accepted| - 1 ==> h.accepted[k + 1].After(h.accepted[k]))
    && (h.accepted != [] ==> h.accepted[|h.accepted| - 1] == h.t.handshake.lastTimestamp)
  }

  ghost predicate HistoryInv(h: History, prefix: nat, single: bool) {
    Inv(h.t, prefix, h.clock) && AgesKnown(h) && ResendsPaced(h, single) && TimestampsIncrease(h)
  }

  lemma NewTunnIsFine(h: History, params: Params, index: nat, keepalive: nat, single: bool)
    requires Start(h, params, index, keepalive)
    ensures HistoryInv(h, index, single)
  {
  }

  /** A step that stores no session: occupied slots were occupied, under unchanged slot timers. */
  ghost predicate StoresNothing(t: Tunn, t': Tunn) {
    && |t.sessions| == |t'.sessions| == N_SESSIONS
    && t'.timers.sessionTimers == t.timers.sessionTimers
    && (forall i :: 0 <= i < N_SESSIONS && t'.sessions[i].Some? ==> t.sessions[i].Some?)
    && t'.handshake.lastTimestamp == t.handshake.lastTimestamp
  }

  lemma SendInitiationStoresNothing(c: Primitives, t: Tunn, env: Env, force: bool)
    requires t.WellFormed()
    ensures StoresNothing(t, SendInitiation(c, t, env, force).0)
  {
    hide OpenInitiation, MixKey2;
  }

  lemma EncapsulateStoresNothing(c: Primitives, t: Tunn, src: Bytes, env: Env)
    requires t.WellFormed() && env.cap >= |src| + DATA_OVERHEAD_SZ
    ensures StoresNothing(t, Encapsulate(c, t, src, env).0)
  {
    SendInitiationStoresNothing(c, QueuePacket(t, src), env, false);
  }

  lemma SendQueuedStoresNothing(c: Primitives, t: Tunn, env: Env)
    requires t.WellFormed() && RoomFor(t, Flush, env.cap)
    ensures StoresNothing(t, SendQueued(c, t, env).0)
  {
    if t.queue != [] {
      EncapsulateStoresNothing(c, t.(queue := t.queue[1..]), t.queue[0], env);
    }
  }

  lemma HandleDataStoresNothing(c: Primitives, t: Tunn, p: Packet, env: Env)
    requires t.WellFormed() && p.PacketData? && RoomFor(t, Incoming(p), env.cap)
    ensures StoresNothing(t, HandleData(c, t, p, env).0)
  {
  }

  lemma SendKeepalivesStoresNothing(c: Primitives, t: Tunn, env: Env)
    requires t.WellFormed() && ClockSafe(t, env.now) && env.cap >= DATA_OVERHEAD_SZ
    ensures StoresNothing(t, SendKeepalives(c, t, env).0)
  {
    var t1 := KeepaliveDue(t, env.now).0;
    assert t1.sessions == t.sessions;
    EncapsulateStoresNothing(c, t1, [], env);
  }

  lemma UpdateIdleTimersStoresNothing(c: Primitives, t: Tunn, env: Env)
    requires t.WellFormed() && ClockSafe(t, env.now) && env.cap >= DATA_OVERHEAD_SZ
    ensures StoresNothing(t, UpdateIdleTimers(c, t, env).0)
  {
    var (t1, due) := HandshakeDue(t, env.now);
    if due {
      SendInitiationStoresNothing(c, t1, env, true);
    } else {
      SendKeepalivesStoresNothing(c, t1, env);
    }
  }

  /** A slot holds a session after a step only if the step stored it or it was there before;
      the time stamp moves only when an initiation is accepted, and then forward. */
  ghost predicate Stores(t: Tunn, t': Tunn, slot: Option<nat>, initiation: bool) {
    && |t.sessions| == |t'.sessions| == |t.timers.sessionTimers| == |t'.timers.sessionTimers| == N_SESSIONS
    && (forall i :: 0 <= i < N_SESSIONS && t'.sessions[i].Some? ==>
          if slot == Some(i) then t'.timers.sessionTimers[i] == t.timers.times.current
          else t.sessions[i].Some? && t'.timers.sessionTimers[i] == t.timers.sessionTimers[i])
    && (if slot.Some? && initiation then t'.handshake.lastTimestamp.After(t.handshake.lastTimestamp)
        else t'.handshake.lastTimestamp == t.handshake.lastTimestamp)
  }

  lemma HandleInitStores(c: Primitives, t: Tunn, p: Packet, env: Env, prefix: nat)
    requires p.HandshakeInit? && Inv(t, prefix, env.now) && RoomFor(t, Incoming(p), env.cap)
    ensures Stores(t, HandleInit(c, t, p, env).0, StoredSlot(c, t, Incoming(p), env), true)
  {
    AnswerKeepsSlots(c, t.handshake, p, env, prefix);
  }

  lemma HandleResponseStores(c: Primitives, t: Tunn, p: Packet, env: Env, prefix: nat)
    requires p.HandshakeResponse? && Inv(t, prefix, env.now) && RoomFor(t, Incoming(p), env.cap)
    ensures Stores(t, HandleResponse(c, t, p, env).0, StoredSlot(c, t, Incoming(p), env), false)
  {
    ResponseKeepsSlots(c, t.handshake, p, env.now, prefix);
  }

  lemma HandleVerifiedStores(c: Primitives, t: Tunn, p: Packet, env: Env, prefix: nat)
    requires Inv(t, prefix, env.now) && RoomFor(t, Incoming(p), env.cap)
    ensures Stores(t, HandleVerified(c, t, p, env).0, StoredSlot(c, t, Incoming(p), env), p.HandshakeInit?)
  {
    match p
    case HandshakeInit(_, _, _, _) => HandleInitStores(c, t, p, env, prefix);
    case HandshakeResponse(_, _, _, _) => HandleResponseStores(c, t, p, env, prefix);
    case PacketCookieReply(_, _, _) =>
    case PacketData(_, _, _) => HandleDataStoresNothing(c, t, p, env);
  }

  /** The sessions left once the current time has moved are within the rejection time. */
  lemma AdvanceSessions(t: Tunn, prefix: nat, now: nat)
    requires Inv(t, prefix, now) && ClockSafe(t, now)
    ensures var t' := AdvanceTo(t, now);
            && Stores(t, t', None, false)
            && forall i :: 0 <= i < N_SESSIONS && t'.sessions[i].Some? ==>
                 now <= t'.timers.sessionTimers[i] + REJECT_AFTER_TIME
  {
  }

  lemma LiveTimersStoreNothing(c: Primitives, t: Tunn, env: Env)
    requires t.WellFormed() && ClockSafe(t, env.now) && env.Monotone() && env.cap >= DATA_OVERHEAD_SZ
    ensures StoresNothing(t, UpdateLiveTimers(c, t, env).0)
  {
    SendInitiationStoresNothing(c, t, env, true);
    UpdateIdleTimersStoresNothing(c, t, env);
  }

  /** A session is as it was, but for what it has sent. */
  predicate SentOnly(s: Option<SessionState>, s': Option<SessionState>) {
    (s.None? <==> s'.None?) && (s.Some? ==> s'.value == s.value.(sendCounter := s'.value.sendCounter))
  }

  ghost predicate AllSentOnly(t: Tunn, t': Tunn) {
    && |t.sessions| == |t'.sessions| == N_SESSIONS
    && forall i :: 0 <= i < N_SESSIONS ==> SentOnly(t.sessions[i], t'.sessions[i])
  }

  lemma EncapsulateSendsOnly(c: Primitives, t: Tunn, src: Bytes, env: Env)
    requires t.WellFormed() && env.cap >= |src| + DATA_OVERHEAD_SZ
    ensures AllSentOnly(t, Encapsulate(c, t, src, env).0)
  {
    InitiationSendsOnly(c, QueuePacket(t, src), env, false);
    hide SendInitiation;
  }

  lemma InitiationSendsOnly(c: Primitives, t: Tunn, env: Env, force: bool)
    ensures SendInitiation(c, t, env, force).0.sessions == t.sessions
  {
  }

  lemma LiveTimersKeepSessions(c: Primitives, t: Tunn, env: Env)
    requires t.WellFormed() && ClockSafe(t, env.now) && env.Monotone() && env.cap >= HANDSHAKE_INIT_SZ
    ensures var (t', r) := UpdateLiveTimers(c, t, env);
            if r == Err(ConnectionExpired) then t'.sessions == NoSessions() else AllSentOnly(t, t')
  {
    hide SendInitiation, UpdateIdleTimers;
    InitiationSendsOnly(c, t, env, true);
    NeverExpires(c, t, env, true);
    IdleTimersKeepSessions(c, t, env);
  }

  lemma IdleTimersKeepSessions(c: Primitives, t: Tunn, env: Env)
    requires t.WellFormed() && ClockSafe(t, env.now) && env.cap >= HANDSHAKE_INIT_SZ
    ensures var (t', r) := UpdateIdleTimers(c, t, env);
            r != Err(ConnectionExpired) && AllSentOnly(t, t')
  {
    hide SendInitiation, Encapsulate;
    var t1 := HandshakeDue(t, env.now).0;
    InitiationSendsOnly(c, t1, env, true);
    NeverExpires(c, t1, env, true);
    var t2 := KeepaliveDue(t1, env.now).0;
    assert t2.sessions == t.sessions;
    EncapsulateSendsOnly(c, t2, [], env);
    EncapsulateNeverExpires(c, t2, [], env);
  }

  lemma EncapsulateNeverExpires(c: Primitives, t: Tunn, src: Bytes, env: Env)
    requires t.WellFormed() && env.cap >= |src| + DATA_OVERHEAD_SZ && env.cap >= HANDSHAKE_INIT_SZ
    ensures !Encapsulate(c, t, src, env).1.Err?
  {
    hide SendInitiation;
    NeverExpires(c, QueuePacket(t, src), env, false);
  }

  lemma NeverExpires(c: Primitives, t: Tunn, env: Env, force: bool)
    requires env.cap >= HANDSHAKE_INIT_SZ
    ensures !SendInitiation(c, t, env, force).1.Err?
  {
  }

  /** The periodic call drops exactly the sessions stored more than 180 s ago by their slot timers; it
      keeps all others, unchanged but for a keepalive they may have sent; only where the connection has
      expired are all gone. */
  lemma TickSessions(c: Primitives, t: Tunn, env: Env, prefix: nat)
    requires Inv(t, prefix, env.now) && Enabled(t, Event.Tick, env)
    ensures var (t', r) := UpdateTimers(c, t, env);
            && Stores(t, t', None, false)
            && if r == Err(ConnectionExpired) then t'.sessions == NoSessions()
               else forall i :: 0 <= i < N_SESSIONS ==>
                 if env.now <= t.timers.sessionTimers[i] + 180 * 1_000_000_000
                 then SentOnly(t.sessions[i], t'.sessions[i])
                 else t'.sessions[i].None?
  {
    AdvanceKeepsInv(t, prefix, env.now);
    AdvanceSessions(t, prefix, env.now);
    LiveTimersStoreNothing(c, ExpireCookie(AdvanceTo(t, env.now), env.now), env);
    LiveTimersKeepSessions(c, ExpireCookie(AdvanceTo(t, env.now), env.now), env);
    hide UpdateLiveTimers, SendInitiation;
  }

  lemma StepStores(c: Primitives, t: Tunn, ev: Event, env: Env, prefix: nat)
    requires Inv(t, prefix, env.now) && Enabled(t, ev, env)
    ensures Stores(t, Step(c, t, ev, env).0, StoredSlot(c, t, ev, env), AnInitiation(ev))
  {
    match ev
    case Outgoing(src) => EncapsulateStoresNothing(c, t, src, env);
    case Flush => SendQueuedStoresNothing(c, t, env);
    case Incoming(p) => HandleVerifiedStores(c, t, p, env, prefix);
    case Tick => TickSessions(c, t, env, prefix);
    case Initiate(force) => SendInitiationStoresNothing(c, t, env, force);
    case NewStaticKey(_) =>
  }

  lemma AgesNoted(h: History, t': Tunn, r: TunnResult, slot: Option<nat>, ev: Event, env: Env)
    requires AgesKnown(h) && TimestampsIncrease(h) && h.t.timers.times.current <= env.now
    requires (slot.Some? ==> slot.value < N_SESSIONS) && Stores(h.t, t', slot, AnInitiation(ev))
    ensures AgesKnown(Note(h, t', r, slot, ev, env)) && TimestampsIncrease(Note(h, t', r, slot, ev, env))
  {
  }

  lemma AgesStep(c: Primitives, h: History, ev: Event, env: Env, prefix: nat)
    requires AgesKnown(h) && TimestampsIncrease(h) && Inv(h.t, prefix, env.now) && Enabled(h.t, ev, env)
    ensures AgesKnown(Advance(c, h, ev, env)) && TimestampsIncrease(Advance(c, h, ev, env))
  {
    StepStores(c, h.t, ev, env, prefix);
    var (t', r) := Step(c, h.t, ev, env);
    AgesNoted(h, t', r, StoredSlot(c, h.t, ev, env), ev, env);
  }

  /** The pacing of resends as one more is noted. */
  lemma ResendNoted(started: nat, resends: seq<nat>, timeSent: nat, now: nat, sent: nat, single: bool)
    requires forall k :: 0 <= k < |resends| ==> resends[k] >= started + (k + 1) * REKEY_TIMEOUT
    requires forall k :: 0 <= k < |resends| - 1 ==> resends[k + 1] >= resends[k] + REKEY_TIMEOUT
    requires resends != [] ==> resends[|resends| - 1] <= timeSent
    requires started + |resends| * REKEY_TIMEOUT <= timeSent <= now < started + REKEY_ATTEMPT_TIME
    requires timeSent + REKEY_TIMEOUT <= sent && (single ==> now == sent)
    ensures var more := resends + [sent];
            && (forall k :: 0 <= k < |more| ==> more[k] >= started + (k + 1) * REKEY_TIMEOUT)
            && (forall k :: 0 <= k < |more| - 1 ==> more[k + 1] >= more[k] + REKEY_TIMEOUT)
            && (forall k :: 0 <= k < |more| - 1 ==> more[k] < started + REKEY_ATTEMPT_TIME)
            && |more| <= if single then MOST_RESENDS - 1 else MOST_RESENDS
  {
    forall k | 0 <= k < |resends|
      ensures resends[k] <= timeSent
    {
      PacedIncrease(resends, k);
    }
  }

  lemma {:induction false} PacedIncrease(resends: seq<nat>, k: nat)
    requires k < |resends| && forall i :: 0 <= i < |resends| - 1 ==> resends[i + 1] >= resends[i] + REKEY_TIMEOUT
    ensures resends[k] <= resends[|resends| - 1]
    decreases |resends| - k
  {
    if k + 1 < |resends| {
      PacedIncrease(resends, k + 1);
      assert resends[k + 1] >= resends[k];
    }
  }

  lemma ResendsNoted(h: History, t': Tunn, r: TunnResult, slot: Option<nat>, ev: Event, env: Env, single: bool)
    requires |h.ticks| == |h.born| == N_SESSIONS && (slot.Some? ==> slot.value < N_SESSIONS)
    requires ResendsPaced(h, single) && SentBy(h.t.handshake, env.now) && env.Monotone()
    requires single ==> env.SingleReading()
    requires t'.handshake.state.InitSent? ==>
               if h.t.handshake.state.InitSent? then AttemptGoesOn(h.t, ev, env, t', r)
               else t'.handshake.state.timeSent == env.sent && t'.timers.times.handshakeStarted <= env.sent
    ensures ResendsPaced(Note(h, t', r, slot, ev, env), single)
  {
    if h.t.handshake.state.InitSent? && t'.handshake.state.InitSent? && ev.Tick? && r.WriteToNetwork? {
      ResendNoted(h.t.timers.times.handshakeStarted, h.resends, h.t.handshake.state.timeSent, env.now, env.sent,
                  single);
    }
  }

  lemma ResendsStep(c: Primitives, h: History, ev: Event, env: Env, prefix: nat, single: bool)
    requires |h.ticks| == |h.born| == N_SESSIONS && (single ==> env.SingleReading())
    requires ResendsPaced(h, single) && Inv(h.t, prefix, env.now) && Enabled(h.t, ev, env)
    ensures ResendsPaced(Advance(c, h, ev, env), single)
  {
    AttemptStep(c, h.t, ev, env, prefix);
    var (t', r) := Step(c, h.t, ev, env);
    ResendsNoted(h, t', r, StoredSlot(c, h.t, ev, env), ev, env, single);
  }

  /** The invariant of every run: it holds in each state any tunnel can reach. */
  lemma {:induction false} EveryRunKeepsInv(c: Primitives, hs: seq<History>, calls: seq<(Event, Env)>, params: Params,
                                            index: nat, keepalive: nat, single: bool, k: nat)
    requires IsRun(c, hs, calls, params, index, keepalive, single) && k < |hs|
    ensures HistoryInv(hs[k], index, single)
  {
    if k == 0 {
      NewTunnIsFine(hs[0], params, index, keepalive, single);
    } else {
      EveryRunKeepsInv(c, hs, calls, params, index, keepalive, single, k - 1);
      assert CallLeads(c, hs, calls, single, k - 1);
      NextKeepsHistoryInv(c, hs[k - 1], hs[k], calls[k - 1].0, calls[k - 1].1, index, single);
    }
  }

  lemma NextKeepsHistoryInv(c: Primitives, h: History, h': History, ev: Event, env: Env, prefix: nat, single: bool)
    requires HistoryInv(h, prefix, single) && Next(c, h, h', ev, env, single)
    ensures HistoryInv(h', prefix, single)
  {
    assert Inv(h.t, prefix, env.now);
    StepKeepsInv(c, h.t, ev, env, prefix);
    AgesStep(c, h, ev, env, prefix);
    ResendsStep(c, h, ev, env, prefix, single);
  }

  // ---------------------------------------------------------------- the run theorems

  /** Expiry leaves nothing behind, in every reachable state. */
  lemma ExpiredMeansEmpty(c: Primitives, hs: seq<History>, calls: seq<(Event, Env)>, params: Params,
                          index: nat, keepalive: nat, k: nat)
    requires IsRun(c, hs, calls, params, index, keepalive, false) && k < |hs|
    requires hs[k].t.handshake.state.Expired?
    ensures hs[k].t.handshake.previous.Expired? && hs[k].t.queue == []
    ensures hs[k].t.sessions == NoSessions()
  {
    EveryRunKeepsInv(c, hs, calls, params, index, keepalive, false, k);
  }

  /** No reachable state makes a later reading of the clock underflow. */
  lemma ClockNeverUnderflows(c: Primitives, hs: seq<History>, calls: seq<(Event, Env)>, params: Params,
                             index: nat, keepalive: nat, k: nat, now: nat)
    requires IsRun(c, hs, calls, params, index, keepalive, false) && k < |hs| && now >= hs[k].clock
    ensures ClockSafe(hs[k].t, now)
  {
    EveryRunKeepsInv(c, hs, calls, params, index, keepalive, false, k);
  }

  /** After every periodic call no session is kept that was stored more than 180 s before it. */
  lemma NoSessionOutlivesItsKeys(c: Primitives, hs: seq<History>, calls: seq<(Event, Env)>, params: Params,
                                 index: nat, keepalive: nat, k: nat, i: nat)
    requires IsRun(c, hs, calls, params, index, keepalive, false) && k < |calls| && i < N_SESSIONS
    requires calls[k].0.Tick?
    ensures var h, now := hs[k + 1], calls[k].1.now;
            && AgesKnown(h)
            && (h.t.sessions[i].Some? ==> now - h.born[i] <= now - h.ticks[i] <= 180 * 1_000_000_000)
  {
    EveryRunKeepsInv(c, hs, calls, params, index, keepalive, false, k);
    EveryRunKeepsInv(c, hs, calls, params, index, keepalive, false, k + 1);
    var env := calls[k].1;
    assert CallLeads(c, hs, calls, false, k);
    TickSessions(c, hs[k].t, env, index);
  }

  /** Within one attempt the periodic call sends the initiation again at most 18 times, at least 5 s
      apart, and at most 17 times when each call reads the clock once. All but the last are sent
      before the attempt is 90 s old, and so is the last, unless it is the 18th. */
  lemma ResendsAreBounded(c: Primitives, hs: seq<History>, calls: seq<(Event, Env)>, params: Params,
                          index: nat, keepalive: nat, single: bool, k: nat)
    requires IsRun(c, hs, calls, params, index, keepalive, single) && k < |hs|
    ensures |hs[k].resends| <= if single then 17 else 18
    ensures forall j :: 0 <= j < |hs[k].resends| - 1 ==> hs[k].resends[j + 1] >= hs[k].resends[j] + 5 * SECOND
    ensures var deadline := hs[k].t.timers.times.handshakeStarted + 90 * SECOND;
            && (forall j :: 0 <= j < |hs[k].resends| - 1 ==> hs[k].resends[j] < deadline)
            && (|hs[k].resends| == 18 ==> hs[k].resends[17] >= deadline)
  {
    EveryRunKeepsInv(c, hs, calls, params, index, keepalive, single, k);
    if k > 0 {
      assert CallLeads(c, hs, calls, single, k - 1);
    }
  }

  /** The periodic call finds the pending initiation due to be sent again. */
  predicate ResendDue(t: Tunn, env: Env)
    requires t.handshake.state.InitSent?
  {
    && t.timers.times.sessionEstablished + REJECT_AFTER_TIME * 3 > env.now
    && t.timers.times.handshakeStarted + REKEY_ATTEMPT_TIME > env.now
    && t.handshake.state.timeSent + REKEY_TIMEOUT <= env.probe
  }

  lemma TickResends(c: Primitives, t: Tunn, env: Env)
    requires Enabled(t, Tick, env) && t.handshake.state.InitSent?
    ensures var (t', r) := Step(c, t, Tick, env);
            if ResendDue(t, env) then
              && r.WriteToNetwork? && t'.handshake.state.InitSent? && t'.handshake.state.timeSent == env.sent
              && t'.timers.times.handshakeStarted == t.timers.times.handshakeStarted
              && t'.timers.times.sessionEstablished == t.timers.times.sessionEstablished
            else !r.WriteToNetwork?
  {
    hide OpenInitiation, MixKey2;
  }

  /** After 17 resends there is an 18th if and only if the periodic call is entered before the
      attempt is 90 s old and then reads the clock again 5 s after the 17th, which is past that age. */
  lemma EighteenthResend(c: Primitives, hs: seq<History>, calls: seq<(Event, Env)>, params: Params,
                         index: nat, keepalive: nat, k: nat)
    requires IsRun(c, hs, calls, params, index, keepalive, false) && k < |calls|
    requires |hs[k].resends| == 17
    ensures var (t, env) := (hs[k].t, calls[k].1);
            && t.handshake.state.InitSent?
            && (|hs[k + 1].resends| == 18 <==> calls[k].0.Tick? && ResendDue(t, env))
            && (|hs[k + 1].resends| == 18 ==>
                  env.now < t.timers.times.handshakeStarted + 90 * SECOND <= env.probe <= env.sent)
  {
    EveryRunKeepsInv(c, hs, calls, params, index, keepalive, false, k);
    assert CallLeads(c, hs, calls, false, k);
    if k > 0 {
      assert CallLeads(c, hs, calls, false, k - 1);
    }
    if calls[k].0.Tick? {
      TickResends(c, hs[k].t, calls[k].1);
    }
  }

  // ---------------------------------------------------------------- a run with 18 resends

  /** The n-th resend of an attempt that started with the tunnel has just been made, on time. */
  ghost predicate OnTime(h: History, n: nat) {
    && |h.ticks| == |h.born| == N_SESSIONS && |h.resends| == n
    && h.clock == n * REKEY_TIMEOUT
    && h.t.handshake.state.InitSent? && h.t.handshake.state.timeSent == n * REKEY_TIMEOUT
    && h.t.timers.times.handshakeStarted == h.t.timers.times.sessionEstablished == 0
  }

  function EnvAt(now: nat, later: nat): Env {
    Env(HANDSHAKE_INIT_SZ, [], [], now, later, later, later)
  }

  lemma LongerRun(c: Primitives, hs: seq<History>, calls: seq<(Event, Env)>, params: Params, index: nat,
                  keepalive: nat, h: History, ev: Event, env: Env)
    requires IsRun(c, hs, calls, params, index, keepalive, false)
    requires Next(c, hs[|calls|], h, ev, env, false)
    ensures IsRun(c, hs + [h], calls + [(ev, env)], params, index, keepalive, false)
  {
    var hs', calls' := hs + [h], calls + [(ev, env)];
    forall i | 0 <= i < |calls'|
      ensures CallLeads(c, hs', calls', false, i)
    {
      assert i < |calls| ==> CallLeads(c, hs, calls, false, i);
    }
  }

  /** A periodic call after an attempt was kept up on time. */
  lemma TickLater(c: Primitives, hs: seq<History>, calls: seq<(Event, Env)>, params: Params, index: nat,
                  keepalive: nat, n: nat, env: Env) returns (hs': seq<History>, calls': seq<(Event, Env)>)
    requires IsRun(c, hs, calls, params, index, keepalive, false) && OnTime(hs[|calls|], n)
    requires env == EnvAt(env.now, (n + 1) * REKEY_TIMEOUT)
    requires n * REKEY_TIMEOUT <= env.now <= env.sent && env.now < REKEY_ATTEMPT_TIME
    ensures IsRun(c, hs', calls', params, index, keepalive, false) && OnTime(hs'[|calls'|], n + 1)
  {
    hide Step, Inv;
    var h := hs[|calls|];
    EveryRunKeepsInv(c, hs, calls, params, index, keepalive, false, |calls|);
    InvIsClockSafe(h.t, index, h.clock, env.now);
    TickResends(c, h.t, env);
    var h' := Advance(c, h, Tick, env);
    LongerRun(c, hs, calls, params, index, keepalive, h', Tick, env);
    hs', calls' := hs + [h'], calls + [(Tick, env)];
  }

  lemma FirstInitiation(c: Primitives, params: Params, index: nat, keepalive: nat)
    returns (hs: seq<History>, calls: seq<(Event, Env)>)
    ensures IsRun(c, hs, calls, params, index, keepalive, false) && OnTime(hs[|calls|], 0)
  {
    hide OpenInitiation, MixKey2;
    var zeros := seq(N_SESSIONS, _ => 0);
    var h := History(NewTunn(params, index, keepalive), 0, zeros, zeros, [], []);
    var env := EnvAt(0, 0);
    var h' := Advance(c, h, Initiate(false), env);
    LongerRun(c, [h], [], params, index, keepalive, h', Initiate(false), env);
    hs, calls := [h] + [h'], [] + [(Initiate(false), env)];
  }

  lemma {:induction false} ResendsOnTime(c: Primitives, params: Params, index: nat, keepalive: nat, n: nat)
    returns (hs: seq<History>, calls: seq<(Event, Env)>)
    requires n <= 17
    ensures IsRun(c, hs, calls, params, index, keepalive, false) && OnTime(hs[|calls|], n)
  {
    if n == 0 {
      hs, calls := FirstInitiation(c, params, index, keepalive);
    } else {
      hs, calls := ResendsOnTime(c, params, index, keepalive, n - 1);
      hs, calls := TickLater(c, hs, calls, params, index, keepalive, n - 1,
                             EnvAt(n * REKEY_TIMEOUT, n * REKEY_TIMEOUT));
    }
  }

  /** It does happen: the 18th resend is made by a call entered at 89 s that reads the clock again
      at 90 s. */
  lemma EighteenResends(c: Primitives, params: Params, index: nat, keepalive: nat)
    returns (hs: seq<History>, calls: seq<(Event, Env)>)
    ensures IsRun(c, hs, calls, params, index, keepalive, false) && |hs[|calls|].resends| == 18
  {
    hs, calls := ResendsOnTime(c, params, index, keepalive, 17);
    hs, calls := TickLater(c, hs, calls, params, index, keepalive, 17, EnvAt(89 * SECOND, 90 * SECOND));
  }

  /** The time stamps of the initiations a tunnel accepts strictly increase. */
  lemma AcceptedTimestampsIncrease(c: Primitives, hs: seq<History>, calls: seq<(Event, Env)>, params: Params,
                                   index: nat, keepalive: nat, k: nat, i: nat, j: nat)
    requires IsRun(c, hs, calls, params, index, keepalive, false) && k < |hs|
    requires i < j < |hs[k].accepted|
    ensures hs[k].accepted[j].After(hs[k].accepted[i])
  {
    EveryRunKeepsInv(c, hs, calls, params, index, keepalive, false, k);
    AfterIsTransitive(hs[k].accepted, i, j);
  }

  lemma {:induction false} AfterIsTransitive(ts: seq<Tai64N>, i: nat, j: nat)
    requires i < j < |ts| && forall k :: 0 <= k < |ts| - 1 ==> ts[k + 1].After(ts[k])
    ensures ts[j].After(ts[i])
  {
    if i + 1 < j {
      AfterIsTransitive(ts, i, j - 1);
      assert ts[j - 1 + 1].After(ts[j - 1]);
    }
  }

  /** In every reachable state: no initiation received is left unanswered, the two in flight
      carry consecutive low bytes, and the slot of a session is found from its index. */
  lemma IndicesFindTheirSlots(c: Primitives, hs: seq<History>, calls: seq<(Event, Env)>, params: Params,
                              index: nat, keepalive: nat, k: nat)
    requires IsRun(c, hs, calls, params, index, keepalive, false) && k < |hs|
    ensures var t := hs[k].t;
            && !t.handshake.state.InitReceived? && !t.handshake.previous.InitReceived?
            && (t.handshake.state.InitSent? && t.handshake.previous.InitSent? ==>
                t.handshake.state.localIndex % 256 == (t.handshake.previous.localIndex % 256 + 1) % 256
                && t.handshake.state.localIndex / 256 == t.handshake.previous.localIndex / 256 == index)
            && t.WellFormed()
            && forall r: nat, s :: StoredUnder(t.sessions, r, s) <==>
                                   t.sessions[r % N_SESSIONS] == Some(s) && s.receivingIndex == r
  {
    EveryRunKeepsInv(c, hs, calls, params, index, keepalive, false, k);
    var t := hs[k].t;
    forall r: nat, s
      ensures StoredUnder(t.sessions, r, s) <==> t.sessions[r % N_SESSIONS] == Some(s) && s.receivingIndex == r
    {
      SlotLookupIsIndexLookup(t.sessions, index, r, s);
    }
    if t.handshake.state.InitSent? && t.handshake.previous.InitSent? {
      IncIndexKeepsPrefix(t.handshake.previous.localIndex);
    }
  }
}
