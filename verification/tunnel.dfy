/**
 The tunnel: handshake in progress, ring of sessions, packet queue and timers
 (sections 6.1 to 6.4 of the WireGuard whitepaper), as a state and its operations.
 Every reading of the clock is a parameter, counted in nanoseconds from the tunnel's start.
 */
module Tunnels {
  import opened Wrappers
  import opened ByteStrings
  import opened Crypto
  import opened Wire
  import opened Sessions
  import opened Handshakes

  const N_SESSIONS: nat := 8
  const MAX_QUEUE_DEPTH: nat := 256

  const REKEY_AFTER_TIME: nat := 120 * SECOND
  const REJECT_AFTER_TIME: nat := 180 * SECOND
  const REKEY_ATTEMPT_TIME: nat := 90 * SECOND
  const REKEY_TIMEOUT: nat := 5 * SECOND
  const KEEPALIVE_TIMEOUT: nat := 10 * SECOND
  const COOKIE_EXPIRATION_TIME: nat := 120 * SECOND

  // ---------------------------------------------------------------- timers

  datatype TimerName =
    | TimeCurrent | TimeSessionEstablished | TimeLastHandshakeStarted | TimeLastPacketReceived
    | TimeLastPacketSent | TimeLastDataPacketReceived | TimeLastDataPacketSent
    | TimeCookieReceived | TimePersistentKeepalive

  /** One time per name. */
  datatype Times = Times(
    current: nat,
    sessionEstablished: nat,
    handshakeStarted: nat,
    packetReceived: nat,
    packetSent: nat,
    dataReceived: nat,
    dataSent: nat,
    cookieReceived: nat,
    persistentKeepalive: nat)
  {
    function Set(name: TimerName, t: nat): Times {
      match name
      case TimeCurrent => this.(current := t)
      case TimeSessionEstablished => this.(sessionEstablished := t)
      case TimeLastHandshakeStarted => this.(handshakeStarted := t)
      case TimeLastPacketReceived => this.(packetReceived := t)
      case TimeLastPacketSent => this.(packetSent := t)
      case TimeLastDataPacketReceived => this.(dataReceived := t)
      case TimeLastDataPacketSent => this.(dataSent := t)
      case TimeCookieReceived => this.(cookieReceived := t)
      case TimePersistentKeepalive => this.(persistentKeepalive := t)
    }

    predicate AtMost(t: nat) {
      && current <= t && sessionEstablished <= t && handshakeStarted <= t
      && packetReceived <= t && packetSent <= t && dataReceived <= t && dataSent <= t
      && cookieReceived <= t && persistentKeepalive <= t
    }
  }

  function AllAt(t: nat): Times {
    Times(t, t, t, t, t, t, t, t, t)
  }

  datatype Timers = Timers(
    isInitiator: bool,
    times: Times,
    sessionTimers: seq<nat>,
    wantKeepalive: bool,
    wantHandshake: bool,
    persistentKeepalive: nat)
  {
    function Tick(name: TimerName): Timers {
      var flagged := match name
        case TimeLastPacketReceived => this.(wantKeepalive := true, wantHandshake := false)
        case TimeLastPacketSent => this.(wantHandshake := true, wantKeepalive := false)
        case _ => this;
      flagged.(times := times.Set(name, times.current))
    }

    function TickSessionEstablished(initiator: bool, sessionIdx: nat): Timers
      requires |sessionTimers| == N_SESSIONS
    {
      var ticked := Tick(TimeSessionEstablished);
      ticked.(sessionTimers := sessionTimers[sessionIdx % N_SESSIONS := times.current], isInitiator := initiator)
    }

    /** Not really clearing: every timer becomes the current time. */
    function Clear(now: nat): Timers {
      this.(times := AllAt(now), wantHandshake := false, wantKeepalive := false)
    }
  }

  // ---------------------------------------------------------------- the tunnel

  datatype Tunn = Tunn(
    handshake: Handshake,
    sessions: seq<Option<SessionState>>,
    current: nat,
    queue: seq<Bytes>,
    timers: Timers,
    txBytes: nat,
    rxBytes: nat)
  {
    ghost predicate WellFormed() {
      |sessions| == N_SESSIONS && |timers.sessionTimers| == N_SESSIONS
    }

    function CurrentSession(): Option<SessionState>
      requires WellFormed()
    {
      sessions[current % N_SESSIONS]
    }

    function Tick(name: TimerName): Tunn {
      this.(timers := timers.Tick(name))
    }

    /** Expiry drops every session and queued packet. */
    function ClearAll(now: nat): Tunn {
      this.(sessions := NoSessions(), queue := [], timers := timers.Clear(now))
    }
  }

  function NoSessions(): (s: seq<Option<SessionState>>)
    ensures |s| == N_SESSIONS && forall i :: 0 <= i < N_SESSIONS ==> s[i] == None
  {
    seq(N_SESSIONS, _ => None)
  }

  datatype TunnResult =
    | Done
    | Err(error: WireGuardError)
    | WriteToNetwork(datagram: Bytes)
    | WriteToTunnelV4(packet: Bytes, source: Bytes)
    | WriteToTunnelV6(packet: Bytes, source: Bytes)

  /** What a call takes from its surroundings: the size of the output buffer, a fresh ephemeral
      key, the time stamp, and its readings of the clock in the order they are made. */
  datatype Env = Env(
    cap: nat,
    ephemeral: Bytes,
    timestamp: Bytes,
    now: nat,          // on entry
    probe: nat,        // when checking how long ago an initiation was sent
    cleared: nat,      // when timers are cleared
    sent: nat)         // when an initiation is sent
  {
    ghost predicate Monotone() {
      now <= probe <= cleared <= sent
    }

    /** One reading serves the whole call. */
    ghost predicate SingleReading() {
      now == probe == cleared == sent
    }
  }

  function NewTunn(params: Params, index: nat, persistentKeepalive: nat): (t: Tunn)
    ensures t.WellFormed()
  {
    Tunn(NewHandshake(params, index * 256), NoSessions(), 0, [],
         Timers(false, AllAt(0), seq(N_SESSIONS, _ => 0), false, false, persistentKeepalive), 0, 0)
  }

  // ---------------------------------------------------------------- operations

  /** Push a packet to the back of the queue, or drop it if too many are queued. */
  function QueuePacket(t: Tunn, packet: Bytes): Tunn {
    if |t.queue| < MAX_QUEUE_DEPTH then t.(queue := t.queue + [packet]) else t
  }

  /** Push a packet to the front of the queue. */
  function RequeuePacket(t: Tunn, packet: Bytes): Tunn {
    if |t.queue| < MAX_QUEUE_DEPTH then t.(queue := [packet] + t.queue) else t
  }

  function SendInitiation(c: Primitives, t: Tunn, env: Env, forceResend: bool): (Tunn, TunnResult) {
    if t.handshake.InProgress() && !forceResend then (t, Done)
    else
      var t1 := if t.handshake.state.Expired? then t.(timers := t.timers.Clear(env.cleared)) else t;
      var starting := !t.handshake.InProgress();
      var (h, r) := FormatInitiation(c, t.handshake, env.cap, env.ephemeral, env.timestamp, env.sent);
      match r
      case Failure(e) => (t1.(handshake := h), Err(e))
      case Success(datagram) =>
        var t2 := t1.(handshake := h);
        var t3 := if starting then t2.Tick(TimeLastHandshakeStarted) else t2;
        (t3.Tick(TimeLastPacketSent), WriteToNetwork(datagram))
  }

  /** The buffer must hold the packet and its overhead: the source panics otherwise. */
  function Encapsulate(c: Primitives, t: Tunn, src: Bytes, env: Env): (Tunn, TunnResult)
    requires t.WellFormed() && env.cap >= |src| + DATA_OVERHEAD_SZ
  {
    match t.CurrentSession()
    case Some(session) =>
      var (session', datagram) := FormatPacketData(c, session, src);
      var t1 := t.(sessions := t.sessions[t.current % N_SESSIONS := Some(session')]).Tick(TimeLastPacketSent);
      var t2 := if src == [] then t1 else t1.Tick(TimeLastDataPacketSent);
      (t2.(txBytes := t.txBytes + |src|), WriteToNetwork(datagram))
    case None =>
      SendInitiation(c, QueuePacket(t, src), env, false)
  }

  function SendQueued(c: Primitives, t: Tunn, env: Env): (Tunn, TunnResult)
    requires t.WellFormed()
    requires t.queue != [] ==> env.cap >= |t.queue[0]| + DATA_OVERHEAD_SZ
  {
    if t.queue == [] then (t, Done)
    else
      var packet := t.queue[0];
      var (t1, r) := Encapsulate(c, t.(queue := t.queue[1..]), packet, env);
      if r.Err? then (RequeuePacket(t1, packet), Done) else (t1, r)
  }

  /** Switch to a session that was just established or used, unless the current one is newer. */
  function SetCurrentSession(t: Tunn, newIdx: nat): Tunn
    requires t.WellFormed()
  {
    if t.current == newIdx then t
    else if t.CurrentSession().None?
         || t.timers.sessionTimers[newIdx % N_SESSIONS] >= t.timers.sessionTimers[t.current % N_SESSIONS]
    then t.(current := newIdx)
    else t
  }

  function HandleInit(c: Primitives, t: Tunn, p: Packet, env: Env): (Tunn, TunnResult)
    requires t.WellFormed() && p.HandshakeInit?
  {
    var (h, r) := ReceiveInitiation(c, t.handshake, p, env.cap, env.ephemeral);
    match r
    case Failure(e) => (t.(handshake := h), Err(e))
    case Success((datagram, session)) =>
      var index := session.receivingIndex;
      var t1 := t.(handshake := h, sessions := t.sessions[index % N_SESSIONS := Some(session)]);
      var t2 := t1.Tick(TimeLastPacketReceived).Tick(TimeLastPacketSent);
      (t2.(timers := t2.timers.TickSessionEstablished(false, index)), WriteToNetwork(datagram))
  }

  function HandleResponse(c: Primitives, t: Tunn, p: Packet, env: Env): (Tunn, TunnResult)
    requires t.WellFormed() && p.HandshakeResponse? && env.cap >= DATA_OVERHEAD_SZ
  {
    var (h, r) := ReceiveResponse(c, t.handshake, p, env.now);
    match r
    case Failure(e) => (t.(handshake := h), Err(e))
    case Success(session) =>
      var (session', keepalive) := FormatPacketData(c, session, []);
      var index := session.receivingIndex;
      var t1 := t.(handshake := h, sessions := t.sessions[index % N_SESSIONS := Some(session')]);
      var t2 := t1.Tick(TimeLastPacketReceived);
      var t3 := t2.(timers := t2.timers.TickSessionEstablished(true, index));
      (SetCurrentSession(t3, index), WriteToNetwork(keepalive))
  }

  function HandleCookieReply(c: Primitives, t: Tunn, p: Packet): (Tunn, TunnResult)
    requires p.PacketCookieReply?
  {
    match ReceiveCookieReply(c, t.handshake, p)
    case Failure(e) => (t, Err(e))
    case Success(h) => (t.(handshake := h).Tick(TimeLastPacketReceived).Tick(TimeCookieReceived), Done)
  }

  const IPV4_MIN_HEADER_SIZE: nat := 20
  const IPV6_MIN_HEADER_SIZE: nat := 40

  /** The length and source address a decapsulated IP packet claims. */
  function IpHeader(packet: Bytes): Option<(nat, Bytes)> {
    if packet != [] && packet[0] / 16 == 4 && |packet| >= IPV4_MIN_HEADER_SIZE then
      Some((FromBigEndian(packet[2..4]), packet[12..16]))
    else if packet != [] && packet[0] / 16 == 6 && |packet| >= IPV6_MIN_HEADER_SIZE then
      Some((FromBigEndian(packet[4..6]) + IPV6_MIN_HEADER_SIZE, packet[8..24]))
    else None
  }

  function ValidateDecapsulated(t: Tunn, packet: Bytes): (Tunn, TunnResult) {
    if packet == [] then (t, Done)
    else
      match IpHeader(packet)
      case None => (t, Err(InvalidPacket))
      case Some((length, source)) =>
        if length > |packet| then (t, Err(InvalidPacket))
        else
          var t1 := t.Tick(TimeLastDataPacketReceived);
          (t1.(rxBytes := t1.rxBytes + length),
           if |source| == 4 then WriteToTunnelV4(packet[..length], source)
           else WriteToTunnelV6(packet[..length], source))
  }

  /** The buffer must hold the ciphertext: the source panics otherwise. */
  function HandleData(c: Primitives, t: Tunn, p: Packet, env: Env): (Tunn, TunnResult)
    requires t.WellFormed() && p.PacketData? && env.cap >= |p.encapsulated|
  {
    var idx := p.receiverIdx % N_SESSIONS;
    match t.sessions[idx]
    case None => (t, Err(NoCurrentSession))
    case Some(session) =>
      var (session', r) := ReceivePacketData(c, session, p);
      var t1 := t.(sessions := t.sessions[idx := Some(session')]);
      match r
      case Failure(e) => (t1, Err(e))
      case Success(plain) =>
        ValidateDecapsulated(SetCurrentSession(t1, p.receiverIdx).Tick(TimeLastPacketReceived), plain)
  }

  function HandleVerified(c: Primitives, t: Tunn, p: Packet, env: Env): (Tunn, TunnResult)
    requires t.WellFormed() && env.cap >= DATA_OVERHEAD_SZ
    requires p.PacketData? ==> env.cap >= |p.encapsulated|
  {
    match p
    case HandshakeInit(_, _, _, _) => HandleInit(c, t, p, env)
    case HandshakeResponse(_, _, _, _) => HandleResponse(c, t, p, env)
    case PacketCookieReply(_, _, _) => HandleCookieReply(c, t, p)
    case PacketData(_, _, _) => HandleData(c, t, p, env)
  }

  /** No subtraction of a stored time from a reading may underflow: the source panics otherwise. */
  ghost predicate ClockSafe(t: Tunn, now: nat) {
    && t.timers.times.AtMost(now)
    && (forall i :: 0 <= i < |t.timers.sessionTimers| ==> t.timers.sessionTimers[i] <= now)
    && (t.handshake.state.InitSent? ==> t.handshake.state.timeSent <= now)
    && (t.handshake.previous.InitSent? ==> t.handshake.previous.timeSent <= now)
  }

  /** Drop every session older than the time after which its keys are rejected. */
  function UpdateSessionTimers(t: Tunn, now: nat): Tunn
    requires t.WellFormed() && ClockSafe(t, now)
  {
    var st := t.timers.sessionTimers;
    t.(sessions := seq(N_SESSIONS, i requires 0 <= i < N_SESSIONS =>
                       if now - st[i] > REJECT_AFTER_TIME then None else t.sessions[i]),
       timers := t.timers.(sessionTimers := seq(N_SESSIONS, i requires 0 <= i < N_SESSIONS =>
                           if now - st[i] > REJECT_AFTER_TIME then now else st[i])))
  }

  function ExpireConnection(t: Tunn, env: Env): (Tunn, TunnResult) {
    (t.(handshake := t.handshake.SetExpired()).ClearAll(env.cleared), Err(ConnectionExpired))
  }

  /** A keepalive is due when data was received and nothing sent back, or periodically. */
  function KeepaliveDue(t: Tunn, now: nat): (Tunn, bool)
    requires t.timers.times.AtMost(now)
  {
    var times := t.timers.times;
    var unheard := times.dataReceived > times.packetSent && now - times.packetSent >= KEEPALIVE_TIMEOUT;
    var t1 := if unheard then t.(timers := t.timers.(wantKeepalive := false)) else t;
    var persistent := t.timers.persistentKeepalive > 0
                      && now - times.persistentKeepalive >= t.timers.persistentKeepalive * SECOND;
    (if persistent then t1.Tick(TimePersistentKeepalive) else t1,
     (unheard && t.timers.wantKeepalive) || persistent)
  }

  function SendKeepalives(c: Primitives, t: Tunn, env: Env): (Tunn, TunnResult)
    requires t.WellFormed() && ClockSafe(t, env.now) && env.cap >= DATA_OVERHEAD_SZ
  {
    var (t1, due) := KeepaliveDue(t, env.now);
    if due then Encapsulate(c, t1, [], env) else (t1, Done)
  }

  /** The session key is old enough for its initiator to replace it. */
  predicate RekeyDue(t: Tunn, now: nat)
    requires t.timers.times.AtMost(now)
  {
    var times := t.timers.times;
    && t.timers.isInitiator
    && ((times.sessionEstablished < times.dataSent
         && now - times.sessionEstablished >= REKEY_AFTER_TIME)
        || (times.sessionEstablished < times.dataReceived
            && now - times.sessionEstablished >= REJECT_AFTER_TIME - KEEPALIVE_TIMEOUT - REKEY_TIMEOUT))
  }

  /** A new handshake is due when the key is old, or when sent data stays unanswered. */
  function HandshakeDue(t: Tunn, now: nat): (Tunn, bool)
    requires t.timers.times.AtMost(now)
  {
    var times := t.timers.times;
    var unanswered := times.dataSent > times.packetReceived
                      && now - times.packetReceived >= KEEPALIVE_TIMEOUT + REKEY_TIMEOUT;
    (if unanswered then t.(timers := t.timers.(wantHandshake := false)) else t,
     RekeyDue(t, now) || (unanswered && t.timers.wantHandshake))
  }

  /** No handshake waits for a response: ask for a new one, or keep the connection alive. */
  function UpdateIdleTimers(c: Primitives, t: Tunn, env: Env): (Tunn, TunnResult)
    requires t.WellFormed() && ClockSafe(t, env.now) && env.cap >= DATA_OVERHEAD_SZ
  {
    var (t1, due) := HandshakeDue(t, env.now);
    if due then SendInitiation(c, t1, env, true) else SendKeepalives(c, t1, env)
  }

  /** An initiation awaits its response: give up, send it again, or go on waiting. */
  function UpdateWaiting(c: Primitives, t: Tunn, env: Env): (Tunn, TunnResult)
    requires ClockSafe(t, env.now) && env.Monotone() && t.handshake.state.InitSent?
  {
    if env.now - t.timers.times.handshakeStarted >= REKEY_ATTEMPT_TIME then ExpireConnection(t, env)
    else if env.probe - t.handshake.state.timeSent >= REKEY_TIMEOUT then SendInitiation(c, t, env, true)
    else (t, Done)
  }

  function ExpireCookie(t: Tunn, now: nat): Tunn
    requires t.timers.times.AtMost(now)
  {
    if t.handshake.cookies.writeCookie.Some? && now - t.timers.times.cookieReceived >= COOKIE_EXPIRATION_TIME
    then t.(handshake := t.handshake.ClearCookie()) else t
  }

  /** The current time moves to the reading, and with it sessions may expire. */
  function AdvanceTo(t: Tunn, now: nat): Tunn
    requires t.WellFormed() && ClockSafe(t, now)
  {
    UpdateSessionTimers(t.(timers := t.timers.(times := t.timers.times.Set(TimeCurrent, now))), now)
  }

  /** The timers of a tunnel that has not expired. */
  function UpdateLiveTimers(c: Primitives, t: Tunn, env: Env): (Tunn, TunnResult)
    requires t.WellFormed() && ClockSafe(t, env.now) && env.Monotone() && env.cap >= DATA_OVERHEAD_SZ
  {
    if env.now - t.timers.times.sessionEstablished >= REJECT_AFTER_TIME * 3 then ExpireConnection(t, env)
    else if t.handshake.state.InitSent? then UpdateWaiting(c, t, env)
    else UpdateIdleTimers(c, t, env)
  }

  function UpdateTimers(c: Primitives, t: Tunn, env: Env): (Tunn, TunnResult)
    requires t.WellFormed() && ClockSafe(t, env.now) && env.Monotone() && env.cap >= DATA_OVERHEAD_SZ
  {
    var t1 := AdvanceTo(t, env.now);
    if t1.handshake.state.Expired? then (t1, Err(ConnectionExpired))
    else UpdateLiveTimers(c, ExpireCookie(t1, env.now), env)
  }

  function SetStaticPrivate(c: Primitives, t: Tunn, staticPrivate: Bytes): Tunn {
    var p := t.handshake.params;
    var p1 := p.(staticPrivate := staticPrivate, staticPublic := c.publicKey(staticPrivate),
                 staticShared := c.dh(staticPrivate, p.peerStaticPublic));
    t.(handshake := t.handshake.(params := p1), sessions := NoSessions())
  }
}
