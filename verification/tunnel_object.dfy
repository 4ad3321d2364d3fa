/**
 The objects whose methods update the handshake and the tunnel in place, each method proved to
 do exactly what the corresponding function on the state says.
 */
module TunnelObjects {
  import opened Wrappers
  import opened ByteStrings
  import opened Crypto
  import opened Wire
  import opened Words
  import opened ReplayWindow
  import opened Sessions
  import opened Handshakes
  import opened Tunnels
  import opened TunnelFlush
  import opened LossEstimates

  /** The answer and the session object are what the specification says. */
  ghost predicate Established(r: Result<Bytes, WireGuardError>, session: Session?,
                              spec: Result<(Bytes, SessionState), WireGuardError>)
    reads if session == null then {} else session.Repr()
  {
    match spec
    case Success((datagram, s)) => r == Success(datagram) && session != null && session.State() == s
    case Failure(e) => r == Failure(e) && session == null
  }

  class HandshakeObject {
    var params: Params
    var nextIndex: nat
    var previous: HandshakeState
    var state: HandshakeState
    var cookies: Cookies
    var lastTimestamp: Tai64N
    var lastRtt: Option<nat>

    function State(): Handshake
      reads this
    {
      Handshake(params, nextIndex, previous, state, cookies, lastTimestamp, lastRtt)
    }

    constructor (params: Params, globalIdx: nat)
      ensures State() == NewHandshake(params, globalIdx)
    {
      this.params := params;
      nextIndex := globalIdx;
      previous, state := NoHandshake, NoHandshake;
      cookies := Cookies(None, 0, None);
      lastTimestamp := Tai64N(0, 0);
      lastRtt := None;
    }

    predicate InProgress()
      reads this
    {
      !state.NoHandshake? && !state.Expired?
    }

    method SetExpired()
      modifies this
      ensures State() == old(State()).SetExpired()
    {
      previous := Expired;
      state := Expired;
    }

    method ClearCookie()
      modifies this
      ensures State() == old(State()).ClearCookie()
    {
      cookies := cookies.(writeCookie := None);
    }

    method NextIndex() returns (index: nat)
      modifies this`nextIndex
      ensures nextIndex == index == IncIndex(old(nextIndex))
    {
      var idx8 := nextIndex % 256;
      nextIndex := nextIndex - idx8 + (idx8 + 1) % 256;
      index := nextIndex;
    }

    method AppendMac1AndMac2(c: Primitives, localIndex: nat, msg: Bytes) returns (datagram: Bytes)
      modifies this`cookies
      ensures (State(), datagram) == AppendMacs(c, old(State()), localIndex, msg)
    {
      var mac1 := c.mac16(params.sendingMac1Key, msg);
      var mac2 := Zeros(16);
      if cookies.writeCookie.Some? {
        mac2 := c.mac16(cookies.writeCookie.value, msg + mac1);
      }
      datagram := msg + mac1 + mac2;
      cookies := cookies.(index := localIndex, lastMac1 := Some(mac1));
    }

    method SendInitiation(c: Primitives, cap: nat, ephemeralPrivate: Bytes, timestamp: Bytes, now: nat)
      returns (r: Result<Bytes, WireGuardError>)
      modifies this
      ensures (State(), r) == FormatInitiation(c, old(State()), cap, ephemeralPrivate, timestamp, now)
    {
      hide InitiationMessage, AppendMacs;
      if cap < HANDSHAKE_INIT_SZ {
        return Failure(DestinationBufferTooSmall);
      }
      var localIndex := NextIndex();
      var (packet, sent) := InitiationMessage(c, params, localIndex, ephemeralPrivate, timestamp, now);
      previous := state;
      state := sent;
      var datagram := AppendMac1AndMac2(c, localIndex, packet.Encode());
      r := Success(datagram);
    }

    method SendResponse(c: Primitives, cap: nat, ephemeralPrivate: Bytes)
      returns (r: Result<Bytes, WireGuardError>, session: Session?)
      requires state.InitReceived?
      modifies this
      ensures State() == FormatResponse(c, old(State()), cap, ephemeralPrivate).0
      ensures session != null ==> fresh(session.Repr()) && session.Valid()
      ensures Established(r, session, FormatResponse(c, old(State()), cap, ephemeralPrivate).1)
    {
      if cap < HANDSHAKE_RESP_SZ {
        return Failure(DestinationBufferTooSmall), null;
      }
      var received := state;
      state := NoHandshake;
      var localIndex := NextIndex();
      var ephemeral := c.publicKey(ephemeralPrivate);
      var (hash, chainingKey, key) :=
        CloseResponse(c, received.hash, received.chainingKey, ephemeral,
                      c.dh(ephemeralPrivate, received.peerEphemeral),
                      c.dh(ephemeralPrivate, params.peerStaticPublic), params.presharedKey);
      var packet := HandshakeResponse(localIndex, received.peerIndex, ephemeral, c.Seal(key, 0, [], hash));
      var (temp2, temp3) := TransportKeys(c, chainingKey);
      var datagram := AppendMac1AndMac2(c, localIndex, packet.Encode());
      session := new Session(localIndex, received.peerIndex, temp2, temp3);
      r := Success(datagram);
    }

    method AcceptInitiation(c: Primitives, packet: Packet, cap: nat, ephemeralPrivate: Bytes)
      returns (r: Result<Bytes, WireGuardError>, session: Session?)
      requires packet.HandshakeInit?
      modifies this
      ensures State() == ReceiveInitiation(c, old(State()), packet, cap, ephemeralPrivate).0
      ensures session != null ==> fresh(session.Repr()) && session.Valid()
      ensures Established(r, session, ReceiveInitiation(c, old(State()), packet, cap, ephemeralPrivate).1)
    {
      hide FormatResponse;
      var (hash, chainingKey, key) :=
        OpenInitiation(c, params.staticPublic, packet.ephemeral, c.dh(params.staticPrivate, packet.ephemeral));
      var peer := c.Open(key, 0, packet.encryptedStatic, hash);
      if peer.None? {
        return Failure(InvalidAeadTag), null;
      }
      if peer.value != params.peerStaticPublic {
        return Failure(WrongKey), null;
      }
      hash := c.Hash(hash, packet.encryptedStatic);
      var (chainingKey1, key1) := MixKey2(c, chainingKey, params.staticShared);
      var stamp := c.Open(key1, 0, packet.encryptedTimestamp, hash);
      if stamp.None? || |stamp.value| != 12 {
        return Failure(InvalidAeadTag), null;
      }
      var timestamp := ParseTai64N(stamp.value);
      if !timestamp.After(lastTimestamp) {
        return Failure(WrongTai64nTimestamp), null;
      }
      lastTimestamp := timestamp;
      previous := state;
      state := InitReceived(c.Hash(hash, packet.encryptedTimestamp), chainingKey1, packet.ephemeral, packet.senderIdx);
      r, session := SendResponse(c, cap, ephemeralPrivate);
    }

    method AcceptResponse(c: Primitives, packet: Packet, now: nat)
      returns (r: Result<(), WireGuardError>, session: Session?)
      requires packet.HandshakeResponse?
      modifies this
      ensures State() == ReceiveResponse(c, old(State()), packet, now).0
      ensures session != null ==> fresh(session.Repr()) && session.Valid()
      ensures match ReceiveResponse(c, old(State()), packet, now).1
              case Success(s) => r.Success? && session != null && session.State() == s
              case Failure(e) => r == Failure(e) && session == null
    {
      var isPrevious := false;
      var sent := state;
      if !(state.InitSent? && state.localIndex == packet.receiverIdx) {
        if !(previous.InitSent? && previous.localIndex == packet.receiverIdx) {
          return Failure(UnexpectedPacket), null;
        }
        isPrevious := true;
        sent := previous;
      }
      var (hash, chainingKey, key) :=
        CloseResponse(c, sent.hash, sent.chainingKey, packet.ephemeral,
                      c.dh(sent.ephemeralPrivate, packet.ephemeral),
                      c.dh(params.staticPrivate, packet.ephemeral), params.presharedKey);
      if c.Open(key, 0, packet.encryptedNothing, hash).None? {
        return Failure(InvalidAeadTag), null;
      }
      var (temp2, temp3) := TransportKeys(c, chainingKey);
      lastRtt := Some(Elapsed(sent.timeSent, now) / NANOS_PER_MILLI % U32_LIMIT);
      if isPrevious {
        previous := NoHandshake;
      } else {
        state := NoHandshake;
      }
      session := new Session(sent.localIndex, packet.senderIdx, temp3, temp2);
      r := Success(());
    }

    method AcceptCookieReply(c: Primitives, packet: Packet) returns (r: Result<(), WireGuardError>)
      requires packet.PacketCookieReply?
      modifies this
      ensures match ReceiveCookieReply(c, old(State()), packet)
              case Success(h) => r.Success? && State() == h
              case Failure(e) => r == Failure(e) && State() == old(State())
    {
      if cookies.lastMac1.None? {
        return Failure(UnexpectedPacket);
      }
      if packet.receiverIdx != cookies.index {
        return Failure(WrongIndex);
      }
      var key := c.Hash(LABEL_COOKIE, params.peerStaticPublic);
      var plain := c.xaeadOpen(key, packet.nonce, packet.encryptedCookie, cookies.lastMac1.value);
      if plain.None? {
        return Failure(InvalidAeadTag);
      }
      if |plain.value| != 16 {
        return Failure(InvalidPacket);
      }
      cookies := cookies.(writeCookie := Some(plain.value));
      r := Success(());
    }
  }

  class Tunnel {
    const handshake: HandshakeObject
    var sessions: seq<Session?>
    var current: nat
    var packetQueue: seq<Bytes>
    var timers: Timers
    var txBytes: nat
    var rxBytes: nat

    /** The objects of one slot. */
    ghost function Parts(i: nat): set<object>
      reads this`sessions
    {
      if i < |sessions| && sessions[i] != null then sessions[i].Repr() else {}
    }

    /** The objects of all slots. */
    ghost function Footprint(): (r: set<object>)
      reads this`sessions
      ensures forall i: nat :: i < N_SESSIONS ==> Parts(i) <= r
    {
      set i: nat, o | i < N_SESSIONS && o in Parts(i) :: o
    }

    ghost function SessionAt(i: nat): Option<SessionState>
      reads this`sessions, Parts(i)
    {
      if i < |sessions| && sessions[i] != null then Some(sessions[i].State()) else None
    }

    ghost predicate SlotSound(i: nat)
      reads this`sessions, Parts(i)
    {
      i < |sessions| && sessions[i] != null ==> sessions[i].Valid()
    }

    ghost function SessionStates(): (r: seq<Option<SessionState>>)
      reads this`sessions, Footprint()
      ensures |r| == N_SESSIONS && forall i: nat :: i < N_SESSIONS ==> r[i] == SessionAt(i)
    {
      [SessionAt(0), SessionAt(1), SessionAt(2), SessionAt(3), SessionAt(4), SessionAt(5), SessionAt(6), SessionAt(7)]
    }

    ghost function State(): Tunn
      reads this, handshake, Footprint()
    {
      Tunn(handshake.State(), SessionStates(), current, packetQueue, timers, txBytes, rxBytes)
    }

    /** Every session is sound and owns what it owns alone. */
    ghost predicate Sound()
      reads this`sessions, Footprint()
      ensures Sound() ==> |sessions| == N_SESSIONS
    {
      && |sessions| == N_SESSIONS
      && (forall i: nat :: i < N_SESSIONS ==> SlotSound(i))
      && (forall i: nat, j: nat :: i < j < N_SESSIONS ==> Parts(i) !! Parts(j))
    }

    ghost predicate Valid()
      reads this, Footprint()
    {
      Sound() && {this, handshake} !! Footprint() && |timers.sessionTimers| == N_SESSIONS
    }

    lemma SlotIsOwned(k: nat)
      requires Sound() && k < N_SESSIONS && sessions[k] != null
      ensures sessions[k].Repr() <= Footprint() && sessions[k].Valid()
      ensures SessionStates()[k] == Some(sessions[k].State())
    {
      assert Parts(k) <= Footprint() && SlotSound(k);
    }

    lemma SlotIsEmpty(k: nat)
      requires |sessions| == N_SESSIONS && k < N_SESSIONS && sessions[k] == null
      ensures SessionStates()[k] == None
    {
    }

    /** Whatever happens to the objects of one slot concerns that slot only. */
    twostate lemma OneSlotChanged(k: nat)
      requires old(Sound()) && k < N_SESSIONS && sessions == old(sessions) && sessions[k] != null
      requires old(allocated(sessions[k])) && sessions[k].Valid()
      requires unchanged(old(Footprint()) - sessions[k].Repr())
      ensures Sound() && SessionStates() == old(SessionStates())[k := Some(sessions[k].State())]
    {
      forall i: nat | i < N_SESSIONS && i != k
        ensures SessionAt(i) == old(SessionAt(i)) && SlotSound(i)
      {
        assert Parts(i) == old(Parts(i)) && Parts(k) == old(Parts(k)) && old(SlotSound(i));
        assert old(Parts(i)) !! old(Parts(k));
        assert old(Parts(i)) <= old(Footprint());
      }
    }

    twostate lemma SomeDropped()
      requires old(Sound()) && |sessions| == N_SESSIONS && unchanged(old(Footprint()))
      requires forall i: nat :: i < N_SESSIONS ==> sessions[i] == null || sessions[i] == old(sessions)[i]
      ensures Sound() && Footprint() <= old(Footprint())
      ensures forall i: nat :: i < N_SESSIONS ==>
                SessionStates()[i] == if sessions[i] == null then None else old(SessionStates()[i])
    {
      forall i: nat | i < N_SESSIONS
        ensures Parts(i) <= old(Parts(i)) && SlotSound(i)
        ensures SessionAt(i) == if sessions[i] == null then None else old(SessionAt(i))
      {
        assert old(Parts(i)) <= old(Footprint()) && old(SlotSound(i));
      }
    }

    /** A slot is given to a session that shares nothing with the others. */
    twostate lemma OneSlotStored(k: nat)
      requires old(Sound()) && k < N_SESSIONS && unchanged(old(Footprint()))
      requires |sessions| == N_SESSIONS && sessions == old(sessions)[k := sessions[k]]
      requires sessions[k] != null && sessions[k].Valid()
      requires sessions[k].Repr() !! old(Footprint())
      ensures Sound() && Footprint() <= old(Footprint()) + sessions[k].Repr()
      ensures SessionStates() == old(SessionStates())[k := Some(sessions[k].State())]
    {
      assert Parts(k) == sessions[k].Repr();
      forall i: nat | i < N_SESSIONS && i != k
        ensures Parts(i) == old(Parts(i)) && SessionAt(i) == old(SessionAt(i)) && SlotSound(i)
        ensures Parts(i) !! Parts(k)
      {
        assert old(Parts(i)) <= old(Footprint()) && old(SlotSound(i));
      }
    }

    constructor (params: Params, index: nat, persistentKeepalive: nat)
      ensures State() == NewTunn(params, index, persistentKeepalive) && Valid()
      ensures fresh(handshake) && fresh(Footprint())
    {
      handshake := new HandshakeObject(params, index * 256);
      sessions := seq(N_SESSIONS, _ => null);
      current := 0;
      packetQueue := [];
      timers := Timers(false, AllAt(0), seq(N_SESSIONS, _ => 0), false, false, persistentKeepalive);
      txBytes, rxBytes := 0, 0;
      new;
      assert SessionStates() == NoSessions();
    }

    method TimerTick(name: TimerName)
      requires Valid()
      modifies this`timers
      ensures Valid() && State() == old(State()).Tick(name)
    {
      hide Sound, SessionStates, Footprint;
      assert allocated(Footprint());
      if name == TimeLastPacketReceived {
        timers := timers.(wantKeepalive := true, wantHandshake := false);
      } else if name == TimeLastPacketSent {
        timers := timers.(wantHandshake := true, wantKeepalive := false);
      }
      timers := timers.(times := timers.times.Set(name, timers.times.current));
    }

    method TimerTickSessionEstablished(initiator: bool, sessionIdx: nat)
      requires Valid()
      modifies this`timers
      ensures Valid()
      ensures State() == old(State()).(timers := old(timers).TickSessionEstablished(initiator, sessionIdx))
    {
      hide Sound, SessionStates, Footprint;
      assert allocated(Footprint());
      TimerTick(TimeSessionEstablished);
      timers := timers.(sessionTimers := timers.sessionTimers[sessionIdx % N_SESSIONS := timers.times.current]);
      timers := timers.(isInitiator := initiator);
    }

    method ClearAll(now: nat)
      requires Valid()
      modifies this
      ensures State() == old(State()).ClearAll(now) && Valid() && Footprint() == {}
    {
      hide Sound, SessionStates, Footprint;
      assert allocated(Footprint());
      ClearSessions();
      packetQueue := [];
      timers := timers.Clear(now);
    }

    method ClearSessions()
      requires |sessions| == N_SESSIONS
      modifies this`sessions
      ensures Sound() && SessionStates() == NoSessions() && Footprint() == {}
    {
      for i := 0 to N_SESSIONS
        invariant |sessions| == N_SESSIONS && forall j :: 0 <= j < i ==> sessions[j] == null
      {
        sessions := sessions[i := null];
      }
    }

    /** The rejection loop over the slots. */
    method UpdateSessions(now: nat)
      requires Valid() && ClockSafe(State(), now)
      modifies this`sessions, this`timers
      ensures Valid() && Footprint() <= old(Footprint())
      ensures State() == UpdateSessionTimers(old(State()), now)
    {
      hide Sound, SessionStates, Footprint;
      assert allocated(Footprint());
      for i := 0 to N_SESSIONS
        invariant |sessions| == |timers.sessionTimers| == N_SESSIONS
        invariant timers == old(timers).(sessionTimers := timers.sessionTimers)
        invariant forall j :: i <= j < N_SESSIONS ==>
                    sessions[j] == old(sessions)[j] && timers.sessionTimers[j] == old(timers).sessionTimers[j]
        invariant forall j :: 0 <= j < i ==>
                    var tooOld := now - old(timers).sessionTimers[j] > REJECT_AFTER_TIME;
                    && sessions[j] == (if tooOld then null else old(sessions)[j])
                    && timers.sessionTimers[j] == if tooOld then now else old(timers).sessionTimers[j]
      {
        if now - timers.sessionTimers[i] > REJECT_AFTER_TIME {
          sessions := sessions[i := null];
          timers := timers.(sessionTimers := timers.sessionTimers[i := now]);
        }
      }
      SomeDropped();
      assert SessionStates() == UpdateSessionTimers(old(State()), now).sessions;
    }

    method FormatHandshakeInitiation(c: Primitives, env: Env, forceResend: bool) returns (r: TunnResult)
      requires Valid()
      modifies this`timers, handshake
      ensures Valid() && (State(), r) == SendInitiation(c, old(State()), env, forceResend)
    {
      hide Sound, SessionStates, Footprint, FormatInitiation;
      assert allocated(Footprint());
      if handshake.InProgress() && !forceResend {
        return Done;
      }
      if handshake.state.Expired? {
        timers := timers.Clear(env.cleared);
      }
      var starting := !handshake.InProgress();
      var sent := handshake.SendInitiation(c, env.cap, env.ephemeral, env.timestamp, env.sent);
      if sent.Failure? {
        return Err(sent.error);
      }
      if starting {
        TimerTick(TimeLastHandshakeStarted);
      }
      TimerTick(TimeLastPacketSent);
      r := WriteToNetwork(sent.value);
    }

    method Encapsulate(c: Primitives, src: Bytes, env: Env) returns (r: TunnResult)
      requires Valid() && env.cap >= |src| + DATA_OVERHEAD_SZ
      modifies this`packetQueue, this`timers, this`txBytes, handshake, Footprint()
      ensures Valid()
      ensures (State(), r) == Tunnels.Encapsulate(c, old(State()), src, env)
    {
      hide Sound, SessionStates, Footprint, FormatPacketData, SendInitiation;
      assert allocated(Footprint());
      var slot := current % N_SESSIONS;
      if sessions[slot] != null {
        SlotIsOwned(slot);
        var datagram := sessions[slot].Format(c, src);
        OneSlotChanged(slot);
        TimerTick(TimeLastPacketSent);
        if src != [] {
          TimerTick(TimeLastDataPacketSent);
        }
        txBytes := txBytes + |src|;
        return WriteToNetwork(datagram);
      }
      SlotIsEmpty(slot);
      if |packetQueue| < MAX_QUEUE_DEPTH {
        packetQueue := packetQueue + [src];
      }
      r := FormatHandshakeInitiation(c, env, false);
    }

    method SendQueuedPacket(c: Primitives, env: Env) returns (r: TunnResult)
      requires Valid() && (packetQueue != [] ==> env.cap >= |packetQueue[0]| + DATA_OVERHEAD_SZ)
      modifies this`packetQueue, this`timers, this`txBytes, handshake, Footprint()
      ensures Valid()
      ensures (State(), r) == SendQueued(c, old(State()), env)
    {
      hide Sound, SessionStates, Footprint, Tunnels.Encapsulate;
      assert allocated(Footprint());
      if packetQueue == [] {
        return Done;
      }
      var packet := packetQueue[0];
      packetQueue := packetQueue[1..];
      r := Encapsulate(c, packet, env);
      if r.Err? {
        if |packetQueue| < MAX_QUEUE_DEPTH {
          packetQueue := [packet] + packetQueue;
        }
        r := Done;
      }
    }

    /** The handlers' loop after a packet: repeat the empty call while it writes something. With a
        session in the current slot that writes the queued packets, without one it does not. */
    method FlushQueue(c: Primitives, envs: seq<Env>) returns (written: seq<Bytes>, calls: nat)
      requires Valid() && |packetQueue| <= MAX_QUEUE_DEPTH && RoomForQueue(packetQueue, envs)
      requires |envs| > |packetQueue| + 1
      modifies this`packetQueue, this`timers, this`txBytes, handshake, Footprint()
      ensures Valid() && calls == |written| + 1
      ensures Flush(c, old(State()), envs) == Flushed(State(), written, true)
      ensures old(State()).CurrentSession().Some? ==>
                var s := old(State()).CurrentSession().value;
                packetQueue == [] && written == FormatAll(c, s, old(packetQueue)).1
      ensures old(State()).CurrentSession().None? ==>
                && multiset(packetQueue) == old(multiset(packetQueue))
                && |written| == if packetQueue == [] || old(handshake.InProgress()) then 0 else 1
    {
      hide Sound, SessionStates, Footprint, SendQueued, Flush, FormatAll, RoomForQueue;
      assert allocated(Footprint());
      written, calls := [], 0;
      ghost var start := State();
      ghost var all := Flush(c, start, envs);
      if start.CurrentSession().Some? {
        FlushWithSession(c, start, envs);
      } else {
        FlushWithoutSession(c, start, envs);
      }
      while true
        invariant calls <= |envs| && Valid() && |packetQueue| <= MAX_QUEUE_DEPTH && calls == |written|
        invariant Footprint() == old(Footprint())
        invariant RoomForQueue(packetQueue, envs[calls..])
        invariant var rest := Flush(c, State(), envs[calls..]);
                  all == Flushed(rest.t, written + rest.written, rest.finished)
        decreases |envs| - calls
      {
        ghost var before, left := State(), envs[calls..];
        if left == [] {
          FlushOfNone(c, before);
        }
        FlushStep(c, before, left);
        var r := SendQueuedPacket(c, envs[calls]);
        assert left[0] == envs[calls] && left[1..] == envs[calls + 1..];
        calls := calls + 1;
        if !r.WriteToNetwork? {
          return;
        }
        written := written + [r.datagram];
      }
    }

    method SetCurrentSession(newIdx: nat)
      requires Valid()
      modifies this`current
      ensures Valid() && State() == Tunnels.SetCurrentSession(old(State()), newIdx)
    {
      hide Sound, SessionStates, Footprint;
      assert allocated(Footprint());
      if current == newIdx {
        return;
      }
      if sessions[current % N_SESSIONS] == null
         || timers.sessionTimers[newIdx % N_SESSIONS] >= timers.sessionTimers[current % N_SESSIONS]
      {
        current := newIdx;
      }
    }

    /** A session goes into the slot of its index, in place of the one that was there. */
    method StoreSession(session: Session)
      requires Valid() && session.Valid() && session.Repr() !! Footprint()
      modifies this`sessions
      ensures Valid() && Footprint() <= old(Footprint()) + session.Repr()
      ensures session.State() == old(session.State())
      ensures SessionStates() ==
              old(SessionStates())[session.receivingIndex % N_SESSIONS := Some(session.State())]
    {
      hide Sound, SessionStates, Footprint;
      assert allocated(Footprint());
      var slot := session.receivingIndex % N_SESSIONS;
      sessions := sessions[slot := session];
      OneSlotStored(slot);
    }

    method HandleHandshakeInit(c: Primitives, p: Packet, env: Env) returns (r: TunnResult)
      requires Valid() && p.HandshakeInit?
      modifies this`sessions, this`timers, handshake
      ensures Valid() && fresh(Footprint() - old(Footprint()))
      ensures (State(), r) == HandleInit(c, old(State()), p, env)
    {
      hide Sound, SessionStates, Footprint, ReceiveInitiation;
      assert allocated(Footprint());
      var answer, session := handshake.AcceptInitiation(c, p, env.cap, env.ephemeral);
      assert Valid() && State() == old(State()).(handshake := handshake.State());
      if answer.Failure? {
        return Err(answer.error);
      }
      var index := session.receivingIndex;
      StoreSession(session);
      TimerTick(TimeLastPacketReceived);
      TimerTick(TimeLastPacketSent);
      TimerTickSessionEstablished(false, index);
      r := WriteToNetwork(answer.value);
    }

    method HandleHandshakeResponse(c: Primitives, p: Packet, env: Env) returns (r: TunnResult)
      requires Valid() && p.HandshakeResponse? && env.cap >= DATA_OVERHEAD_SZ
      modifies this`sessions, this`timers, this`current, handshake
      ensures Valid() && fresh(Footprint() - old(Footprint()))
      ensures (State(), r) == HandleResponse(c, old(State()), p, env)
    {
      hide Sound, SessionStates, Footprint, ReceiveResponse, FormatPacketData, Tunnels.SetCurrentSession;
      assert allocated(Footprint());
      var established, session := handshake.AcceptResponse(c, p, env.now);
      assert Valid() && State() == old(State()).(handshake := handshake.State());
      if established.Failure? {
        return Err(established.error);
      }
      var keepalive := session.Format(c, []);
      var index := session.receivingIndex;
      StoreSession(session);
      TimerTick(TimeLastPacketReceived);
      TimerTickSessionEstablished(true, index);
      SetCurrentSession(index);
      r := WriteToNetwork(keepalive);
    }

    method HandleCookie(c: Primitives, p: Packet) returns (r: TunnResult)
      requires Valid() && p.PacketCookieReply?
      modifies this`timers, handshake
      ensures Valid() && (State(), r) == HandleCookieReply(c, old(State()), p)
    {
      hide Sound, SessionStates, Footprint, ReceiveCookieReply;
      assert allocated(Footprint());
      var accepted := handshake.AcceptCookieReply(c, p);
      if accepted.Failure? {
        return Err(accepted.error);
      }
      TimerTick(TimeLastPacketReceived);
      TimerTick(TimeCookieReceived);
      r := Done;
    }

    method HandlePacketData(c: Primitives, p: Packet, env: Env) returns (r: TunnResult)
      requires Valid() && p.PacketData? && env.cap >= |p.encapsulated| && p.counter + N_BITS < U64_LIMIT
      modifies this`current, this`timers, this`rxBytes, Footprint()
      ensures Valid() && (State(), r) == HandleData(c, old(State()), p, env)
    {
      hide Sound, SessionStates, Footprint, ReceivePacketData, Tunnels.SetCurrentSession;
      assert allocated(Footprint());
      var idx := p.receiverIdx % N_SESSIONS;
      if sessions[idx] == null {
        SlotIsEmpty(idx);
        return Err(NoCurrentSession);
      }
      SlotIsOwned(idx);
      var plain := sessions[idx].Receive(c, p);
      OneSlotChanged(idx);
      if plain.Failure? {
        return Err(plain.error);
      }
      SetCurrentSession(p.receiverIdx);
      TimerTick(TimeLastPacketReceived);
      r := ValidateDecapsulatedPacket(plain.value);
    }

    method ValidateDecapsulatedPacket(packet: Bytes) returns (r: TunnResult)
      requires Valid()
      modifies this`timers, this`rxBytes
      ensures Valid() && (State(), r) == ValidateDecapsulated(old(State()), packet)
    {
      hide Sound, SessionStates, Footprint;
      assert allocated(Footprint());
      if packet == [] {
        return Done;
      }
      var header := IpHeader(packet);
      if header.None? || header.value.0 > |packet| {
        return Err(InvalidPacket);
      }
      var (length, source) := header.value;
      TimerTick(TimeLastDataPacketReceived);
      rxBytes := rxBytes + length;
      r := if |source| == 4 then WriteToTunnelV4(packet[..length], source)
           else WriteToTunnelV6(packet[..length], source);
    }

    /** `handle_verified_packet`. */
    method HandleVerifiedPacket(c: Primitives, p: Packet, env: Env) returns (r: TunnResult)
      requires Valid() && env.cap >= DATA_OVERHEAD_SZ
      requires p.PacketData? ==> env.cap >= |p.encapsulated| && p.counter + N_BITS < U64_LIMIT
      modifies this, handshake, Footprint()
      ensures Valid() && fresh(Footprint() - old(Footprint()))
      ensures (State(), r) == HandleVerified(c, old(State()), p, env)
    {
      hide Sound, SessionStates, Footprint, HandleInit, HandleResponse, HandleCookieReply, HandleData;
      assert allocated(Footprint());
      match p {
        case HandshakeInit(_, _, _, _) => r := HandleHandshakeInit(c, p, env);
        case HandshakeResponse(_, _, _, _) => r := HandleHandshakeResponse(c, p, env);
        case PacketCookieReply(_, _, _) => r := HandleCookie(c, p);
        case PacketData(_, _, _) => r := HandlePacketData(c, p, env);
      }
    }

    method Expire(env: Env) returns (r: TunnResult)
      requires Valid()
      modifies this, handshake
      ensures Valid() && Footprint() == {} && (State(), r) == ExpireConnection(old(State()), env)
    {
      hide Sound, SessionStates, Footprint;
      assert allocated(Footprint());
      handshake.SetExpired();
      ClearAll(env.cleared);
      r := Err(ConnectionExpired);
    }

    lemma AdvanceIsSafe(t: Tunn, now: nat)
      requires t.WellFormed() && ClockSafe(t, now)
      ensures ClockSafe(AdvanceTo(t, now), now)
    {
    }

    method UpdateTimers(c: Primitives, env: Env) returns (r: TunnResult)
      requires Valid() && ClockSafe(State(), env.now) && env.Monotone() && env.cap >= DATA_OVERHEAD_SZ
      modifies this, handshake, Footprint()
      ensures Valid() && Footprint() <= old(Footprint())
      ensures (State(), r) == Tunnels.UpdateTimers(c, old(State()), env)
    {
      hide Sound, SessionStates, Footprint, UpdateLiveTimers, UpdateSessionTimers;
      assert allocated(Footprint());
      timers := timers.(times := timers.times.(current := env.now));
      UpdateSessions(env.now);
      AdvanceIsSafe(old(State()), env.now);
      if handshake.state.Expired? {
        return Err(ConnectionExpired);
      }
      if handshake.cookies.writeCookie.Some? && env.now - timers.times.cookieReceived >= COOKIE_EXPIRATION_TIME {
        handshake.ClearCookie();
      }
      r := UpdateLive(c, env);
    }

    method UpdateLive(c: Primitives, env: Env) returns (r: TunnResult)
      requires Valid() && ClockSafe(State(), env.now) && env.Monotone() && env.cap >= DATA_OVERHEAD_SZ
      modifies this, handshake, Footprint()
      ensures Valid() && Footprint() <= old(Footprint())
      ensures (State(), r) == UpdateLiveTimers(c, old(State()), env)
    {
      hide Sound, SessionStates, Footprint;
      assert allocated(Footprint());
      if env.now - timers.times.sessionEstablished >= REJECT_AFTER_TIME * 3 {
        r := Expire(env);
      } else if handshake.state.InitSent? {
        if env.now - timers.times.handshakeStarted >= REKEY_ATTEMPT_TIME {
          r := Expire(env);
        } else if env.probe - handshake.state.timeSent >= REKEY_TIMEOUT {
          r := FormatHandshakeInitiation(c, env, true);
        } else {
          r := Done;
        }
      } else {
        var handshakeRequired := HandshakeRequired(env.now);
        if handshakeRequired {
          r := FormatHandshakeInitiation(c, env, true);
        } else {
          r := KeepAlive(c, env);
        }
      }
    }

    method HandshakeRequired(now: nat) returns (required: bool)
      requires Valid() && timers.times.AtMost(now)
      modifies this`timers
      ensures Valid() && (State(), required) == HandshakeDue(old(State()), now)
    {
      hide Sound, SessionStates, Footprint;
      assert allocated(Footprint());
      var times := timers.times;
      required := false;
      if timers.isInitiator {
        if times.sessionEstablished < times.dataSent && now - times.sessionEstablished >= REKEY_AFTER_TIME {
          required := true;
        }
        if times.sessionEstablished < times.dataReceived
           && now - times.sessionEstablished >= REJECT_AFTER_TIME - KEEPALIVE_TIMEOUT - REKEY_TIMEOUT
        {
          required := true;
        }
      }
      if times.dataSent > times.packetReceived && now - times.packetReceived >= KEEPALIVE_TIMEOUT + REKEY_TIMEOUT {
        if timers.wantHandshake {
          required := true;
        }
        timers := timers.(wantHandshake := false);
      }
    }

    method KeepaliveRequired(now: nat) returns (required: bool)
      requires Valid() && timers.times.AtMost(now)
      modifies this`timers
      ensures Valid() && (State(), required) == KeepaliveDue(old(State()), now)
    {
      hide Sound, SessionStates, Footprint;
      assert allocated(Footprint());
      var times := timers.times;
      required := false;
      if times.dataReceived > times.packetSent && now - times.packetSent >= KEEPALIVE_TIMEOUT {
        if timers.wantKeepalive {
          required := true;
        }
        timers := timers.(wantKeepalive := false);
      }
      if timers.persistentKeepalive > 0
         && now - times.persistentKeepalive >= timers.persistentKeepalive * SECOND
      {
        TimerTick(TimePersistentKeepalive);
        required := true;
      }
    }

    method KeepAlive(c: Primitives, env: Env) returns (r: TunnResult)
      requires Valid() && ClockSafe(State(), env.now) && env.cap >= DATA_OVERHEAD_SZ
      modifies this`packetQueue, this`timers, this`txBytes, handshake, Footprint()
      ensures Valid() && (State(), r) == SendKeepalives(c, old(State()), env)
    {
      hide Sound, SessionStates, Footprint, Tunnels.Encapsulate, KeepaliveDue;
      assert allocated(Footprint());
      var required := KeepaliveRequired(env.now);
      if required {
        r := Encapsulate(c, [], env);
      } else {
        r := Done;
      }
    }

    method SetStaticPrivate(c: Primitives, staticPrivate: Bytes)
      requires Valid()
      modifies this`sessions, handshake
      ensures Valid() && Footprint() == {} && State() == Tunnels.SetStaticPrivate(c, old(State()), staticPrivate)
    {
      hide Sound, SessionStates, Footprint;
      assert allocated(Footprint());
      var p := handshake.params;
      handshake.params := p.(staticPrivate := staticPrivate, staticPublic := c.publicKey(staticPrivate),
                             staticShared := c.dh(staticPrivate, p.peerStaticPublic));
      ClearSessions();
    }

    /** The loop over the ring computes the weighted mean of the occupied slots. */
    method EstimateLoss() returns (loss: real)
      requires Valid() && current < U64_LIMIT
      ensures loss == Estimate(State().sessions, current)
    {
      hide Sound, SessionStates, Footprint, Losses, WeightedSum, TotalWeight, WeightAt, Discounted;
      assert allocated(Footprint());
      var weight, curAvg, totalWeight := 9.0, 0.0, 0.0;
      ghost var slots := VisitedSlots(SessionStates(), current);
      ghost var done: seq<real> := [];
      NothingLost();
      for i := 0 to N_SESSIONS
        invariant Sound() && SessionStates() == old(SessionStates())
        invariant done == Losses(slots[..i])
        invariant weight == WeightAt(|done|) && curAvg == WeightedSum(done) && totalWeight == TotalWeight(|done|)
      {
        var slot := VisitedSlot(current, i);
        var session := sessions[slot];
        LossesGrow(slots, i);
        if session == null {
          SlotIsEmpty(slot);
        } else {
          SlotIsOwned(slot);
          var (expected, received) := session.CurrentPacketCnt();
          var l := if expected == 0 then 0.0 else 1.0 - received as real / expected as real;
          SumGrows(done, l);
          DiscountedIsWeighted(l, |done|);
          curAvg := curAvg + l * weight;
          done := done + [l];
          totalWeight := totalWeight + weight;
          weight := weight / 3.0;
        }
      }
      assert slots[..N_SESSIONS] == slots;
      loss := if totalWeight == 0.0 then 0.0 else curAvg / totalWeight;
    }
  }
}
