/**
 The handshake of one tunnel: initiation, response and cookie reply, with the initiation in
 flight and the one before it (sections 5.4.1 to 5.4.7 of the WireGuard whitepaper).
 The state is a value here; `HandshakeObject` holds the same state in the object whose
 methods replace it.
 */
module Handshakes {
  import opened Wrappers
  import opened ByteStrings
  import opened Crypto
  import opened Wire
  import opened Words
  import opened Sessions

  const LABEL_MAC1: Bytes := [109, 97, 99, 49, 45, 45, 45, 45]
  const LABEL_COOKIE: Bytes := [99, 111, 111, 107, 105, 101, 45, 45]

  const INITIAL_CHAIN_KEY: Bytes := [
    96, 226, 109, 174, 243, 39, 239, 192, 46, 195, 53, 226, 160, 37, 210, 208, 22, 235, 66, 6, 248,
    114, 119, 245, 45, 56, 209, 152, 139, 120, 205, 54]

  const INITIAL_CHAIN_HASH: Bytes := [
    34, 17, 179, 97, 8, 26, 197, 102, 105, 18, 67, 219, 69, 138, 213, 50, 45, 156, 108, 102, 34,
    147, 232, 183, 14, 225, 156, 101, 186, 7, 158, 243]

  const NANOS_PER_MILLI: nat := 1_000_000
  const SECOND: nat := 1_000_000_000

  // ---------------------------------------------------------------- key derivation

  /** temp = HMAC(chaining_key, input); chaining_key = HMAC(temp, 0x1). */
  function MixKey(c: Primitives, chainingKey: Bytes, input: Bytes): Bytes {
    c.hmac(c.hmac(chainingKey, input), [1])
  }

  /** As MixKey, with key = HMAC(temp, chaining_key || 0x2). */
  function MixKey2(c: Primitives, chainingKey: Bytes, input: Bytes): (Bytes, Bytes) {
    var temp := c.hmac(chainingKey, input);
    var next := c.hmac(temp, [1]);
    (next, c.Hmac2(temp, next, [2]))
  }

  /** As MixKey2, with a third output key = HMAC(temp, temp2 || 0x3). */
  function MixKey3(c: Primitives, chainingKey: Bytes, input: Bytes): (Bytes, Bytes, Bytes) {
    var temp := c.hmac(chainingKey, input);
    var next := c.hmac(temp, [1]);
    var temp2 := c.Hmac2(temp, next, [2]);
    (next, temp2, c.Hmac2(temp, temp2, [3]))
  }

  /** The final split into the initiator's sending and receiving keys. */
  function TransportKeys(c: Primitives, chainingKey: Bytes): (Bytes, Bytes) {
    var temp1 := c.hmac(chainingKey, []);
    var temp2 := c.hmac(temp1, [1]);
    (temp2, c.Hmac2(temp1, temp2, [2]))
  }

  /** Hash, chaining key and the key sealing the static key, after the first message's ephemeral. */
  function OpenInitiation(c: Primitives, responderPublic: Bytes, ephemeral: Bytes, shared: Bytes)
    : (Bytes, Bytes, Bytes)
  {
    var hash := c.Hash(c.Hash(INITIAL_CHAIN_HASH, responderPublic), ephemeral);
    var (chainingKey, key) := MixKey2(c, MixKey(c, INITIAL_CHAIN_KEY, ephemeral), shared);
    (hash, chainingKey, key)
  }

  /** Hash, chaining key and the key sealing the empty payload, after the second message's
      ephemeral, both ephemeral exchanges and the preshared key. */
  function CloseResponse(c: Primitives, hash: Bytes, chainingKey: Bytes, ephemeral: Bytes,
                         ephemeralShared: Bytes, staticShared: Bytes, psk: Option<Bytes>)
    : (Bytes, Bytes, Bytes)
  {
    var ck1 := MixKey(c, chainingKey, ephemeral);
    var ck2 := MixKey(c, ck1, ephemeralShared);
    var ck3 := MixKey(c, ck2, staticShared);
    var (ck4, temp2, key) := MixKey3(c, ck3, PresharedOrZeros(psk));
    (c.Hash(c.Hash(hash, ephemeral), temp2), ck4, key)
  }

  function PresharedOrZeros(psk: Option<Bytes>): Bytes {
    match psk case Some(k) => k case None => Zeros(32)
  }

  // ---------------------------------------------------------------- state

  datatype Tai64N = Tai64N(secs: nat, nano: nat) {
    predicate After(other: Tai64N) {
      secs > other.secs || (secs == other.secs && nano > other.nano)
    }
  }

  function ParseTai64N(b: Bytes): Tai64N
    requires |b| == 12
  {
    Tai64N(FromBigEndian(b[..8]), FromBigEndian(b[8..]))
  }

  datatype Params = Params(
    staticPublic: Bytes,
    staticPrivate: Bytes,
    peerStaticPublic: Bytes,
    staticShared: Bytes,
    sendingMac1Key: Bytes,
    presharedKey: Option<Bytes>)

  function NewParams(c: Primitives, staticPrivate: Bytes, staticPublic: Bytes, peerStaticPublic: Bytes,
                     presharedKey: Option<Bytes>): Params
  {
    Params(staticPublic, staticPrivate, peerStaticPublic, c.dh(staticPrivate, peerStaticPublic),
           c.Hash(LABEL_MAC1, peerStaticPublic), presharedKey)
  }

  datatype HandshakeState =
    | NoHandshake
    | InitSent(localIndex: nat, hash: Bytes, chainingKey: Bytes, ephemeralPrivate: Bytes, timeSent: nat)
    | InitReceived(hash: Bytes, chainingKey: Bytes, peerEphemeral: Bytes, peerIndex: nat)
    | Expired

  datatype Cookies = Cookies(lastMac1: Option<Bytes>, index: nat, writeCookie: Option<Bytes>)

  datatype Handshake = Handshake(
    params: Params,
    nextIndex: nat,
    previous: HandshakeState,
    state: HandshakeState,
    cookies: Cookies,
    lastTimestamp: Tai64N,
    lastRtt: Option<nat>)
  {
    predicate InProgress() {
      !state.NoHandshake? && !state.Expired?
    }

    function SetExpired(): Handshake {
      this.(previous := Expired, state := Expired)
    }

    function ClearCookie(): Handshake {
      this.(cookies := cookies.(writeCookie := None))
    }
  }

  function NewHandshake(params: Params, globalIdx: nat): Handshake {
    Handshake(params, globalIdx, NoHandshake, NoHandshake, Cookies(None, 0, None), Tai64N(0, 0), None)
  }

  /** The next index: the low byte steps cyclically, the 24 bits above it stay. */
  function IncIndex(index: nat): nat {
    index / 256 * 256 + (index % 256 + 1) % 256
  }

  /** Append mac1 and mac2 to a handshake message, and remember what a cookie reply must match. */
  function AppendMacs(c: Primitives, h: Handshake, localIndex: nat, msg: Bytes): (Handshake, Bytes) {
    var mac1 := c.mac16(h.params.sendingMac1Key, msg);
    var mac2 := match h.cookies.writeCookie
      case Some(cookie) => c.mac16(cookie, msg + mac1)
      case None => Zeros(16);
    (h.(cookies := h.cookies.(index := localIndex, lastMac1 := Some(mac1))), msg + mac1 + mac2)
  }

  // ---------------------------------------------------------------- the messages

  function InitiationMessage(c: Primitives, p: Params, localIndex: nat, ephemeralPrivate: Bytes,
                             timestamp: Bytes, now: nat): (Packet, HandshakeState)
  {
    var ephemeral := c.publicKey(ephemeralPrivate);
    var (hash, chainingKey, key) :=
      OpenInitiation(c, p.peerStaticPublic, ephemeral, c.dh(ephemeralPrivate, p.peerStaticPublic));
    var encryptedStatic := c.Seal(key, 0, p.staticPublic, hash);
    var hash1 := c.Hash(hash, encryptedStatic);
    var (chainingKey1, key1) := MixKey2(c, chainingKey, p.staticShared);
    var encryptedTimestamp := c.Seal(key1, 0, timestamp, hash1);
    (HandshakeInit(localIndex, ephemeral, encryptedStatic, encryptedTimestamp),
     InitSent(localIndex, c.Hash(hash1, encryptedTimestamp), chainingKey1, ephemeralPrivate, now))
  }

  /** `cap` is the length of the output buffer. */
  function FormatInitiation(c: Primitives, h: Handshake, cap: nat, ephemeralPrivate: Bytes,
                            timestamp: Bytes, now: nat): (Handshake, Result<Bytes, WireGuardError>)
  {
    if cap < HANDSHAKE_INIT_SZ then (h, Failure(DestinationBufferTooSmall))
    else
      var localIndex := IncIndex(h.nextIndex);
      var (packet, sent) := InitiationMessage(c, h.params, localIndex, ephemeralPrivate, timestamp, now);
      var h1 := h.(nextIndex := localIndex, previous := h.state, state := sent);
      var (h2, datagram) := AppendMacs(c, h1, localIndex, packet.Encode());
      (h2, Success(datagram))
  }

  datatype HalfHandshake = HalfHandshake(peerIndex: nat, peerStaticPublic: Bytes)

  /** Who sent this initiation, without knowing the peer yet. */
  function ParseHandshakeAnon(c: Primitives, staticPrivate: Bytes, staticPublic: Bytes, packet: Packet)
    : Result<HalfHandshake, WireGuardError>
    requires packet.HandshakeInit?
  {
    var (hash, _, key) :=
      OpenInitiation(c, staticPublic, packet.ephemeral, c.dh(staticPrivate, packet.ephemeral));
    match c.Open(key, 0, packet.encryptedStatic, hash)
    case None => Failure(InvalidAeadTag)
    case Some(peer) => Success(HalfHandshake(packet.senderIdx, peer))
  }

  /** The checks an incoming initiation must pass, and what it leaves to answer. */
  function CheckInitiation(c: Primitives, h: Handshake, packet: Packet)
    : Result<(Tai64N, HandshakeState), WireGuardError>
    requires packet.HandshakeInit?
  {
    var p := h.params;
    var (hash, chainingKey, key) :=
      OpenInitiation(c, p.staticPublic, packet.ephemeral, c.dh(p.staticPrivate, packet.ephemeral));
    match c.Open(key, 0, packet.encryptedStatic, hash)
    case None => Failure(InvalidAeadTag)
    case Some(peer) =>
      if peer != p.peerStaticPublic then Failure(WrongKey)
      else
        var hash1 := c.Hash(hash, packet.encryptedStatic);
        var (chainingKey1, key1) := MixKey2(c, chainingKey, p.staticShared);
        match c.Open(key1, 0, packet.encryptedTimestamp, hash1)
        case None => Failure(InvalidAeadTag)
        case Some(stamp) =>
          if |stamp| != 12 then Failure(InvalidAeadTag)
          else
            var timestamp := ParseTai64N(stamp);
            if !timestamp.After(h.lastTimestamp) then Failure(WrongTai64nTimestamp)
            else
              Success((timestamp, InitReceived(c.Hash(hash1, packet.encryptedTimestamp), chainingKey1,
                                               packet.ephemeral, packet.senderIdx)))
  }

  function ResponseMessage(c: Primitives, p: Params, received: HandshakeState, localIndex: nat,
                           ephemeralPrivate: Bytes): (Packet, SessionState)
    requires received.InitReceived?
  {
    var ephemeral := c.publicKey(ephemeralPrivate);
    var (hash, chainingKey, key) :=
      CloseResponse(c, received.hash, received.chainingKey, ephemeral,
                    c.dh(ephemeralPrivate, received.peerEphemeral),
                    c.dh(ephemeralPrivate, p.peerStaticPublic), p.presharedKey);
    var (temp2, temp3) := TransportKeys(c, chainingKey);
    (HandshakeResponse(localIndex, received.peerIndex, ephemeral, c.Seal(key, 0, [], hash)),
     NewSession(localIndex, received.peerIndex, temp2, temp3))
  }

  function FormatResponse(c: Primitives, h: Handshake, cap: nat, ephemeralPrivate: Bytes)
    : (Handshake, Result<(Bytes, SessionState), WireGuardError>)
    requires h.state.InitReceived?
  {
    if cap < HANDSHAKE_RESP_SZ then (h, Failure(DestinationBufferTooSmall))
    else
      var localIndex := IncIndex(h.nextIndex);
      var (packet, session) := ResponseMessage(c, h.params, h.state, localIndex, ephemeralPrivate);
      var h1 := h.(nextIndex := localIndex, state := NoHandshake);
      var (h2, datagram) := AppendMacs(c, h1, localIndex, packet.Encode());
      (h2, Success((datagram, session)))
  }

  function ReceiveInitiation(c: Primitives, h: Handshake, packet: Packet, cap: nat, ephemeralPrivate: Bytes)
    : (Handshake, Result<(Bytes, SessionState), WireGuardError>)
    requires packet.HandshakeInit?
  {
    match CheckInitiation(c, h, packet)
    case Failure(e) => (h, Failure(e))
    case Success((timestamp, received)) =>
      FormatResponse(c, h.(lastTimestamp := timestamp, previous := h.state, state := received),
                     cap, ephemeralPrivate)
  }

  /** The initiation, of the two that may be in flight, that a response answers. */
  function AwaitedBy(h: Handshake, receiverIdx: nat): Option<HandshakeState> {
    if h.state.InitSent? && h.state.localIndex == receiverIdx then Some(h.state)
    else if h.previous.InitSent? && h.previous.localIndex == receiverIdx then Some(h.previous)
    else None
  }

  function Elapsed(since: nat, now: nat): nat {
    if now < since then 0 else now - since
  }

  function ReceiveResponse(c: Primitives, h: Handshake, packet: Packet, now: nat)
    : (Handshake, Result<SessionState, WireGuardError>)
    requires packet.HandshakeResponse?
  {
    match AwaitedBy(h, packet.receiverIdx)
    case None => (h, Failure(UnexpectedPacket))
    case Some(sent) =>
      var (hash, chainingKey, key) :=
        CloseResponse(c, sent.hash, sent.chainingKey, packet.ephemeral,
                      c.dh(sent.ephemeralPrivate, packet.ephemeral),
                      c.dh(h.params.staticPrivate, packet.ephemeral), h.params.presharedKey);
      if c.Open(key, 0, packet.encryptedNothing, hash).None? then (h, Failure(InvalidAeadTag))
      else
        var (temp2, temp3) := TransportKeys(c, chainingKey);
        var rtt := Elapsed(sent.timeSent, now) / NANOS_PER_MILLI % U32_LIMIT;
        var h1 := h.(lastRtt := Some(rtt));
        var h2 := if h.state.InitSent? && h.state.localIndex == packet.receiverIdx
                  then h1.(state := NoHandshake) else h1.(previous := NoHandshake);
        (h2, Success(NewSession(sent.localIndex, packet.senderIdx, temp3, temp2)))
  }

  function ReceiveCookieReply(c: Primitives, h: Handshake, packet: Packet): Result<Handshake, WireGuardError>
    requires packet.PacketCookieReply?
  {
    match h.cookies.lastMac1
    case None => Failure(UnexpectedPacket)
    case Some(mac1) =>
      if packet.receiverIdx != h.cookies.index then Failure(WrongIndex)
      else
        var key := c.Hash(LABEL_COOKIE, h.params.peerStaticPublic);
        match c.xaeadOpen(key, packet.nonce, packet.encryptedCookie, mac1)
        case None => Failure(InvalidAeadTag)
        case Some(cookie) =>
          if |cookie| != 16 then Failure(InvalidPacket)
          else Success(h.(cookies := h.cookies.(writeCookie := Some(cookie))))
  }

  // ---------------------------------------------------------------- agreement

  /** Key pairs that belong together, each side knowing the other's public key, and the same
      preshared key, if any, on both. */
  ghost predicate Paired(c: Primitives, a: Params, b: Params) {
    && a == NewParams(c, a.staticPrivate, c.publicKey(a.staticPrivate), b.staticPublic, b.presharedKey)
    && b == NewParams(c, b.staticPrivate, c.publicKey(b.staticPrivate), a.staticPublic, a.presharedKey)
  }

  lemma IncIndexKeepsWidth(i: nat)
    requires i < U32_LIMIT
    ensures IncIndex(i) < U32_LIMIT && IncIndex(i) / 256 == i / 256 && IncIndex(i) != i
  {
  }

  /** The responder accepts an honest, fresh initiation and derives the initiator's transcript. */
  lemma InitiationAccepted(c: Primitives, a: Params, b: Handshake, index: nat, ephemeral: Bytes,
                           stamp: Bytes, now: nat)
    requires c.Lawful() && Paired(c, a, b.params) && |stamp| == 12
    ensures var (packet, sent) := InitiationMessage(c, a, index, ephemeral, stamp, now);
            && ParseHandshakeAnon(c, b.params.staticPrivate, b.params.staticPublic, packet)
               == Success(HalfHandshake(index, a.staticPublic))
            && CheckInitiation(c, b, packet) ==
               if ParseTai64N(stamp).After(b.lastTimestamp) then
                 Success((ParseTai64N(stamp),
                          InitReceived(sent.hash, sent.chainingKey, c.publicKey(ephemeral), index)))
               else Failure(WrongTai64nTimestamp)
  {
    var p := b.params;
    assert c.dh(ephemeral, p.staticPublic) == c.dh(p.staticPrivate, c.publicKey(ephemeral));
    assert a.staticShared == p.staticShared;
  }

  /** A response formatted from the initiator's transcript opens, and the sessions cross. */
  lemma ResponseAgrees(c: Primitives, a: Handshake, b: Params, sent: HandshakeState, ephemeral: Bytes,
                       localIndex: nat, now: nat)
    requires c.Lawful() && Paired(c, a.params, b) && sent.InitSent?
    requires AwaitedBy(a, sent.localIndex) == Some(sent)
    ensures var received := InitReceived(sent.hash, sent.chainingKey, c.publicKey(sent.ephemeralPrivate),
                                         sent.localIndex);
            var (packet, session) := ResponseMessage(c, b, received, localIndex, ephemeral);
            var (_, r) := ReceiveResponse(c, a, packet, now);
            && r.Success?
            && Crossed(r.value, session)
            && r.value.receivingIndex == sent.localIndex && session.receivingIndex == localIndex
            && IsNew(r.value) && IsNew(session)
  {
    assert c.dh(ephemeral, c.publicKey(sent.ephemeralPrivate)) == c.dh(sent.ephemeralPrivate, c.publicKey(ephemeral));
    assert c.dh(ephemeral, b.peerStaticPublic) == c.dh(a.params.staticPrivate, c.publicKey(ephemeral));
  }

  /** Nothing was sent or received yet. */
  ghost predicate IsNew(s: SessionState) {
    s == NewSession(s.receivingIndex, s.sendingIndex, s.receivingKey, s.sendingKey)
  }

  lemma MacsFollow(c: Primitives, h: Handshake, index: nat, packet: Packet)
    requires c.Lawful() && packet.WellFormed() && (packet.HandshakeInit? || packet.HandshakeResponse?)
    ensures ParseIncomingPacket(AppendMacs(c, h, index, packet.Encode()).1) == Success(packet)
  {
    var datagram := AppendMacs(c, h, index, packet.Encode()).1;
    var macs := datagram[|packet.Encode()|..];
    assert datagram == packet.Encode() + macs;
    ParseOfEncoded(packet, macs);
  }

  /** A whole handshake, as datagrams: an honest initiation newer than the last accepted one is
      attributed to its sender and answered, the response is accepted, and the two ends hold
      crossed keys and crossed indices, with or without a preshared key. */
  lemma HandshakeAgreement(c: Primitives, a: Handshake, b: Handshake, cap: nat, answerCap: nat,
                           ephA: Bytes, ephB: Bytes, stamp: Bytes, sentAt: nat, answeredAt: nat)
    requires c.Lawful() && Paired(c, a.params, b.params)
    requires a.nextIndex < U32_LIMIT && b.nextIndex < U32_LIMIT && cap >= HANDSHAKE_INIT_SZ
    requires answerCap >= HANDSHAKE_RESP_SZ
    requires |stamp| == 12 && ParseTai64N(stamp).After(b.lastTimestamp)
    ensures var (a1, init) := FormatInitiation(c, a, cap, ephA, stamp, sentAt);
            && init.Success? && ParseIncomingPacket(init.value).Success?
            && var initPacket := ParseIncomingPacket(init.value).value;
            && initPacket.HandshakeInit?
            && ParseHandshakeAnon(c, b.params.staticPrivate, b.params.staticPublic, initPacket)
               == Success(HalfHandshake(a1.nextIndex, a.params.staticPublic))
            && var (b1, resp) := ReceiveInitiation(c, b, initPacket, answerCap, ephB);
            && resp.Success? && ParseIncomingPacket(resp.value.0).Success?
            && var respPacket := ParseIncomingPacket(resp.value.0).value;
            && respPacket.HandshakeResponse?
            && var (a2, session) := ReceiveResponse(c, a1, respPacket, answeredAt);
            && session.Success?
            && Crossed(session.value, resp.value.1)
            && session.value.receivingIndex == a1.nextIndex
            && resp.value.1.receivingIndex == b1.nextIndex < U32_LIMIT
            && IsNew(session.value) && IsNew(resp.value.1)
            && a2.state == NoHandshake && b1.state == NoHandshake
            && b1.lastTimestamp == ParseTai64N(stamp)
  {
    var index := IncIndex(a.nextIndex);
    IncIndexKeepsWidth(a.nextIndex);
    var (initPacket, sent) := InitiationMessage(c, a.params, index, ephA, stamp, sentAt);
    var a1 := FormatInitiation(c, a, cap, ephA, stamp, sentAt).0;
    MacsFollow(c, a.(nextIndex := index, previous := a.state, state := sent), index, initPacket);
    InitiationAccepted(c, a.params, b, index, ephA, stamp, sentAt);
    var indexB := IncIndex(b.nextIndex);
    IncIndexKeepsWidth(b.nextIndex);
    var received := InitReceived(sent.hash, sent.chainingKey, c.publicKey(ephA), index);
    var (respPacket, sessionB) := ResponseMessage(c, b.params, received, indexB, ephB);
    var b1 := b.(lastTimestamp := ParseTai64N(stamp), previous := b.state, nextIndex := indexB, state := NoHandshake);
    MacsFollow(c, b1, indexB, respPacket);
    ResponseAgrees(c, a1, b.params, sent, ephB, indexB, answeredAt);
  }
}
