/**
 The handshake rate limiter and its cookies (sections 5.3 and 5.4.7 of the WireGuard whitepaper).
 */
module RateLimiters {
  import opened Wrappers
  import opened ByteStrings
  import opened Crypto
  import opened Wire
  import opened Words
  import opened Handshakes

  const COOKIE_REFRESH: nat := 128
  const RESET_PERIOD: nat := 1

  datatype IpAddr = V4(octets: Bytes) | V6(octets: Bytes) {
    ghost predicate WellFormed() {
      |octets| == if V4? then 4 else 16
    }

    /** Sixteen bytes, a version 4 address padded with zeros. */
    function Padded(): Bytes {
      if |octets| <= 16 then octets + Zeros(16 - |octets|) else octets[..16]
    }
  }

  datatype Limiter = Limiter(
    nonceKey: Bytes,
    secretKey: Bytes,
    startTime: nat,
    nonceCtr: nat,
    mac1Key: Bytes,
    cookieKey: Bytes,
    limit: nat,
    count: nat,
    lastReset: nat)
  {
    /** The period in which the cookie of an address stays the same. */
    function Epoch(now: nat): nat {
      Elapsed(startTime, now) / SECOND / COOKIE_REFRESH
    }

    predicate ResetDue(now: nat) {
      Elapsed(lastReset, now) / SECOND >= RESET_PERIOD
    }

    function ResetCount(now: nat): Limiter {
      if ResetDue(now) then this.(count := 0, lastReset := now) else this
    }

    /** What a cookie is the MAC of. */
    function CookieInput(addr: IpAddr, now: nat): Bytes {
      LittleEndian(8, Epoch(now)) + addr.Padded()
    }

    function CurrentCookie(c: Primitives, addr: IpAddr, now: nat): Bytes {
      c.mac16(secretKey, CookieInput(addr, now))
    }
  }

  function NewLimiter(c: Primitives, publicKey: Bytes, limit: nat, nonceKey: Bytes, secretKey: Bytes, now: nat): Limiter
  {
    Limiter(nonceKey, secretKey, now, 0, c.Hash(LABEL_MAC1, publicKey), c.Hash(LABEL_COOKIE, publicKey),
            limit, 0, now)
  }

  function FormatCookieReply(c: Primitives, l: Limiter, idx: nat, cookie: Bytes, mac1: Bytes, cap: nat)
    : (Limiter, Result<Bytes, WireGuardError>)
  {
    if cap < COOKIE_REPLY_SZ then (l, Failure(DestinationBufferTooSmall))
    else
      var nonce := c.mac24(l.nonceKey, LittleEndian(8, l.nonceCtr));
      (l.(nonceCtr := l.nonceCtr + 1),
       Success(PacketCookieReply(idx, nonce, c.xaeadSeal(l.cookieKey, nonce, cookie, mac1)).Encode()))
  }

  datatype Verified = Admitted(packet: Packet) | Refused(error: WireGuardError) | CookieSent(datagram: Bytes)

  /** The three parts of a handshake message: the message proper and its two MACs. */
  function Split(src: Bytes): (Bytes, Bytes, Bytes)
    requires |src| >= 32
  {
    (src[..|src| - 32], src[|src| - 32..|src| - 16], src[|src| - 16..])
  }

  predicate Mac2Valid(c: Primitives, l: Limiter, addr: Option<IpAddr>, src: Bytes, now: nat)
    requires |src| >= 32
  {
    var (msg, mac1, mac2) := Split(src);
    addr.Some? && c.mac16(l.CurrentCookie(c, addr.value, now), msg + mac1) == mac2
  }

  function VerifyPacket(c: Primitives, l: Limiter, addr: Option<IpAddr>, src: Bytes, cap: nat, now: nat)
    : (Limiter, Verified)
  {
    match ParseIncomingPacket(src)
    case Failure(e) => (l, Refused(e))
    case Success(packet) =>
      if !packet.HandshakeInit? && !packet.HandshakeResponse? then (l, Admitted(packet))
      else
        var (msg, mac1, _) := Split(src);
        if c.mac16(l.mac1Key, msg) != mac1 then (l, Refused(InvalidMac))
        else
          var l1 := l.(count := l.count + 1);
          if l.count < l.limit then (l1, Admitted(packet))
          else if addr.None? then (l1, Refused(UnderLoad))
          else if Mac2Valid(c, l, addr, src, now) then (l1, Admitted(packet))
          else
            var cookie := l.CurrentCookie(c, addr.value, now);
            var (l2, reply) := FormatCookieReply(c, l1, packet.senderIdx, cookie, mac1, cap);
            match reply
            case Failure(e) => (l2, Refused(e))
            case Success(datagram) => (l2, CookieSent(datagram))
  }

  // ---------------------------------------------------------------- what a cookie stands for

  /** The period of a reading: so many times 128 s after the start. */
  function Period(start: nat, now: nat): nat {
    if now < start then 0 else (now - start) / 128_000_000_000
  }

  /** A cookie lasts for a period of 128 s, counted from the start of the limiter. */
  lemma EpochIsPeriod(l: Limiter, now: nat)
    ensures l.Epoch(now) == Period(l.startTime, now)
  {
  }

  /** Two cookies are MACs of the same data if and only if they belong to the same period and to
      addresses that are the same when padded with zeros; of one version, to the same address. */
  lemma CookieInputs(l: Limiter, addr: IpAddr, now: nat, addr': IpAddr, now': nat)
    requires addr.WellFormed() && addr'.WellFormed()
    requires Period(l.startTime, now) < U64_LIMIT && Period(l.startTime, now') < U64_LIMIT
    ensures l.CookieInput(addr, now) == l.CookieInput(addr', now') <==>
            Period(l.startTime, now) == Period(l.startTime, now') && addr.Padded() == addr'.Padded()
    ensures addr.V4? == addr'.V4? ==> (addr.Padded() == addr'.Padded() <==> addr == addr')
  {
    hide LittleEndian;
    var e, e' := l.Epoch(now), l.Epoch(now');
    EpochIsPeriod(l, now);
    EpochIsPeriod(l, now');
    FieldLimits();
    DecodeLittleEndian(8, e);
    DecodeLittleEndian(8, e');
    var a, b := l.CookieInput(addr, now), l.CookieInput(addr', now');
    assert a[..8] == LittleEndian(8, e) && a[8..] == addr.Padded();
    assert b[..8] == LittleEndian(8, e') && b[8..] == addr'.Padded();
    assert addr.Padded()[..|addr.octets|] == addr.octets && addr'.Padded()[..|addr'.octets|] == addr'.octets;
  }

  lemma PaddedAddress(addr: IpAddr)
    requires addr.WellFormed()
    ensures |addr.Padded()| == 16 && addr.Padded()[..|addr.octets|] == addr.octets
    ensures forall i :: |addr.octets| <= i < 16 ==> addr.Padded()[i] == 0
  {
  }

  /** The count goes back to zero if and only if a second has passed since it last did. */
  lemma ResetExactlyWhen(l: Limiter, now: nat)
    ensures l.ResetCount(now) ==
            if now >= l.lastReset + 1_000_000_000 then l.(count := 0, lastReset := now) else l
  {
  }

  /** The limiter of a static key checks the MACs made for that key. */
  lemma NewLimiterGuards(c: Primitives, publicKey: Bytes, limit: nat, nonceKey: Bytes, secretKey: Bytes, now: nat,
                         staticPrivate: Bytes, staticPublic: Bytes, psk: Option<Bytes>)
    ensures var l := NewLimiter(c, publicKey, limit, nonceKey, secretKey, now);
            Guards(c, l, NewParams(c, staticPrivate, staticPublic, publicKey, psk))
            && l.limit == limit && l.count == 0 && l.startTime == now && l.lastReset == now
  {
  }

  /** What becomes of a handshake message, from its three parts: without a valid first MAC it is
      refused and not counted; below the limit it passes; otherwise it needs an address, and passes
      with a second MAC under the cookie of its address and period; if it has no such MAC and there is
      room for 64 bytes it is answered with that cookie. */
  lemma VerdictOnHandshake(c: Primitives, l: Limiter, addr: Option<IpAddr>, msg: Bytes, mac1: Bytes, mac2: Bytes,
                           cap: nat, now: nat)
    requires c.Lawful() && |mac1| == |mac2| == 16 && (addr.Some? ==> addr.value.WellFormed())
    requires var parsed := ParseIncomingPacket(msg + mac1 + mac2);
             parsed.Success? && (parsed.value.HandshakeInit? || parsed.value.HandshakeResponse?)
    ensures var packet := ParseIncomingPacket(msg + mac1 + mac2).value;
            var (l', r) := VerifyPacket(c, l, addr, msg + mac1 + mac2, cap, now);
            if mac1 != c.mac16(l.mac1Key, msg) then (l', r) == (l, Refused(InvalidMac))
            else
              && l' == l.(count := l.count + 1, nonceCtr := if r.CookieSent? then l.nonceCtr + 1 else l.nonceCtr)
              && if l.count < l.limit then r == Admitted(packet)
                 else if addr.None? then r == Refused(UnderLoad)
                 else
                   var cookie := c.mac16(l.secretKey, LittleEndian(8, Period(l.startTime, now)) + addr.value.Padded());
                   if mac2 == c.mac16(cookie, msg + mac1) then r == Admitted(packet)
                   else if cap < 64 then r == Refused(DestinationBufferTooSmall)
                   else
                     && r.CookieSent? && |r.datagram| == 64
                     && ParseIncomingPacket(r.datagram).Success?
                     && var reply := ParseIncomingPacket(r.datagram).value;
                     && reply.PacketCookieReply? && reply.receiverIdx == packet.senderIdx
                     && reply.nonce == c.mac24(l.nonceKey, LittleEndian(8, l.nonceCtr))
                     && c.xaeadOpen(l.cookieKey, reply.nonce, reply.encryptedCookie, mac1) == Some(cookie)
  {
    hide LittleEndian, ParseIncomingPacket;
    var src := msg + mac1 + mac2;
    assert src[..|src| - 32] == msg && src[|src| - 32..|src| - 16] == mac1 && src[|src| - 16..] == mac2;
    EncodedOfParse(src);
    EpochIsPeriod(l, now);
    var packet := ParseIncomingPacket(src).value;
    if addr.Some? {
      var cookie := l.CurrentCookie(c, addr.value, now);
      var nonce := c.mac24(l.nonceKey, LittleEndian(8, l.nonceCtr));
      ParseOfCookieReply(PacketCookieReply(packet.senderIdx, nonce, c.xaeadSeal(l.cookieKey, nonce, cookie, mac1)));
    }
  }

  /** Everything else is not the limiter's business. */
  lemma VerdictOnOthers(c: Primitives, l: Limiter, addr: Option<IpAddr>, src: Bytes, cap: nat, now: nat)
    ensures var parsed := ParseIncomingPacket(src);
            && (parsed.Failure? ==> VerifyPacket(c, l, addr, src, cap, now) == (l, Refused(parsed.error)))
            && (parsed.Success? && (parsed.value.PacketData? || parsed.value.PacketCookieReply?) ==>
                  VerifyPacket(c, l, addr, src, cap, now) == (l, Admitted(parsed.value)))
  {
  }

  // ---------------------------------------------------------------- the cookie exchange

  /** The limiter guards the static key the peer sends to. */
  ghost predicate Guards(c: Primitives, l: Limiter, p: Params) {
    && l.mac1Key == c.Hash(LABEL_MAC1, p.peerStaticPublic) == p.sendingMac1Key
    && l.cookieKey == c.Hash(LABEL_COOKIE, p.peerStaticPublic)
  }

  ghost predicate IsHandshakeMessage(p: Packet) {
    p.WellFormed() && (p.HandshakeInit? || p.HandshakeResponse?)
  }

  lemma MessageParts(c: Primitives, h: Handshake, idx: nat, p: Packet)
    requires c.Lawful() && IsHandshakeMessage(p)
    ensures var (h1, m) := AppendMacs(c, h, idx, p.Encode());
            && |m| >= 32 && h1.cookies.lastMac1.Some?
            && ParseIncomingPacket(m) == Success(p)
            && Split(m).0 == p.Encode() && Split(m).1 == h1.cookies.lastMac1.value
            && Split(m).1 == c.mac16(h.params.sendingMac1Key, p.Encode())
            && (h.cookies.writeCookie.Some? ==>
                Split(m).2 == c.mac16(h.cookies.writeCookie.value, p.Encode() + Split(m).1))
  {
    var (h1, m) := AppendMacs(c, h, idx, p.Encode());
    MacsFollow(c, h, idx, p);
    var mac1 := c.mac16(h.params.sendingMac1Key, p.Encode());
    var mac2 := m[|m| - 16..];
    assert m == p.Encode() + mac1 + mac2;
  }

  /** A message carrying the cookie of its address for the current period is always admitted. */
  lemma CookieHolderAdmitted(c: Primitives, h: Handshake, l: Limiter, idx: nat, p: Packet, addr: IpAddr,
                             cap: nat, now: nat)
    requires c.Lawful() && IsHandshakeMessage(p) && Guards(c, l, h.params)
    requires h.cookies.writeCookie == Some(l.CurrentCookie(c, addr, now))
    ensures VerifyPacket(c, l, Some(addr), AppendMacs(c, h, idx, p.Encode()).1, cap, now).1 == Admitted(p)
  {
    MessageParts(c, h, idx, p);
  }

  /** The whole exchange: if the latest message of a peer is answered with a cookie, the peer
      accepts that cookie, and whatever handshake message it sends next from the same address
      within the same period of 128 s is admitted, however loaded the limiter then is. */
  lemma CookieExchangeAdmits(c: Primitives, h: Handshake, l: Limiter, idx: nat, p: Packet, addr: IpAddr,
                             cap: nat, now: nat, l': Limiter, idx': nat, p': Packet, cap': nat, now': nat)
    requires c.Lawful() && IsHandshakeMessage(p) && IsHandshakeMessage(p') && Guards(c, l, h.params)
    requires p.senderIdx == idx
    requires VerifyPacket(c, l, Some(addr), AppendMacs(c, h, idx, p.Encode()).1, cap, now).1.CookieSent?
    requires l' == l.(count := l'.count, nonceCtr := l'.nonceCtr, lastReset := l'.lastReset)
    requires Period(l.startTime, now') == Period(l.startTime, now)
    ensures var (h1, m) := AppendMacs(c, h, idx, p.Encode());
            var reply := ParseIncomingPacket(VerifyPacket(c, l, Some(addr), m, cap, now).1.datagram);
            && reply.Success? && reply.value.PacketCookieReply?
            && ReceiveCookieReply(c, h1, reply.value).Success?
            && var h2 := ReceiveCookieReply(c, h1, reply.value).value;
            && h2 == h1.(cookies := h1.cookies.(writeCookie := Some(l.CurrentCookie(c, addr, now))))
            && VerifyPacket(c, l', Some(addr), AppendMacs(c, h2, idx', p'.Encode()).1, cap', now').1 == Admitted(p')
  {
    var (h1, m) := AppendMacs(c, h, idx, p.Encode());
    MessageParts(c, h, idx, p);
    EpochIsPeriod(l, now);
    EpochIsPeriod(l', now');
    var cookie := l.CurrentCookie(c, addr, now);
    var nonce := c.mac24(l.nonceKey, LittleEndian(8, l.nonceCtr));
    var sealed := PacketCookieReply(idx, nonce, c.xaeadSeal(l.cookieKey, nonce, cookie, Split(m).1));
    ParseOfCookieReply(sealed);
    var h2 := h1.(cookies := h1.cookies.(writeCookie := Some(cookie)));
    CookieHolderAdmitted(c, h2, l', idx', p', addr, cap', now');
  }

  // ---------------------------------------------------------------- the object

  class RateLimiter {
    const nonceKey: Bytes
    const secretKey: Bytes
    const startTime: nat
    const mac1Key: Bytes
    const cookieKey: Bytes
    const limit: nat
    var nonceCtr: nat
    var count: nat
    var lastReset: nat

    function State(): Limiter
      reads this
    {
      Limiter(nonceKey, secretKey, startTime, nonceCtr, mac1Key, cookieKey, limit, count, lastReset)
    }

    constructor (c: Primitives, publicKey: Bytes, limit: nat, nonceKey: Bytes, secretKey: Bytes, now: nat)
      ensures State() == NewLimiter(c, publicKey, limit, nonceKey, secretKey, now)
    {
      this.nonceKey := nonceKey;
      this.secretKey := secretKey;
      startTime := now;
      nonceCtr := 0;
      mac1Key := c.Hash(LABEL_MAC1, publicKey);
      cookieKey := c.Hash(LABEL_COOKIE, publicKey);
      this.limit := limit;
      count := 0;
      lastReset := now;
    }

    method ResetCount(now: nat)
      modifies this`count, this`lastReset
      ensures State() == old(State()).ResetCount(now)
    {
      if Elapsed(lastReset, now) / SECOND >= RESET_PERIOD {
        count := 0;
        lastReset := now;
      }
    }

    method IsUnderLoad() returns (loaded: bool)
      modifies this`count
      ensures count == old(count) + 1 && (loaded <==> old(count) >= limit)
    {
      loaded := count >= limit;
      count := count + 1;
    }

    method Nonce(c: Primitives) returns (nonce: Bytes)
      modifies this`nonceCtr
      ensures nonceCtr == old(nonceCtr) + 1 && nonce == c.mac24(nonceKey, LittleEndian(8, old(nonceCtr)))
    {
      nonce := c.mac24(nonceKey, LittleEndian(8, nonceCtr));
      nonceCtr := nonceCtr + 1;
    }

    method Verify(c: Primitives, addr: Option<IpAddr>, src: Bytes, cap: nat, now: nat) returns (r: Verified)
      modifies this
      ensures (State(), r) == VerifyPacket(c, old(State()), addr, src, cap, now)
    {
      var parsed := ParseIncomingPacket(src);
      if parsed.Failure? {
        return Refused(parsed.error);
      }
      var packet := parsed.value;
      if packet.HandshakeInit? || packet.HandshakeResponse? {
        var (msg, mac1, mac2) := Split(src);
        if c.mac16(mac1Key, msg) != mac1 {
          return Refused(InvalidMac);
        }
        var loaded := IsUnderLoad();
        if loaded {
          if addr.None? {
            return Refused(UnderLoad);
          }
          var cookie := State().CurrentCookie(c, addr.value, now);
          if c.mac16(cookie, msg + mac1) != mac2 {
            if cap < COOKIE_REPLY_SZ {
              return Refused(DestinationBufferTooSmall);
            }
            var nonce := Nonce(c);
            var sealed := c.xaeadSeal(cookieKey, nonce, cookie, mac1);
            return CookieSent(PacketCookieReply(packet.senderIdx, nonce, sealed).Encode());
          }
        }
      }
      r := Admitted(packet);
    }
  }
}
