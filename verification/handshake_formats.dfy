/**
 The bytes of the handshake: where each field of a message stands, the MACs and their labels, the
 order of timestamps, the session index, and what happens when the output buffer is too small.
 */
module HandshakeFormats {
  import opened Wrappers
  import opened ByteStrings
  import opened Crypto
  import opened Wire
  import opened Words
  import opened Sessions
  import opened Handshakes

  // ---------------------------------------------------------------- fields

  /** Four bytes, lowest first. */
  function Word(b: Bytes): nat
    requires |b| == 4
  {
    b[0] as nat + 0x100 * b[1] as nat + 0x1_0000 * b[2] as nat + 0x100_0000 * b[3] as nat
  }

  lemma WordIs(v: nat)
    requires v < 0x1_0000_0000
    ensures Word(LittleEndian(4, v)) == v
  {
    var v1 := v / 256;
    var v2 := v1 / 256;
    assert LittleEndian(4, v) == [v % 256] + LittleEndian(3, v1);
    assert LittleEndian(3, v1) == [v1 % 256] + LittleEndian(2, v2);
    assert LittleEndian(2, v2) == [v2 % 256] + LittleEndian(1, v2 / 256);
    assert LittleEndian(1, v2 / 256) == [v2 / 256 % 256] + LittleEndian(0, v2 / 256 / 256);
    FourDigits(v);
  }

  lemma FourDigits(v: nat)
    requires v < 0x1_0000_0000
    ensures v == v % 256 + 256 * (v / 256 % 256) + 65536 * (v / 256 / 256 % 256)
                 + 0x100_0000 * (v / 256 / 256 / 256 % 256)
  {
    var a := v / 256;
    var b := a / 256;
    assert b / 256 < 256;
  }

  /** Types 1 to 4 in the first byte and three zeros; then the indices of sender and receiver; then
      the other fields, one after the other. */
  lemma Layout(p: Packet)
    requires p.WellFormed()
    ensures var m := p.Encode();
            match p
            case HandshakeInit(s, e, st, ts) =>
              |m| == 116 && m[..4] == [1, 0, 0, 0] && Word(m[4..8]) == s
              && m[8..40] == e && m[40..88] == st && m[88..116] == ts
            case HandshakeResponse(s, r, e, n) =>
              |m| == 60 && m[..4] == [2, 0, 0, 0] && Word(m[4..8]) == s && Word(m[8..12]) == r
              && m[12..44] == e && m[44..60] == n
            case PacketCookieReply(r, n, k) =>
              |m| == 64 && m[..4] == [3, 0, 0, 0] && Word(m[4..8]) == r && m[8..32] == n && m[32..64] == k
            case PacketData(r, k, d) =>
              |m| == 16 + |d| && m[..4] == [4, 0, 0, 0] && Word(m[4..8]) == r
              && m[8..16] == LittleEndian(8, k) && m[16..] == d
  {
    Types();
    hide LittleEndian, Word;
    var m := p.Encode();
    match p {
      case HandshakeInit(s, e, st, ts) =>
        WordIs(s);
        Fields(LittleEndian(4, 1), LittleEndian(4, s), e, st, ts, []);
        assert m + [] == m;
      case HandshakeResponse(s, r, e, n) =>
        WordIs(s);
        WordIs(r);
        Fields(LittleEndian(4, 2), LittleEndian(4, s), LittleEndian(4, r), e, n, []);
        assert m + [] == m;
      case PacketCookieReply(r, n, k) =>
        WordIs(r);
        Fields(LittleEndian(4, 3), LittleEndian(4, r), n, k, [], []);
        assert m + [] + [] == m;
      case PacketData(r, k, d) =>
        WordIs(r);
        Fields(LittleEndian(4, 4), LittleEndian(4, r), LittleEndian(8, k), d, [], []);
        assert m + [] + [] == m;
    }
  }

  lemma Types()
    ensures LittleEndian(4, 1) == [1, 0, 0, 0] && LittleEndian(4, 2) == [2, 0, 0, 0]
    ensures LittleEndian(4, 3) == [3, 0, 0, 0] && LittleEndian(4, 4) == [4, 0, 0, 0]
  {
    assert LittleEndian(3, 0) == [0, 0, 0];
  }

  // ---------------------------------------------------------------- MACs

  /** The text of a label. */
  function Text(s: string): Bytes
    requires forall i :: 0 <= i < |s| ==> s[i] < 256 as char
  {
    seq(|s|, i requires 0 <= i < |s| => s[i] as int as byte)
  }

  /** Section 5.4.4 of the whitepaper: the first MAC is under the hash of a label and the receiver's
      public key, over the message; the second, over the message and the first, under the cookie if
      there is one, and otherwise zeros. The index and the first MAC are remembered for a reply. */
  lemma MacsByTheBook(c: Primitives, staticPrivate: Bytes, staticPublic: Bytes, peer: Bytes, psk: Option<Bytes>,
                      h: Handshake, index: nat, msg: Bytes)
    requires h.params == NewParams(c, staticPrivate, staticPublic, peer, psk)
    ensures var mac1 := c.mac16(c.blake2s(Text("mac1----") + peer), msg);
            var mac2 := if h.cookies.writeCookie.Some? then c.mac16(h.cookies.writeCookie.value, msg + mac1)
                        else seq(16, _ => 0);
            AppendMacs(c, h, index, msg) ==
            (h.(cookies := Cookies(Some(mac1), index, h.cookies.writeCookie)), msg + mac1 + mac2)
  {
    assert Text("mac1----") == LABEL_MAC1;
  }

  /** A cookie reply is taken if and only if it answers the last message sent, under its index and over
      its first MAC, and holds 16 bytes; then it is the cookie, and nothing else changes. */
  lemma CookieTakenExactlyWhen(c: Primitives, h: Handshake, p: Packet)
    requires p.PacketCookieReply?
    ensures var key := c.blake2s(Text("cookie--") + h.params.peerStaticPublic);
            var r := ReceiveCookieReply(c, h, p);
            if h.cookies.lastMac1.None? then r == Failure(UnexpectedPacket)
            else if p.receiverIdx != h.cookies.index then r == Failure(WrongIndex)
            else
              var plain := c.xaeadOpen(key, p.nonce, p.encryptedCookie, h.cookies.lastMac1.value);
              if plain.None? then r == Failure(InvalidAeadTag)
              else if |plain.value| != 16 then r == Failure(InvalidPacket)
              else r == Success(h.(cookies := h.cookies.(writeCookie := plain)))
  {
    assert Text("cookie--") == LABEL_COOKIE;
  }

  // ---------------------------------------------------------------- timestamps

  /** The first difference decides. */
  predicate Later(a: Bytes, b: Bytes)
    requires |a| == |b|
    decreases |a|
  {
    a != [] && (a[0] > b[0] || (a[0] == b[0] && Later(a[1..], b[1..])))
  }

  lemma {:induction false} BigEndianOrder(a: Bytes, b: Bytes)
    requires |a| == |b|
    ensures FromBigEndian(a) > FromBigEndian(b) <==> Later(a, b)
    ensures FromBigEndian(a) == FromBigEndian(b) <==> a == b
    decreases |a|
  {
    if a != [] {
      BigEndianOrder(a[1..], b[1..]);
      TopByte(a);
      TopByte(b);
      Compared(a[0], b[0], Pow256(|a| - 1), FromBigEndian(a[1..]), FromBigEndian(b[1..]));
      assert a == [a[0]] + a[1..] && b == [b[0]] + b[1..];
    }
  }

  lemma Compared(x: nat, y: nat, p: nat, v: nat, w: nat)
    requires v < p && w < p
    ensures x * p + v > y * p + w <==> x > y || (x == y && v > w)
    ensures x * p + v == y * p + w <==> x == y && v == w
  {
    if x > y {
      assert x * p >= (y + 1) * p;
    } else if x < y {
      assert y * p >= (x + 1) * p;
    }
  }

  lemma {:induction false} TopByte(a: Bytes)
    requires a != []
    ensures FromBigEndian(a) == a[0] as nat * Pow256(|a| - 1) + FromBigEndian(a[1..])
    ensures FromBigEndian(a[1..]) < Pow256(|a| - 1)
  {
    if |a| > 1 {
      var init := a[..|a| - 1];
      TopByte(init);
      assert a[1..][..|a[1..]| - 1] == init[1..];
      OneByteMore(a[0], Pow256(|a| - 2), FromBigEndian(init[1..]), a[|a| - 1]);
    }
  }

  lemma OneByteMore(top: nat, p: nat, x: nat, last: byte)
    ensures 256 * (top * p + x) + last == top * (256 * p) + (256 * x + last)
    ensures x < p ==> 256 * x + last < 256 * p
  {
  }

  /** Timestamps are ordered as their bytes are, the first byte first. */
  lemma TimestampOrder(a: Bytes, b: Bytes)
    requires |a| == |b| == 12
    ensures ParseTai64N(a).After(ParseTai64N(b)) <==> Later(a, b)
  {
    BigEndianOrder(a[..8], b[..8]);
    BigEndianOrder(a[8..], b[8..]);
    LaterOfJoined(a[..8], a[8..], b[..8], b[8..]);
    assert a[..8] + a[8..] == a && b[..8] + b[8..] == b;
  }

  lemma {:induction false} LaterOfJoined(a: Bytes, c: Bytes, b: Bytes, d: Bytes)
    requires |a| == |b| && |c| == |d|
    ensures Later(a + c, b + d) <==> Later(a, b) || (a == b && Later(c, d))
    decreases |a|
  {
    if a == [] {
      assert a + c == c && b + d == d;
    } else {
      LaterOfJoined(a[1..], c, b[1..], d);
      assert (a + c)[1..] == a[1..] + c && (b + d)[1..] == b[1..] + d;
      assert a == [a[0]] + a[1..] && b == [b[0]] + b[1..];
    }
  }

  function BigEndian(n: nat, v: nat): (b: Bytes)
    ensures |b| == n
  {
    if n == 0 then [] else BigEndian(n - 1, v / 256) + [v % 256]
  }

  lemma {:induction false} BigEndianIs(n: nat, v: nat)
    requires v < Pow256(n)
    ensures FromBigEndian(BigEndian(n, v)) == v
  {
    if n > 0 {
      BigEndianIs(n - 1, v / 256);
      assert BigEndian(n, v)[..n - 1] == BigEndian(n - 1, v / 256);
    }
  }

  /** `TimeStamper::stamp`, of a time in nanoseconds since 1970. */
  function Stamp(nanos: nat): (b: Bytes)
    ensures |b| == 12
  {
    BigEndian(8, nanos / 1_000_000_000 + 0x4000_0000_0000_0025) + BigEndian(4, nanos % 1_000_000_000)
  }

  /** The stamp of a later time is after that of an earlier one, and no other is. */
  lemma StampsFollowTheClock(m: nat, n: nat)
    requires m < 0x100_0000_0000_0000 * 1_000_000_000 && n < 0x100_0000_0000_0000 * 1_000_000_000
    ensures ParseTai64N(Stamp(m)).After(ParseTai64N(Stamp(n))) <==> m > n
  {
    StampIs(m);
    StampIs(n);
  }

  lemma StampIs(n: nat)
    requires n < 0x100_0000_0000_0000 * 1_000_000_000
    ensures ParseTai64N(Stamp(n)) == Tai64N(n / 1_000_000_000 + 0x4000_0000_0000_0025, n % 1_000_000_000)
  {
    assert Pow256(4) == 0x1_0000_0000;
    assert Pow256(8) == 0x1_0000_0000_0000_0000;
    BigEndianIs(8, n / 1_000_000_000 + 0x4000_0000_0000_0025);
    BigEndianIs(4, n % 1_000_000_000);
    var s := Stamp(n);
    assert s[..8] == BigEndian(8, n / 1_000_000_000 + 0x4000_0000_0000_0025);
    assert s[8..] == BigEndian(4, n % 1_000_000_000);
  }

  // ---------------------------------------------------------------- indices and buffers

  /** The low byte counts cyclically, so 256 indices in a row are all different, and any 8 of them
      have different slots. */
  lemma IndexCounts(i: nat)
    requires i < U32_LIMIT
    ensures IncIndex(i) % 256 == (i + 1) % 256 && IncIndex(i) / 256 == i / 256
  {
  }

  function IndexAfter(i: nat, n: nat): nat {
    if n == 0 then i else IncIndex(IndexAfter(i, n - 1))
  }

  lemma {:induction false} IndexAfterIs(i: nat, n: nat)
    ensures IndexAfter(i, n) == i / 256 * 256 + (i + n) % 256
  {
    if n > 0 {
      IndexAfterIs(i, n - 1);
      NextOf(i / 256, i + n - 1);
    } else {
      assert i == i / 256 * 256 + i % 256;
    }
  }

  lemma NextOf(q: nat, a: nat)
    ensures IncIndex(q * 256 + a % 256) == q * 256 + (a + 1) % 256
  {
    var x := q * 256 + a % 256;
    assert x / 256 == q && x % 256 == a % 256;
  }

  lemma IndicesDiffer(i: nat, m: nat, n: nat)
    requires m < n
    ensures n < m + 256 ==> IndexAfter(i, m) != IndexAfter(i, n)
    ensures n < m + 8 ==> IndexAfter(i, m) % 8 != IndexAfter(i, n) % 8
  {
    hide IndexAfter;
    IndexAfterIs(i, m);
    IndexAfterIs(i, n);
    CyclicDiffer(i / 256, i + m, i + n);
  }

  lemma CyclicDiffer(q: nat, a: nat, b: nat)
    requires a < b
    ensures b < a + 256 ==> a % 256 != b % 256
    ensures b < a + 8 ==> (q * 256 + a % 256) % 8 != (q * 256 + b % 256) % 8
  {
    SlotOf(q, a);
    SlotOf(q, b);
    CloseDiffer(a, b);
  }

  lemma CloseDiffer(a: nat, b: nat)
    requires a < b
    ensures b < a + 256 ==> a % 256 != b % 256
    ensures b < a + 8 ==> a % 8 != b % 8
  {
  }

  lemma SlotOf(q: nat, a: nat)
    ensures (q * 256 + a % 256) % 8 == a % 8
  {
    var r := a % 256;
    assert a == 256 * (a / 256) + r;
    Eighths(32 * (a / 256), r);
    Eighths(32 * q, r);
  }

  lemma Eighths(m: nat, r: nat)
    ensures (8 * m + r) % 8 == r % 8
  {
  }

  /** An initiation needs 148 bytes, a response 92. Without them an initiation is not sent and nothing
      changes; but an initiation that is received is used up all the same: its timestamp is taken, it
      stays in the slot unanswered, and sent once more it is refused. */
  lemma SmallBuffers(c: Primitives, h: Handshake, cap: nat, ephemeral: Bytes, stamp: Bytes, now: nat, p: Packet)
    requires p.HandshakeInit?
    ensures FormatInitiation(c, h, cap, ephemeral, stamp, now).1.Success? <==> cap >= 148
    ensures cap < 148 ==> FormatInitiation(c, h, cap, ephemeral, stamp, now) == (h, Failure(DestinationBufferTooSmall))
    ensures CheckInitiation(c, h, p).Success? ==>
              var (h', r) := ReceiveInitiation(c, h, p, cap, ephemeral);
              && (r.Success? <==> cap >= 92)
              && (cap < 92 ==>
                    && r == Failure(DestinationBufferTooSmall)
                    && h' == h.(lastTimestamp := CheckInitiation(c, h, p).value.0, previous := h.state,
                                state := CheckInitiation(c, h, p).value.1)
                    && CheckInitiation(c, h', p) == Failure(WrongTai64nTimestamp))
  {
    hide OpenInitiation, MixKey2, CloseResponse, TransportKeys;
  }

  /** A sent initiation: 148 bytes, the next index, the earlier initiation moved to the other slot, and
      the first MAC of these bytes remembered under the new index. */
  lemma InitiationSent(c: Primitives, h: Handshake, cap: nat, ephemeral: Bytes, stamp: Bytes, now: nat)
    requires c.Lawful() && cap >= 148 && h.nextIndex < U32_LIMIT && |stamp| == 12 && |h.params.staticPublic| == 32
    ensures var (h', r) := FormatInitiation(c, h, cap, ephemeral, stamp, now);
            var index := IncIndex(h.nextIndex);
            var (packet, sent) := InitiationMessage(c, h.params, index, ephemeral, stamp, now);
            && r.Success? && |r.value| == 148 && r.value[..116] == packet.Encode()
            && h' == h.(nextIndex := index, previous := h.state, state := sent,
                        cookies := Cookies(Some(r.value[116..132]), index, h.cookies.writeCookie))
            && r.value[116..132] == c.mac16(h.params.sendingMac1Key, r.value[..116])
            && r.value[132..] ==
               (if h.cookies.writeCookie.Some? then c.mac16(h.cookies.writeCookie.value, r.value[..132])
                else seq(16, _ => 0))
  {
    IncIndexKeepsWidth(h.nextIndex);
    var index := IncIndex(h.nextIndex);
    var packet := InitiationMessage(c, h.params, index, ephemeral, stamp, now).0;
    assert packet.WellFormed();
    MacsAtEnd(c, h.(nextIndex := index), index, packet.Encode());
  }

  lemma MacsAtEnd(c: Primitives, h: Handshake, index: nat, msg: Bytes)
    requires c.Lawful()
    ensures var (h', m) := AppendMacs(c, h, index, msg);
            var n := |msg|;
            && |m| == n + 32 && m[..n] == msg
            && m[n..n + 16] == c.mac16(h.params.sendingMac1Key, msg)
            && m[..n + 16] == msg + m[n..n + 16]
            && m[n + 16..] == (if h.cookies.writeCookie.Some? then c.mac16(h.cookies.writeCookie.value, m[..n + 16])
                               else seq(16, _ => 0))
            && h' == h.(cookies := Cookies(Some(m[n..n + 16]), index, h.cookies.writeCookie))
  {
    var mac1 := c.mac16(h.params.sendingMac1Key, msg);
    var m := AppendMacs(c, h, index, msg).1;
    assert m[|msg|..|msg| + 16] == mac1 && m[..|msg| + 16] == msg + mac1;
  }

  /** A sent response: 92 bytes, the next index, the slot free, and the first MAC remembered. */
  lemma ResponseSent(c: Primitives, h: Handshake, cap: nat, ephemeral: Bytes)
    requires c.Lawful() && cap >= 92 && h.nextIndex < U32_LIMIT
    requires h.state.InitReceived? && h.state.peerIndex < U32_LIMIT
    ensures var (h', r) := FormatResponse(c, h, cap, ephemeral);
            var index := IncIndex(h.nextIndex);
            var (packet, session) := ResponseMessage(c, h.params, h.state, index, ephemeral);
            && r.Success? && r.value.1 == session && |r.value.0| == 92 && r.value.0[..60] == packet.Encode()
            && h' == h.(nextIndex := index, state := NoHandshake,
                        cookies := Cookies(Some(r.value.0[60..76]), index, h.cookies.writeCookie))
  {
    IncIndexKeepsWidth(h.nextIndex);
    var index := IncIndex(h.nextIndex);
    var packet := ResponseMessage(c, h.params, h.state, index, ephemeral).0;
    assert packet.WellFormed();
    MacsAtEnd(c, h.(nextIndex := index, state := NoHandshake), index, packet.Encode());
  }

  /** An initiation that is accepted: its timestamp is the last one, and what was in flight moves to the
      other slot before the answer is made. */
  lemma InitiationReceived(c: Primitives, h: Handshake, p: Packet, cap: nat, ephemeral: Bytes)
    requires p.HandshakeInit? && CheckInitiation(c, h, p).Success?
    ensures var (stamp, received) := CheckInitiation(c, h, p).value;
            ReceiveInitiation(c, h, p, cap, ephemeral) ==
            FormatResponse(c, h.(lastTimestamp := stamp, previous := h.state, state := received), cap, ephemeral)
    ensures CheckInitiation(c, h, p).value.1.peerIndex == p.senderIdx
  {
  }
}
