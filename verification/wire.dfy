/** Message layouts and the parser of incoming datagrams. */
module Wire {
  import opened Wrappers
  import opened ByteStrings
  import opened Words

  datatype WireGuardError =
    | DestinationBufferTooSmall | UnexpectedPacket | WrongIndex | WrongKey
    | WrongTai64nTimestamp | InvalidMac | InvalidAeadTag | InvalidCounter | DuplicateCounter
    | InvalidPacket | NoCurrentSession | ConnectionExpired | UnderLoad

  const HANDSHAKE_INIT: nat := 1
  const HANDSHAKE_RESP: nat := 2
  const COOKIE_REPLY: nat := 3
  const DATA: nat := 4

  const HANDSHAKE_INIT_SZ: nat := 148
  const HANDSHAKE_RESP_SZ: nat := 92
  const COOKIE_REPLY_SZ: nat := 64
  const DATA_OVERHEAD_SZ: nat := 32


  datatype Packet =
    | HandshakeInit(senderIdx: nat, ephemeral: Bytes, encryptedStatic: Bytes, encryptedTimestamp: Bytes)
    | HandshakeResponse(senderIdx: nat, receiverIdx: nat, ephemeral: Bytes, encryptedNothing: Bytes)
    | PacketCookieReply(receiverIdx: nat, nonce: Bytes, encryptedCookie: Bytes)
    | PacketData(receiverIdx: nat, counter: nat, encapsulated: Bytes)
  {
    /** Field widths of a message as it travels. */
    ghost predicate WellFormed() {
      match this
      case HandshakeInit(s, e, st, ts) => s < U32_LIMIT && |e| == 32 && |st| == 48 && |ts| == 28
      case HandshakeResponse(s, r, e, n) => s < U32_LIMIT && r < U32_LIMIT && |e| == 32 && |n| == 16
      case PacketCookieReply(r, n, c) => r < U32_LIMIT && |n| == 24 && |c| == 32
      case PacketData(r, c, d) => r < U32_LIMIT && c < U64_LIMIT && |d| >= 16
    }

    /** Everything up to the two MACs that end a handshake message. */
    function Encode(): Bytes {
      match this
      case HandshakeInit(s, e, st, ts) =>
        LittleEndian(4, HANDSHAKE_INIT) + LittleEndian(4, s) + e + st + ts
      case HandshakeResponse(s, r, e, n) =>
        LittleEndian(4, HANDSHAKE_RESP) + LittleEndian(4, s) + LittleEndian(4, r) + e + n
      case PacketCookieReply(r, n, c) =>
        LittleEndian(4, COOKIE_REPLY) + LittleEndian(4, r) + n + c
      case PacketData(r, c, d) =>
        LittleEndian(4, DATA) + LittleEndian(4, r) + LittleEndian(8, c) + d
    }

    function MacsLength(): nat {
      if HandshakeInit? || HandshakeResponse? then 32 else 0
    }
  }

  function ParseIncomingPacket(src: Bytes): Result<Packet, WireGuardError> {
    if |src| < 4 then Failure(InvalidPacket)
    else
      var packetType := FromLittleEndian(src[0..4]);
      if packetType == HANDSHAKE_INIT && |src| == HANDSHAKE_INIT_SZ then
        Success(HandshakeInit(FromLittleEndian(src[4..8]), src[8..40], src[40..88], src[88..116]))
      else if packetType == HANDSHAKE_RESP && |src| == HANDSHAKE_RESP_SZ then
        Success(HandshakeResponse(FromLittleEndian(src[4..8]), FromLittleEndian(src[8..12]),
                                  src[12..44], src[44..60]))
      else if packetType == COOKIE_REPLY && |src| == COOKIE_REPLY_SZ then
        Success(PacketCookieReply(FromLittleEndian(src[4..8]), src[8..32], src[32..64]))
      else if packetType == DATA && |src| >= DATA_OVERHEAD_SZ then
        Success(PacketData(FromLittleEndian(src[4..8]), FromLittleEndian(src[8..16]), src[16..]))
      else Failure(InvalidPacket)
  }

  lemma FieldLimits()
    ensures Pow256(4) == U32_LIMIT && Pow256(8) == U64_LIMIT
  {
    assert Pow256(4) == 0x1_0000_0000;
    assert Pow256(6) == 0x1_0000_0000_0000;
  }

  /** Consecutive fields of a datagram are found at their offsets. */
  lemma Fields(a: Bytes, b: Bytes, c: Bytes, d: Bytes, e: Bytes, f: Bytes)
    ensures var src := a + b + c + d + e + f;
            var i, j, k, l := |a| + |b|, |a| + |b| + |c|, |a| + |b| + |c| + |d|, |a| + |b| + |c| + |d| + |e|;
            && src[0..|a|] == a && src[|a|..i] == b && src[i..j] == c && src[j..k] == d && src[k..l] == e
            && src[l..] == f
  {
  }

  /** A datagram is the concatenation of the fields it is cut into. */
  lemma Cut(src: Bytes, h: nat, i: nat, j: nat, k: nat, l: nat)
    requires h <= i <= j <= k <= l <= |src|
    ensures src == src[0..h] + src[h..i] + src[i..j] + src[j..k] + src[k..l] + src[l..]
  {
  }

  lemma ParseOfInit(p: Packet, macs: Bytes)
    requires p.WellFormed() && p.HandshakeInit? && |macs| == 32
    ensures ParseIncomingPacket(p.Encode() + macs) == Success(p)
  {
    FieldLimits();
    DecodeLittleEndian(4, HANDSHAKE_INIT);
    DecodeLittleEndian(4, p.senderIdx);
    Fields(LittleEndian(4, HANDSHAKE_INIT), LittleEndian(4, p.senderIdx), p.ephemeral,
           p.encryptedStatic, p.encryptedTimestamp, macs);
  }

  lemma ParseOfResponse(p: Packet, macs: Bytes)
    requires p.WellFormed() && p.HandshakeResponse? && |macs| == 32
    ensures ParseIncomingPacket(p.Encode() + macs) == Success(p)
  {
    FieldLimits();
    DecodeLittleEndian(4, HANDSHAKE_RESP);
    DecodeLittleEndian(4, p.senderIdx);
    DecodeLittleEndian(4, p.receiverIdx);
    Fields(LittleEndian(4, HANDSHAKE_RESP), LittleEndian(4, p.senderIdx), LittleEndian(4, p.receiverIdx),
           p.ephemeral, p.encryptedNothing, macs);
  }

  lemma ParseOfCookieReply(p: Packet)
    requires p.WellFormed() && p.PacketCookieReply?
    ensures ParseIncomingPacket(p.Encode()) == Success(p)
  {
    FieldLimits();
    DecodeLittleEndian(4, COOKIE_REPLY);
    DecodeLittleEndian(4, p.receiverIdx);
    Fields(LittleEndian(4, COOKIE_REPLY), LittleEndian(4, p.receiverIdx), p.nonce, p.encryptedCookie, [], []);
    assert p.Encode() + [] + [] == p.Encode();
  }

  lemma ParseOfData(p: Packet)
    requires p.WellFormed() && p.PacketData?
    ensures ParseIncomingPacket(p.Encode()) == Success(p)
  {
    FieldLimits();
    DecodeLittleEndian(4, DATA);
    DecodeLittleEndian(4, p.receiverIdx);
    DecodeLittleEndian(8, p.counter);
    Fields(LittleEndian(4, DATA), LittleEndian(4, p.receiverIdx), LittleEndian(8, p.counter),
           p.encapsulated, [], []);
    assert p.Encode() + [] + [] == p.Encode();
  }

  /** A well-formed message followed by its MACs, if it has any, is parsed back. */
  lemma ParseOfEncoded(p: Packet, macs: Bytes)
    requires p.WellFormed() && |macs| == p.MacsLength()
    ensures ParseIncomingPacket(p.Encode() + macs) == Success(p)
  {
    match p
    case HandshakeInit(_, _, _, _) => ParseOfInit(p, macs);
    case HandshakeResponse(_, _, _, _) => ParseOfResponse(p, macs);
    case PacketCookieReply(_, _, _) =>
      ParseOfCookieReply(p);
      assert p.Encode() + macs == p.Encode();
    case PacketData(_, _, _) =>
      ParseOfData(p);
      assert p.Encode() + macs == p.Encode();
  }

  /** The parser accepts nothing else: every datagram it accepts is such an encoding. */
  lemma EncodedOfParse(src: Bytes)
    requires ParseIncomingPacket(src).Success?
    ensures var p := ParseIncomingPacket(src).value;
            && p.WellFormed()
            && |src| >= p.MacsLength()
            && src == p.Encode() + src[|src| - p.MacsLength()..]
  {
    FieldLimits();
    var p := ParseIncomingPacket(src).value;
    EncodeLittleEndian(src[0..4]);
    EncodeLittleEndian(src[4..8]);
    match p
    case HandshakeInit(_, _, _, _) =>
      Cut(src, 4, 8, 40, 88, 116);
    case HandshakeResponse(_, _, _, _) =>
      EncodeLittleEndian(src[8..12]);
      Cut(src, 4, 8, 12, 44, 60);
    case PacketCookieReply(_, _, _) =>
      Cut(src, 4, 8, 32, 64, 64);
    case PacketData(_, _, _) =>
      EncodeLittleEndian(src[8..16]);
      Cut(src, 4, 8, 16, |src|, |src|);
  }
}
