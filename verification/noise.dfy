/**
 The handshake against its reference: the symmetric state and the message patterns of the Noise
 protocol framework (sections 5.2 and 9), run token by token over the pattern IKpsk2. The messages
 that are sent are the ones the pattern writes, and a message is accepted exactly when the pattern
 reads it.
 */
module Noise {
  import opened Wrappers
  import opened ByteStrings
  import opened Crypto
  import opened Wire
  import opened Words
  import opened ReplayWindow
  import opened Sessions
  import opened Handshakes

  // ---------------------------------------------------------------- the symmetric state

  /** Output i of HKDF; the outputs are numbered from 1. */
  function Hkdf(c: Primitives, chainingKey: Bytes, input: Bytes, i: nat): Bytes
    requires 1 <= i < 256
  {
    c.hmac(c.hmac(chainingKey, input), (if i == 1 then [] else Hkdf(c, chainingKey, input, i - 1)) + [i])
  }

  /** Handshake hash, chaining key and cipher key; every cipher key is used once, with nonce 0. */
  datatype Symmetric = Symmetric(h: Bytes, ck: Bytes, k: Bytes)
  {
    function MixHash(c: Primitives, data: Bytes): Symmetric {
      this.(h := c.blake2s(h + data))
    }

    function MixKey(c: Primitives, input: Bytes): Symmetric {
      Symmetric(h, Hkdf(c, ck, input, 1), Hkdf(c, ck, input, 2))
    }

    function MixKeyAndHash(c: Primitives, input: Bytes): Symmetric {
      Symmetric(h, Hkdf(c, ck, input, 1), Hkdf(c, ck, input, 3)).MixHash(c, Hkdf(c, ck, input, 2))
    }

    /** The keys of the two directions, that of the initiator first. */
    function Split(c: Primitives): (Bytes, Bytes) {
      (Hkdf(c, ck, [], 1), Hkdf(c, ck, [], 2))
    }
  }

  /** What a token asks for: a public key in the clear, a shared secret, a preshared key, or a sealed
      part, given by its plaintext when it is written and by its ciphertext when it is read. */
  datatype Token = Ephemeral(key: Bytes) | Shared(secret: Bytes) | Psk(key: Bytes) | Sealed(data: Bytes)

  /** What a key does to the state. */
  function Mix(c: Primitives, s: Symmetric, t: Token): Symmetric
    requires !t.Sealed?
  {
    match t
    case Ephemeral(e) => s.MixHash(c, e).MixKey(c, e)
    case Shared(secret) => s.MixKey(c, secret)
    case Psk(psk) => s.MixKeyAndHash(c, psk)
  }

  /** The state after writing some tokens, and the sealed parts written. */
  function Write(c: Primitives, s: Symmetric, tokens: seq<Token>): (Symmetric, seq<Bytes>)
    decreases |tokens|
  {
    if tokens == [] then (s, [])
    else if !tokens[0].Sealed? then Write(c, Mix(c, s, tokens[0]), tokens[1..])
    else
      var sealed := c.aeadSeal(s.k, Zeros(12), tokens[0].data, s.h);
      var (after, rest) := Write(c, s.MixHash(c, sealed), tokens[1..]);
      (after, [sealed] + rest)
  }

  /** The state after reading some tokens, and the plaintexts, unless a sealed part does not open. */
  function Read(c: Primitives, s: Symmetric, tokens: seq<Token>): Option<(Symmetric, seq<Bytes>)>
    decreases |tokens|
  {
    if tokens == [] then Some((s, []))
    else if !tokens[0].Sealed? then Read(c, Mix(c, s, tokens[0]), tokens[1..])
    else
      var plain := c.aeadOpen(s.k, Zeros(12), tokens[0].data, s.h);
      var rest := Read(c, s.MixHash(c, tokens[0].data), tokens[1..]);
      if plain.None? || rest.None? then None else Some((rest.value.0, [plain.value] + rest.value.1))
  }

  lemma WriteKey(c: Primitives, s: Symmetric, t: Token, rest: seq<Token>)
    requires !t.Sealed?
    ensures Write(c, s, [t] + rest) == Write(c, Mix(c, s, t), rest)
    ensures Read(c, s, [t] + rest) == Read(c, Mix(c, s, t), rest)
  {
    assert ([t] + rest)[1..] == rest;
  }

  lemma WriteSealed(c: Primitives, s: Symmetric, plain: Bytes, rest: seq<Token>)
    ensures var sealed := c.aeadSeal(s.k, Zeros(12), plain, s.h);
            var (after, more) := Write(c, s.MixHash(c, sealed), rest);
            Write(c, s, [Sealed(plain)] + rest) == (after, [sealed] + more)
  {
    assert ([Sealed(plain)] + rest)[1..] == rest;
  }

  lemma ReadSealed(c: Primitives, s: Symmetric, sealed: Bytes, rest: seq<Token>)
    ensures var plain := c.aeadOpen(s.k, Zeros(12), sealed, s.h);
            var more := Read(c, s.MixHash(c, sealed), rest);
            Read(c, s, [Sealed(sealed)] + rest) ==
            if plain.None? || more.None? then None else Some((more.value.0, [plain.value] + more.value.1))
  {
    assert ([Sealed(sealed)] + rest)[1..] == rest;
  }

  lemma NoTokens(c: Primitives, s: Symmetric)
    ensures Write(c, s, []) == (s, []) && Read(c, s, []) == Some((s, []))
  {
  }

  /** The tokens a reader is given for those that were written: ciphertexts for plaintexts. */
  function Received(c: Primitives, s: Symmetric, tokens: seq<Token>): (r: seq<Token>)
    ensures |r| == |tokens|
    decreases |tokens|
  {
    if tokens == [] then []
    else if !tokens[0].Sealed? then [tokens[0]] + Received(c, Mix(c, s, tokens[0]), tokens[1..])
    else
      var sealed := c.aeadSeal(s.k, Zeros(12), tokens[0].data, s.h);
      [Sealed(sealed)] + Received(c, s.MixHash(c, sealed), tokens[1..])
  }

  function Plaintexts(tokens: seq<Token>): seq<Bytes> {
    if tokens == [] then []
    else (if tokens[0].Sealed? then [tokens[0].data] else []) + Plaintexts(tokens[1..])
  }

  /** What is written is read, on any lawful primitives: the same state and the plaintexts. */
  lemma {:induction false} WrittenIsRead(c: Primitives, s: Symmetric, tokens: seq<Token>)
    requires c.Lawful()
    ensures Read(c, s, Received(c, s, tokens)) == Some((Write(c, s, tokens).0, Plaintexts(tokens)))
    decreases |tokens|
  {
    if tokens != [] {
      var t := tokens[0];
      var received := Received(c, s, tokens);
      if t.Sealed? {
        var sealed := c.aeadSeal(s.k, Zeros(12), t.data, s.h);
        WrittenIsRead(c, s.MixHash(c, sealed), tokens[1..]);
        assert received[1..] == Received(c, s.MixHash(c, sealed), tokens[1..]);
      } else {
        WrittenIsRead(c, Mix(c, s, t), tokens[1..]);
        assert received[1..] == Received(c, Mix(c, s, t), tokens[1..]);
        assert [] + Plaintexts(tokens[1..]) == Plaintexts(tokens[1..]);
      }
    }
  }

  // ---------------------------------------------------------------- the pattern

  /** Before the first message: the protocol name and the prologue are hashed into the constants, and
      the responder's public key is known. */
  function Before(c: Primitives, responder: Bytes): Symmetric {
    Symmetric(INITIAL_CHAIN_HASH, INITIAL_CHAIN_KEY, []).MixHash(c, responder)
  }

  /** -> e, es, s, ss, payload */
  function FirstMessage(e: Bytes, es: Bytes, s: Bytes, ss: Bytes, payload: Bytes): seq<Token> {
    [Ephemeral(e), Shared(es), Sealed(s), Shared(ss), Sealed(payload)]
  }

  /** <- e, ee, se, psk, payload */
  function SecondMessage(e: Bytes, ee: Bytes, se: Bytes, psk: Option<Bytes>, payload: Bytes): seq<Token> {
    [Ephemeral(e), Shared(ee), Shared(se), Psk(if psk.Some? then psk.value else seq(32, _ => 0)), Sealed(payload)]
  }

  /** What is left in a handshake slot of the symmetric state. */
  function Resumed(hash: Bytes, chainingKey: Bytes): Symmetric {
    Symmetric(hash, chainingKey, [])
  }

  lemma NonceIsZero()
    ensures CounterNonce(0) == Zeros(12)
  {
    var n := LittleEndian(8, 0);
    NoBytes(8);
  }

  lemma {:induction false} NoBytes(n: nat)
    ensures LittleEndian(n, 0) == Zeros(n)
  {
    if n > 0 {
      NoBytes(n - 1);
      assert [0] + Zeros(n - 1) == Zeros(n);
    }
  }

  lemma {:induction false} HkdfFirst(c: Primitives, ck: Bytes, input: Bytes)
    ensures Hkdf(c, ck, input, 1) == c.hmac(c.hmac(ck, input), [1])
    ensures Hkdf(c, ck, input, 2) == c.hmac(c.hmac(ck, input), Hkdf(c, ck, input, 1) + [2])
    ensures Hkdf(c, ck, input, 3) == c.hmac(c.hmac(ck, input), Hkdf(c, ck, input, 2) + [3])
  {
    assert [] + [1] == [1];
  }

  // ---------------------------------------------------------------- the first message

  lemma KeysByHkdf(c: Primitives, ck: Bytes, input: Bytes)
    ensures MixKey(c, ck, input) == Hkdf(c, ck, input, 1)
    ensures MixKey2(c, ck, input) == (Hkdf(c, ck, input, 1), Hkdf(c, ck, input, 2))
    ensures MixKey3(c, ck, input) == (Hkdf(c, ck, input, 1), Hkdf(c, ck, input, 2), Hkdf(c, ck, input, 3))
  {
    HkdfFirst(c, ck, input);
  }

  lemma OpenedByTokens(c: Primitives, responder: Bytes, e: Bytes, es: Bytes)
    ensures var s := Before(c, responder).MixHash(c, e).MixKey(c, e).MixKey(c, es);
            OpenInitiation(c, responder, e, es) == (s.h, s.ck, s.k)
  {
    hide Hkdf, MixKey, MixKey2;
    KeysByHkdf(c, INITIAL_CHAIN_KEY, e);
    KeysByHkdf(c, Hkdf(c, INITIAL_CHAIN_KEY, e, 1), es);
  }

  /** The initiation is the first message of the pattern, and the state kept is the one after it. */
  lemma InitiationIsNoise(c: Primitives, p: Params, index: nat, ephemeral: Bytes, stamp: Bytes, now: nat)
    ensures var (packet, sent) := InitiationMessage(c, p, index, ephemeral, stamp, now);
            var e := c.publicKey(ephemeral);
            var (s, sealed) := Write(c, Before(c, p.peerStaticPublic),
                                     FirstMessage(e, c.dh(ephemeral, p.peerStaticPublic), p.staticPublic,
                                                  p.staticShared, stamp));
            && |sealed| == 2
            && packet == HandshakeInit(index, e, sealed[0], sealed[1])
            && sent == InitSent(index, s.h, s.ck, ephemeral, now)
  {
    hide Hkdf, MixKey, MixKey2, OpenInitiation;
    var e, es := c.publicKey(ephemeral), c.dh(ephemeral, p.peerStaticPublic);
    NonceIsZero();
    OpenedByTokens(c, p.peerStaticPublic, e, es);
    var s1 := Before(c, p.peerStaticPublic).MixHash(c, e).MixKey(c, e).MixKey(c, es);
    KeysByHkdf(c, s1.ck, p.staticShared);
    WriteFirst(c, Before(c, p.peerStaticPublic), e, es, p.staticPublic, p.staticShared, stamp);
  }

  lemma WriteFirst(c: Primitives, b: Symmetric, e: Bytes, es: Bytes, plain: Bytes, ss: Bytes, payload: Bytes)
    ensures var s1 := b.MixHash(c, e).MixKey(c, e).MixKey(c, es);
            var sealed := c.aeadSeal(s1.k, Zeros(12), plain, s1.h);
            var s2 := s1.MixHash(c, sealed).MixKey(c, ss);
            var stamp := c.aeadSeal(s2.k, Zeros(12), payload, s2.h);
            Write(c, b, FirstMessage(e, es, plain, ss, payload)) == (s2.MixHash(c, stamp), [sealed, stamp])
  {
    hide Hkdf, Write;
    var last := [Sealed(payload)] + [];
    var third := [Sealed(plain)] + ([Shared(ss)] + last);
    assert FirstMessage(e, es, plain, ss, payload) == [Ephemeral(e)] + ([Shared(es)] + third);
    var s0 := b.MixHash(c, e).MixKey(c, e);
    var s1 := s0.MixKey(c, es);
    var sealed := c.aeadSeal(s1.k, Zeros(12), plain, s1.h);
    var s2 := s1.MixHash(c, sealed).MixKey(c, ss);
    WriteKey(c, b, Ephemeral(e), [Shared(es)] + third);
    WriteKey(c, s0, Shared(es), third);
    WriteSealed(c, s1, plain, [Shared(ss)] + last);
    WriteKey(c, s1.MixHash(c, sealed), Shared(ss), last);
    WriteSealed(c, s2, payload, []);
    var stamp := c.aeadSeal(s2.k, Zeros(12), payload, s2.h);
    NoTokens(c, s2.MixHash(c, stamp));
    assert [sealed] + ([stamp] + []) == [sealed, stamp];
  }

  lemma ReadFirst(c: Primitives, b: Symmetric, e: Bytes, es: Bytes, sealed: Bytes, ss: Bytes, stamp: Bytes)
    ensures var s1 := b.MixHash(c, e).MixKey(c, e).MixKey(c, es);
            var s2 := s1.MixHash(c, sealed).MixKey(c, ss);
            var first := c.aeadOpen(s1.k, Zeros(12), sealed, s1.h);
            var second := c.aeadOpen(s2.k, Zeros(12), stamp, s2.h);
            && Read(c, b, FirstMessage(e, es, sealed, ss, stamp)[..3]) ==
               (if first.None? then None else Some((s1.MixHash(c, sealed), [first.value])))
            && Read(c, b, FirstMessage(e, es, sealed, ss, stamp)) ==
               (if first.None? || second.None? then None
                else Some((s2.MixHash(c, stamp), [first.value, second.value])))
  {
    hide Hkdf, Read;
    var last := [Sealed(stamp)] + [];
    var third := [Sealed(sealed)] + ([Shared(ss)] + last);
    var half := [Sealed(sealed)] + [];
    assert FirstMessage(e, es, sealed, ss, stamp) == [Ephemeral(e)] + ([Shared(es)] + third);
    assert FirstMessage(e, es, sealed, ss, stamp)[..3] == [Ephemeral(e)] + ([Shared(es)] + half);
    var s0 := b.MixHash(c, e).MixKey(c, e);
    var s1 := s0.MixKey(c, es);
    var s2 := s1.MixHash(c, sealed).MixKey(c, ss);
    WriteKey(c, b, Ephemeral(e), [Shared(es)] + third);
    WriteKey(c, b, Ephemeral(e), [Shared(es)] + half);
    WriteKey(c, s0, Shared(es), third);
    WriteKey(c, s0, Shared(es), half);
    ReadSealed(c, s1, sealed, []);
    NoTokens(c, s1.MixHash(c, sealed));
    ReadSealed(c, s1, sealed, [Shared(ss)] + last);
    WriteKey(c, s1.MixHash(c, sealed), Shared(ss), last);
    ReadSealed(c, s2, stamp, []);
    NoTokens(c, s2.MixHash(c, stamp));
    var first := c.aeadOpen(s1.k, Zeros(12), sealed, s1.h);
    var second := c.aeadOpen(s2.k, Zeros(12), stamp, s2.h);
    assert first.Some? ==> [first.value] + [] == [first.value];
    assert first.Some? && second.Some? ==> [first.value] + ([second.value] + []) == [first.value, second.value];
  }

  /** What a responder reads of the first message up to the static key, and of the whole message. */
  function ReadInitiation(c: Primitives, staticPrivate: Bytes, staticPublic: Bytes, ss: Bytes, p: Packet, n: nat)
    : Option<(Symmetric, seq<Bytes>)>
    requires p.HandshakeInit? && n <= 5
  {
    Read(c, Before(c, staticPublic),
         FirstMessage(p.ephemeral, c.dh(staticPrivate, p.ephemeral), p.encryptedStatic, ss, p.encryptedTimestamp)[..n])
  }

  /** An initiation is accepted if and only if the pattern reads it, it comes from the peer, and its
      payload is a timestamp newer than the last accepted one; what is kept is the state after it. In
      every other case the error tells which of these failed first. */
  lemma InitiationAcceptedExactlyWhen(c: Primitives, h: Handshake, p: Packet)
    requires p.HandshakeInit?
    ensures var q := h.params;
            var first := ReadInitiation(c, q.staticPrivate, q.staticPublic, q.staticShared, p, 3);
            var whole := ReadInitiation(c, q.staticPrivate, q.staticPublic, q.staticShared, p, 5);
            && (first.Some? ==> |first.value.1| == 1) && (whole.Some? ==> first.Some? && |whole.value.1| == 2)
            && CheckInitiation(c, h, p) ==
               if first.None? then Failure(InvalidAeadTag)
               else if first.value.1[0] != q.peerStaticPublic then Failure(WrongKey)
               else if whole.None? || |whole.value.1[1]| != 12 then Failure(InvalidAeadTag)
               else if !ParseTai64N(whole.value.1[1]).After(h.lastTimestamp) then Failure(WrongTai64nTimestamp)
               else Success((ParseTai64N(whole.value.1[1]),
                             InitReceived(whole.value.0.h, whole.value.0.ck, p.ephemeral, p.senderIdx)))
  {
    hide Hkdf, MixKey, MixKey2, OpenInitiation;
    var q := h.params;
    var es := c.dh(q.staticPrivate, p.ephemeral);
    var b := Before(c, q.staticPublic);
    NonceIsZero();
    OpenedByTokens(c, q.staticPublic, p.ephemeral, es);
    KeysByHkdf(c, b.MixHash(c, p.ephemeral).MixKey(c, p.ephemeral).MixKey(c, es).ck, q.staticShared);
    ReadFirst(c, b, p.ephemeral, es, p.encryptedStatic, q.staticShared, p.encryptedTimestamp);
    var tokens := FirstMessage(p.ephemeral, es, p.encryptedStatic, q.staticShared, p.encryptedTimestamp);
    assert tokens[..5] == tokens;
  }

  /** The sender of an initiation is named from the same reading, without a peer being known. */
  lemma AnonymousReading(c: Primitives, staticPrivate: Bytes, staticPublic: Bytes, ss: Bytes, p: Packet)
    requires p.HandshakeInit?
    ensures var first := ReadInitiation(c, staticPrivate, staticPublic, ss, p, 3);
            && (first.Some? ==> |first.value.1| == 1)
            && ParseHandshakeAnon(c, staticPrivate, staticPublic, p) ==
               if first.None? then Failure(InvalidAeadTag) else Success(HalfHandshake(p.senderIdx, first.value.1[0]))
  {
    hide Hkdf, MixKey, MixKey2, OpenInitiation;
    NonceIsZero();
    var es := c.dh(staticPrivate, p.ephemeral);
    OpenedByTokens(c, staticPublic, p.ephemeral, es);
    ReadFirst(c, Before(c, staticPublic), p.ephemeral, es, p.encryptedStatic, ss, p.encryptedTimestamp);
  }

  // ---------------------------------------------------------------- the second message

  /** The state before the payload of the second message. */
  function BeforePayload(c: Primitives, b: Symmetric, e: Bytes, ee: Bytes, se: Bytes, psk: Option<Bytes>): Symmetric {
    b.MixHash(c, e).MixKey(c, e).MixKey(c, ee).MixKey(c, se)
    .MixKeyAndHash(c, if psk.Some? then psk.value else seq(32, _ => 0))
  }

  lemma ToPayload(c: Primitives, b: Symmetric, e: Bytes, ee: Bytes, se: Bytes, psk: Option<Bytes>, data: Bytes)
    ensures var s := BeforePayload(c, b, e, ee, se, psk);
            && Write(c, b, SecondMessage(e, ee, se, psk, data)) == Write(c, s, [Sealed(data)] + [])
            && Read(c, b, SecondMessage(e, ee, se, psk, data)) == Read(c, s, [Sealed(data)] + [])
  {
    hide Hkdf, Write, Read;
    var key := if psk.Some? then psk.value else seq(32, _ => 0);
    var last := [Sealed(data)] + [];
    assert SecondMessage(e, ee, se, psk, data) ==
           [Ephemeral(e)] + ([Shared(ee)] + ([Shared(se)] + ([Psk(key)] + last)));
    var s0 := b.MixHash(c, e).MixKey(c, e);
    var s1 := s0.MixKey(c, ee);
    WriteKey(c, b, Ephemeral(e), [Shared(ee)] + ([Shared(se)] + ([Psk(key)] + last)));
    WriteKey(c, s0, Shared(ee), [Shared(se)] + ([Psk(key)] + last));
    WriteKey(c, s1, Shared(se), [Psk(key)] + last);
    WriteKey(c, s1.MixKey(c, se), Psk(key), last);
  }

  lemma WriteSecond(c: Primitives, b: Symmetric, e: Bytes, ee: Bytes, se: Bytes, psk: Option<Bytes>)
    ensures var s := BeforePayload(c, b, e, ee, se, psk);
            var sealed := c.aeadSeal(s.k, Zeros(12), [], s.h);
            Write(c, b, SecondMessage(e, ee, se, psk, [])) == (s.MixHash(c, sealed), [sealed])
  {
    hide Hkdf, Write;
    var s := BeforePayload(c, b, e, ee, se, psk);
    ToPayload(c, b, e, ee, se, psk, []);
    WriteSealed(c, s, [], []);
    var sealed := c.aeadSeal(s.k, Zeros(12), [], s.h);
    NoTokens(c, s.MixHash(c, sealed));
    assert [sealed] + [] == [sealed];
  }

  lemma ReadSecond(c: Primitives, b: Symmetric, e: Bytes, ee: Bytes, se: Bytes, psk: Option<Bytes>, sealed: Bytes)
    ensures var s := BeforePayload(c, b, e, ee, se, psk);
            var plain := c.aeadOpen(s.k, Zeros(12), sealed, s.h);
            Read(c, b, SecondMessage(e, ee, se, psk, sealed)) ==
            if plain.None? then None else Some((s.MixHash(c, sealed), [plain.value]))
  {
    hide Hkdf, Read;
    var s := BeforePayload(c, b, e, ee, se, psk);
    ToPayload(c, b, e, ee, se, psk, sealed);
    ReadSealed(c, s, sealed, []);
    NoTokens(c, s.MixHash(c, sealed));
    var plain := c.aeadOpen(s.k, Zeros(12), sealed, s.h);
    assert plain.Some? ==> [plain.value] + [] == [plain.value];
  }

  lemma ClosedByTokens(c: Primitives, hash: Bytes, ck: Bytes, e: Bytes, ee: Bytes, se: Bytes, psk: Option<Bytes>)
    ensures var s := BeforePayload(c, Resumed(hash, ck), e, ee, se, psk);
            CloseResponse(c, hash, ck, e, ee, se, psk) == (s.h, s.ck, s.k)
  {
    hide Hkdf, MixKey, MixKey3;
    var ck1 := Hkdf(c, ck, e, 1);
    var ck2 := Hkdf(c, ck1, ee, 1);
    var ck3 := Hkdf(c, ck2, se, 1);
    KeysByHkdf(c, ck, e);
    KeysByHkdf(c, ck1, ee);
    KeysByHkdf(c, ck2, se);
    KeysByHkdf(c, ck3, PresharedOrZeros(psk));
  }

  lemma SplitIsTransport(c: Primitives, s: Symmetric)
    ensures TransportKeys(c, s.ck) == s.Split(c)
  {
    HkdfFirst(c, s.ck, []);
  }

  /** The response is the second message of the pattern; the responder receives under the key of the
      initiator's direction and sends under the other. */
  lemma ResponseIsNoise(c: Primitives, p: Params, received: HandshakeState, index: nat, ephemeral: Bytes)
    requires received.InitReceived?
    ensures var (packet, session) := ResponseMessage(c, p, received, index, ephemeral);
            var e := c.publicKey(ephemeral);
            var (s, sealed) := Write(c, Resumed(received.hash, received.chainingKey),
                                     SecondMessage(e, c.dh(ephemeral, received.peerEphemeral),
                                                   c.dh(ephemeral, p.peerStaticPublic), p.presharedKey, []));
            && |sealed| == 1
            && packet == HandshakeResponse(index, received.peerIndex, e, sealed[0])
            && session == SessionState(index, received.peerIndex, s.Split(c).0, s.Split(c).1, 0, Window(0, {}), 0)
  {
    hide Hkdf, CloseResponse, TransportKeys;
    var e := c.publicKey(ephemeral);
    var ee, se := c.dh(ephemeral, received.peerEphemeral), c.dh(ephemeral, p.peerStaticPublic);
    var b := Resumed(received.hash, received.chainingKey);
    NonceIsZero();
    ClosedByTokens(c, received.hash, received.chainingKey, e, ee, se, p.presharedKey);
    SplitIsTransport(c, BeforePayload(c, b, e, ee, se, p.presharedKey));
    WriteSecond(c, b, e, ee, se, p.presharedKey);
  }

  function ReadResponse(c: Primitives, q: Params, sent: HandshakeState, p: Packet): Option<(Symmetric, seq<Bytes>)>
    requires p.HandshakeResponse? && sent.InitSent?
  {
    Read(c, Resumed(sent.hash, sent.chainingKey),
         SecondMessage(p.ephemeral, c.dh(sent.ephemeralPrivate, p.ephemeral), c.dh(q.staticPrivate, p.ephemeral),
                       q.presharedKey, p.encryptedNothing))
  }

  /** A response is accepted if and only if one of the initiations in flight awaits it and the pattern
      reads it from there; then the initiator has the keys of the pattern, and the slot is free. In
      every other case nothing changes. */
  lemma ResponseAcceptedExactlyWhen(c: Primitives, h: Handshake, p: Packet, now: nat)
    requires p.HandshakeResponse?
    ensures var (h', r) := ReceiveResponse(c, h, p, now);
            if AwaitedBy(h, p.receiverIdx).None? then (h', r) == (h, Failure(UnexpectedPacket))
            else
              var sent := AwaitedBy(h, p.receiverIdx).value;
              var read := ReadResponse(c, h.params, sent, p);
              if read.None? then (h', r) == (h, Failure(InvalidAeadTag))
              else
                var (receiving, sending) := (read.value.0.Split(c).1, read.value.0.Split(c).0);
                && r == Success(SessionState(p.receiverIdx, p.senderIdx, receiving, sending, 0, Window(0, {}), 0))
                && (if h.state == sent then h' == h.(state := NoHandshake, lastRtt := h'.lastRtt)
                    else h' == h.(previous := NoHandshake, lastRtt := h'.lastRtt))
                && (now >= sent.timeSent ==> h'.lastRtt == Some((now - sent.timeSent) / 1_000_000 % 0x1_0000_0000))
  {
    hide Hkdf, CloseResponse, TransportKeys;
    NonceIsZero();
    if AwaitedBy(h, p.receiverIdx).Some? {
      var sent := AwaitedBy(h, p.receiverIdx).value;
      var b := Resumed(sent.hash, sent.chainingKey);
      var ee, se := c.dh(sent.ephemeralPrivate, p.ephemeral), c.dh(h.params.staticPrivate, p.ephemeral);
      ClosedByTokens(c, sent.hash, sent.chainingKey, p.ephemeral, ee, se, h.params.presharedKey);
      SplitIsTransport(c, BeforePayload(c, b, p.ephemeral, ee, se, h.params.presharedKey));
      ReadSecond(c, b, p.ephemeral, ee, se, h.params.presharedKey, p.encryptedNothing);
    }
  }
}
