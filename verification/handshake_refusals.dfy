/**
 What the handshake refuses: messages whose sealed parts do not open, come from somebody else or are
 not newer leave no trace. The last part exhibits primitives under which sealed parts open with the
 right key only, and shows that forged messages and a wrong preshared key are refused there.
 */
module HandshakeRefusals {
  import opened Wrappers
  import opened ByteStrings
  import opened Crypto
  import opened Wire
  import opened Words
  import opened Sessions
  import opened Handshakes

  /** No key and no associated data open this with the first nonce. */
  ghost predicate NeverOpens(c: Primitives, sealed: Bytes) {
    forall k, a :: c.aeadOpen(k, CounterNonce(0), sealed, a) == None
  }

  /** Whatever opens it, it is not from this peer. */
  ghost predicate NeverFrom(c: Primitives, sealed: Bytes, peer: Bytes) {
    forall k, a :: c.aeadOpen(k, CounterNonce(0), sealed, a) != Some(peer)
  }

  /** Whatever opens it, it is not a timestamp newer than this. */
  ghost predicate NeverNewer(c: Primitives, sealed: Bytes, last: Tai64N) {
    forall k, a :: NotNewer(c.aeadOpen(k, CounterNonce(0), sealed, a), last)
  }

  predicate NotNewer(stamp: Option<Bytes>, last: Tai64N) {
    stamp.Some? && |stamp.value| == 12 ==> !ParseTai64N(stamp.value).After(last)
  }

  /** A response that is not awaited, or whose payload does not open, leaves no trace; one that is
      awaited and opens whatever the key is accepted. */
  lemma ResponseRefused(c: Primitives, h: Handshake, p: Packet, now: nat)
    requires p.HandshakeResponse?
    ensures AwaitedBy(h, p.receiverIdx).None? ==> ReceiveResponse(c, h, p, now) == (h, Failure(UnexpectedPacket))
    ensures AwaitedBy(h, p.receiverIdx).Some? && NeverOpens(c, p.encryptedNothing) ==>
              ReceiveResponse(c, h, p, now) == (h, Failure(InvalidAeadTag))
    ensures AwaitedBy(h, p.receiverIdx).Some?
            && (forall k, a :: c.aeadOpen(k, CounterNonce(0), p.encryptedNothing, a).Some?) ==>
              ReceiveResponse(c, h, p, now).1.Success?
  {
  }

  /** A response is awaited exactly under the index of one of the two initiations in flight. */
  lemma AwaitedExactlyWhen(h: Handshake, index: nat)
    ensures AwaitedBy(h, index).Some? <==>
            || (h.state.InitSent? && h.state.localIndex == index)
            || (h.previous.InitSent? && h.previous.localIndex == index)
  {
  }

  /** An initiation is refused, without a trace, if its static key does not open or is not the peer's,
      or if its timestamp does not open, is not one, or is not newer. */
  lemma InitiationRefused(c: Primitives, h: Handshake, p: Packet, cap: nat, ephemeral: Bytes)
    requires p.HandshakeInit?
    ensures NeverOpens(c, p.encryptedStatic) ==>
              ReceiveInitiation(c, h, p, cap, ephemeral) == (h, Failure(InvalidAeadTag))
    ensures NeverFrom(c, p.encryptedStatic, h.params.peerStaticPublic)
            || NeverNewer(c, p.encryptedTimestamp, h.lastTimestamp) ==>
              ReceiveInitiation(c, h, p, cap, ephemeral).0 == h
              && ReceiveInitiation(c, h, p, cap, ephemeral).1.Failure?
  {
  }

  // ---------------------------------------------------------------- primitives that check

  /** Cut or filled up to 32 bytes. */
  function Fit(b: Bytes): (r: Bytes)
    ensures |r| == 32
  {
    if |b| >= 32 then b[..32] else b + Zeros(32 - |b|)
  }

  /** An extraction has its input for a result, an expansion (over one byte, or 32 and one) its key. */
  function Mac(k: Bytes, d: Bytes): Bytes {
    if |d| == 1 || |d| == 33 then Fit(k) else Fit(d)
  }

  function Tag(k: Bytes): (t: Bytes)
    ensures |t| == 16
  {
    [1] + Fit(k)[..15]
  }

  function TaggedSeal(k: Bytes, n: Bytes, p: Bytes, a: Bytes): (s: Bytes)
    ensures |s| == |p| + 16
  {
    p + Tag(k)
  }

  function TaggedOpen(k: Bytes, n: Bytes, s: Bytes, a: Bytes): Option<Bytes> {
    if |s| < 16 || s[|s| - 16..] != Tag(k) then None else Some(s[..|s| - 16])
  }

  /** Primitives that are no good but lawful: a sealed part opens only under a key that begins as the
      one it was sealed with. */
  ghost predicate Checking(c: Primitives) {
    && c.Lawful()
    && (forall k, d :: c.hmac(k, d) == Mac(k, d))
    && (forall k, n, p, a :: c.aeadSeal(k, n, p, a) == TaggedSeal(k, n, p, a))
    && (forall k, n, s, a :: c.aeadOpen(k, n, s, a) == TaggedOpen(k, n, s, a))
  }

  lemma CheckingPrimitivesExist()
    ensures exists c: Primitives :: Checking(c)
  {
    var c := Primitives(d => Zeros(32), Mac, (k, d) => Zeros(16), (k, d) => Zeros(24), s => Zeros(32),
                        (a, b) => Zeros(32), TaggedSeal, TaggedOpen, TaggedSeal, TaggedOpen);
    forall k, n, p, a
      ensures |TaggedSeal(k, n, p, a)| == |p| + 16 && TaggedOpen(k, n, TaggedSeal(k, n, p, a), a) == Some(p)
    {
      SealedOpens(k, n, p, a);
    }
    hide TaggedSeal, TaggedOpen;
    assert Checking(c);
  }

  lemma SealedOpens(k: Bytes, n: Bytes, p: Bytes, a: Bytes)
    ensures |TaggedSeal(k, n, p, a)| == |p| + 16 && TaggedOpen(k, n, TaggedSeal(k, n, p, a), a) == Some(p)
  {
    var s := TaggedSeal(k, n, p, a);
    assert s[|s| - 16..] == Tag(k) && s[..|s| - 16] == p;
  }

  lemma ForgedNeverOpens(c: Primitives)
    requires Checking(c)
    ensures NeverOpens(c, Zeros(16))
  {
    forall k, a
      ensures TaggedOpen(k, CounterNonce(0), Zeros(16), a) == None
    {
      assert Tag(k)[0] == 1 && Zeros(16)[0..] == Zeros(16);
    }
  }

  /** A forged response under the right index is refused, and the initiation stays in flight. */
  lemma ForgedResponseRefused(c: Primitives, h: Handshake, index: nat, now: nat)
    requires Checking(c) && h.state.InitSent? && h.state.localIndex == index
    ensures ReceiveResponse(c, h, HandshakeResponse(7, index, Zeros(32), Zeros(16)), now) ==
            (h, Failure(InvalidAeadTag))
  {
    ForgedNeverOpens(c);
    hide Checking;
    ResponseRefused(c, h, HandshakeResponse(7, index, Zeros(32), Zeros(16)), now);
  }

  /** So is an initiation with a forged static key or timestamp. */
  lemma ForgedInitiationRefused(c: Primitives, h: Handshake, index: nat, e: Bytes, other: Bytes, cap: nat,
                                ephemeral: Bytes)
    requires Checking(c)
    ensures ReceiveInitiation(c, h, HandshakeInit(index, e, Zeros(16), other), cap, ephemeral) ==
            (h, Failure(InvalidAeadTag))
    ensures var (h', r) := ReceiveInitiation(c, h, HandshakeInit(index, e, other, Zeros(16)), cap, ephemeral);
            h' == h && r.Failure?
  {
    ForgedNeverOpens(c);
    hide Checking, ReceiveInitiation;
    InitiationRefused(c, h, HandshakeInit(index, e, Zeros(16), other), cap, ephemeral);
    InitiationRefused(c, h, HandshakeInit(index, e, other, Zeros(16)), cap, ephemeral);
  }

  /** Here the key that closes a response is the preshared key. */
  lemma ClosingKey(c: Primitives, hash: Bytes, ck: Bytes, e: Bytes, ee: Bytes, se: Bytes, psk: Option<Bytes>)
    requires Checking(c) && (psk.Some? ==> |psk.value| == 32)
    ensures CloseResponse(c, hash, ck, e, ee, se, psk).2 == PresharedOrZeros(psk)
  {
    var ck3 := MixKey(c, MixKey(c, MixKey(c, ck, e), ee), se);
    var p := PresharedOrZeros(psk);
    assert p[..32] == p;
    var temp := c.hmac(ck3, p);
    var next := c.hmac(temp, [1]);
    assert temp == p && next == p[..32] == p;
    assert |next + [2]| == 33 && c.Hmac2(temp, next, [2]) == p;
    assert |p + [3]| == 33;
  }

  /** A response closed with another preshared key, everything else being right, is refused, unless
      the keys begin alike. */
  lemma WrongPresharedKeyRefused(c: Primitives, h: Handshake, sender: nat, e: Bytes, psk: Option<Bytes>, now: nat)
    requires Checking(c) && h.state.InitSent? && (psk.Some? ==> |psk.value| == 32)
    requires h.params.presharedKey.Some? ==> |h.params.presharedKey.value| == 32
    ensures var sent := h.state;
            var ee, se := c.dh(sent.ephemeralPrivate, e), c.dh(h.params.staticPrivate, e);
            var (hash, _, key) := CloseResponse(c, sent.hash, sent.chainingKey, e, ee, se, psk);
            var p := HandshakeResponse(sender, sent.localIndex, e, c.Seal(key, 0, [], hash));
            if PresharedOrZeros(psk)[..15] == PresharedOrZeros(h.params.presharedKey)[..15]
            then ReceiveResponse(c, h, p, now).1.Success?
            else ReceiveResponse(c, h, p, now) == (h, Failure(InvalidAeadTag))
  {
    var sent := h.state;
    var ee, se := c.dh(sent.ephemeralPrivate, e), c.dh(h.params.staticPrivate, e);
    ClosingKey(c, sent.hash, sent.chainingKey, e, ee, se, psk);
    ClosingKey(c, sent.hash, sent.chainingKey, e, ee, se, h.params.presharedKey);
    var (hash, _, key) := CloseResponse(c, sent.hash, sent.chainingKey, e, ee, se, psk);
    var (mine, _, k) := CloseResponse(c, sent.hash, sent.chainingKey, e, ee, se, h.params.presharedKey);
    EmptySealOpens(c, key, hash, k, mine);
    hide CloseResponse, TransportKeys, Checking;
  }

  lemma EmptySealOpens(c: Primitives, key: Bytes, hash: Bytes, k: Bytes, mine: Bytes)
    requires Checking(c) && |key| == |k| == 32
    ensures c.Open(k, 0, c.Seal(key, 0, [], hash), mine).Some? <==> key[..15] == k[..15]
  {
    TagsAgree(key, k);
    hide Tag;
    var sealed := c.Seal(key, 0, [], hash);
    assert sealed == Tag(key) && sealed[|sealed| - 16..] == sealed;
  }

  lemma TagsAgree(key: Bytes, k: Bytes)
    requires |key| == |k| == 32
    ensures Tag(key) == Tag(k) <==> key[..15] == k[..15]
  {
    assert Tag(key)[1..] == key[..15] && Tag(k)[1..] == k[..15];
  }
}
