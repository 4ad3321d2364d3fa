/**
 The cryptographic primitives, left uninterpreted: a record of arbitrary functions. `Lawful`
 lists the only facts the proofs may use: output lengths, that Diffie-Hellman commutes, and
 that opening undoes sealing.
 */
module Crypto {
  import opened Wrappers
  import opened ByteStrings

  datatype Primitives = Primitives(
    blake2s: Bytes -> Bytes,                              // Blake2s256(data)
    hmac: (Bytes, Bytes) -> Bytes,                        // HMAC-Blake2s(key, data)
    mac16: (Bytes, Bytes) -> Bytes,                       // keyed Blake2s, 16 bytes
    mac24: (Bytes, Bytes) -> Bytes,                       // keyed Blake2s, 24 bytes
    publicKey: Bytes -> Bytes,                            // X25519 base point multiplication
    dh: (Bytes, Bytes) -> Bytes,                          // X25519(private, public)
    aeadSeal: (Bytes, Bytes, Bytes, Bytes) -> Bytes,      // key, nonce, plaintext, aad
    aeadOpen: (Bytes, Bytes, Bytes, Bytes) -> Option<Bytes>,
    xaeadSeal: (Bytes, Bytes, Bytes, Bytes) -> Bytes,     // XChaCha20-Poly1305
    xaeadOpen: (Bytes, Bytes, Bytes, Bytes) -> Option<Bytes>)
  {
    ghost predicate Lawful() {
      && (forall d :: |blake2s(d)| == 32)
      && (forall k, d :: |hmac(k, d)| == 32)
      && (forall k, d :: |mac16(k, d)| == 16)
      && (forall k, d :: |mac24(k, d)| == 24)
      && (forall s :: |publicKey(s)| == 32)
      && (forall a, b :: dh(a, publicKey(b)) == dh(b, publicKey(a)))
      && (forall k, n, p, a :: |aeadSeal(k, n, p, a)| == |p| + 16)
      && (forall k, n, p, a :: aeadOpen(k, n, aeadSeal(k, n, p, a), a) == Some(p))
      && (forall k, n, p, a :: |xaeadSeal(k, n, p, a)| == |p| + 16)
      && (forall k, n, p, a :: xaeadOpen(k, n, xaeadSeal(k, n, p, a), a) == Some(p))
    }

    function Hash(data1: Bytes, data2: Bytes): Bytes {
      blake2s(data1 + data2)
    }

    function Hmac2(key: Bytes, data1: Bytes, data2: Bytes): Bytes {
      hmac(key, data1 + data2)
    }

    /** ChaCha20-Poly1305 under a 64-bit counter nonce. */
    function Seal(key: Bytes, counter: nat, data: Bytes, aad: Bytes): Bytes {
      aeadSeal(key, CounterNonce(counter), data, aad)
    }

    function Open(key: Bytes, counter: nat, data: Bytes, aad: Bytes): Option<Bytes> {
      aeadOpen(key, CounterNonce(counter), data, aad)
    }
  }

  function CounterNonce(counter: nat): (nonce: Bytes)
    ensures |nonce| == 12
  {
    Zeros(4) + LittleEndian(8, counter)
  }

  /** The laws can be met, so no theorem that assumes them is empty. */
  lemma LawfulPrimitivesExist()
    ensures exists c: Primitives :: c.Lawful()
  {
    var seal := (k: Bytes, n: Bytes, p: Bytes, a: Bytes) => p + Zeros(16);
    var open := (k: Bytes, n: Bytes, p: Bytes, a: Bytes) =>
      if |p| < 16 then None else Some(p[..|p| - 16]);
    var c := Primitives(
      d => Zeros(32), (k, d) => Zeros(32), (k, d) => Zeros(16), (k, d) => Zeros(24),
      s => Zeros(32), (a, b) => Zeros(32), seal, open, seal, open);
    forall k, n, p, a
      ensures c.aeadOpen(k, n, c.aeadSeal(k, n, p, a), a) == Some(p)
    {
      assert (p + Zeros(16))[..|p|] == p;
    }
    assert c.Lawful();
  }
}
