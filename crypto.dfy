/** The foreign primitives the decoder calls, as uninterpreted functions.
    ECDH on secp224r1, SHA-256, AES and GHASH are not modelled; the model only fixes the
    interface facts that the byte plumbing around them relies on. */
module Crypto {
  import opened Bytes
  import opened Wrappers

  /** The primitives, passed in as values.
      - base64Decode: `base64.b64decode`, None where it raises.
      - ecdh: `ec.derive_private_key(d, SECP224R1()).exchange(ECDH(), from_encoded_point(SECP224R1(), e))`,
        None where the point encoding or the scalar is rejected.
      - sha256: `hashlib` SHA-256.
      - aesCtr: the AES-128 counter-mode keystream step of GCM (key, IV, input).
      - gcmTag: the GCM authentication tag of a ciphertext (key, IV, ciphertext). */
  datatype Primitives = Primitives(
    base64Decode: string -> Option<seq<Byte>>,
    ecdh: (nat, seq<Byte>) -> Option<seq<Byte>>,
    sha256: seq<Byte> -> seq<Byte>,
    aesCtr: (seq<Byte>, seq<Byte>, seq<Byte>) -> seq<Byte>,
    gcmTag: (seq<Byte>, seq<Byte>, seq<Byte>) -> seq<Byte>)

  /** What the standards promise about these primitives and the model uses:
      a SHA-256 digest has 32 bytes (FIPS 180-4), counter mode preserves length and is its own
      inverse under the same key and IV, and a full GCM tag has 16 bytes (NIST SP 800-38D). */
  ghost predicate Lawful(p: Primitives)
  {
    && (forall m :: |p.sha256(m)| == 32)
    && (forall k, iv, x :: |p.aesCtr(k, iv, x)| == |x|)
    && (forall k, iv, x {:trigger p.aesCtr(k, iv, p.aesCtr(k, iv, x))} :: p.aesCtr(k, iv, p.aesCtr(k, iv, x)) == x)
    && (forall k, iv, c :: |p.gcmTag(k, iv, c)| == 16)
  }

  /** AES-GCM decryption with a detached tag (`decryptor.update(ct) + decryptor.finalize()`):
      `finalize` raises InvalidTag unless the tag matches, so no plaintext is ever returned
      for a tag that does not authenticate the ciphertext. */
  function GcmDecrypt(p: Primitives, key: seq<Byte>, iv: seq<Byte>, ciphertext: seq<Byte>, tag: seq<Byte>): (r: Option<seq<Byte>>)
    ensures r.Some? ==> tag == p.gcmTag(key, iv, ciphertext)
  {
    if tag == p.gcmTag(key, iv, ciphertext) then Some(p.aesCtr(key, iv, ciphertext)) else None
  }

  /** AES-GCM encryption, the inverse used by the sending side: (ciphertext, tag). */
  function GcmEncrypt(p: Primitives, key: seq<Byte>, iv: seq<Byte>, plaintext: seq<Byte>): (seq<Byte>, seq<Byte>)
  {
    var c := p.aesCtr(key, iv, plaintext);
    (c, p.gcmTag(key, iv, c))
  }

  lemma GcmRoundTrip(p: Primitives, key: seq<Byte>, iv: seq<Byte>, plaintext: seq<Byte>)
    requires Lawful(p)
    ensures |GcmEncrypt(p, key, iv, plaintext).0| == |plaintext|
    ensures |GcmEncrypt(p, key, iv, plaintext).1| == 16
    ensures GcmDecrypt(p, key, iv, GcmEncrypt(p, key, iv, plaintext).0, GcmEncrypt(p, key, iv, plaintext).1) == Some(plaintext)
  {
    var c := p.aesCtr(key, iv, plaintext);
    assert p.aesCtr(key, iv, c) == plaintext;
  }
}
