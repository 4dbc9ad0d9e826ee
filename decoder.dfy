/** One location report: its fixed byte layout, the key derivation, the authenticated
    decryption and the decoding of the 10-byte plaintext (`decode_tag`). */
module ReportDecoder {
  import opened Bytes
  import opened Wrappers
  import opened Crypto

  /** Seconds between the Unix epoch and 2001-01-01, the epoch of the beacon's clock. */
  const ReferenceEpochOffset: int := 978307200

  /** The length of a report without the optional extra bytes after byte 4. */
  const BaseLength: int := 88

  /** `int.from_bytes(data[0:4], "big") + 978307200`: Unix seconds of the report. A payload
      shorter than four bytes is read as far as it goes. */
  function Timestamp(data: seq<Byte>): (r: int)
    ensures ReferenceEpochOffset <= r < ReferenceEpochOffset + TwoTo32
    ensures |data| >= 4 ==> r == BigEndian(data[..4]) + ReferenceEpochOffset
  {
    var head := PySlice(data, 0, 4);
    Pow256Monotone(|head|, 4);
    Pow256Four();
    BigEndian(head) + ReferenceEpochOffset
  }

  /** The three slices of a report, taken with `adj = len(data) - 88`. */
  datatype Frame = Frame(ephemeralKey: seq<Byte>, ciphertext: seq<Byte>, authTag: seq<Byte>)

  function FrameOf(data: seq<Byte>): Frame
  {
    var adj := |data| - BaseLength;
    Frame(PySlice(data, 5 + adj, 62 + adj), PySlice(data, 62 + adj, 72 + adj), PySlice(data, 72 + adj, |data|))
  }

  /** For a payload of at least 88 bytes every slice is in bounds, the ephemeral key has 57
      bytes, the ciphertext 10 and the tag 16, and the three slices tile the payload's tail. */
  lemma FrameLayout(data: seq<Byte>)
    requires |data| >= BaseLength
    ensures var adj := |data| - BaseLength; var f := FrameOf(data);
      && f.ephemeralKey == data[5 + adj..62 + adj] && |f.ephemeralKey| == 57
      && f.ciphertext == data[62 + adj..72 + adj] && |f.ciphertext| == 10
      && f.authTag == data[72 + adj..] && |f.authTag| == 16
      && data == data[..5 + adj] + f.ephemeralKey + f.ciphertext + f.authTag
  {
    var adj := |data| - BaseLength;
    assert data == data[..5 + adj] + data[5 + adj..62 + adj] + data[62 + adj..72 + adj] + data[72 + adj..];
  }

  /** Framing inverts assembly: any head of at least five bytes followed by a 57-byte key, a
      10-byte ciphertext and a 16-byte tag frames back into those three parts. */
  lemma {:induction false} FrameOfAssembled(head: seq<Byte>, eph: seq<Byte>, c: seq<Byte>, tag: seq<Byte>)
    requires |head| >= 5 && |eph| == 57 && |c| == 10 && |tag| == 16
    ensures FrameOf(head + eph + c + tag) == Frame(eph, c, tag)
  {
    var data := head + eph + c + tag;
    var h := |head|;
    assert |data| - BaseLength == h - 5;
    assert data[h..h + 57] == eph;
    assert data[h + 57..h + 67] == c;
    assert data[h + 67..|data|] == tag;
  }

  /** The counter `00 00 00 01` of the single-block concatenation KDF. */
  const KdfCounter: seq<Byte> := [0, 0, 0, 1]

  function KdfInput(shared: seq<Byte>, ephemeralKey: seq<Byte>): seq<Byte>
  {
    shared + KdfCounter + ephemeralKey
  }

  /** The AES key (`symmetric_key[:16]`) and the GCM IV (`symmetric_key[16:]`). */
  datatype SessionKeys = SessionKeys(key: seq<Byte>, iv: seq<Byte>)

  function SplitDigest(digest: seq<Byte>): (r: SessionKeys)
    ensures |digest| == 32 ==> |r.key| == 16 && |r.iv| == 16 && r.key + r.iv == digest
  {
    SessionKeys(PySlice(digest, 0, 16), PySlice(digest, 16, |digest|))
  }

  /** The session keys of a report: SHA-256 over `shared || 00000001 || ephemeralKey`, split in two. */
  function DeriveKeys(p: Primitives, shared: seq<Byte>, ephemeralKey: seq<Byte>): SessionKeys
  {
    SplitDigest(p.sha256(KdfInput(shared, ephemeralKey)))
  }

  lemma DeriveKeysSizes(p: Primitives, shared: seq<Byte>, ephemeralKey: seq<Byte>)
    requires Lawful(p)
    ensures var k := DeriveKeys(p, shared, ephemeralKey);
      |k.key| == 16 && |k.iv| == 16 && k.key + k.iv == p.sha256(shared + [0, 0, 0, 1] + ephemeralKey)
  {
  }

  /** The decoded plaintext: fixed-point latitude and longitude (degrees times 10^7),
      confidence and status. */
  datatype Tag = Tag(lat: Int32, lon: Int32, conf: Byte, status: Byte)

  /** `decode_tag`: `struct.unpack(">i", ...)` of bytes 0..4 and 4..8 fails unless both slices
      have four bytes; bytes 8 and 9 are read with `int.from_bytes`, which gives 0 for a
      missing byte. */
  function DecodeTag(plaintext: seq<Byte>): (r: Option<Tag>)
    ensures r.Some? <==> |plaintext| >= 8
    ensures r.Some? ==> r.value.lat == Int32BE(plaintext[0..4]) && r.value.lon == Int32BE(plaintext[4..8])
    ensures |plaintext| >= 10 ==> r.value.conf == plaintext[8] && r.value.status == plaintext[9]
    ensures |plaintext| == 9 ==> r.value.conf == plaintext[8] && r.value.status == 0
    ensures |plaintext| == 8 ==> r.value.conf == 0 && r.value.status == 0
  {
    var latBytes, lonBytes := PySlice(plaintext, 0, 4), PySlice(plaintext, 4, 8);
    if |latBytes| != 4 || |lonBytes| != 4 then None
    else Some(Tag(Int32BE(latBytes), Int32BE(lonBytes), ByteValue(PySlice(plaintext, 8, 9)), ByteValue(PySlice(plaintext, 9, 10))))
  }

  /** The 10-byte plaintext the beacon encrypts. */
  function EncodeTag(t: Tag): (r: seq<Byte>)
    ensures |r| == 10
  {
    Int32Bytes(t.lat) + Int32Bytes(t.lon) + [t.conf, t.status]
  }

  lemma DecodeEncodeTag(t: Tag)
    ensures DecodeTag(EncodeTag(t)) == Some(t)
  {
    var s := EncodeTag(t);
    assert s[0..4] == Int32Bytes(t.lat);
    assert s[4..8] == Int32Bytes(t.lon);
    Int32RoundTrip(t.lat);
    Int32RoundTrip(t.lon);
  }

  lemma EncodeDecodeTag(plaintext: seq<Byte>)
    requires |plaintext| == 10
    ensures DecodeTag(plaintext).Some? && EncodeTag(DecodeTag(plaintext).value) == plaintext
  {
    Int32BytesOfRead(plaintext[0..4]);
    Int32BytesOfRead(plaintext[4..8]);
    assert plaintext == plaintext[0..4] + plaintext[4..8] + [plaintext[8], plaintext[9]];
  }

  datatype DecodeError = InvalidPoint | AuthenticationFailed | MalformedPlaintext

  /** The report's tag authenticates its ciphertext under the keys derived from the ECDH
      secret of `priv` and the report's own ephemeral key. */
  ghost predicate Authentic(p: Primitives, priv: nat, data: seq<Byte>)
  {
    var f := FrameOf(data);
    && p.ecdh(priv, f.ephemeralKey).Some?
    && var keys := DeriveKeys(p, p.ecdh(priv, f.ephemeralKey).value, f.ephemeralKey);
       f.authTag == p.gcmTag(keys.key, keys.iv, f.ciphertext)
  }

  /** The decryption path of `process_reports` for one in-window report: ECDH with the
      57-byte slice, the KDF over the same slice, AES-GCM with the detached tag, `decode_tag`. */
  function Decode(p: Primitives, priv: nat, data: seq<Byte>): (r: Result<Tag, DecodeError>)
    ensures r.Ok? ==> Authentic(p, priv, data)
    ensures p.ecdh(priv, FrameOf(data).ephemeralKey).None? <==> r == Err(InvalidPoint)
  {
    var f := FrameOf(data);
    match p.ecdh(priv, f.ephemeralKey)
    case None => Err(InvalidPoint)
    case Some(shared) =>
      var keys := DeriveKeys(p, shared, f.ephemeralKey);
      match GcmDecrypt(p, keys.key, keys.iv, f.ciphertext, f.authTag)
      case None => Err(AuthenticationFailed)
      case Some(plaintext) =>
        match DecodeTag(plaintext)
        case None => Err(MalformedPlaintext)
        case Some(t) => Ok(t)
  }

  /** A report as the beacon builds it: the raw 32-bit time, `gap` (byte 4 and any extra
      bytes), the ephemeral key and the GCM encryption of the encoded tag. */
  function Seal(p: Primitives, rawTime: nat, gap: seq<Byte>, ephemeralKey: seq<Byte>, shared: seq<Byte>, t: Tag): seq<Byte>
  {
    var keys := DeriveKeys(p, shared, ephemeralKey);
    var sealed := GcmEncrypt(p, keys.key, keys.iv, EncodeTag(t));
    UnsignedBytes(rawTime, 4) + gap + ephemeralKey + sealed.0 + sealed.1
  }

  /** Encrypt-then-decode round trip: decoding a sealed report recovers its time and the exact
      tag, whatever the number of extra bytes. */
  lemma SealThenDecode(p: Primitives, priv: nat, rawTime: nat, gap: seq<Byte>, ephemeralKey: seq<Byte>, shared: seq<Byte>, t: Tag)
    requires Lawful(p)
    requires rawTime < TwoTo32 && |gap| >= 1 && |ephemeralKey| == 57
    requires p.ecdh(priv, ephemeralKey) == Some(shared)
    ensures var data := Seal(p, rawTime, gap, ephemeralKey, shared, t);
      && |data| == BaseLength - 1 + |gap|
      && Timestamp(data) == rawTime + ReferenceEpochOffset
      && Decode(p, priv, data) == Ok(t)
  {
    var keys := DeriveKeys(p, shared, ephemeralKey);
    var plaintext := EncodeTag(t);
    var sealed := GcmEncrypt(p, keys.key, keys.iv, plaintext);
    GcmRoundTrip(p, keys.key, keys.iv, plaintext);
    var head := UnsignedBytes(rawTime, 4) + gap;
    var data := Seal(p, rawTime, gap, ephemeralKey, shared, t);
    assert data == head + ephemeralKey + sealed.0 + sealed.1;
    FrameOfAssembled(head, ephemeralKey, sealed.0, sealed.1);
    assert data[..4] == UnsignedBytes(rawTime, 4);
    Pow256Four();
    BigEndianOfUnsignedBytes(rawTime, 4);
    DecodeEncodeTag(t);
  }

  /** Changing any byte of the authentication tag of a report that decodes makes decoding fail
      with AuthenticationFailed; no plaintext is returned. */
  lemma TamperedTagRejected(p: Primitives, priv: nat, data: seq<Byte>, i: nat, b: Byte)
    requires |data| >= BaseLength && |data| - 16 <= i < |data| && b != data[i]
    requires Decode(p, priv, data).Ok?
    ensures Decode(p, priv, data[i := b]) == Err(AuthenticationFailed)
  {
    var forged := data[i := b];
    FrameLayout(data);
    FrameLayout(forged);
    var adj := |data| - BaseLength;
    var f, g := FrameOf(data), FrameOf(forged);
    assert g.ephemeralKey == f.ephemeralKey by {
      assert forged[5 + adj..62 + adj] == data[5 + adj..62 + adj];
    }
    assert g.ciphertext == f.ciphertext by {
      assert forged[62 + adj..72 + adj] == data[62 + adj..72 + adj];
    }
    assert g.authTag != f.authTag by {
      assert g.authTag[i - (72 + adj)] == b;
      assert f.authTag[i - (72 + adj)] == data[i];
    }
    var shared := p.ecdh(priv, f.ephemeralKey).value;
    var keys := DeriveKeys(p, shared, f.ephemeralKey);
    assert GcmDecrypt(p, keys.key, keys.iv, f.ciphertext, f.authTag).Some?;
    assert GcmDecrypt(p, keys.key, keys.iv, g.ciphertext, g.authTag).None?;
  }
}
