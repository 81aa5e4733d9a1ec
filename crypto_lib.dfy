/**
 * backend/crypto-lib.js: the hash-chained mock KEM and the AES-256-GCM
 * envelope.
 *
 * SHA-256 over a string (its UTF-8 bytes) is the parameter `sha`, an
 * arbitrary function into 32-byte digests; properties that need it to be
 * collision-free ask for that only on the few inputs they compare.
 * AES-256-GCM is the parameter `aead`, a pair of seal/open functions whose
 * assumed behaviour is stated by the predicates `AeadRoundTrips`,
 * `AeadAcceptsTruncatedTags` and `AeadAuthentic`. `crypto.randomBytes`
 * results are parameters. Node's hex codec is modelled exactly.
 */
module CryptoLib {
  import opened Outcomes

  newtype byte = x: int | 0 <= x < 256

  // ---------------------------------------------------------------------
  // Node's "hex" encoding
  // ---------------------------------------------------------------------

  predicate IsLowerHexDigit(c: char) {
    '0' <= c <= '9' || 'a' <= c <= 'f'
  }

  predicate IsLowerHex(s: string) {
    forall i :: 0 <= i < |s| ==> IsLowerHexDigit(s[i])
  }

  /** Characters `Buffer.from(s, "hex")` accepts, in either case. */
  predicate IsHexDigit(c: char) {
    '0' <= c <= '9' || 'a' <= c <= 'f' || 'A' <= c <= 'F'
  }

  function HexDigit(n: int): (c: char)
    requires 0 <= n < 16
    ensures IsLowerHexDigit(c)
  {
    if n < 10 then ('0' as int + n) as char else ('a' as int + n - 10) as char
  }

  function HexValue(c: char): (v: int)
    requires IsHexDigit(c)
    ensures 0 <= v < 16
  {
    if '0' <= c <= '9' then c as int - '0' as int
    else if 'a' <= c <= 'f' then c as int - 'a' as int + 10
    else c as int - 'A' as int + 10
  }

  /** `buf.toString("hex")`: two lower-case digits per byte, high nibble first. */
  function HexEncode(b: seq<byte>): (s: string)
    ensures |s| == 2 * |b|
    ensures IsLowerHex(s)
  {
    if b == [] then []
    else [HexDigit(b[0] as int / 16), HexDigit(b[0] as int % 16)] + HexEncode(b[1..])
  }

  /**
   * `Buffer.from(s, "hex")`: decodes digit pairs and stops at the first pair
   * that is not two hex digits (a trailing odd digit is dropped).
   */
  function HexDecode(s: string): (b: seq<byte>)
    ensures 2 * |b| <= |s|
  {
    if |s| < 2 || !IsHexDigit(s[0]) || !IsHexDigit(s[1]) then []
    else [(HexValue(s[0]) * 16 + HexValue(s[1])) as byte] + HexDecode(s[2..])
  }

  /** Decoding undoes encoding. */
  lemma {:induction false} HexRoundTrip(b: seq<byte>)
    ensures HexDecode(HexEncode(b)) == b
  {
    if b != [] {
      var hi, lo := b[0] as int / 16, b[0] as int % 16;
      assert HexValue(HexDigit(hi)) == hi;
      assert HexValue(HexDigit(lo)) == lo;
      var s := HexEncode(b);
      assert s[2..] == HexEncode(b[1..]);
      HexRoundTrip(b[1..]);
    }
  }

  /** The first 2·k hex characters encode the first k bytes. */
  lemma {:induction false} HexEncodePrefix(b: seq<byte>, k: nat)
    requires k <= |b|
    ensures HexEncode(b)[..2 * k] == HexEncode(b[..k])
  {
    if k > 0 {
      var s := HexEncode(b);
      assert s[2..] == HexEncode(b[1..]);
      HexEncodePrefix(b[1..], k - 1);
      assert b[..k] == [b[0]] + b[1..][..k - 1];
      assert s[..2 * k] == s[..2] + s[2..][..2 * (k - 1)];
    }
  }

  /** Distinct byte strings have distinct hex encodings. */
  lemma HexEncodeInjective(a: seq<byte>, b: seq<byte>)
    requires HexEncode(a) == HexEncode(b)
    ensures a == b
  {
    HexRoundTrip(a);
    HexRoundTrip(b);
  }

  // ---------------------------------------------------------------------
  // The hash
  // ---------------------------------------------------------------------

  /** A SHA-256 digest. */
  type Digest = d: seq<byte> | |d| == 32 witness seq(32, _ => 0 as byte)

  /** `crypto.createHash("sha256").update(msg).digest("hex")`. */
  function HexDigest(sha: string -> Digest, msg: string): (h: string)
    ensures |h| == 64 && IsLowerHex(h)
  {
    HexEncode(sha(msg))
  }

  /** The hash never maps two distinct members of `inputs` to the same digest. */
  ghost predicate CollisionFree(sha: string -> Digest, inputs: set<string>) {
    forall x, y :: x in inputs && y in inputs && sha(x) == sha(y) ==> x == y
  }

  lemma PrefixCancel(p: string, a: string, b: string)
    requires p + a == p + b
    ensures a == b
  {
    assert a == (p + a)[|p|..];
    assert b == (p + b)[|p|..];
  }

  // ---------------------------------------------------------------------
  // The mock KEM
  // ---------------------------------------------------------------------

  const PkPrefix: string := "pk_from_sk:"
  const SsPrefix: string := "ss_from_pk:"
  const CtPrefix: string := "ct_from_pk:"

  datatype KeyPair = KeyPair(publicKey: string, secretKey: string)

  datatype Encapsulation = Encapsulation(ciphertext: string, sharedSecret: string)

  /** The errors the envelope code throws. */
  datatype CryptoError =
    | InvalidKemCiphertext   // "Invalid KEM Ciphertext"
    | InvalidKeyLength       // the cipher rejects a key that is not 32 bytes
    | AuthenticationFailure  // `decipher.final()` rejects the tag

  /** The public key of a secret key: H("pk_from_sk:" + sk), hex-encoded. */
  function DerivePublicKey(sha: string -> Digest, secretKey: string): (pk: string)
    ensures |pk| == 64 && IsLowerHex(pk)
  {
    HexDigest(sha, PkPrefix + secretKey)
  }

  /** `kemGenerateKeys()`, given the 32 bytes `crypto.randomBytes(32)` returned. */
  function KemGenerateKeys(sha: string -> Digest, entropy: seq<byte>): (kp: KeyPair)
    requires |entropy| == 32
    ensures |kp.secretKey| == 64 && IsLowerHex(kp.secretKey)
    ensures HexDecode(kp.secretKey) == entropy
    ensures |kp.publicKey| == 64 && IsLowerHex(kp.publicKey)
    ensures kp.publicKey == DerivePublicKey(sha, kp.secretKey)
  {
    HexRoundTrip(entropy);
    var secretKey := HexEncode(entropy);
    var publicKey := HexDigest(sha, PkPrefix + secretKey);
    KeyPair(publicKey, secretKey)
  }

  /** `kemEncapsulate(pk)`: ciphertext H("ct_from_pk:" + pk), shared secret H("ss_from_pk:" + pk). */
  function KemEncapsulate(sha: string -> Digest, publicKey: string): (e: Encapsulation)
    ensures |e.ciphertext| == 64 && IsLowerHex(e.ciphertext)
    ensures |e.sharedSecret| == 64 && IsLowerHex(e.sharedSecret)
  {
    var sharedSecret := HexDigest(sha, SsPrefix + publicKey);
    var kemCt := HexDigest(sha, CtPrefix + publicKey);
    Encapsulation(kemCt, sharedSecret)
  }

  /**
   * `kemDecapsulate(ct, sk)`: succeeds exactly when `ct` is the ciphertext
   * encapsulation gives for sk's public key, and then yields the shared
   * secret encapsulation gave; otherwise fails with "Invalid KEM Ciphertext".
   */
  function KemDecapsulate(sha: string -> Digest, kemCt: string, secretKey: string): (r: Result<string, CryptoError>)
    ensures r.Ok? <==> kemCt == KemEncapsulate(sha, DerivePublicKey(sha, secretKey)).ciphertext
    ensures r.Ok? ==> r.value == KemEncapsulate(sha, DerivePublicKey(sha, secretKey)).sharedSecret
    ensures r.Err? ==> r.error == InvalidKemCiphertext
  {
    var publicKey := HexDigest(sha, PkPrefix + secretKey);
    var expectedKemCt := HexDigest(sha, CtPrefix + publicKey);
    if kemCt != expectedKemCt then Err(InvalidKemCiphertext)
    else
      var sharedSecret := HexDigest(sha, SsPrefix + publicKey);
      Ok(sharedSecret)
  }

  /** The KEM round trip: a key pair's secret key recovers what encapsulation to its public key produced. */
  lemma KemRoundTrip(sha: string -> Digest, entropy: seq<byte>)
    requires |entropy| == 32
    ensures var kp := KemGenerateKeys(sha, entropy);
      var e := KemEncapsulate(sha, kp.publicKey);
      KemDecapsulate(sha, e.ciphertext, kp.secretKey) == Ok(e.sharedSecret)
  {
  }

  /**
   * Encapsulation is deterministic and, where the hash has no collision on
   * the two ciphertext inputs, two public keys share a ciphertext exactly
   * when they are the same key.
   */
  lemma KemCiphertextBindsKey(sha: string -> Digest, pk1: string, pk2: string)
    requires CollisionFree(sha, {CtPrefix + pk1, CtPrefix + pk2})
    ensures KemEncapsulate(sha, pk1).ciphertext == KemEncapsulate(sha, pk2).ciphertext <==> pk1 == pk2
  {
    if KemEncapsulate(sha, pk1).ciphertext == KemEncapsulate(sha, pk2).ciphertext {
      HexEncodeInjective(sha(CtPrefix + pk1), sha(CtPrefix + pk2));
      PrefixCancel(CtPrefix, pk1, pk2);
    }
  }

  /**
   * A ciphertext made for `publicKey`, decapsulated with a secret key whose
   * public key is different, throws and yields no secret.
   */
  lemma KemWrongKeyRejected(sha: string -> Digest, publicKey: string, secretKey: string)
    requires DerivePublicKey(sha, secretKey) != publicKey
    requires CollisionFree(sha, {CtPrefix + publicKey, CtPrefix + DerivePublicKey(sha, secretKey)})
    ensures KemDecapsulate(sha, KemEncapsulate(sha, publicKey).ciphertext, secretKey) == Err(InvalidKemCiphertext)
  {
    KemCiphertextBindsKey(sha, publicKey, DerivePublicKey(sha, secretKey));
  }

  /**
   * Two key pairs generated from different randomness have different public
   * keys, and neither secret key opens the other's ciphertext (given a hash
   * without collisions on the four inputs involved).
   */
  lemma DistinctKeyPairsAreSeparate(sha: string -> Digest, e1: seq<byte>, e2: seq<byte>)
    requires |e1| == 32 && |e2| == 32 && e1 != e2
    requires var sk1, sk2 := KemGenerateKeys(sha, e1).secretKey, KemGenerateKeys(sha, e2).secretKey;
      var pk1, pk2 := KemGenerateKeys(sha, e1).publicKey, KemGenerateKeys(sha, e2).publicKey;
      CollisionFree(sha, {PkPrefix + sk1, PkPrefix + sk2, CtPrefix + pk1, CtPrefix + pk2})
    ensures KemGenerateKeys(sha, e1).publicKey != KemGenerateKeys(sha, e2).publicKey
    ensures var kp1, kp2 := KemGenerateKeys(sha, e1), KemGenerateKeys(sha, e2);
      KemDecapsulate(sha, KemEncapsulate(sha, kp1.publicKey).ciphertext, kp2.secretKey) == Err(InvalidKemCiphertext)
  {
    var kp1, kp2 := KemGenerateKeys(sha, e1), KemGenerateKeys(sha, e2);
    assert kp1.secretKey != kp2.secretKey;
    if kp1.publicKey == kp2.publicKey {
      HexEncodeInjective(sha(PkPrefix + kp1.secretKey), sha(PkPrefix + kp2.secretKey));
      PrefixCancel(PkPrefix, kp1.secretKey, kp2.secretKey);
      assert false;
    }
    assert CollisionFree(sha, {CtPrefix + kp1.publicKey, CtPrefix + kp2.publicKey});
    KemWrongKeyRejected(sha, kp1.publicKey, kp2.secretKey);
  }

  // ---------------------------------------------------------------------
  // The symmetric envelope
  // ---------------------------------------------------------------------

  /** `deriveAesKey(shared)`: the first 32 bytes of SHA-256 of the shared secret, i.e. the whole digest. */
  function DeriveAesKey(sha: string -> Digest, sharedHex: string): (key: seq<byte>)
    ensures |key| == 32
    ensures key == sha(sharedHex)
  {
    sha(sharedHex)[..32]
  }

  /** What sealing yields: the ciphertext bytes and the authentication tag. */
  datatype Sealed = Sealed(ciphertext: seq<byte>, tag: seq<byte>)

  /** AES-256-GCM without associated data: seal(key, iv, plaintext) and open(key, iv, ciphertext, tag). */
  datatype Aead = Aead(
    seal: (seq<byte>, seq<byte>, seq<byte>) -> Sealed,
    open: (seq<byte>, seq<byte>, seq<byte>, seq<byte>) -> Option<seq<byte>>)

  /**
   * Tag lengths the GCM decipher accepts in `setAuthTag` when it was created
   * without an `authTagLength` option: 4, 8, or 12 to 16 bytes.
   */
  predicate GcmTagLength(n: int) {
    n == 4 || n == 8 || 12 <= n <= 16
  }

  /**
   * What the model assumes of sealing and opening genuine envelopes: GCM's
   * ciphertext is as long as the plaintext and its tag is 16 bytes, and
   * opening a seal gives the plaintext back.
   */
  ghost predicate AeadRoundTrips(aead: Aead) {
    && (forall key, iv, pt :: |aead.seal(key, iv, pt).tag| == 16 && |aead.seal(key, iv, pt).ciphertext| == |pt|)
    && (forall key, iv, pt ::
          aead.open(key, iv, aead.seal(key, iv, pt).ciphertext, aead.seal(key, iv, pt).tag) == Some(pt))
  }

  /**
   * GCM compares only as many tag bytes as it is given: a genuine tag cut
   * to any accepted tag length still opens the seal.
   */
  ghost predicate AeadAcceptsTruncatedTags(aead: Aead) {
    forall key, iv, pt, n :: GcmTagLength(n) && n <= |aead.seal(key, iv, pt).tag| ==>
      aead.open(key, iv, aead.seal(key, iv, pt).ciphertext, aead.seal(key, iv, pt).tag[..n]) == Some(pt)
  }

  /**
   * Authenticity: open accepts a (ciphertext, tag) pair only when the
   * ciphertext is the seal's ciphertext of the plaintext it returns under
   * that key and IV, and the tag is a prefix of that seal's tag of an
   * accepted tag length.
   */
  ghost predicate AeadAuthentic(aead: Aead) {
    forall key, iv, ct, tag :: aead.open(key, iv, ct, tag).Some? ==>
      && aead.seal(key, iv, aead.open(key, iv, ct, tag).value).ciphertext == ct
      && GcmTagLength(|tag|)
      && tag <= aead.seal(key, iv, aead.open(key, iv, ct, tag).value).tag
  }

  /** The hex strings `aesEncrypt` returns. */
  datatype EncryptedData = EncryptedData(iv: string, tag: string, ciphertext: string)

  /** `aesEncrypt(key, data)`, given the 12 bytes `crypto.randomBytes(12)` returned for the IV. */
  function AesEncrypt(aead: Aead, key: seq<byte>, data: seq<byte>, iv: seq<byte>): (r: Result<EncryptedData, CryptoError>)
    requires |iv| == 12
    ensures r.Err? <==> |key| != 32
    ensures r.Err? ==> r.error == InvalidKeyLength
    ensures r.Ok? ==> |r.value.iv| == 24 && IsLowerHex(r.value.iv) && HexDecode(r.value.iv) == iv
  {
    if |key| != 32 then Err(InvalidKeyLength)
    else
      HexRoundTrip(iv);
      var sealed := aead.seal(key, iv, data);
      Ok(EncryptedData(HexEncode(iv), HexEncode(sealed.tag), HexEncode(sealed.ciphertext)))
  }

  /** `aesDecrypt(key, ivHex, ciphertextHex, tagHex)`. */
  function AesDecrypt(aead: Aead, key: seq<byte>, ivHex: string, ciphertextHex: string, tagHex: string)
    : (r: Result<seq<byte>, CryptoError>)
    ensures |key| != 32 ==> r == Err(InvalidKeyLength)
    ensures |key| == 32 ==>
      (r.Ok? <==> aead.open(key, HexDecode(ivHex), HexDecode(ciphertextHex), HexDecode(tagHex)).Some?)
    ensures |key| == 32 && r.Err? ==> r.error == AuthenticationFailure
  {
    if |key| != 32 then Err(InvalidKeyLength)
    else
      match aead.open(key, HexDecode(ivHex), HexDecode(ciphertextHex), HexDecode(tagHex))
      case None => Err(AuthenticationFailure)
      case Some(decrypted) => Ok(decrypted)
  }

  /** The envelope round trip: decrypting what `aesEncrypt` produced returns the original buffer. */
  lemma AesRoundTrip(aead: Aead, key: seq<byte>, data: seq<byte>, iv: seq<byte>)
    requires AeadRoundTrips(aead)
    requires |key| == 32 && |iv| == 12
    ensures AesEncrypt(aead, key, data, iv).Ok?
    ensures var e := AesEncrypt(aead, key, data, iv).value;
      && |e.tag| == 32 && |e.ciphertext| == 2 * |data|
      && AesDecrypt(aead, key, e.iv, e.ciphertext, e.tag) == Ok(data)
  {
    var sealed := aead.seal(key, iv, data);
    HexRoundTrip(iv);
    HexRoundTrip(sealed.tag);
    HexRoundTrip(sealed.ciphertext);
  }

  /**
   * Decryption never releases unauthenticated plaintext: it succeeds only
   * when sealing the result under the same key and IV gives back exactly the
   * ciphertext supplied and a tag of which the supplied tag is a prefix of
   * an accepted length. A wrong key, IV, ciphertext or tag therefore fails
   * unless it happens to form a genuine seal of its own.
   */
  lemma AesDecryptAuthentic(aead: Aead, key: seq<byte>, ivHex: string, ciphertextHex: string, tagHex: string)
    requires AeadAuthentic(aead)
    ensures var r := AesDecrypt(aead, key, ivHex, ciphertextHex, tagHex);
      r.Ok? ==>
        var sealed := aead.seal(key, HexDecode(ivHex), r.value);
        && sealed.ciphertext == HexDecode(ciphertextHex)
        && GcmTagLength(|HexDecode(tagHex)|)
        && HexDecode(tagHex) <= sealed.tag
  {
  }

  /**
   * The decipher is created without `authTagLength`, so an envelope whose
   * hex tag is cut to 2·n characters, for any accepted tag length n, still
   * decrypts to the original buffer.
   */
  lemma AesTruncatedTagAccepted(aead: Aead, key: seq<byte>, data: seq<byte>, iv: seq<byte>, n: nat)
    requires AeadRoundTrips(aead) && AeadAcceptsTruncatedTags(aead)
    requires |key| == 32 && |iv| == 12
    requires GcmTagLength(n)
    ensures AesEncrypt(aead, key, data, iv).Ok?
    ensures var e := AesEncrypt(aead, key, data, iv).value;
      && 2 * n <= |e.tag|
      && AesDecrypt(aead, key, e.iv, e.ciphertext, e.tag[..2 * n]) == Ok(data)
  {
    var sealed := aead.seal(key, iv, data);
    HexRoundTrip(iv);
    HexRoundTrip(sealed.ciphertext);
    HexEncodePrefix(sealed.tag, n);
    HexRoundTrip(sealed.tag[..n]);
  }

  /**
   * The hybrid hand-off the server performs: encapsulate to a node's public
   * key, derive the AES key, seal; the node decapsulates with its secret
   * key, derives the same AES key and recovers the payload.
   */
  lemma HybridRoundTrip(sha: string -> Digest, aead: Aead, entropy: seq<byte>, data: seq<byte>, iv: seq<byte>)
    requires AeadRoundTrips(aead)
    requires |entropy| == 32 && |iv| == 12
    ensures var kp := KemGenerateKeys(sha, entropy);
      var enc := KemEncapsulate(sha, kp.publicKey);
      var sealed := AesEncrypt(aead, DeriveAesKey(sha, enc.sharedSecret), data, iv);
      var shared := KemDecapsulate(sha, enc.ciphertext, kp.secretKey);
      && sealed.Ok?
      && shared == Ok(enc.sharedSecret)
      && AesDecrypt(aead, DeriveAesKey(sha, shared.value), sealed.value.iv, sealed.value.ciphertext, sealed.value.tag)
           == Ok(data)
  {
    var kp := KemGenerateKeys(sha, entropy);
    var enc := KemEncapsulate(sha, kp.publicKey);
    AesRoundTrip(aead, DeriveAesKey(sha, enc.sharedSecret), data, iv);
  }
}
