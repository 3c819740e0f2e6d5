/** The cryptographic primitives the engines delegate to. The source leaves
    them abstract (`encryptInternal`, `decryptInternal`, `generateTag`) and
    fills them in per platform; SHA-256 comes from a hashing library and the
    random source from the host. Here each is a function-valued field, and
    the properties the engines' round trips rest on are predicates that
    lemmas take as preconditions. */
module Primitives {
  import opened JsNumbers
  import opened Bytes
  import opened Outcomes

  /** The three abstract members of a CBC-HMAC engine, plus SHA-256. */
  datatype CbcPrimitives = CbcPrimitives(
    // AES-CBC with PKCS#7 padding: (encRawKey, iv, plaintext) to ciphertext
    encryptInternal: (seq<byte>, seq<byte>, seq<byte>) -> Result<seq<byte>>,
    // its inverse: (encRawKey, iv, ciphertext) to plaintext
    decryptInternal: (seq<byte>, seq<byte>, seq<byte>) -> Result<seq<byte>>,
    // truncated HMAC-SHA2: (macRawKey, macData, keyBitLength) to tag
    generateTag: (seq<byte>, seq<byte>, int) -> Result<seq<byte>>,
    // SHA-256, used by the timing-safe comparison
    digest: seq<byte> -> seq<byte>)

  /** The ciphertext and tag an engine or AES-GCM produces. */
  datatype Sealed = Sealed(ciphertext: seq<byte>, tag: seq<byte>)

  /** What `encrypt` of the self-generated-IV revision returns: the IV it drew as well. */
  datatype SealedWithIv = SealedWithIv(ciphertext: seq<byte>, tag: seq<byte>, iv: seq<byte>)

  /** The two abstract members of an AES-GCM engine. */
  datatype GcmPrimitives = GcmPrimitives(
    // (encRawKey, iv, plaintext, aad) to ciphertext and 16-byte tag
    encryptInternal: (seq<byte>, seq<byte>, seq<byte>, seq<byte>) -> Result<Sealed>,
    // (encRawKey, iv, ciphertext, tag, aad) to plaintext; fails on a bad tag
    decryptInternal: (seq<byte>, seq<byte>, seq<byte>, seq<byte>, seq<byte>) -> Result<seq<byte>>)

  /** AES-CBC decryption undoes AES-CBC encryption under the same key and IV. */
  ghost predicate CbcDecryptInvertsEncrypt(p: CbcPrimitives) {
    forall key, iv, plaintext :: p.encryptInternal(key, iv, plaintext).Success? ==>
      p.decryptInternal(key, iv, p.encryptInternal(key, iv, plaintext).value) == Success(plaintext)
  }

  /** For the three key sizes an id can name, the tag is the first
      `keyBitLength >>> 3` bytes of the HMAC output, the length the tag check
      of decryption demands. Other sizes are never passed by the engines. */
  ghost predicate TagHasKeyLength(p: CbcPrimitives) {
    forall macRawKey, macData, keyBitLength ::
      (keyBitLength == 128 || keyBitLength == 192 || keyBitLength == 256)
      && p.generateTag(macRawKey, macData, keyBitLength).Success? ==>
        |p.generateTag(macRawKey, macData, keyBitLength).value| == UnsignedShiftRight(keyBitLength, 3)
  }

  /** AES-GCM yields a 16-byte tag, and decryption with that tag and the
      same key, IV and AAD gives the plaintext back. */
  ghost predicate GcmSound(p: GcmPrimitives) {
    forall key, iv, plaintext, aad :: p.encryptInternal(key, iv, plaintext, aad).Success? ==>
      var sealed := p.encryptInternal(key, iv, plaintext, aad).value;
      && |sealed.tag| == 16
      && p.decryptInternal(key, iv, sealed.ciphertext, sealed.tag, aad) == Success(plaintext)
  }

  /** `randomBytes(n)`: n fresh bytes from the host, or a thrown error. */
  type RandomBytes = nat -> Result<seq<byte>>

  /** A random source that returns as many bytes as asked for. */
  ghost predicate RandomBytesExact(randomBytes: RandomBytes) {
    forall n :: randomBytes(n).Success? ==> |randomBytes(n).value| == n
  }
}
