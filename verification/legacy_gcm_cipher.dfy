/** The AES-GCM engine of the self-generated-IV revision: it checks the CEK,
    draws a 12-byte IV from the host's random source, and returns the IV with
    the ciphertext and tag. Its validators are members of the engine and
    throw messages without lengths. */
module LegacyGcmCipher {
  import opened JsNumbers
  import opened Bytes
  import opened Outcomes
  import opened Primitives
  import GcmUtils
  import GcmCipher
  import Enc
  import LegacyEnc
  import KeyBitLength

  /** `verifyCekLength`: the CEK must be `keyBits >>> 3` bytes. */
  function VerifyCekLength(cek: seq<byte>, keyBits: int): (c: Check)
    ensures c.Pass? <==> GcmUtils.GcmVerifyCekLength(cek, keyBits).Pass?
    ensures c.Fail? ==> c.error == InvalidCekLength
  {
    Need(|cek| == UnsignedShiftRight(keyBits, 3), InvalidCekLength)
  }

  /** `verifyTagLength`: the tag must be 16 bytes. */
  function VerifyTagLength(tag: seq<byte>): (c: Check)
    ensures c.Pass? <==> GcmUtils.GcmVerifyTagLength(tag).Pass?
    ensures c.Fail? ==> c.error == InvalidTagLength
  {
    Need(|tag| == 16, InvalidTagLength)
  }

  /** `verifyIvLength`: the IV must be 12 bytes. */
  function VerifyIvLength(iv: seq<byte>): (c: Check)
    ensures c.Pass? <==> GcmUtils.GcmVerifyIvLength(iv).Pass?
    ensures c.Fail? ==> c.error == InvalidIvLength
  {
    Need(|iv| == 12, InvalidIvLength)
  }

  /** The key size `parseKeyBits` reads from a GCM id. */
  function LegacyGcmKeyBits(enc: string): (bits: int)
    requires LegacyEnc.IsGcmEnc(enc)
    ensures KeyBitLength.ParseKeyBits(enc) == Some(bits)
    ensures Enc.IsGcmEnc(enc) && bits == GcmCipher.GcmKeyBits(enc)
  {
    LegacyEnc.AgreesWithRegistry(enc);
    GcmCipher.GcmKeyBits(enc)
  }

  /** `encrypt`: rejects a non-GCM id, then a CEK of the wrong size, both
      before the random source is consulted; then draws the IV and returns
      what AES-GCM returns together with it. */
  function Encrypt(p: GcmPrimitives, randomBytes: RandomBytes, enc: string, plaintext: seq<byte>, cek: seq<byte>, aad: seq<byte>)
    : (r: Result<SealedWithIv>)
    ensures !LegacyEnc.IsGcmEnc(enc) ==> r == Failure(InvalidEncryptionAlgorithmUnnamed)
    ensures LegacyEnc.IsGcmEnc(enc) && |cek| != GcmUtils.GcmGetCekByteLength(enc) ==> r == Failure(InvalidCekLength)
    ensures LegacyEnc.IsGcmEnc(enc) && |cek| == GcmUtils.GcmGetCekByteLength(enc) && randomBytes(12).Failure? ==>
      r == randomBytes(12).PropagateFailure()
    ensures LegacyEnc.IsGcmEnc(enc) && |cek| == GcmUtils.GcmGetCekByteLength(enc) && randomBytes(12).Success? ==>
      r == (var iv := randomBytes(12).value;
            var sealed :- p.encryptInternal(cek, iv, plaintext, aad);
            Success(SealedWithIv(sealed.ciphertext, sealed.tag, iv)))
    ensures r.Success? ==>
      && LegacyEnc.IsGcmEnc(enc)
      && |cek| == GcmUtils.GcmGetCekByteLength(enc)
      && randomBytes(12) == Success(r.value.iv)
      && p.encryptInternal(cek, r.value.iv, plaintext, aad) == Success(Sealed(r.value.ciphertext, r.value.tag))
  {
    if !LegacyEnc.IsGcmEnc(enc) then Failure(InvalidEncryptionAlgorithmUnnamed)
    else
      var keyBits := LegacyGcmKeyBits(enc);
      GcmUtils.GcmCekByteLengthAccepted(enc, cek);
      :- VerifyCekLength(cek, keyBits);
      var iv :- randomBytes(12);
      var sealed :- p.encryptInternal(cek, iv, plaintext, aad);
      Success(SealedWithIv(sealed.ciphertext, sealed.tag, iv))
  }

  /** The checks of `decrypt` that precede the CEK check. */
  predicate PrecedingChecksPass(enc: string, iv: seq<byte>, tag: seq<byte>) {
    LegacyEnc.IsGcmEnc(enc) && |tag| == GcmUtils.GCM_TAG_LENGTH && |iv| == GcmUtils.GCM_IV_LENGTH
  }

  /** `decrypt`: rejects a non-GCM id, then a bad tag, then a bad IV, then a
      bad CEK; otherwise returns what AES-GCM decryption returns. */
  function Decrypt(p: GcmPrimitives, enc: string, cek: seq<byte>, ciphertext: seq<byte>, iv: seq<byte>, tag: seq<byte>, aad: seq<byte>)
    : (r: Result<seq<byte>>)
    ensures !LegacyEnc.IsGcmEnc(enc) ==> r == Failure(InvalidEncryptionAlgorithmUnnamed)
    ensures LegacyEnc.IsGcmEnc(enc) && |tag| != GcmUtils.GCM_TAG_LENGTH ==> r == Failure(InvalidTagLength)
    ensures LegacyEnc.IsGcmEnc(enc) && |tag| == GcmUtils.GCM_TAG_LENGTH && |iv| != GcmUtils.GCM_IV_LENGTH ==>
      r == Failure(InvalidIvLength)
    ensures PrecedingChecksPass(enc, iv, tag) && |cek| != GcmUtils.GcmGetCekByteLength(enc) ==>
      r == Failure(InvalidCekLength)
    ensures PrecedingChecksPass(enc, iv, tag) && |cek| == GcmUtils.GcmGetCekByteLength(enc) ==>
      r == p.decryptInternal(cek, iv, ciphertext, tag, aad)
  {
    if !LegacyEnc.IsGcmEnc(enc) then Failure(InvalidEncryptionAlgorithmUnnamed)
    else
      :- VerifyTagLength(tag);
      :- VerifyIvLength(iv);
      var keyBits := LegacyGcmKeyBits(enc);
      GcmUtils.GcmCekByteLengthAccepted(enc, cek);
      :- VerifyCekLength(cek, keyBits);
      p.decryptInternal(cek, iv, ciphertext, tag, aad)
  }

  /** Decrypting what `encrypt` returned, with its IV, gives the plaintext
      back when AES-GCM is sound and the random source returns as many bytes
      as asked for. */
  lemma {:induction false} EncryptDecryptRoundTrip(
    p: GcmPrimitives, randomBytes: RandomBytes, enc: string, plaintext: seq<byte>, cek: seq<byte>, aad: seq<byte>)
    requires GcmSound(p) && RandomBytesExact(randomBytes)
    requires Encrypt(p, randomBytes, enc, plaintext, cek, aad).Success?
    ensures var sealed := Encrypt(p, randomBytes, enc, plaintext, cek, aad).value;
      |sealed.iv| == GcmUtils.GCM_IV_LENGTH
      && Decrypt(p, enc, cek, sealed.ciphertext, sealed.iv, sealed.tag, aad) == Success(plaintext)
  {
    var sealed := Encrypt(p, randomBytes, enc, plaintext, cek, aad).value;
    assert |sealed.iv| == GcmUtils.GCM_IV_LENGTH;
    assert p.encryptInternal(cek, sealed.iv, plaintext, aad).value.tag == sealed.tag;
  }

  /** On a supported id both revisions' `decrypt` run the same checks in the
      same order and agree whenever either returns a plaintext; only the
      error messages differ. */
  lemma {:induction false} DecryptAgreesWithCurrentRevision(
    p: GcmPrimitives, enc: string, cek: seq<byte>, ciphertext: seq<byte>, iv: seq<byte>, tag: seq<byte>, aad: seq<byte>)
    ensures Decrypt(p, enc, cek, ciphertext, iv, tag, aad).Success?
      ==> Decrypt(p, enc, cek, ciphertext, iv, tag, aad) == GcmCipher.Decrypt(p, enc, cek, ciphertext, iv, tag, aad)
    ensures GcmCipher.Decrypt(p, enc, cek, ciphertext, iv, tag, aad).Success?
      ==> Decrypt(p, enc, cek, ciphertext, iv, tag, aad) == GcmCipher.Decrypt(p, enc, cek, ciphertext, iv, tag, aad)
  {
    LegacyEnc.AgreesWithRegistry(enc);
  }
}
