/** The AES-GCM engine of the current revision, whose caller supplies the
    IV (section 5.3 of RFC 7518). It validates the id, the IV, the tag and
    the CEK, then hands the CEK to AES-GCM unchanged. */
module GcmCipher {
  import opened JsNumbers
  import opened Bytes
  import opened Outcomes
  import opened Primitives
  import opened GcmUtils
  import Enc
  import KeyBitLength

  /** The key size of a GCM id. */
  function GcmKeyBits(enc: string): (bits: int)
    requires Enc.IsGcmEnc(enc)
    ensures bits == KeyBitLength.KeyBits(enc)
    ensures bits == 128 || bits == 192 || bits == 256
  {
    Enc.Classification(enc);
    KeyBitLength.KeyBits(enc)
  }

  /** `encrypt`: rejects a non-GCM id, then an IV that is not 12 bytes, then
      a CEK of the wrong size; otherwise returns what AES-GCM returns. */
  function Encrypt(p: GcmPrimitives, enc: string, plaintext: seq<byte>, cek: seq<byte>, iv: seq<byte>, aad: seq<byte>)
    : (r: Result<Sealed>)
    ensures !Enc.IsGcmEnc(enc) ==> r == Failure(InvalidEncryptionAlgorithm(enc))
    ensures Enc.IsGcmEnc(enc) && |iv| != GCM_IV_LENGTH ==> r == Failure(InvalidGcmIvLength(|iv|))
    ensures Enc.IsGcmEnc(enc) && |iv| == GCM_IV_LENGTH && |cek| != GcmGetCekByteLength(enc) ==>
      r == Failure(GcmVerifyCekLength(cek, GcmKeyBits(enc)).error)
    ensures Enc.IsGcmEnc(enc) && |iv| == GCM_IV_LENGTH && |cek| == GcmGetCekByteLength(enc) ==>
      r == p.encryptInternal(cek, iv, plaintext, aad)
  {
    if !Enc.IsGcmEnc(enc) then Failure(InvalidEncryptionAlgorithm(enc))
    else
      :- GcmVerifyIvLength(iv);
      var keyBitLength := GcmKeyBits(enc);
      GcmCekByteLengthAccepted(enc, cek);
      :- GcmVerifyCekLength(cek, keyBitLength);
      var sealed :- p.encryptInternal(cek, iv, plaintext, aad);
      Success(Sealed(sealed.ciphertext, sealed.tag))
  }

  /** `decrypt`: rejects a non-GCM id, then a tag that is not 16 bytes
      (before the IV is looked at), then a bad IV, then a bad CEK; otherwise
      returns what AES-GCM decryption returns. */
  function Decrypt(p: GcmPrimitives, enc: string, cek: seq<byte>, ciphertext: seq<byte>, iv: seq<byte>, tag: seq<byte>, aad: seq<byte>)
    : (r: Result<seq<byte>>)
    ensures !Enc.IsGcmEnc(enc) ==> r == Failure(InvalidEncryptionAlgorithm(enc))
    ensures Enc.IsGcmEnc(enc) && |tag| != GCM_TAG_LENGTH ==> r == Failure(InvalidGcmTagLength(|tag|))
    ensures Enc.IsGcmEnc(enc) && |tag| == GCM_TAG_LENGTH && |iv| != GCM_IV_LENGTH ==>
      r == Failure(InvalidGcmIvLength(|iv|))
    ensures Enc.IsGcmEnc(enc) && |tag| == GCM_TAG_LENGTH && |iv| == GCM_IV_LENGTH && |cek| != GcmGetCekByteLength(enc) ==>
      r == Failure(GcmVerifyCekLength(cek, GcmKeyBits(enc)).error)
    ensures Enc.IsGcmEnc(enc) && |tag| == GCM_TAG_LENGTH && |iv| == GCM_IV_LENGTH && |cek| == GcmGetCekByteLength(enc) ==>
      r == p.decryptInternal(cek, iv, ciphertext, tag, aad)
  {
    if !Enc.IsGcmEnc(enc) then Failure(InvalidEncryptionAlgorithm(enc))
    else
      :- GcmVerifyTagLength(tag);
      :- GcmVerifyIvLength(iv);
      var keyBitLength := GcmKeyBits(enc);
      GcmCekByteLengthAccepted(enc, cek);
      :- GcmVerifyCekLength(cek, keyBitLength);
      p.decryptInternal(cek, iv, ciphertext, tag, aad)
  }

  /** Decrypting what `encrypt` produced, with the same id, CEK, IV and AAD,
      gives the plaintext back, provided AES-GCM is sound. */
  lemma {:induction false} EncryptDecryptRoundTrip(p: GcmPrimitives, enc: string, plaintext: seq<byte>, cek: seq<byte>, iv: seq<byte>, aad: seq<byte>)
    requires GcmSound(p)
    requires Encrypt(p, enc, plaintext, cek, iv, aad).Success?
    ensures var sealed := Encrypt(p, enc, plaintext, cek, iv, aad).value;
      Decrypt(p, enc, cek, sealed.ciphertext, iv, sealed.tag, aad) == Success(plaintext)
  {
    var sealed := p.encryptInternal(cek, iv, plaintext, aad).value;
    assert |sealed.tag| == GCM_TAG_LENGTH;
  }
}
