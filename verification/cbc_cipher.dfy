/** The AES-CBC-HMAC-SHA2 engine of the current revision, whose caller
    supplies the IV (section 5.2.2 of RFC 7518). Encryption validates the id,
    the IV and the CEK, splits the CEK, encrypts, and authenticates
    AAD || IV || ciphertext || AL; decryption recomputes that tag and only
    decrypts once it matches. */
module CbcCipher {
  import opened JsNumbers
  import opened Bytes
  import opened Outcomes
  import opened Primitives
  import opened CbcUtils
  import opened MacData
  import opened TimingSafe
  import Enc
  import KeyBitLength

  /** `getIvByteLength`: one AES block, whatever the id. */
  const IV_BYTE_LENGTH: nat := 16

  /** The key size of a CBC id. */
  function CbcKeyBits(enc: string): (bits: int)
    requires Enc.IsCbcEnc(enc)
    ensures bits == KeyBitLength.KeyBits(enc)
    ensures bits == 128 || bits == 192 || bits == 256
  {
    Enc.Classification(enc);
    KeyBitLength.KeyBits(enc)
  }

  /** The checks both directions run before any primitive is called, in the
      order the source runs them: the id, the IV, the CEK. */
  predicate InputsValid(enc: string, cek: seq<byte>, iv: seq<byte>) {
    && Enc.IsCbcEnc(enc)
    && |iv| == IV_BYTE_LENGTH
    && |cek| == CbcGetCekByteLength(enc)
  }

  /** `encrypt`: rejects a non-CBC id, then an IV that is not one block,
      then a CEK of the wrong size; otherwise the ciphertext is AES-CBC under
      the second half of the CEK and the tag is the truncated HMAC, under the
      first half, of the MAC input. Failures of the primitives propagate. */
  function Encrypt(p: CbcPrimitives, enc: string, plaintext: seq<byte>, cek: seq<byte>, iv: seq<byte>, aad: seq<byte>)
    : (r: Result<Sealed>)
    ensures !Enc.IsCbcEnc(enc) ==> r == Failure(InvalidEncryptionAlgorithm(enc))
    ensures Enc.IsCbcEnc(enc) && |iv| != IV_BYTE_LENGTH ==> r == Failure(InvalidCbcIvLength(|iv|))
    ensures Enc.IsCbcEnc(enc) && |iv| == IV_BYTE_LENGTH && |cek| != CbcGetCekByteLength(enc) ==>
      r == Failure(CbcVerifyCekLength(cek, CbcKeyBits(enc)).error)
    ensures InputsValid(enc, cek, iv) ==>
      r == (var ciphertext :- p.encryptInternal(EncKey(cek), iv, plaintext);
            var tag :- p.generateTag(MacKey(cek), GenerateMacData(aad, iv, ciphertext), CbcKeyBits(enc));
            Success(Sealed(ciphertext, tag)))
    ensures r.Success? ==>
      && InputsValid(enc, cek, iv)
      && p.encryptInternal(EncKey(cek), iv, plaintext) == Success(r.value.ciphertext)
      && p.generateTag(MacKey(cek), GenerateMacData(aad, iv, r.value.ciphertext), CbcKeyBits(enc)) == Success(r.value.tag)
  {
    if !Enc.IsCbcEnc(enc) then Failure(InvalidEncryptionAlgorithm(enc))
    else
      :- CbcVerifyIvLength(iv);
      var keyBitLength := CbcKeyBits(enc);
      CbcCekByteLengthAccepted(enc, cek, []);
      ShiftsAreArithmetic(keyBitLength);
      :- CbcVerifyCekLength(cek, keyBitLength);
      match DivideCek(cek, keyBitLength)
      case Failure(e) => Failure(e)
      case Success(keys) =>
        DivideCekHalves(cek, keyBitLength);
        var ciphertext :- p.encryptInternal(keys.encRawKey, iv, plaintext);
        var tag :- p.generateTag(keys.macRawKey, GenerateMacData(aad, iv, ciphertext), keyBitLength);
        Success(Sealed(ciphertext, tag))
  }

  /** `decrypt`: rejects a non-CBC id, then a bad IV, then a bad CEK, then a
      tag that is not half the CEK; recomputes the tag and throws 'Invalid
      authentication tag' unless the timing-safe comparison accepts it; only
      then decrypts. */
  function Decrypt(p: CbcPrimitives, enc: string, cek: seq<byte>, ciphertext: seq<byte>, iv: seq<byte>, tag: seq<byte>, aad: seq<byte>)
    : (r: Result<seq<byte>>)
    ensures !Enc.IsCbcEnc(enc) ==> r == Failure(InvalidEncryptionAlgorithm(enc))
    ensures Enc.IsCbcEnc(enc) && |iv| != IV_BYTE_LENGTH ==> r == Failure(InvalidCbcIvLength(|iv|))
    ensures Enc.IsCbcEnc(enc) && |iv| == IV_BYTE_LENGTH && |cek| != CbcGetCekByteLength(enc) ==>
      r == Failure(CbcVerifyCekLength(cek, CbcKeyBits(enc)).error)
    ensures InputsValid(enc, cek, iv) && 2 * |tag| != |cek| ==>
      r == Failure(InvalidCbcTagLength(|cek| / 2, CbcKeyBits(enc), |tag|))
    ensures InputsValid(enc, cek, iv) && 2 * |tag| == |cek| ==>
      var expectedTag := p.generateTag(MacKey(cek), GenerateMacData(aad, iv, ciphertext), CbcKeyBits(enc));
      && (expectedTag.Failure? ==> r == Failure(expectedTag.error))
      && (expectedTag.Success? && !TimingSafeEqual(p.digest, expectedTag.value, tag) ==> r == Failure(InvalidAuthenticationTag))
      && (expectedTag.Success? && TimingSafeEqual(p.digest, expectedTag.value, tag) ==>
            r == p.decryptInternal(EncKey(cek), iv, ciphertext))
    ensures r.Success? ==>
      && InputsValid(enc, cek, iv)
      && 2 * |tag| == |cek|
      && p.generateTag(MacKey(cek), GenerateMacData(aad, iv, ciphertext), CbcKeyBits(enc)).Success?
      && TimingSafeEqual(p.digest, p.generateTag(MacKey(cek), GenerateMacData(aad, iv, ciphertext), CbcKeyBits(enc)).value, tag)
      && p.decryptInternal(EncKey(cek), iv, ciphertext) == r
  {
    if !Enc.IsCbcEnc(enc) then Failure(InvalidEncryptionAlgorithm(enc))
    else
      :- CbcVerifyIvLength(iv);
      var keyBitLength := CbcKeyBits(enc);
      CbcCekByteLengthAccepted(enc, cek, tag);
      ShiftsAreArithmetic(keyBitLength);
      :- CbcVerifyCekLength(cek, keyBitLength);
      :- CbcVerifyTagLength(tag, keyBitLength);
      match DivideCek(cek, keyBitLength)
      case Failure(e) => Failure(e)
      case Success(keys) =>
        var macData := GenerateMacData(aad, iv, ciphertext);
        var expectedTag :- p.generateTag(keys.macRawKey, macData, keyBitLength);
        if !TimingSafeEqual(p.digest, expectedTag, tag) then Failure(InvalidAuthenticationTag)
        else p.decryptInternal(keys.encRawKey, iv, ciphertext)
  }

  /** Decrypting what `encrypt` produced, with the same id, CEK, IV and AAD,
      gives the plaintext back, provided AES-CBC decryption inverts
      encryption and the tag has the length the id names. */
  lemma {:induction false} EncryptDecryptRoundTrip(p: CbcPrimitives, enc: string, plaintext: seq<byte>, cek: seq<byte>, iv: seq<byte>, aad: seq<byte>)
    requires CbcDecryptInvertsEncrypt(p) && TagHasKeyLength(p)
    requires Encrypt(p, enc, plaintext, cek, iv, aad).Success?
    ensures var sealed := Encrypt(p, enc, plaintext, cek, iv, aad).value;
      Decrypt(p, enc, cek, sealed.ciphertext, iv, sealed.tag, aad) == Success(plaintext)
  {
    var sealed := Encrypt(p, enc, plaintext, cek, iv, aad).value;
    var bits := CbcKeyBits(enc);
    assert 2 * |sealed.tag| == |cek| by {
      CbcCekByteLengthAccepted(enc, cek, sealed.tag);
      ShiftsAreArithmetic(bits);
    }
    TimingSafeEqualReflexive(p.digest, sealed.tag);
    assert p.decryptInternal(EncKey(cek), iv, sealed.ciphertext) == Success(plaintext);
  }

  /** A tag the recomputed one does not match is rejected with 'Invalid
      authentication tag' before AES decryption is attempted: the result
      does not depend on `decryptInternal` at all. */
  lemma {:induction false} ForgedTagRejected(
    p: CbcPrimitives, enc: string, cek: seq<byte>, ciphertext: seq<byte>, iv: seq<byte>, tag: seq<byte>, aad: seq<byte>,
    expectedTag: seq<byte>, otherDecrypt: (seq<byte>, seq<byte>, seq<byte>) -> Result<seq<byte>>)
    requires InputsValid(enc, cek, iv) && 2 * |tag| == |cek|
    requires p.generateTag(MacKey(cek), GenerateMacData(aad, iv, ciphertext), CbcKeyBits(enc)) == Success(expectedTag)
    requires !TimingSafeEqual(p.digest, expectedTag, tag)
    ensures Decrypt(p, enc, cek, ciphertext, iv, tag, aad) == Failure(InvalidAuthenticationTag)
    ensures Decrypt(p.(decryptInternal := otherDecrypt), enc, cek, ciphertext, iv, tag, aad) == Failure(InvalidAuthenticationTag)
  {
    var q := p.(decryptInternal := otherDecrypt);
    assert q.generateTag == p.generateTag && q.digest == p.digest;
  }

  /** When SHA-256 does not collide on the two tags, decryption succeeds only
      with exactly the tag the MAC key gives for AAD, IV and ciphertext. */
  lemma {:induction false} AcceptedTagIsExact(
    p: CbcPrimitives, enc: string, cek: seq<byte>, ciphertext: seq<byte>, iv: seq<byte>, tag: seq<byte>, aad: seq<byte>)
    requires Decrypt(p, enc, cek, ciphertext, iv, tag, aad).Success?
    requires var t := p.generateTag(MacKey(cek), GenerateMacData(aad, iv, ciphertext), CbcKeyBits(enc));
      t.Success? ==>
        (&& |p.digest(t.value)| == DIGEST_LENGTH && |p.digest(tag)| == DIGEST_LENGTH
         && (p.digest(t.value) == p.digest(tag) ==> t.value == tag))
    ensures p.generateTag(MacKey(cek), GenerateMacData(aad, iv, ciphertext), CbcKeyBits(enc)) == Success(tag)
  {
    var t := p.generateTag(MacKey(cek), GenerateMacData(aad, iv, ciphertext), CbcKeyBits(enc));
    TimingSafeEqualIsEquality(p.digest, t.value, tag);
  }
}
