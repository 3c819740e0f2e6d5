/** The AES-CBC-HMAC-SHA2 engine of the self-generated-IV revision: it draws
    the IV from the host's random source itself and returns it with the
    ciphertext and tag. Its errors name no algorithm, and it splits the CEK
    with the byte count `keyBits >> 3`. */
module LegacyCbcCipher {
  import opened JsNumbers
  import opened Bytes
  import opened Outcomes
  import opened Primitives
  import opened CbcUtils
  import opened MacData
  import opened TimingSafe
  import Enc
  import LegacyEnc
  import KeyBitLength
  import CbcCipher

  /** The key size `parseKeyBits` reads from a CBC id. */
  function LegacyCbcKeyBits(enc: string): (bits: int)
    requires LegacyEnc.IsCbcEnc(enc)
    ensures KeyBitLength.ParseKeyBits(enc) == Some(bits)
    ensures bits == 128 || bits == 192 || bits == 256
    ensures Enc.IsCbcEnc(enc) && bits == KeyBitLength.KeyBits(enc)
  {
    LegacyEnc.AgreesWithRegistry(enc);
    Enc.Classification(enc);
    KeyBitLength.KeyBits(enc)
  }

  /** `encrypt`: rejects a non-CBC id; draws a 16-byte IV before looking at
      the CEK, so a failing random source wins over a bad CEK; then checks
      the CEK, splits it, encrypts and computes the tag. */
  function Encrypt(p: CbcPrimitives, randomBytes: RandomBytes, enc: string, plaintext: seq<byte>, cek: seq<byte>, aad: seq<byte>)
    : (r: Result<SealedWithIv>)
    ensures !LegacyEnc.IsCbcEnc(enc) ==> r == Failure(InvalidEncryptionAlgorithmUnnamed)
    ensures LegacyEnc.IsCbcEnc(enc) && randomBytes(16).Failure? ==> r == randomBytes(16).PropagateFailure()
    ensures LegacyEnc.IsCbcEnc(enc) && randomBytes(16).Success? && |cek| != CbcGetCekByteLength(enc) ==>
      r == Failure(CbcVerifyCekLength(cek, LegacyCbcKeyBits(enc)).error)
    ensures LegacyEnc.IsCbcEnc(enc) && randomBytes(16).Success? && |cek| == CbcGetCekByteLength(enc) ==>
      r == (var iv := randomBytes(16).value;
            var ciphertext :- p.encryptInternal(EncKey(cek), iv, plaintext);
            var tag :- p.generateTag(MacKey(cek), GenerateMacData(aad, iv, ciphertext), LegacyCbcKeyBits(enc));
            Success(SealedWithIv(ciphertext, tag, iv)))
    ensures r.Success? ==>
      && LegacyEnc.IsCbcEnc(enc)
      && randomBytes(16) == Success(r.value.iv)
      && |cek| == CbcGetCekByteLength(enc)
      && p.encryptInternal(EncKey(cek), r.value.iv, plaintext) == Success(r.value.ciphertext)
      && p.generateTag(MacKey(cek), GenerateMacData(aad, r.value.iv, r.value.ciphertext), LegacyCbcKeyBits(enc))
        == Success(r.value.tag)
  {
    if !LegacyEnc.IsCbcEnc(enc) then Failure(InvalidEncryptionAlgorithmUnnamed)
    else
      var iv :- randomBytes(16);
      var keyBits := LegacyCbcKeyBits(enc);
      CbcCekByteLengthAccepted(enc, cek, []);
      ShiftsAreArithmetic(keyBits);
      :- CbcVerifyCekLength(cek, keyBits);
      match LegacyDivideCek(cek, ShiftRight(keyBits, 3))
      case Failure(e) => Failure(e)
      case Success(keys) =>
        LegacyDivideCekHalves(cek, ShiftRight(keyBits, 3));
        var ciphertext :- p.encryptInternal(keys.encRawKey, iv, plaintext);
        var tag :- p.generateTag(keys.macRawKey, GenerateMacData(aad, iv, ciphertext), keyBits);
        Success(SealedWithIv(ciphertext, tag, iv))
  }

  /** `decrypt`: the same checks, order and tag comparison as the engine of
      the current revision, with this revision's error for a non-CBC id. */
  function Decrypt(p: CbcPrimitives, enc: string, cek: seq<byte>, ciphertext: seq<byte>, iv: seq<byte>, tag: seq<byte>, aad: seq<byte>)
    : (r: Result<seq<byte>>)
    ensures !LegacyEnc.IsCbcEnc(enc) ==> r == Failure(InvalidEncryptionAlgorithmUnnamed)
    ensures LegacyEnc.IsCbcEnc(enc) && |iv| != CBC_IV_LENGTH ==> r == Failure(InvalidCbcIvLength(|iv|))
    ensures LegacyEnc.IsCbcEnc(enc) && |iv| == CBC_IV_LENGTH && |cek| != CbcGetCekByteLength(enc) ==>
      r == Failure(CbcVerifyCekLength(cek, LegacyCbcKeyBits(enc)).error)
    ensures LegacyEnc.IsCbcEnc(enc) && |iv| == CBC_IV_LENGTH && |cek| == CbcGetCekByteLength(enc) && 2 * |tag| != |cek| ==>
      r == Failure(InvalidCbcTagLength(|cek| / 2, LegacyCbcKeyBits(enc), |tag|))
    ensures LegacyEnc.IsCbcEnc(enc) && |iv| == CBC_IV_LENGTH && |cek| == CbcGetCekByteLength(enc) && 2 * |tag| == |cek| ==>
      var expectedTag := p.generateTag(MacKey(cek), GenerateMacData(aad, iv, ciphertext), LegacyCbcKeyBits(enc));
      && (expectedTag.Failure? ==> r == Failure(expectedTag.error))
      && (expectedTag.Success? && !TimingSafeEqual(p.digest, expectedTag.value, tag) ==> r == Failure(InvalidAuthenticationTag))
      && (expectedTag.Success? && TimingSafeEqual(p.digest, expectedTag.value, tag) ==>
            r == p.decryptInternal(EncKey(cek), iv, ciphertext))
    ensures r.Success? ==>
      && LegacyEnc.IsCbcEnc(enc)
      && |iv| == CBC_IV_LENGTH && |cek| == CbcGetCekByteLength(enc) && 2 * |tag| == |cek|
      && p.generateTag(MacKey(cek), GenerateMacData(aad, iv, ciphertext), LegacyCbcKeyBits(enc)).Success?
      && TimingSafeEqual(p.digest, p.generateTag(MacKey(cek), GenerateMacData(aad, iv, ciphertext), LegacyCbcKeyBits(enc)).value, tag)
      && p.decryptInternal(EncKey(cek), iv, ciphertext) == r
  {
    if !LegacyEnc.IsCbcEnc(enc) then Failure(InvalidEncryptionAlgorithmUnnamed)
    else
      :- CbcVerifyIvLength(iv);
      var keyBits := LegacyCbcKeyBits(enc);
      CbcCekByteLengthAccepted(enc, cek, tag);
      ShiftsAreArithmetic(keyBits);
      :- CbcVerifyCekLength(cek, keyBits);
      :- CbcVerifyTagLength(tag, keyBits);
      match LegacyDivideCek(cek, ShiftRight(keyBits, 3))
      case Failure(e) => Failure(e)
      case Success(keys) =>
        var macData := GenerateMacData(aad, iv, ciphertext);
        var expectedTag :- p.generateTag(keys.macRawKey, macData, keyBits);
        if !TimingSafeEqual(p.digest, expectedTag, tag) then Failure(InvalidAuthenticationTag)
        else p.decryptInternal(keys.encRawKey, iv, ciphertext)
  }

  /** Decrypting what `encrypt` returned, with its IV, gives the plaintext
      back when the random source returns as many bytes as asked for. */
  lemma {:induction false} EncryptDecryptRoundTrip(
    p: CbcPrimitives, randomBytes: RandomBytes, enc: string, plaintext: seq<byte>, cek: seq<byte>, aad: seq<byte>)
    requires CbcDecryptInvertsEncrypt(p) && TagHasKeyLength(p) && RandomBytesExact(randomBytes)
    requires Encrypt(p, randomBytes, enc, plaintext, cek, aad).Success?
    ensures var sealed := Encrypt(p, randomBytes, enc, plaintext, cek, aad).value;
      |sealed.iv| == CBC_IV_LENGTH
      && Decrypt(p, enc, cek, sealed.ciphertext, sealed.iv, sealed.tag, aad) == Success(plaintext)
  {
    var sealed := Encrypt(p, randomBytes, enc, plaintext, cek, aad).value;
    var bits := LegacyCbcKeyBits(enc);
    assert |sealed.iv| == CBC_IV_LENGTH;
    assert 2 * |sealed.tag| == |cek| by {
      CbcCekByteLengthAccepted(enc, cek, sealed.tag);
      ShiftsAreArithmetic(bits);
    }
    TimingSafeEqualReflexive(p.digest, sealed.tag);
    assert p.decryptInternal(EncKey(cek), sealed.iv, sealed.ciphertext) == Success(plaintext);
  }

  /** Both revisions accept the same inputs in `decrypt` and return the same
      plaintext; they differ only in the error for an unsupported id. */
  lemma {:induction false} DecryptAgreesWithCurrentRevision(
    p: CbcPrimitives, enc: string, cek: seq<byte>, ciphertext: seq<byte>, iv: seq<byte>, tag: seq<byte>, aad: seq<byte>)
    ensures LegacyEnc.IsCbcEnc(enc) ==>
      Decrypt(p, enc, cek, ciphertext, iv, tag, aad) == CbcCipher.Decrypt(p, enc, cek, ciphertext, iv, tag, aad)
    ensures !LegacyEnc.IsCbcEnc(enc) ==>
      && Decrypt(p, enc, cek, ciphertext, iv, tag, aad) == Failure(InvalidEncryptionAlgorithmUnnamed)
      && CbcCipher.Decrypt(p, enc, cek, ciphertext, iv, tag, aad) == Failure(InvalidEncryptionAlgorithm(enc))
  {
    LegacyEnc.AgreesWithRegistry(enc);
    if !LegacyEnc.IsCbcEnc(enc) {
      return;
    }
    var legacy := Decrypt(p, enc, cek, ciphertext, iv, tag, aad);
    var current := CbcCipher.Decrypt(p, enc, cek, ciphertext, iv, tag, aad);
    var bits := LegacyCbcKeyBits(enc);
    assert bits == CbcCipher.CbcKeyBits(enc);
    if |iv| != CBC_IV_LENGTH {
      assert legacy == Failure(InvalidCbcIvLength(|iv|)) == current;
    } else if |cek| != CbcGetCekByteLength(enc) {
      assert legacy == Failure(CbcVerifyCekLength(cek, bits).error) == current;
    } else if 2 * |tag| != |cek| {
      assert legacy == Failure(InvalidCbcTagLength(|cek| / 2, bits, |tag|)) == current;
    } else {
      assert CbcCipher.InputsValid(enc, cek, iv);
      var expectedTag := p.generateTag(MacKey(cek), GenerateMacData(aad, iv, ciphertext), bits);
      if expectedTag.Failure? {
        assert legacy == Failure(expectedTag.error) == current;
      } else if !TimingSafeEqual(p.digest, expectedTag.value, tag) {
        assert legacy == Failure(InvalidAuthenticationTag) == current;
      } else {
        assert legacy == p.decryptInternal(EncKey(cek), iv, ciphertext) == current;
      }
    }
  }
}
