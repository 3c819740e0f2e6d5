/** `Aes` of the self-generated-IV revision: it owns a CBC-HMAC engine and a
    GCM engine sharing the host's random source, and dispatches on the `enc`
    id. Which platform implementation backs the engines is left to the
    parameters. */
module Aes {
  import opened Bytes
  import opened Outcomes
  import opened Primitives
  import Enc
  import LegacyEnc
  import CbcUtils
  import GcmUtils
  import LegacyCbcCipher
  import LegacyGcmCipher
  import AesCipher

  /** The engines of an `Aes` instance and the random source they draw IVs from. */
  datatype Engines = Engines(cbc: CbcPrimitives, gcm: GcmPrimitives, randomBytes: RandomBytes)

  /** `encrypt`: a CBC id goes to the CBC engine, a GCM id to the GCM engine,
      anything else throws 'Unsupported encryption algorithm: ' and the id. */
  function Encrypt(engines: Engines, enc: string, plaintext: seq<byte>, cek: seq<byte>, aad: seq<byte>)
    : (r: Result<SealedWithIv>)
    ensures LegacyEnc.IsCbcEnc(enc) ==> r == LegacyCbcCipher.Encrypt(engines.cbc, engines.randomBytes, enc, plaintext, cek, aad)
    ensures LegacyEnc.IsGcmEnc(enc) ==> r == LegacyGcmCipher.Encrypt(engines.gcm, engines.randomBytes, enc, plaintext, cek, aad)
    ensures !LegacyEnc.IsEnc(enc) ==> r == Failure(UnsupportedEncryptionAlgorithm(enc))
  {
    LegacyEnc.AgreesWithRegistry(enc);
    Enc.Classification(enc);
    if LegacyEnc.IsCbcEnc(enc) then LegacyCbcCipher.Encrypt(engines.cbc, engines.randomBytes, enc, plaintext, cek, aad)
    else if LegacyEnc.IsGcmEnc(enc) then LegacyGcmCipher.Encrypt(engines.gcm, engines.randomBytes, enc, plaintext, cek, aad)
    else Failure(UnsupportedEncryptionAlgorithm(enc))
  }

  /** `decrypt`: the same dispatch, with 'Unsupported decryption algorithm: '. */
  function Decrypt(engines: Engines, enc: string, cek: seq<byte>, ciphertext: seq<byte>, iv: seq<byte>, tag: seq<byte>, aad: seq<byte>)
    : (r: Result<seq<byte>>)
    ensures LegacyEnc.IsCbcEnc(enc) ==> r == LegacyCbcCipher.Decrypt(engines.cbc, enc, cek, ciphertext, iv, tag, aad)
    ensures LegacyEnc.IsGcmEnc(enc) ==> r == LegacyGcmCipher.Decrypt(engines.gcm, enc, cek, ciphertext, iv, tag, aad)
    ensures !LegacyEnc.IsEnc(enc) ==> r == Failure(UnsupportedDecryptionAlgorithm(enc))
  {
    LegacyEnc.AgreesWithRegistry(enc);
    Enc.Classification(enc);
    if LegacyEnc.IsCbcEnc(enc) then LegacyCbcCipher.Decrypt(engines.cbc, enc, cek, ciphertext, iv, tag, aad)
    else if LegacyEnc.IsGcmEnc(enc) then LegacyGcmCipher.Decrypt(engines.gcm, enc, cek, ciphertext, iv, tag, aad)
    else Failure(UnsupportedDecryptionAlgorithm(enc))
  }

  /** The IV `encrypt` returns has the size of the mode: 16 bytes for CBC
      and 12 for GCM, when the random source returns what is asked for. */
  lemma {:induction false} ReturnedIvLength(engines: Engines, enc: string, plaintext: seq<byte>, cek: seq<byte>, aad: seq<byte>)
    requires RandomBytesExact(engines.randomBytes)
    requires Encrypt(engines, enc, plaintext, cek, aad).Success?
    ensures LegacyEnc.IsCbcEnc(enc) ==> |Encrypt(engines, enc, plaintext, cek, aad).value.iv| == 16
    ensures LegacyEnc.IsGcmEnc(enc) ==> |Encrypt(engines, enc, plaintext, cek, aad).value.iv| == 12
  {
    LegacyEnc.AgreesWithRegistry(enc);
    Enc.Classification(enc);
  }

  /** For every supported id, decrypting what `encrypt` returned, with the IV
      it returned, gives the plaintext back. */
  lemma {:induction false} EncryptDecryptRoundTrip(engines: Engines, enc: string, plaintext: seq<byte>, cek: seq<byte>, aad: seq<byte>)
    requires CbcDecryptInvertsEncrypt(engines.cbc) && TagHasKeyLength(engines.cbc) && GcmSound(engines.gcm)
    requires RandomBytesExact(engines.randomBytes)
    requires Encrypt(engines, enc, plaintext, cek, aad).Success?
    ensures var sealed := Encrypt(engines, enc, plaintext, cek, aad).value;
      Decrypt(engines, enc, cek, sealed.ciphertext, sealed.iv, sealed.tag, aad) == Success(plaintext)
  {
    LegacyEnc.AgreesWithRegistry(enc);
    Enc.Classification(enc);
    if LegacyEnc.IsCbcEnc(enc) {
      LegacyCbcCipher.EncryptDecryptRoundTrip(engines.cbc, engines.randomBytes, enc, plaintext, cek, aad);
    } else {
      LegacyGcmCipher.EncryptDecryptRoundTrip(engines.gcm, engines.randomBytes, enc, plaintext, cek, aad);
    }
  }

  /** What this revision encrypted, the current revision's `AesCipher`
      decrypts with the same engines: the two revisions are compatible. */
  lemma {:induction false} DecryptableByCurrentRevision(engines: Engines, enc: string, plaintext: seq<byte>, cek: seq<byte>, aad: seq<byte>)
    requires CbcDecryptInvertsEncrypt(engines.cbc) && TagHasKeyLength(engines.cbc) && GcmSound(engines.gcm)
    requires RandomBytesExact(engines.randomBytes)
    requires Encrypt(engines, enc, plaintext, cek, aad).Success?
    ensures var sealed := Encrypt(engines, enc, plaintext, cek, aad).value;
      AesCipher.Decrypt(AesCipher.Engines(engines.cbc, engines.gcm), enc, cek, sealed.ciphertext, sealed.iv, sealed.tag, aad)
        == Success(plaintext)
  {
    var sealed := Encrypt(engines, enc, plaintext, cek, aad).value;
    EncryptDecryptRoundTrip(engines, enc, plaintext, cek, aad);
    LegacyEnc.AgreesWithRegistry(enc);
    Enc.Classification(enc);
    if LegacyEnc.IsCbcEnc(enc) {
      LegacyCbcCipher.DecryptAgreesWithCurrentRevision(engines.cbc, enc, cek, sealed.ciphertext, sealed.iv, sealed.tag, aad);
    } else {
      LegacyGcmCipher.DecryptAgreesWithCurrentRevision(engines.gcm, enc, cek, sealed.ciphertext, sealed.iv, sealed.tag, aad);
    }
  }

  /** An unknown id is refused, each direction with its own message. */
  lemma UnknownIdRefused(engines: Engines, plaintext: seq<byte>, cek: seq<byte>, ciphertext: seq<byte>, iv: seq<byte>, tag: seq<byte>, aad: seq<byte>)
    ensures Encrypt(engines, "INVALID", plaintext, cek, aad) == Failure(UnsupportedEncryptionAlgorithm("INVALID"))
    ensures Decrypt(engines, "INVALID", cek, ciphertext, iv, tag, aad) == Failure(UnsupportedDecryptionAlgorithm("INVALID"))
    ensures Message(UnsupportedEncryptionAlgorithm("INVALID")) == "Unsupported encryption algorithm: INVALID"
    ensures Message(UnsupportedDecryptionAlgorithm("INVALID")) == "Unsupported decryption algorithm: INVALID"
  {
    Enc.RejectedExamples();
    LegacyEnc.AgreesWithRegistry("INVALID");
  }
}
