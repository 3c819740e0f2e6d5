/** `AesCipher` of the current revision: one CBC-HMAC engine and one GCM
    engine behind a single interface that dispatches on the `enc` id and
    reports the IV and CEK sizes each id needs. */
module AesCipher {
  import opened Bytes
  import opened Outcomes
  import opened Primitives
  import Enc
  import CbcUtils
  import GcmUtils
  import CbcCipher
  import GcmCipher

  /** The two engines the facade is constructed with. */
  datatype Engines = Engines(cbc: CbcPrimitives, gcm: GcmPrimitives)

  /** `encrypt`: a CBC id goes to the CBC engine, a GCM id to the GCM engine,
      anything else throws 'Invalid encryption mode: ' and the id. */
  function Encrypt(engines: Engines, enc: string, plaintext: seq<byte>, cek: seq<byte>, iv: seq<byte>, aad: seq<byte>)
    : (r: Result<Sealed>)
    ensures Enc.IsCbcEnc(enc) ==> r == CbcCipher.Encrypt(engines.cbc, enc, plaintext, cek, iv, aad)
    ensures Enc.IsGcmEnc(enc) ==> r == GcmCipher.Encrypt(engines.gcm, enc, plaintext, cek, iv, aad)
    ensures !Enc.IsEnc(enc) ==> r == Failure(InvalidEncryptionMode(enc))
  {
    Enc.Classification(enc);
    if Enc.IsCbcEnc(enc) then CbcCipher.Encrypt(engines.cbc, enc, plaintext, cek, iv, aad)
    else if Enc.IsGcmEnc(enc) then GcmCipher.Encrypt(engines.gcm, enc, plaintext, cek, iv, aad)
    else Failure(InvalidEncryptionMode(enc))
  }

  /** `decrypt`: the same dispatch. */
  function Decrypt(engines: Engines, enc: string, cek: seq<byte>, ciphertext: seq<byte>, iv: seq<byte>, tag: seq<byte>, aad: seq<byte>)
    : (r: Result<seq<byte>>)
    ensures Enc.IsCbcEnc(enc) ==> r == CbcCipher.Decrypt(engines.cbc, enc, cek, ciphertext, iv, tag, aad)
    ensures Enc.IsGcmEnc(enc) ==> r == GcmCipher.Decrypt(engines.gcm, enc, cek, ciphertext, iv, tag, aad)
    ensures !Enc.IsEnc(enc) ==> r == Failure(InvalidEncryptionMode(enc))
  {
    Enc.Classification(enc);
    if Enc.IsCbcEnc(enc) then CbcCipher.Decrypt(engines.cbc, enc, cek, ciphertext, iv, tag, aad)
    else if Enc.IsGcmEnc(enc) then GcmCipher.Decrypt(engines.gcm, enc, cek, ciphertext, iv, tag, aad)
    else Failure(InvalidEncryptionMode(enc))
  }

  /** `getIvByteLength`: 16 for a CBC id, 12 for a GCM id. */
  function GetIvByteLength(enc: string): (r: Result<nat>)
    ensures r.Success? <==> Enc.IsEnc(enc)
    ensures r.Failure? ==> r.error == InvalidEncryptionMode(enc)
  {
    Enc.Classification(enc);
    if Enc.IsCbcEnc(enc) then Success(CbcCipher.IV_BYTE_LENGTH)
    else if Enc.IsGcmEnc(enc) then Success(GcmUtils.GCM_IV_LENGTH)
    else Failure(InvalidEncryptionMode(enc))
  }

  /** `getCekByteLength`: what the engine of the id reports. */
  function GetCekByteLength(enc: string): (r: Result<int>)
    ensures r.Success? <==> Enc.IsEnc(enc)
    ensures r.Failure? ==> r.error == InvalidEncryptionMode(enc)
  {
    Enc.Classification(enc);
    if Enc.IsCbcEnc(enc) then Success(CbcUtils.CbcGetCekByteLength(enc))
    else if Enc.IsGcmEnc(enc) then Success(GcmUtils.GcmGetCekByteLength(enc))
    else Failure(InvalidEncryptionMode(enc))
  }

  /** The checks of the engine an id selects, before any primitive runs. */
  predicate EngineAccepts(enc: string, cek: seq<byte>, iv: seq<byte>)
    requires Enc.IsEnc(enc)
  {
    if Enc.IsCbcEnc(enc) then
      && CbcUtils.CbcVerifyIvLength(iv).Pass?
      && CbcUtils.CbcVerifyCekLength(cek, CbcCipher.CbcKeyBits(enc)).Pass?
    else
      && Enc.IsGcmEnc(enc)
      && GcmUtils.GcmVerifyIvLength(iv).Pass?
      && GcmUtils.GcmVerifyCekLength(cek, GcmCipher.GcmKeyBits(enc)).Pass?
  }

  /** The sizes the facade reports for a supported id are exactly the ones
      the engine behind it accepts. */
  lemma {:induction false} ReportedLengthsAccepted(enc: string, cek: seq<byte>, iv: seq<byte>)
    requires Enc.IsEnc(enc)
    ensures EngineAccepts(enc, cek, iv) <==>
      |iv| == GetIvByteLength(enc).value && |cek| == GetCekByteLength(enc).value
  {
    Enc.Classification(enc);
    if Enc.IsCbcEnc(enc) {
      CbcUtils.CbcCekByteLengthAccepted(enc, cek, []);
    } else {
      GcmUtils.GcmCekByteLengthAccepted(enc, cek);
    }
  }

  /** The sizes the tests list for the three CBC ids. */
  lemma ListedCbcLengths()
    ensures GetIvByteLength("A128CBC-HS256") == Success(16) && GetCekByteLength("A128CBC-HS256") == Success(32)
    ensures GetIvByteLength("A192CBC-HS384") == Success(16) && GetCekByteLength("A192CBC-HS384") == Success(48)
    ensures GetIvByteLength("A256CBC-HS512") == Success(16) && GetCekByteLength("A256CBC-HS512") == Success(64)
  {
    assert GetIvByteLength("A128CBC-HS256") == Success(16) && GetCekByteLength("A128CBC-HS256") == Success(32) by {
      CbcLengthsOf("A128CBC-HS256");
    }
    assert GetIvByteLength("A192CBC-HS384") == Success(16) && GetCekByteLength("A192CBC-HS384") == Success(48) by {
      CbcLengthsOf("A192CBC-HS384");
    }
    assert GetIvByteLength("A256CBC-HS512") == Success(16) && GetCekByteLength("A256CBC-HS512") == Success(64) by {
      CbcLengthsOf("A256CBC-HS512");
    }
  }

  lemma CbcLengthsOf(enc: string)
    requires enc == "A128CBC-HS256" || enc == "A192CBC-HS384" || enc == "A256CBC-HS512"
    ensures GetIvByteLength(enc) == Success(16)
    ensures enc == "A128CBC-HS256" ==> GetCekByteLength(enc) == Success(32)
    ensures enc == "A192CBC-HS384" ==> GetCekByteLength(enc) == Success(48)
    ensures enc == "A256CBC-HS512" ==> GetCekByteLength(enc) == Success(64)
  {
    Enc.IsCbcEncExactly(enc);
    Enc.Classification(enc);
    CbcUtils.CbcCekByteLengthAccepted(enc, [], []);
  }

  /** The sizes the tests list for the three GCM ids. */
  lemma ListedGcmLengths()
    ensures GetIvByteLength("A128GCM") == Success(12) && GetCekByteLength("A128GCM") == Success(16)
    ensures GetIvByteLength("A192GCM") == Success(12) && GetCekByteLength("A192GCM") == Success(24)
    ensures GetIvByteLength("A256GCM") == Success(12) && GetCekByteLength("A256GCM") == Success(32)
  {
    assert GetIvByteLength("A128GCM") == Success(12) && GetCekByteLength("A128GCM") == Success(16) by {
      GcmLengthsOf("A128GCM");
    }
    assert GetIvByteLength("A192GCM") == Success(12) && GetCekByteLength("A192GCM") == Success(24) by {
      GcmLengthsOf("A192GCM");
    }
    assert GetIvByteLength("A256GCM") == Success(12) && GetCekByteLength("A256GCM") == Success(32) by {
      GcmLengthsOf("A256GCM");
    }
  }

  lemma GcmLengthsOf(enc: string)
    requires enc == "A128GCM" || enc == "A192GCM" || enc == "A256GCM"
    ensures GetIvByteLength(enc) == Success(12)
    ensures enc == "A128GCM" ==> GetCekByteLength(enc) == Success(16)
    ensures enc == "A192GCM" ==> GetCekByteLength(enc) == Success(24)
    ensures enc == "A256GCM" ==> GetCekByteLength(enc) == Success(32)
  {
    Enc.IsGcmEncExactly(enc);
    Enc.Classification(enc);
    GcmUtils.GcmCekByteLengthAccepted(enc, []);
  }

  /** An unknown id is refused with the id in the message. */
  lemma UnknownIdRefused()
    ensures GetIvByteLength("INVALID") == Failure(InvalidEncryptionMode("INVALID"))
    ensures GetCekByteLength("INVALID") == Failure(InvalidEncryptionMode("INVALID"))
    ensures Message(InvalidEncryptionMode("INVALID")) == "Invalid encryption mode: INVALID"
  {
    Enc.RejectedExamples();
  }

  /** For every supported id, decrypting what `encrypt` produced, with the
      same CEK, IV and AAD, gives the plaintext back, provided the primitives
      of both engines are sound. */
  lemma {:induction false} EncryptDecryptRoundTrip(engines: Engines, enc: string, plaintext: seq<byte>, cek: seq<byte>, iv: seq<byte>, aad: seq<byte>)
    requires CbcDecryptInvertsEncrypt(engines.cbc) && TagHasKeyLength(engines.cbc) && GcmSound(engines.gcm)
    requires Encrypt(engines, enc, plaintext, cek, iv, aad).Success?
    ensures var sealed := Encrypt(engines, enc, plaintext, cek, iv, aad).value;
      Decrypt(engines, enc, cek, sealed.ciphertext, iv, sealed.tag, aad) == Success(plaintext)
  {
    if Enc.IsCbcEnc(enc) {
      CbcCipher.EncryptDecryptRoundTrip(engines.cbc, enc, plaintext, cek, iv, aad);
    } else {
      GcmCipher.EncryptDecryptRoundTrip(engines.gcm, enc, plaintext, cek, iv, aad);
    }
  }
}
