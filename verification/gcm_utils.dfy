/** The length checks of AES-GCM as JWE uses it (section 5.3 of RFC 7518):
    a 96-bit IV, a 128-bit authentication tag, and a key of the size the
    id names. */
module GcmUtils {
  import opened JsNumbers
  import opened Bytes
  import opened Outcomes
  import Enc
  import KeyBitLength

  const GCM_IV_LENGTH: nat := 12

  const GCM_TAG_LENGTH: nat := 16

  /** `gcmVerifyIvLength`: throws unless the IV is 12 bytes. */
  function GcmVerifyIvLength(iv: seq<byte>): (c: Check)
    ensures c.Pass? <==> |iv| == GCM_IV_LENGTH
    ensures c.Fail? ==> c.error == InvalidGcmIvLength(|iv|)
  {
    Need(|iv| == 12, InvalidGcmIvLength(|iv|))
  }

  /** `gcmVerifyTagLength`: throws unless the tag is 16 bytes. */
  function GcmVerifyTagLength(tag: seq<byte>): (c: Check)
    ensures c.Pass? <==> |tag| == GCM_TAG_LENGTH
    ensures c.Fail? ==> c.error == InvalidGcmTagLength(|tag|)
  {
    Need(|tag| == 16, InvalidGcmTagLength(|tag|))
  }

  /** `gcmVerifyCekLength`: the CEK must be `keyBitLength >>> 3` bytes. */
  function GcmVerifyCekLength(cek: seq<byte>, keyBitLength: int): (c: Check)
    ensures c.Pass? <==> |cek| == UnsignedShiftRight(keyBitLength, 3)
    ensures c.Fail? ==> c.error == InvalidGcmCekLength(UnsignedShiftRight(keyBitLength, 3), keyBitLength, |cek|)
  {
    var expected := UnsignedShiftRight(keyBitLength, 3);
    Need(|cek| == expected, InvalidGcmCekLength(expected, keyBitLength, |cek|))
  }

  /** `gcmGetCekByteLength`: `parseKeyBitLength(enc) >>> 3`, which is 0 for
      a name without digits (`NaN >>> 3`). */
  function GcmGetCekByteLength(enc: string): (n: int)
    ensures n >= 0
    ensures KeyBitLength.ParseKeyBitLength(enc).None? ==> n == 0
  {
    match KeyBitLength.ParseKeyBitLength(enc)
    case None => 0
    case Some(bits) => UnsignedShiftRight(bits, 3)
  }

  /** The length `gcmGetCekByteLength` reports for a supported id is exactly
      the length the CEK check accepts; it is 16, 24 or 32 bytes for the
      three GCM ids, and half of what the CBC id of the same key size needs. */
  lemma {:induction false} GcmCekByteLengthAccepted(enc: string, cek: seq<byte>)
    requires Enc.IsEnc(enc)
    ensures GcmVerifyCekLength(cek, KeyBitLength.KeyBits(enc)).Pass? <==> |cek| == GcmGetCekByteLength(enc)
    ensures 8 * GcmGetCekByteLength(enc) == KeyBitLength.KeyBits(enc)
    ensures enc == "A128GCM" ==> GcmGetCekByteLength(enc) == 16
    ensures enc == "A192GCM" ==> GcmGetCekByteLength(enc) == 24
    ensures enc == "A256GCM" ==> GcmGetCekByteLength(enc) == 32
  {
    var bits := KeyBitLength.KeyBits(enc);
    KeyBitLength.IdDigits(enc);
    ShiftsAreArithmetic(bits);
  }

  /** The CEK lengths the check accepts for the three key sizes: 16, 24 and 32 bytes. */
  lemma GcmCekLengths(cek: seq<byte>)
    ensures GcmVerifyCekLength(cek, 128).Pass? <==> |cek| == 16
    ensures GcmVerifyCekLength(cek, 192).Pass? <==> |cek| == 24
    ensures GcmVerifyCekLength(cek, 256).Pass? <==> |cek| == 32
  {
    ShiftsAreArithmetic(128);
    ShiftsAreArithmetic(192);
    ShiftsAreArithmetic(256);
  }

  lemma GcmTagMessageText()
    ensures Message(InvalidGcmTagLength(12))
      == "Invalid GCM authentication tag length: expected 16 bytes, but got " + "12" + " bytes"
    ensures Message(InvalidGcmTagLength(24))
      == "Invalid GCM authentication tag length: expected 16 bytes, but got " + "24" + " bytes"
    ensures Message(InvalidGcmTagLength(0))
      == "Invalid GCM authentication tag length: expected 16 bytes, but got " + "0" + " bytes"
  {
    DigitChars();
    assert NatToString(12) == "12" by { SmallNatStrings(12); }
    assert NatToString(24) == "24" by { SmallNatStrings(24); }
    assert NatToString(0) == "0" by { SmallNatStrings(0); }
  }

  /** Tags of 12, 24 and 0 bytes are refused with the message naming their length. */
  lemma GcmTagMessageExamples(tag: seq<byte>)
    requires |tag| == 12 || |tag| == 24 || |tag| == 0
    ensures GcmVerifyTagLength(tag) == Fail(InvalidGcmTagLength(|tag|))
    ensures |tag| == 12 ==> (Message(GcmVerifyTagLength(tag).error)
      == "Invalid GCM authentication tag length: expected 16 bytes, but got " + "12" + " bytes")
    ensures |tag| == 24 ==> (Message(GcmVerifyTagLength(tag).error)
      == "Invalid GCM authentication tag length: expected 16 bytes, but got " + "24" + " bytes")
    ensures |tag| == 0 ==> (Message(GcmVerifyTagLength(tag).error)
      == "Invalid GCM authentication tag length: expected 16 bytes, but got " + "0" + " bytes")
  {
    GcmTagMessageText();
  }

  lemma GcmIvMessageText()
    ensures Message(InvalidGcmIvLength(8)) == "Invalid GCM IV length: expected 12 bytes, got " + "8" + " bytes"
    ensures Message(InvalidGcmIvLength(16)) == "Invalid GCM IV length: expected 12 bytes, got " + "16" + " bytes"
    ensures Message(InvalidGcmIvLength(0)) == "Invalid GCM IV length: expected 12 bytes, got " + "0" + " bytes"
  {
    DigitChars();
    assert NatToString(8) == "8" by { SmallNatStrings(8); }
    assert NatToString(16) == "16" by { SmallNatStrings(16); }
    assert NatToString(0) == "0" by { SmallNatStrings(0); }
  }

  /** IVs of 8, 16 and 0 bytes are refused with the message naming their length. */
  lemma GcmIvMessageExamples(iv: seq<byte>)
    requires |iv| == 8 || |iv| == 16 || |iv| == 0
    ensures GcmVerifyIvLength(iv) == Fail(InvalidGcmIvLength(|iv|))
    ensures |iv| == 8 ==> (Message(GcmVerifyIvLength(iv).error)
      == "Invalid GCM IV length: expected 12 bytes, got " + "8" + " bytes")
    ensures |iv| == 16 ==> (Message(GcmVerifyIvLength(iv).error)
      == "Invalid GCM IV length: expected 12 bytes, got " + "16" + " bytes")
    ensures |iv| == 0 ==> (Message(GcmVerifyIvLength(iv).error)
      == "Invalid GCM IV length: expected 12 bytes, got " + "0" + " bytes")
  {
    GcmIvMessageText();
  }
}
