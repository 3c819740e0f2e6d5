/** The length checks and the key split of the CBC-HMAC construction
    (section 5.2.2.1 of RFC 7518): a CEK of 2k bytes is the MAC key (first
    k bytes) followed by the AES key (last k bytes), the IV is one AES block,
    and the tag is the first k bytes of the HMAC output. */
module CbcUtils {
  import opened JsNumbers
  import opened Bytes
  import opened Outcomes
  import Enc
  import KeyBitLength

  /** The IV of AES-CBC is one 16-byte block. */
  const CBC_IV_LENGTH: nat := 16

  /** `cbcVerifyIvLength`: throws unless the IV is one block. */
  function CbcVerifyIvLength(iv: seq<byte>): (c: Check)
    ensures c.Pass? <==> |iv| == CBC_IV_LENGTH
    ensures c.Fail? ==> c.error == InvalidCbcIvLength(|iv|)
  {
    Need(|iv| == 16, InvalidCbcIvLength(|iv|))
  }

  /** `cbcVerifyCekLength`: the CEK must be twice `keyBitLength >>> 3` bytes;
      the message reports the expected size in bytes and as `keyBitLength << 1` bits. */
  function CbcVerifyCekLength(cek: seq<byte>, keyBitLength: int): (c: Check)
    ensures c.Pass? <==> |cek| == 2 * UnsignedShiftRight(keyBitLength, 3)
    ensures c.Fail? ==> c.error == InvalidCbcCekLength(2 * UnsignedShiftRight(keyBitLength, 3), ShiftLeft(keyBitLength, 1), |cek|)
  {
    var expected := UnsignedShiftRight(keyBitLength, 3) * 2;
    Need(|cek| == expected, InvalidCbcCekLength(expected, ShiftLeft(keyBitLength, 1), |cek|))
  }

  /** `cbcVerifyTagLength`: the tag must be `keyBitLength >>> 3` bytes. */
  function CbcVerifyTagLength(tag: seq<byte>, keyBitLength: int): (c: Check)
    ensures c.Pass? <==> |tag| == UnsignedShiftRight(keyBitLength, 3)
    ensures c.Fail? ==> c.error == InvalidCbcTagLength(UnsignedShiftRight(keyBitLength, 3), keyBitLength, |tag|)
  {
    var expected := UnsignedShiftRight(keyBitLength, 3);
    Need(|tag| == expected, InvalidCbcTagLength(expected, keyBitLength, |tag|))
  }

  lemma CbcIvMessageText()
    ensures Message(InvalidCbcIvLength(8)) == "Invalid CBC IV length: expected 16 bytes, got " + "8" + " bytes"
    ensures Message(InvalidCbcIvLength(24)) == "Invalid CBC IV length: expected 16 bytes, got " + "24" + " bytes"
    ensures Message(InvalidCbcIvLength(0)) == "Invalid CBC IV length: expected 16 bytes, got " + "0" + " bytes"
  {
    DigitChars();
    assert NatToString(8) == "8" by { SmallNatStrings(8); }
    assert NatToString(24) == "24" by { SmallNatStrings(24); }
    assert NatToString(0) == "0" by { SmallNatStrings(0); }
  }

  /** IVs of 8, 24 and 0 bytes are refused with the message naming their length. */
  lemma CbcIvMessageExamples(iv: seq<byte>)
    requires |iv| == 8 || |iv| == 24 || |iv| == 0
    ensures CbcVerifyIvLength(iv) == Fail(InvalidCbcIvLength(|iv|))
    ensures |iv| == 8 ==> (Message(CbcVerifyIvLength(iv).error)
      == "Invalid CBC IV length: expected 16 bytes, got " + "8" + " bytes")
    ensures |iv| == 24 ==> (Message(CbcVerifyIvLength(iv).error)
      == "Invalid CBC IV length: expected 16 bytes, got " + "24" + " bytes")
    ensures |iv| == 0 ==> (Message(CbcVerifyIvLength(iv).error)
      == "Invalid CBC IV length: expected 16 bytes, got " + "0" + " bytes")
  {
    CbcIvMessageText();
  }

  /** The tag lengths the check accepts for the three key sizes: 16, 24 and
      32 bytes, so a tag one byte short, one byte long or empty is refused. */
  lemma CbcTagLengths(tag: seq<byte>)
    ensures CbcVerifyTagLength(tag, 128).Pass? <==> |tag| == 16
    ensures CbcVerifyTagLength(tag, 192).Pass? <==> |tag| == 24
    ensures CbcVerifyTagLength(tag, 256).Pass? <==> |tag| == 32
  {
    ShiftsAreArithmetic(128);
    ShiftsAreArithmetic(192);
    ShiftsAreArithmetic(256);
  }

  /** The CEK lengths the check accepts for the three key sizes: 32, 48 and 64 bytes. */
  lemma CbcCekLengths(cek: seq<byte>)
    ensures CbcVerifyCekLength(cek, 128).Pass? <==> |cek| == 32
    ensures CbcVerifyCekLength(cek, 192).Pass? <==> |cek| == 48
    ensures CbcVerifyCekLength(cek, 256).Pass? <==> |cek| == 64
  {
    ShiftsAreArithmetic(128);
    ShiftsAreArithmetic(192);
    ShiftsAreArithmetic(256);
  }

  /** The two halves of a CBC-HMAC content encryption key. */
  datatype SplitKey = SplitKey(encRawKey: seq<byte>, macRawKey: seq<byte>)

  /** `divideCek` of the current revision: validates the CEK length, then
      returns `cek.slice(k)` as the AES key and `cek.slice(0, k)` as the MAC
      key, with k = `keyBitLength >>> 3`. */
  function DivideCek(cek: seq<byte>, keyBitLength: int): (r: Result<SplitKey>)
    ensures r.Success? <==> CbcVerifyCekLength(cek, keyBitLength).Pass?
    ensures r.Failure? ==> r.error == CbcVerifyCekLength(cek, keyBitLength).error
    ensures r.Success? ==>
      && |r.value.macRawKey| == |r.value.encRawKey| == UnsignedShiftRight(keyBitLength, 3)
      && r.value.macRawKey + r.value.encRawKey == cek
  {
    var k := UnsignedShiftRight(keyBitLength, 3);
    :- CbcVerifyCekLength(cek, keyBitLength);
    Success(SplitKey(Slice(cek, k, |cek|), Slice(cek, 0, k)))
  }

  /** The MAC key is the first half of a CEK of even length. */
  function MacKey(cek: seq<byte>): seq<byte> {
    cek[..|cek| / 2]
  }

  /** The AES key is the second half of the CEK. */
  function EncKey(cek: seq<byte>): seq<byte> {
    cek[|cek| / 2..]
  }

  /** Splitting the concatenation of a MAC key and an AES key of the size the
      key length names gives the two keys back. */
  lemma DivideCekOfJoin(macRawKey: seq<byte>, encRawKey: seq<byte>, keyBitLength: int)
    requires |macRawKey| == |encRawKey| == UnsignedShiftRight(keyBitLength, 3)
    ensures DivideCek(macRawKey + encRawKey, keyBitLength) == Success(SplitKey(encRawKey, macRawKey))
  {
    var cek := macRawKey + encRawKey;
    var k := |macRawKey|;
    assert cek[k..] == encRawKey && cek[..k] == macRawKey;
  }

  /** `divideCek` of the self-generated-IV revision: the caller passes the
      byte count (`keyBits >> 3`), and the CEK must hold exactly twice that. */
  function LegacyDivideCek(cek: seq<byte>, keyBytes: int): (r: Result<SplitKey>)
    ensures r.Success? <==> |cek| == 2 * keyBytes
    ensures r.Failure? ==> r.error == CekNotTwiceKeyBytes
    ensures r.Success? ==>
      && |r.value.macRawKey| == |r.value.encRawKey| == keyBytes
      && r.value.macRawKey + r.value.encRawKey == cek
  {
    if |cek| != keyBytes * 2 then Failure(CekNotTwiceKeyBytes)
    else Success(SplitKey(Slice(cek, keyBytes, |cek|), Slice(cek, 0, keyBytes)))
  }

  /** A split CEK is the MAC key followed by the AES key. */
  lemma {:induction false} DivideCekHalves(cek: seq<byte>, keyBitLength: int)
    requires DivideCek(cek, keyBitLength).Success?
    ensures DivideCek(cek, keyBitLength).value == SplitKey(EncKey(cek), MacKey(cek))
  {
    var keys := DivideCek(cek, keyBitLength).value;
    assert cek[..|cek| / 2] == keys.macRawKey;
  }

  /** The legacy split, too, is the MAC key followed by the AES key. */
  lemma {:induction false} LegacyDivideCekHalves(cek: seq<byte>, keyBytes: int)
    requires LegacyDivideCek(cek, keyBytes).Success?
    ensures LegacyDivideCek(cek, keyBytes).value == SplitKey(EncKey(cek), MacKey(cek))
  {
    var keys := LegacyDivideCek(cek, keyBytes).value;
    assert cek[..|cek| / 2] == keys.macRawKey;
  }

  /** The legacy split also gives back the keys it was built from. */
  lemma LegacyDivideCekOfJoin(macRawKey: seq<byte>, encRawKey: seq<byte>)
    requires |macRawKey| == |encRawKey|
    ensures LegacyDivideCek(macRawKey + encRawKey, |macRawKey|) == Success(SplitKey(encRawKey, macRawKey))
  {
    var cek := macRawKey + encRawKey;
    var k := |macRawKey|;
    assert cek[k..] == encRawKey && cek[..k] == macRawKey;
  }

  /** For every key size that a three-digit id can name, the two revisions
      split a CEK alike and accept the same CEK lengths; they differ only in
      the error they throw. */
  lemma {:induction false} DivideCekRevisionsAgree(cek: seq<byte>, keyBitLength: int)
    requires 0 <= keyBitLength < 1000
    ensures DivideCek(cek, keyBitLength).Success? == LegacyDivideCek(cek, ShiftRight(keyBitLength, 3)).Success?
    ensures DivideCek(cek, keyBitLength).Success? ==>
      DivideCek(cek, keyBitLength).value == LegacyDivideCek(cek, ShiftRight(keyBitLength, 3)).value
  {
    ShiftsAreArithmetic(keyBitLength);
  }

  /** `cbcGetCekByteLength`: twice `parseKeyBitLength(enc) >>> 3`. A name
      without digits parses to NaN, and `NaN >>> 3` is 0. */
  function CbcGetCekByteLength(enc: string): (n: int)
    ensures n >= 0 && n % 2 == 0
    ensures KeyBitLength.ParseKeyBitLength(enc).None? ==> n == 0
  {
    match KeyBitLength.ParseKeyBitLength(enc)
    case None => 0
    case Some(bits) =>
      var keyByteLength := UnsignedShiftRight(bits, 3);
      assert (keyByteLength * 2) % 2 == 0;
      keyByteLength * 2
  }

  /** The length `cbcGetCekByteLength` reports for a supported id is exactly
      the length the CEK check accepts for it, the tag is half of it, and the
      three CBC ids need 32, 48 and 64 bytes. */
  lemma {:induction false} CbcCekByteLengthAccepted(enc: string, cek: seq<byte>, tag: seq<byte>)
    requires Enc.IsEnc(enc)
    ensures CbcVerifyCekLength(cek, KeyBitLength.KeyBits(enc)).Pass? <==> |cek| == CbcGetCekByteLength(enc)
    ensures CbcVerifyTagLength(tag, KeyBitLength.KeyBits(enc)).Pass? <==> 2 * |tag| == CbcGetCekByteLength(enc)
    ensures enc == "A128CBC-HS256" ==> CbcGetCekByteLength(enc) == 32
    ensures enc == "A192CBC-HS384" ==> CbcGetCekByteLength(enc) == 48
    ensures enc == "A256CBC-HS512" ==> CbcGetCekByteLength(enc) == 64
  {
    var bits := KeyBitLength.KeyBits(enc);
    KeyBitLength.IdDigits(enc);
    ShiftsAreArithmetic(bits);
  }

  /** For the three key sizes, the bit count in the CEK message is eight
      times its byte count: `keyBitLength << 1` is the CEK size in bits. */
  lemma CekMessageConsistent(cek: seq<byte>, keyBitLength: int)
    requires keyBitLength == 128 || keyBitLength == 192 || keyBitLength == 256
    requires CbcVerifyCekLength(cek, keyBitLength).Fail?
    ensures CbcVerifyCekLength(cek, keyBitLength).error.expectedBits
      == 8 * CbcVerifyCekLength(cek, keyBitLength).error.expectedBytes
    ensures CbcVerifyCekLength(cek, keyBitLength).error.expectedBytes == keyBitLength / 4
  {
    ShiftsAreArithmetic(keyBitLength);
  }

  lemma CekMessageText()
    ensures Message(InvalidCbcCekLength(48, 384, 32))
      == "Invalid CBC content encryption key length: expected " + "48" + " bytes (" + "384"
      + " bits), but got " + "32" + " bytes"
  {
    DigitChars();
    assert NatToString(48) == "48" by { SmallNatStrings(48); }
    assert NatToString(32) == "32" by { SmallNatStrings(32); }
    assert NatToString(384) == "384" by { SmallNatStrings(384); }
  }

  /** The message the tests expect when a 32-byte CEK is used with A192CBC-HS384. */
  lemma CekMessageExample(cek: seq<byte>)
    requires |cek| == 32
    ensures CbcVerifyCekLength(cek, 192) == Fail(InvalidCbcCekLength(48, 384, 32))
    ensures Message(CbcVerifyCekLength(cek, 192).error)
      == "Invalid CBC content encryption key length: expected " + "48" + " bytes (" + "384"
      + " bits), but got " + "32" + " bytes"
  {
    ShiftsAreArithmetic(192);
    CekMessageText();
  }
}
