/** The HMAC input of AES-CBC-HMAC-SHA2 (section 5.2.2.1 of RFC 7518):
    AAD || IV || ciphertext || AL, where AL is the bit length of the AAD as a
    64-bit big-endian integer. */
module MacData {
  import opened JsNumbers
  import opened Bytes

  /** `generateMacData` as written: the bit length is `aad.length << 3`, a
      32-bit shift, so it wraps for an AAD of 2^28 bytes or more. None stands
      for a negative shift result, whose encoding by `uint64BE` is not part
      of this model. */
  function GenerateMacDataAsWritten(aad: seq<byte>, iv: seq<byte>, ciphertext: seq<byte>): (r: Option<seq<byte>>)
    ensures r.None? ==> |aad| >= 0x1000_0000
    ensures r.Some? ==> exists al: nat :: al < TWO_32 && r.value == aad + iv + ciphertext + Uint64BE(al)
    ensures r.Some? <==> (8 * |aad|) % TWO_32 < TWO_31
    ensures r.Some? ==> r.value == aad + iv + ciphertext + Uint64BE((8 * |aad|) % TWO_32)
  {
    assert Pow2(3) == 8 by { assert Pow2(1) == 2; }
    ShiftLeftIsWrappedProduct(|aad|, 3);
    var aadBits := ShiftLeft(|aad|, 3);
    if aadBits < 0 then
      ShiftsAreArithmeticBelow(|aad|);
      None
    else
      Some(aad + iv + ciphertext + Uint64BE(aadBits))
  }

  lemma ShiftsAreArithmeticBelow(n: nat)
    requires ShiftLeft(n, 3) < 0
    ensures n >= 0x1000_0000
  {
    if n < 0x1000_0000 {
      ShiftsAreArithmetic(n);
    }
  }

  /** The MAC input with AL = 8 * |aad|, as the construction defines it. */
  function GenerateMacData(aad: seq<byte>, iv: seq<byte>, ciphertext: seq<byte>): (r: seq<byte>)
    ensures |r| == |aad| + |iv| + |ciphertext| + 8
    ensures r[..|aad|] == aad
    ensures r[|aad|..|aad| + |iv|] == iv
    ensures r[|aad| + |iv|..|r| - 8] == ciphertext
    ensures |aad| < TWO_64 / 8 ==> FromBigEndian(r[|r| - 8..]) == 8 * |aad|
  {
    var al := Uint64BE(8 * |aad|);
    var r := aad + iv + ciphertext + al;
    assert r[..|aad|] == aad;
    assert r[|aad|..|aad| + |iv|] == iv;
    assert r[|aad| + |iv|..|r| - 8] == ciphertext;
    assert r[|r| - 8..] == al;
    AlRoundTrip(8 * |aad|);
    r
  }

  lemma AlRoundTrip(n: nat)
    ensures n < TWO_64 ==> FromBigEndian(Uint64BE(n)) == n
  {
    if n < TWO_64 {
      Uint64BERoundTrip(n);
    }
  }

  /** For every AAD shorter than 2^28 bytes the code as written computes
      exactly the intended MAC input. */
  lemma {:induction false} AsWrittenAgreesBelowWrap(aad: seq<byte>, iv: seq<byte>, ciphertext: seq<byte>)
    requires |aad| < 0x1000_0000
    ensures GenerateMacDataAsWritten(aad, iv, ciphertext) == Some(GenerateMacData(aad, iv, ciphertext))
  {
    ShiftsAreArithmetic(|aad|);
  }

  /** An AAD of 2^29 bytes: `2^29 << 3` wraps to 0, so the code as written
      says the AAD is empty where the intended AL is 2^32 bits. */
  lemma {:induction false} AsWrittenWrapsAtTwoTo29(aad: seq<byte>, iv: seq<byte>, ciphertext: seq<byte>)
    requires |aad| == 0x2000_0000
    ensures GenerateMacDataAsWritten(aad, iv, ciphertext) == Some(aad + iv + ciphertext + [0, 0, 0, 0, 0, 0, 0, 0])
    ensures GenerateMacData(aad, iv, ciphertext) == aad + iv + ciphertext + [0, 0, 0, 1, 0, 0, 0, 0]
  {
    assert ShiftLeft(|aad|, 3) == 0;
    assert Uint64BE(0) == [0, 0, 0, 0, 0, 0, 0, 0];
    assert Uint64BE(8 * |aad|) == [0, 0, 0, 1, 0, 0, 0, 0];
  }

  /** The AL trailer makes the MAC input unambiguous: with IVs of one fixed
      length, equal MAC inputs come from equal AADs, IVs and ciphertexts. */
  lemma {:induction false} MacDataInjective(
    aad1: seq<byte>, iv1: seq<byte>, ct1: seq<byte>,
    aad2: seq<byte>, iv2: seq<byte>, ct2: seq<byte>)
    requires |iv1| == |iv2|
    requires |aad1| < TWO_64 / 8 && |aad2| < TWO_64 / 8
    requires GenerateMacData(aad1, iv1, ct1) == GenerateMacData(aad2, iv2, ct2)
    ensures aad1 == aad2 && iv1 == iv2 && ct1 == ct2
  {
    var r := GenerateMacData(aad1, iv1, ct1);
    assert 8 * |aad1| == FromBigEndian(r[|r| - 8..]) == 8 * |aad2|;
  }

  /** The code as written loses that guarantee: an AAD of 2^29 zero bytes
      and an empty AAD whose ciphertext carries those bytes instead give the
      same MAC input, so the tag cannot tell the two apart. */
  lemma {:induction false} AsWrittenIsAmbiguous(aad: seq<byte>, iv: seq<byte>, ciphertext: seq<byte>)
    requires |aad| == 0x2000_0000 && |iv| == 16
    ensures |aad[..16]| == |iv| && aad != []
    ensures GenerateMacDataAsWritten(aad, iv, ciphertext)
      == GenerateMacDataAsWritten([], aad[..16], aad[16..] + iv + ciphertext)
  {
    var rest := aad[16..] + iv + ciphertext;
    var zero: seq<byte> := [0, 0, 0, 0, 0, 0, 0, 0];
    assert aad[..16] + rest == aad + iv + ciphertext by {
      assert aad[..16] + aad[16..] == aad;
    }
    assert GenerateMacDataAsWritten([], aad[..16], rest) == Some(aad[..16] + rest + zero) by {
      AsWrittenAgreesBelowWrap([], aad[..16], rest);
      MacDataEmptyAad(aad[..16], rest);
    }
    AsWrittenWrapsAtTwoTo29(aad, iv, ciphertext);
  }

  /** The vector of the tests: AAD [1, 2, 3], IV 4..19, ciphertext 20..24. */
  lemma MacDataExample()
    ensures GenerateMacData([1, 2, 3], [4, 5, 6, 7, 8, 9, 10, 11, 12, 13, 14, 15, 16, 17, 18, 19], [20, 21, 22, 23, 24])
      == [1, 2, 3] + [4, 5, 6, 7, 8, 9, 10, 11, 12, 13, 14, 15, 16, 17, 18, 19] + [20, 21, 22, 23, 24]
        + [0, 0, 0, 0, 0, 0, 0, 24]
  {
    assert Uint64BE(24) == [0, 0, 0, 0, 0, 0, 0, 24];
  }

  /** With an empty AAD the MAC input is IV || ciphertext followed by eight zero bytes. */
  lemma MacDataEmptyAad(iv: seq<byte>, ciphertext: seq<byte>)
    ensures GenerateMacData([], iv, ciphertext) == iv + ciphertext + [0, 0, 0, 0, 0, 0, 0, 0]
  {
    assert Uint64BE(0) == [0, 0, 0, 0, 0, 0, 0, 0];
    assert [] + iv + ciphertext == iv + ciphertext;
  }
}
