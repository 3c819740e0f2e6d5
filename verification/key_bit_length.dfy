/** The key size an id carries in its name: `parseInt(enc.slice(1, 4), 10)`,
    in the current revision (`parseKeyBitLength`) and in the self-generated-IV
    revision (`parseKeyBits`), which is the same expression. */
module KeyBitLength {
  import opened JsNumbers
  import Enc

  /** `parseKeyBitLength`: the number written in characters 1 to 3; None is NaN. */
  function ParseKeyBitLength(enc: string): (r: Option<int>)
    ensures r.Some? ==> -1000 < r.value < 1000
  {
    ParseInt(Slice(enc, 1, 4))
  }

  /** `parseKeyBits` of the self-generated-IV revision reads the same
      characters the same way, so it agrees with `ParseKeyBitLength` on
      every string, including the non-id strings its tests pass. */
  function ParseKeyBits(enc: string): (r: Option<int>)
    ensures r == ParseKeyBitLength(enc)
    ensures r.Some? ==> -1000 < r.value < 1000
  {
    ParseInt(Slice(enc, 1, 4))
  }

  lemma ThreeDigitValue(d0: char, d1: char, d2: char)
    requires IsDigit(d0) && IsDigit(d1) && IsDigit(d2)
    ensures DecimalValue([d0, d1, d2]) == 100 * DigitValue(d0) + 10 * DigitValue(d1) + DigitValue(d2)
  {
    assert [d0, d1, d2][..2] == [d0, d1];
    assert [d0, d1][..1] == [d0];
    assert [d0][..0] == [];
    assert DecimalValue([d0]) == DigitValue(d0);
    assert DecimalValue([d0, d1]) == DigitValue(d0) * 10 + DigitValue(d1);
  }

  /** An id whose characters 1 to 3 are digits names the number they spell. */
  lemma {:induction false} ParseDigits(enc: string, d0: char, d1: char, d2: char)
    requires |enc| >= 4 && enc[1] == d0 && enc[2] == d1 && enc[3] == d2
    requires IsDigit(d0) && IsDigit(d1) && IsDigit(d2)
    ensures ParseKeyBitLength(enc) == Some(100 * DigitValue(d0) + 10 * DigitValue(d1) + DigitValue(d2))
  {
    var digits: string := [d0, d1, d2];
    assert Slice(enc, 1, 4) == digits;
    ParseIntOfSignedDigits(false, digits);
    assert "" + digits == digits;
    var r := ParseInt(digits);
    assert r.Some? && r.value == DecimalValue(digits) as int;
    assert r == Some(DecimalValue(digits) as int);
    ThreeDigitValue(d0, d1, d2);
    assert ParseKeyBitLength(enc) == r;
    var v := 100 * DigitValue(d0) + 10 * DigitValue(d1) + DigitValue(d2);
    assert DecimalValue(digits) == v;
    assert r == Some(v);
  }

  /** The key size each supported id names, read off its name. */
  function NamedBits(enc: string): (bits: int)
    requires Enc.IsEnc(enc)
    ensures bits == 128 || bits == 192 || bits == 256
  {
    if enc == "A128CBC-HS256" || enc == "A128GCM" then 128
    else if enc == "A192CBC-HS384" || enc == "A192GCM" then 192
    else 256
  }

  lemma IdDigits(enc: string)
    requires Enc.IsEnc(enc)
    ensures |enc| >= 4
    ensures NamedBits(enc) == 128 ==> enc[1] == '1' && enc[2] == '2' && enc[3] == '8'
    ensures NamedBits(enc) == 192 ==> enc[1] == '1' && enc[2] == '9' && enc[3] == '2'
    ensures NamedBits(enc) == 256 ==> enc[1] == '2' && enc[2] == '5' && enc[3] == '6'
  {
    Enc.Classification(enc);
    Enc.IsCbcEncExactly(enc);
    Enc.IsGcmEncExactly(enc);
  }

  /** The three key sizes are multiples of 8, so `>>> 3` loses nothing. */
  lemma KeySizeShift(bits: int)
    requires bits == 128 || bits == 192 || bits == 256
    ensures UnsignedShiftRight(bits, 3) * 8 == bits
  {
    ShiftsAreArithmetic(bits);
  }

  /** Every supported id names its key size: 128, 192 or 256 bits, a
      multiple of 8, so the byte count `>>> 3` derives from it is exact. */
  lemma {:induction false} KnownIdBits(enc: string)
    requires Enc.IsEnc(enc)
    ensures ParseKeyBitLength(enc) == Some(NamedBits(enc))
    ensures UnsignedShiftRight(NamedBits(enc), 3) * 8 == NamedBits(enc)
  {
    var bits := NamedBits(enc);
    KeySizeShift(bits);
    assert ParseKeyBitLength(enc) == Some(bits) by {
      IdDigits(enc);
      if bits == 128 {
        ParseDigits(enc, '1', '2', '8');
      } else if bits == 192 {
        ParseDigits(enc, '1', '9', '2');
      } else {
        ParseDigits(enc, '2', '5', '6');
      }
    }
  }

  /** The key size of a supported id. */
  function KeyBits(enc: string): (bits: int)
    requires Enc.IsEnc(enc)
    ensures ParseKeyBitLength(enc) == Some(bits)
    ensures bits == 128 || bits == 192 || bits == 256
    ensures UnsignedShiftRight(bits, 3) * 8 == bits
  {
    KnownIdBits(enc);
    NamedBits(enc)
  }

  /** Only characters 1 to 3 are read: the first character and anything
      after the third digit do not change the result. */
  lemma {:induction false} ReadsOnlyKeyDigits(enc: string, first: char, rest: string)
    requires |enc| >= 4
    ensures ParseKeyBitLength([first] + enc[1..4] + rest) == ParseKeyBitLength(enc)
  {
    var other := [first] + enc[1..4] + rest;
    assert other[1..4] == enc[1..4];
  }

  /** The values the tests of both revisions expect. */
  lemma ParsedExamples()
    ensures ParseKeyBitLength("A128GCM") == Some(128)
    ensures ParseKeyBitLength("A192GCM") == Some(192)
    ensures ParseKeyBitLength("A256GCM") == Some(256)
    ensures ParseKeyBits("a128") == Some(128)
    ensures ParseKeyBits("a192") == Some(192)
    ensures ParseKeyBits("a256") == Some(256)
  {
    ParseDigits("A128GCM", '1', '2', '8');
    ParseDigits("A192GCM", '1', '9', '2');
    ParseDigits("A256GCM", '2', '5', '6');
    ParseDigits("a128", '1', '2', '8');
    ParseDigits("a192", '1', '9', '2');
    ParseDigits("a256", '2', '5', '6');
  }
}
