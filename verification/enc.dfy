/** The algorithm registry: the closed list of JWE content-encryption ids
    (`enc` header values) and the predicates that classify a string as a
    CBC-HMAC id, a GCM id, or neither. */
module Enc {

  const CbcEncArray: seq<string> := ["A128CBC-HS256", "A192CBC-HS384", "A256CBC-HS512"]

  const GcmEncArray: seq<string> := ["A128GCM", "A192GCM", "A256GCM"]

  const EncArray: seq<string> := CbcEncArray + GcmEncArray

  /** `isCbcEnc`: exact membership in the CBC list. */
  predicate IsCbcEnc(enc: string) {
    enc in CbcEncArray
  }

  /** `isGcmEnc`: exact membership in the GCM list. */
  predicate IsGcmEnc(enc: string) {
    enc in GcmEncArray
  }

  /** `isEnc`: exact membership in the list of all six ids. */
  predicate IsEnc(enc: string) {
    enc in EncArray
  }

  predicate NoDuplicates(s: seq<string>) {
    forall i, j :: 0 <= i < j < |s| ==> s[i] != s[j]
  }

  /** The registry lists the three CBC-HMAC ids and then the three GCM ids,
      each in ascending key size, with no id repeated and no id in both lists. */
  lemma {:induction false} RegistryContents()
    ensures CbcEncArray == ["A128CBC-HS256", "A192CBC-HS384", "A256CBC-HS512"]
    ensures GcmEncArray == ["A128GCM", "A192GCM", "A256GCM"]
    ensures |EncArray| == 6 && EncArray == CbcEncArray + GcmEncArray
    ensures NoDuplicates(EncArray)
    ensures forall s :: s in CbcEncArray ==> s !in GcmEncArray
  {
    assert EncArray == ["A128CBC-HS256", "A192CBC-HS384", "A256CBC-HS512", "A128GCM", "A192GCM", "A256GCM"];
  }

  /** isCbcEnc holds of exactly the three CBC-HMAC ids. */
  lemma IsCbcEncExactly(s: string)
    ensures IsCbcEnc(s) <==> s == "A128CBC-HS256" || s == "A192CBC-HS384" || s == "A256CBC-HS512"
  {
  }

  /** isGcmEnc holds of exactly the three GCM ids. */
  lemma IsGcmEncExactly(s: string)
    ensures IsGcmEnc(s) <==> s == "A128GCM" || s == "A192GCM" || s == "A256GCM"
  {
  }

  /** A string is a supported id iff it is a CBC id or a GCM id, and it is never both. */
  lemma {:induction false} Classification(s: string)
    ensures IsEnc(s) <==> IsCbcEnc(s) || IsGcmEnc(s)
    ensures !(IsCbcEnc(s) && IsGcmEnc(s))
  {
    RegistryContents();
  }

  /** Matching is exact: a supported id with anything appended is not supported. */
  lemma {:induction false} SuffixedIdsRejected(s: string, suffix: string)
    requires IsEnc(s) && |suffix| > 0
    ensures !IsEnc(s + suffix)
  {
    // only a 7-character GCM id could be a proper prefix of a 13-character
    // CBC id, and those already differ at index 4
    IsCbcEncExactly(s);
    IsGcmEncExactly(s);
    Classification(s);
    var t := s + suffix;
    assert t[4] == s[4];
    if IsCbcEnc(s) {
      assert |t| > 13;
    } else {
      assert |s| == 7 && s[4] == 'G';
      assert t != "A128CBC-HS256" && t != "A192CBC-HS384" && t != "A256CBC-HS512";
      assert |t| > 7;
    }
    IsCbcEncExactly(t);
    IsGcmEncExactly(t);
    Classification(t);
  }

  /** The strings the registry tests reject. */
  lemma RejectedExamples()
    ensures !IsEnc("INVALID") && !IsEnc("A128CBC-HS256-INVALID") && !IsEnc("A128GCM-INVALID")
    ensures !IsCbcEnc("A128GCM") && !IsGcmEnc("A128CBC-HS256")
  {
    assert "A128CBC-HS256-INVALID" == "A128CBC-HS256" + "-INVALID";
    assert "A128GCM-INVALID" == "A128GCM" + "-INVALID";
    SuffixedIdsRejected("A128CBC-HS256", "-INVALID");
    SuffixedIdsRejected("A128GCM", "-INVALID");
  }
}
