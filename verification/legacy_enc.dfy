/** The registry of the self-generated-IV revision, which keeps its own copy
    of the id lists next to the classifying predicates. It is modelled as it
    is written, and shown to agree with `Enc` on every string. */
module LegacyEnc {
  import Enc

  const CbcEncArray: seq<string> := ["A128CBC-HS256", "A192CBC-HS384", "A256CBC-HS512"]

  const GcmEncArray: seq<string> := ["A128GCM", "A192GCM", "A256GCM"]

  const EncArray: seq<string> := CbcEncArray + GcmEncArray

  predicate IsCbcEnc(enc: string) {
    enc in CbcEncArray
  }

  predicate IsGcmEnc(enc: string) {
    enc in GcmEncArray
  }

  predicate IsEnc(value: string) {
    value in EncArray
  }

  /** The legacy lists are the canonical six ids, and `encArray` is their concatenation. */
  lemma ListsAreCanonical()
    ensures CbcEncArray == Enc.CbcEncArray && GcmEncArray == Enc.GcmEncArray
    ensures EncArray == Enc.EncArray && |EncArray| == 6
  {
  }

  /** Each legacy predicate is membership in its list and classifies every
      string exactly as the registry does; `isEnc` is either predicate. */
  lemma {:induction false} AgreesWithRegistry(s: string)
    ensures IsCbcEnc(s) <==> Enc.IsCbcEnc(s)
    ensures IsGcmEnc(s) <==> Enc.IsGcmEnc(s)
    ensures IsEnc(s) <==> Enc.IsEnc(s)
    ensures IsEnc(s) <==> IsCbcEnc(s) || IsGcmEnc(s)
  {
    ListsAreCanonical();
    Enc.Classification(s);
  }
}
