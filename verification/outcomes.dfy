/** The errors the cipher code throws, as values. Every `throw new Error(…)`
    of the engines, validators and facades is one constructor of `Error`;
    `Message` renders the exact text the source puts into the thrown Error.
    A rejected promise of an external primitive is carried unchanged as
    `PrimitiveFailure`. */
module Outcomes {
  import opened JsNumbers

  datatype Error =
    // engines of the caller-supplied-IV revision: `Invalid encryption algorithm: ${enc}`
    | InvalidEncryptionAlgorithm(enc: string)
    // engines of the self-generated-IV revision: 'Invalid encryption algorithm'
    | InvalidEncryptionAlgorithmUnnamed
    | InvalidCbcIvLength(actual: nat)
    | InvalidCbcCekLength(expectedBytes: int, expectedBits: int, actual: nat)
    | InvalidCbcTagLength(expectedBytes: int, expectedBits: int, actual: nat)
    // divideCek of the self-generated-IV revision
    | CekNotTwiceKeyBytes
    | InvalidGcmIvLength(actual: nat)
    | InvalidGcmTagLength(actual: nat)
    | InvalidGcmCekLength(expectedBytes: int, expectedBits: int, actual: nat)
    // validators of the self-generated-IV GCM engine
    | InvalidCekLength
    | InvalidTagLength
    | InvalidIvLength
    | InvalidAuthenticationTag
    // the AesCipher facade
    | InvalidEncryptionMode(enc: string)
    // the Aes facade
    | UnsupportedEncryptionAlgorithm(enc: string)
    | UnsupportedDecryptionAlgorithm(enc: string)
    // a failure raised inside an external primitive, propagated as is
    | PrimitiveFailure(message: string)

  /** The text of the Error the source throws. */
  function Message(e: Error): string {
    match e
    case InvalidEncryptionAlgorithm(enc) => "Invalid encryption algorithm: " + enc
    case InvalidEncryptionAlgorithmUnnamed => "Invalid encryption algorithm"
    case InvalidCbcIvLength(n) =>
      "Invalid CBC IV length: expected 16 bytes, got " + NatToString(n) + " bytes"
    case InvalidCbcCekLength(bytes, bits, n) =>
      "Invalid CBC content encryption key length: expected " + IntToString(bytes)
      + " bytes (" + IntToString(bits) + " bits), but got " + NatToString(n) + " bytes"
    case InvalidCbcTagLength(bytes, bits, n) =>
      "Invalid CBC authentication tag length: expected " + IntToString(bytes)
      + " bytes (" + IntToString(bits) + " bits), but got " + NatToString(n) + " bytes"
    case CekNotTwiceKeyBytes => "CEK length must be twice the keyBytes"
    case InvalidGcmIvLength(n) =>
      "Invalid GCM IV length: expected 12 bytes, got " + NatToString(n) + " bytes"
    case InvalidGcmTagLength(n) =>
      "Invalid GCM authentication tag length: expected 16 bytes, but got " + NatToString(n) + " bytes"
    case InvalidGcmCekLength(bytes, bits, n) =>
      "Invalid GCM content encryption key length: expected " + IntToString(bytes)
      + " bytes (" + IntToString(bits) + " bits), but got " + NatToString(n) + " bytes"
    case InvalidCekLength => "Invalid content encryption key length"
    case InvalidTagLength => "Invalid tag length"
    case InvalidIvLength => "Invalid initialization vector length"
    case InvalidAuthenticationTag => "Invalid authentication tag"
    case InvalidEncryptionMode(enc) => "Invalid encryption mode: " + enc
    case UnsupportedEncryptionAlgorithm(enc) => "Unsupported encryption algorithm: " + enc
    case UnsupportedDecryptionAlgorithm(enc) => "Unsupported decryption algorithm: " + enc
    case PrimitiveFailure(m) => m
  }

  /** A message that names an id ends with that id, so the id can be read
      back from it: two ids give the same message only if they are equal. */
  lemma {:induction false} MessageNamesId(a: string, b: string)
    ensures Message(InvalidEncryptionMode(a))[|Message(InvalidEncryptionMode(a))| - |a|..] == a
    ensures Message(InvalidEncryptionMode(a)) == Message(InvalidEncryptionMode(b)) ==> a == b
    ensures Message(InvalidEncryptionAlgorithm(a)) == Message(InvalidEncryptionAlgorithm(b)) ==> a == b
    ensures Message(UnsupportedEncryptionAlgorithm(a)) == Message(UnsupportedEncryptionAlgorithm(b)) ==> a == b
    ensures Message(UnsupportedDecryptionAlgorithm(a)) == Message(UnsupportedDecryptionAlgorithm(b)) ==> a == b
  {
    var m := Message(InvalidEncryptionMode(a));
    assert m[|m| - |a|..] == a;
    if Message(InvalidEncryptionMode(a)) == Message(InvalidEncryptionMode(b)) {
      MiddleDetermined("Invalid encryption mode: ", a, b, "");
    }
    if Message(InvalidEncryptionAlgorithm(a)) == Message(InvalidEncryptionAlgorithm(b)) {
      MiddleDetermined("Invalid encryption algorithm: ", a, b, "");
    }
    if Message(UnsupportedEncryptionAlgorithm(a)) == Message(UnsupportedEncryptionAlgorithm(b)) {
      MiddleDetermined("Unsupported encryption algorithm: ", a, b, "");
    }
    if Message(UnsupportedDecryptionAlgorithm(a)) == Message(UnsupportedDecryptionAlgorithm(b)) {
      MiddleDetermined("Unsupported decryption algorithm: ", a, b, "");
    }
  }

  /** The IV and tag messages report the offending length in decimal, and
      different lengths give different messages. */
  lemma {:induction false} MessageReportsLength(m: nat, n: nat)
    ensures Message(InvalidCbcIvLength(m)) == Message(InvalidCbcIvLength(n)) ==> m == n
    ensures Message(InvalidGcmIvLength(m)) == Message(InvalidGcmIvLength(n)) ==> m == n
    ensures Message(InvalidGcmTagLength(m)) == Message(InvalidGcmTagLength(n)) ==> m == n
  {
    DecimalRoundTrip(m);
    DecimalRoundTrip(n);
    if Message(InvalidCbcIvLength(m)) == Message(InvalidCbcIvLength(n)) {
      MiddleDetermined("Invalid CBC IV length: expected 16 bytes, got ", NatToString(m), NatToString(n), " bytes");
    }
    if Message(InvalidGcmIvLength(m)) == Message(InvalidGcmIvLength(n)) {
      MiddleDetermined("Invalid GCM IV length: expected 12 bytes, got ", NatToString(m), NatToString(n), " bytes");
    }
    if Message(InvalidGcmTagLength(m)) == Message(InvalidGcmTagLength(n)) {
      MiddleDetermined(
        "Invalid GCM authentication tag length: expected 16 bytes, but got ", NatToString(m), NatToString(n), " bytes");
    }
  }

  /** Text between a fixed prefix and a fixed suffix is determined by the whole. */
  lemma {:induction false} MiddleDetermined(prefix: string, a: string, b: string, suffix: string)
    requires prefix + a + suffix == prefix + b + suffix
    ensures a == b
  {
    var s := prefix + a + suffix;
    assert |a| == |b|;
    assert s[|prefix|..|prefix| + |a|] == a;
    assert (prefix + b + suffix)[|prefix|..|prefix| + |b|] == b;
  }

  /** The outcome of an operation that either returns a value or throws. */
  datatype Result<+T> = Success(value: T) | Failure(error: Error) {
    predicate IsFailure() {
      Failure?
    }

    function PropagateFailure<U>(): Result<U>
      requires Failure?
    {
      Failure(error)
    }

    function Extract(): T
      requires Success?
    {
      value
    }
  }

  /** The outcome of a validator, which returns nothing or throws. */
  datatype Check = Pass | Fail(error: Error) {
    predicate IsFailure() {
      Fail?
    }

    function PropagateFailure<U>(): Result<U>
      requires Fail?
    {
      Failure(error)
    }
  }

  function Need(condition: bool, error: Error): (c: Check)
    ensures c.Pass? <==> condition
    ensures c.Fail? ==> c.error == error
  {
    if condition then Pass else Fail(error)
  }
}
