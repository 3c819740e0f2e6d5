/** `timingSafeEqual`: both inputs are hashed with SHA-256 and the two
    32-byte digests are compared by OR-ing together the XOR of every byte
    pair, so the comparison does the same work whatever the inputs are.
    SHA-256 is a parameter of the model. */
module TimingSafe {
  import opened Bytes

  /** Bitwise XOR of two naturals. */
  function Xor(a: nat, b: nat): (r: nat)
    decreases a + b
  {
    if a == 0 && b == 0 then 0
    else 2 * Xor(a / 2, b / 2) + (if a % 2 == b % 2 then 0 else 1)
  }

  /** Bitwise OR of two naturals. */
  function Or(a: nat, b: nat): (r: nat)
    decreases a + b
  {
    if a == 0 && b == 0 then 0
    else 2 * Or(a / 2, b / 2) + (if a % 2 == 0 && b % 2 == 0 then 0 else 1)
  }

  /** XOR is zero exactly on equal operands. */
  lemma {:induction false} XorZero(a: nat, b: nat)
    ensures Xor(a, b) == 0 <==> a == b
    decreases a + b
  {
    if !(a == 0 && b == 0) {
      XorZero(a / 2, b / 2);
    }
  }

  /** OR is zero exactly when both operands are. */
  lemma {:induction false} OrZero(a: nat, b: nat)
    ensures Or(a, b) == 0 <==> a == 0 && b == 0
    decreases a + b
  {
    if !(a == 0 && b == 0) {
      OrZero(a / 2, b / 2);
    }
  }

  /** `digest[i]` as the XOR sees it: an index past the end reads
      `undefined`, which the bitwise operators convert to 0. */
  function At(digest: seq<byte>, i: nat): byte {
    if i < |digest| then digest[i] else 0
  }

  /** The number of digest bytes compared: the loop runs while `++i < 32`. */
  const DIGEST_LENGTH: nat := 32

  /** The value of `out` after the first n rounds of the loop. */
  function Accumulate(da: seq<byte>, db: seq<byte>, n: nat): (out: nat)
    ensures out == 0 <==> forall i :: 0 <= i < n ==> At(da, i) == At(db, i)
  {
    if n == 0 then 0
    else
      var previous := Accumulate(da, db, n - 1);
      var difference := Xor(At(da, n - 1), At(db, n - 1));
      OrZero(previous, difference);
      XorZero(At(da, n - 1), At(db, n - 1));
      Or(previous, difference)
  }

  /** Once a difference has been OR-ed in, `out` stays nonzero for the rest
      of the loop: later rounds cannot undo an earlier mismatch. */
  lemma {:induction false} AccumulateStaysNonZero(da: seq<byte>, db: seq<byte>, n: nat, m: nat)
    requires n <= m
    requires Accumulate(da, db, n) != 0
    ensures Accumulate(da, db, m) != 0
  {
    var i :| 0 <= i < n && At(da, i) != At(db, i);
    assert !(0 <= i < m ==> At(da, i) == At(db, i));
  }

  /** `timingSafeEqual(a, b)`: true exactly when the first 32 bytes of the
      two digests agree. */
  function TimingSafeEqual(digest: seq<byte> -> seq<byte>, a: seq<byte>, b: seq<byte>): (equal: bool)
    ensures equal <==> forall i :: 0 <= i < DIGEST_LENGTH ==> At(digest(a), i) == At(digest(b), i)
  {
    Accumulate(digest(a), digest(b), DIGEST_LENGTH) == 0
  }

  /** The loop of `timingSafeEqual` as the source writes it. */
  method TimingSafeEqualLoop(digest: seq<byte> -> seq<byte>, a: seq<byte>, b: seq<byte>) returns (equal: bool)
    ensures equal == TimingSafeEqual(digest, a, b)
    ensures equal <==> forall i :: 0 <= i < DIGEST_LENGTH ==> At(digest(a), i) == At(digest(b), i)
  {
    var aDigest := digest(a);
    var bDigest := digest(b);
    var out: nat := 0;
    var i: nat := 0;
    while i < DIGEST_LENGTH
      invariant i <= DIGEST_LENGTH
      invariant out == Accumulate(aDigest, bDigest, i)
    {
      out := Or(out, Xor(At(aDigest, i), At(bDigest, i)));
      i := i + 1;
    }
    equal := out == 0;
  }

  /** Every input equals itself. */
  lemma TimingSafeEqualReflexive(digest: seq<byte> -> seq<byte>, a: seq<byte>)
    ensures TimingSafeEqual(digest, a, a)
  {
  }

  /** The comparison does not depend on the order of its arguments. */
  lemma TimingSafeEqualSymmetric(digest: seq<byte> -> seq<byte>, a: seq<byte>, b: seq<byte>)
    ensures TimingSafeEqual(digest, a, b) == TimingSafeEqual(digest, b, a)
  {
  }

  /** With a hash that yields 32 bytes and does not collide on the pair,
      the comparison answers exactly whether the inputs are equal. This is
      what the tests rely on for inputs that differ in a byte or in length. */
  lemma {:induction false} TimingSafeEqualIsEquality(digest: seq<byte> -> seq<byte>, a: seq<byte>, b: seq<byte>)
    requires |digest(a)| == DIGEST_LENGTH && |digest(b)| == DIGEST_LENGTH
    requires digest(a) == digest(b) ==> a == b
    ensures TimingSafeEqual(digest, a, b) <==> a == b
  {
    if TimingSafeEqual(digest, a, b) {
      assert forall i :: 0 <= i < DIGEST_LENGTH ==> digest(a)[i] == At(digest(a), i) == At(digest(b), i) == digest(b)[i];
      assert digest(a) == digest(b);
    }
  }
}
