# aes-universal content encryption, modelled in Dafny

This project models the JWE content-encryption layer of `aes-universal`. That layer covers the algorithm ids `A128CBC-HS256`, `A192CBC-HS384`, `A256CBC-HS512`, `A128GCM`, `A192GCM` and `A256GCM` of RFC 7518. The model contains:

- **The algorithm registry** (`Enc`, `LegacyEnc`): the closed list of six ids and the CBC/GCM classification.
- **Key-size parsing** (`KeyBitLength`): `parseInt(enc.slice(1, 4), 10)`, with the JavaScript `parseInt` and shift semantics it relies on (`JsNumbers`).
- **The CBC-HMAC helpers** (`CbcUtils`, `MacData`, `TimingSafe`). These cover:
  - the IV, CEK and tag length checks;
  - both revisions of `divideCek`;
  - the MAC input AAD ∥ IV ∥ ciphertext ∥ AL of section 5.2.2.1 of RFC 7518;
  - the SHA-256-based timing-safe comparison.
- **The GCM helpers** (`GcmUtils`): the length checks of section 5.3 of RFC 7518.
- **Four engines.** Each engine runs its checks in the source's order and calls its primitives the way the source calls them:
  - `CbcCipher` and `GcmCipher` belong to the current revision (`src/core`), in which the caller supplies the IV.
  - `LegacyCbcCipher` and `LegacyGcmCipher` belong to the earlier revision (`src/cbc`, `src/gcm`), in which the engine draws the IV from `randomBytes` and returns it.
- **The two dispatch facades**: `AesCipher` (current) and `Aes` (earlier).

Every `throw new Error(…)` is an `Outcomes.Error` value carried in a `Result`, and `Outcomes.Message` renders the exact text. A failure raised inside a primitive propagates unchanged.

The cryptographic primitives are function-valued fields of `Primitives.CbcPrimitives` and `Primitives.GcmPrimitives`: AES-CBC, the truncated HMAC, AES-GCM and SHA-256. The random source is a `Primitives.RandomBytes` parameter. The properties the round trips rest on are predicates that the lemmas take as preconditions:

- `CbcDecryptInvertsEncrypt`: AES-CBC decryption inverts encryption.
- `TagHasKeyLength`: for the key sizes 128, 192 and 256, the only ones the engines pass, the tag is `keyBitLength >>> 3` bytes.
- `GcmSound`: AES-GCM produces a 16-byte tag and decrypts its own output.
- `RandomBytesExact`: `randomBytes(n)` yields n bytes.

Some facts about the code that the model follows:

- **Error wording.** The current `AesCipher` refuses an unknown id with 'Invalid encryption mode: <id>'. Every error is a plain `Error` with a message.
- **Primitive errors.** An error raised by a primitive reaches the caller unchanged.
- **Key size of an unexpected id.** The byte-length helpers of the current revision are modelled on every string of code points; see "## Left out" for ids outside the Basic Multilingual Plane. A name without digits parses to NaN, and `NaN >>> 3` is 0.
- **Check order in GCM `decrypt`.** Both GCM revisions check the tag before the IV. Both CBC revisions check the IV, then the CEK, then the tag.

## Model

| member | source | states |
|---|---|---|
| Outcomes.Message | src/gcm/AbstractGcmCipher.ts:172-194 | renders each thrown error as the text the source throws; the validator, engine and facade messages are pinned by the message lemmas and by the engines' contracts |
| Outcomes.MessageNamesId | src/core/AesCipher.ts:52 | 'Invalid encryption mode', 'Invalid encryption algorithm' and the two 'Unsupported … algorithm' messages end with the id, so equal messages name equal ids |
| Outcomes.MessageReportsLength | src/cbc/cbcVerifyIvLength.ts:8-10 | the CBC IV, GCM IV and GCM tag messages report the length in decimal: different lengths give different messages |
| Enc.RegistryContents | src/constants/Enc.ts:4-18 | the CBC list is the three CBC-HMAC ids in ascending key size, the GCM list the three GCM ids, and `encArray` their six-entry concatenation, without duplicates and with the two lists disjoint |
| Enc.IsCbcEncExactly | src/common/utils/isEnc.ts:9-11 | `isCbcEnc` holds of exactly `A128CBC-HS256`, `A192CBC-HS384` and `A256CBC-HS512` |
| Enc.IsGcmEncExactly | src/common/utils/isEnc.ts:18-20 | `isGcmEnc` holds of exactly `A128GCM`, `A192GCM` and `A256GCM` |
| Enc.Classification | src/common/utils/isEnc.ts:9-29 | `isEnc(s)` iff `isCbcEnc(s)` or `isGcmEnc(s)`, and no string is both |
| Enc.SuffixedIdsRejected | src/common/utils/__tests__/isEnc.spec.ts:45-49 | matching is exact: a supported id with any non-empty suffix is not supported |
| Enc.RejectedExamples | src/constants/__tests__/Enc.spec.ts:48-67 | 'INVALID', 'A128CBC-HS256-INVALID' and 'A128GCM-INVALID' are not ids; a GCM id is not CBC and vice versa |
| LegacyEnc.ListsAreCanonical | src/Enc.ts:4-18 | the earlier revision's lists are the same six ids and `encArray` is their concatenation |
| LegacyEnc.AgreesWithRegistry | src/Enc.ts:41-63 | its `isCbcEnc`, `isGcmEnc` and `isEnc` classify every string as the current registry does, and `isEnc` is either predicate |
| KeyBitLength.ParseKeyBitLength | src/common/utils/parseKeyBitLength.ts:16-18 | the number read from characters 1 to 3 has at most three digits (between -1000 and 1000), or is NaN |
| KeyBitLength.ParseKeyBits | src/cbc/parseKeyBits.ts:9-11 | the earlier revision's parser agrees with `parseKeyBitLength` on every string |
| KeyBitLength.ParseDigits | src/common/utils/parseKeyBitLength.ts:17 | when characters 1 to 3 are decimal digits, the result is the number they spell |
| KeyBitLength.KnownIdBits | src/common/utils/parseKeyBitLength.ts:16-18 | each supported id parses to the key size its name carries, and that size is a multiple of 8 |
| KeyBitLength.KeyBits | src/common/utils/parseKeyBitLength.ts:16-18 | the key size of a supported id is 128, 192 or 256, is what the parser returns, and `>>> 3` of it is exact |
| KeyBitLength.ReadsOnlyKeyDigits | src/common/utils/parseKeyBitLength.ts:17 | replacing the first character or anything after the third digit does not change the result |
| KeyBitLength.ParsedExamples | src/common/utils/__tests__/parseKeyBitLength.spec.ts:5-18 | A128GCM, A192GCM and A256GCM give 128, 192 and 256, and so do the strings the earlier parser's tests use |
| CbcUtils.CbcVerifyIvLength | src/cbc/cbcVerifyIvLength.ts:6-12 | passes iff the IV is 16 bytes; otherwise the error carries the IV's length, so only the length matters |
| CbcUtils.CbcIvMessageExamples | src/cbc/__tests__/cbcVerifyIvLength.spec.ts:11-30 | IVs of 8, 24 and 0 bytes are refused with 'Invalid CBC IV length: expected 16 bytes, got N bytes' |
| CbcUtils.CbcVerifyCekLength | src/core/cbc/utils/cbcVerifyCekLength.ts:7-17 | passes iff the CEK is `2 * (keyBitLength >>> 3)` bytes; for every key length the error reports that byte count, `keyBitLength << 1` bits and the CEK's actual length |
| CbcUtils.CbcCekLengths | src/core/cbc/utils/__tests__/cbcVerifyCekLength.spec.ts:23-65 | for 128, 192 and 256 bits exactly 32, 48 and 64 bytes are accepted, so one short, one long and empty CEKs are refused |
| CbcUtils.CekMessageConsistent | src/core/cbc/utils/cbcVerifyCekLength.ts:11-15 | for the three key sizes the message's bit count (`keyBitLength << 1`) is eight times its byte count, which is `keyBitLength / 4` |
| CbcUtils.CbcVerifyTagLength | src/core/cbc/utils/cbcVerifyTagLength.ts:7-14 | passes iff the tag is `keyBitLength >>> 3` bytes; the error states expected bytes, the key bits and the actual length |
| CbcUtils.CbcTagLengths | src/cbc/__tests__/cbcVerifyTagLength.spec.ts:23-63 | for 128, 192 and 256 bits exactly 16, 24 and 32 bytes are accepted |
| CbcUtils.DivideCek | src/core/cbc/utils/divideCek.ts:42-53 | succeeds iff the CEK check passes, failing with its error otherwise; the two halves are `keyBitLength >>> 3` bytes each and the MAC key followed by the AES key is the CEK |
| CbcUtils.DivideCekOfJoin | src/core/cbc/utils/divideCek.ts:47-52 | splitting a MAC key joined to an AES key of the named size gives the two keys back |
| CbcUtils.DivideCekHalves | src/core/cbc/utils/divideCek.ts:49-50 | a successful split is the second half of the CEK as the AES key and the first half as the MAC key |
| CbcUtils.LegacyDivideCekHalves | src/cbc/divideCek.ts:46-47 | a successful split of the earlier revision is likewise the second half as the AES key and the first half as the MAC key |
| CbcUtils.CekMessageExample | src/core/cbc/utils/__tests__/divideCek.spec.ts:62-67 | a 32-byte CEK with 192 bits fails with 'expected 48 bytes (384 bits), but got 32 bytes' |
| CbcUtils.LegacyDivideCek | src/cbc/divideCek.ts:38-50 | succeeds iff the CEK is twice `keyBytes`, otherwise fails with 'CEK length must be twice the keyBytes'; the halves are `keyBytes` long and rejoin to the CEK |
| CbcUtils.LegacyDivideCekOfJoin | src/cbc/divideCek.ts:46-49 | the earlier split also gives back the two keys it was built from |
| CbcUtils.DivideCekRevisionsAgree | src/cbc/AbstractCbcCipher.ts:86 | for key sizes below 1000, the split by `keyBits >> 3` bytes and the split by `keyBitLength` accept the same CEKs and give the same keys |
| CbcUtils.CbcGetCekByteLength | src/core/cbc/utils/cbcGetCekByteLength.ts:10-15 | the reported length is even and not negative, and 0 for a name without digits |
| CbcUtils.CbcCekByteLengthAccepted | src/core/cbc/utils/cbcGetCekByteLength.ts:10-15 | for a supported id, the CEK check passes iff the CEK has the reported length, the tag check passes iff the tag is half of it, and the CBC ids report 32, 48 and 64 |
| MacData.GenerateMacDataAsWritten | src/core/cbc/utils/generateMacData.ts:21-29 | the code as written appends AL = 8·\|aad\| mod 2^32 to AAD ∥ IV ∥ ciphertext whenever that value is below 2^31 (`aad.length << 3` is not negative); otherwise the result is left open, which happens only for an AAD of 2^28 bytes or more |
| MacData.GenerateMacData | src/core/cbc/utils/generateMacData.ts:26-28 | the MAC input is the AAD, then the IV, then the ciphertext, then 8 bytes that decode big-endian to 8·\|aad\|; its length is the sum plus 8 |
| MacData.AsWrittenAgreesBelowWrap | src/core/cbc/utils/generateMacData.ts:26 | for every AAD shorter than 2^28 bytes the code as written gives exactly the intended MAC input |
| MacData.AsWrittenWrapsAtTwoTo29 | src/core/cbc/utils/generateMacData.ts:26 | for an AAD of 2^29 bytes the code as written appends AL = 0, where the intended AL is 2^32 |
| MacData.MacDataInjective | src/core/cbc/utils/generateMacData.ts:28 | with IVs of one length, equal MAC inputs come from equal AAD, IV and ciphertext |
| MacData.AsWrittenIsAmbiguous | src/core/cbc/utils/generateMacData.ts:26 | as written, a 2^29-byte AAD and an empty AAD with those bytes moved into the IV and ciphertext give the same MAC input |
| MacData.MacDataExample | src/cbc/__tests__/generateMacData.spec.ts:5-53 | AAD [1,2,3], IV 4..19 and ciphertext 20..24 give those bytes followed by [0,0,0,0,0,0,0,24] |
| MacData.MacDataEmptyAad | src/cbc/__tests__/generateMacData.spec.ts:55-100 | with an empty AAD the MAC input is IV ∥ ciphertext followed by eight zero bytes |
| TimingSafe.Accumulate | src/cbc/timingSafeEqual.ts:13-17 | after n rounds the accumulator is 0 iff the two digests agree on their first n positions |
| TimingSafe.AccumulateStaysNonZero | src/cbc/timingSafeEqual.ts:15-16 | once the accumulator is nonzero no later round brings it back to 0 |
| TimingSafe.TimingSafeEqual | src/cbc/timingSafeEqual.ts:9-20 | true iff the SHA-256 digests of the two inputs agree on all 32 positions |
| TimingSafe.TimingSafeEqualLoop | src/cbc/timingSafeEqual.ts:13-19 | the loop visits all 32 positions and answers whether the digests agree on every one |
| TimingSafe.TimingSafeEqualReflexive | src/cbc/__tests__/timingSafeEqual.spec.ts:5-39 | every input, including empty, all-zero and all-0xFF ones, compares equal to itself |
| TimingSafe.TimingSafeEqualSymmetric | src/cbc/timingSafeEqual.ts:16 | the result does not depend on the order of the arguments |
| TimingSafe.TimingSafeEqualIsEquality | src/cbc/__tests__/timingSafeEqual.spec.ts:11-21 | with a 32-byte hash that does not collide on the pair, the result is true iff the inputs are equal, so differing inputs and inputs of different lengths compare unequal |
| GcmUtils.GcmVerifyIvLength | src/gcm/gcmVerifyIvLength.ts:6-12 | passes iff the IV is 12 bytes; the error carries only the IV's length |
| GcmUtils.GcmIvMessageExamples | src/gcm/__tests__/gcmVerifyIvLength.spec.ts:11-30 | IVs of 8, 16 and 0 bytes are refused with 'Invalid GCM IV length: expected 12 bytes, got N bytes' |
| GcmUtils.GcmVerifyTagLength | src/gcm/gcmVerifyTagLength.ts:13-20 | passes iff the tag is 16 bytes, whatever the key size; the error carries only the tag's length |
| GcmUtils.GcmTagMessageExamples | src/gcm/__tests__/gcmVerifyTagLength.spec.ts:11-30 | tags of 12, 24 and 0 bytes are refused with 'Invalid GCM authentication tag length: expected 16 bytes, but got N bytes' |
| GcmUtils.GcmVerifyCekLength | src/core/gcm/utils/gcmVerifyCekLength.ts:7-14 | passes iff the CEK is `keyBitLength >>> 3` bytes; the error states expected bytes, the key bits and the actual length |
| GcmUtils.GcmCekLengths | src/core/gcm/utils/__tests__/gcmVerifyCekLength.spec.ts:23-63 | for 128, 192 and 256 bits exactly 16, 24 and 32 bytes are accepted |
| GcmUtils.GcmGetCekByteLength | src/core/gcm/utils/gcmGetCekByteLength.ts:10-15 | the reported length is not negative, and 0 for a name without digits |
| GcmUtils.GcmCekByteLengthAccepted | src/core/gcm/utils/gcmGetCekByteLength.ts:10-15 | for a supported id, the CEK check passes iff the CEK has the reported length, which is the key size over 8, 16/24/32 for the GCM ids, and half the CBC length of the same key size |
| CbcCipher.CbcKeyBits | src/core/cbc/AbstractCbcCipher.ts:76 | the key size of a CBC id is the parsed one, 128, 192 or 256 |
| CbcCipher.Encrypt | src/core/cbc/AbstractCbcCipher.ts:63-97 | refuses a non-CBC id naming it, then an IV that is not 16 bytes, then a CEK of the wrong size; on valid input the result is `Sealed(ciphertext, tag)` with the ciphertext from AES-CBC under the second CEK half and the tag from `generateTag` under the first half over the MAC input, and a failure of either primitive propagates |
| CbcCipher.Decrypt | src/core/cbc/AbstractCbcCipher.ts:109-149 | refuses id, IV, CEK and tag length in that order; propagates a tag failure; fails with 'Invalid authentication tag' when the timing-safe comparison rejects; otherwise returns exactly `decryptInternal(encKey, iv, ciphertext)` |
| CbcCipher.EncryptDecryptRoundTrip | src/core/cbc/AbstractCbcCipher.ts:63-149 | decrypting what `encrypt` produced, with the same id, CEK, IV and AAD, gives the plaintext back |
| CbcCipher.ForgedTagRejected | src/core/cbc/AbstractCbcCipher.ts:131-140 | a tag the recomputed one does not match gives 'Invalid authentication tag' whatever `decryptInternal` does, so AES decryption is never reached |
| CbcCipher.AcceptedTagIsExact | src/core/cbc/AbstractCbcCipher.ts:131-148 | when SHA-256 does not collide on the two tags, decryption succeeds only with exactly the recomputed tag |
| LegacyCbcCipher.LegacyCbcKeyBits | src/cbc/AbstractCbcCipher.ts:84 | `parseKeyBits` of a CBC id is 128, 192 or 256, the same as the current revision's key size |
| LegacyCbcCipher.Encrypt | src/cbc/AbstractCbcCipher.ts:73-102 | refuses a non-CBC id with 'Invalid encryption algorithm'; draws `randomBytes(16)` before the CEK check, so a failing random source wins; refuses a bad CEK; once the IV is drawn and the CEK fits, returns the drawn IV with the ciphertext from AES-CBC under the second half and the tag from `generateTag` under the first half, and a failure of either primitive propagates |
| LegacyCbcCipher.Decrypt | src/cbc/AbstractCbcCipher.ts:114-147 | the same ordered checks and tag comparison as the current engine, refusing a mismatch before `decryptInternal` |
| LegacyCbcCipher.EncryptDecryptRoundTrip | src/cbc/AbstractCbcCipher.ts:73-147 | the returned IV is 16 bytes and decrypting the result with it gives the plaintext back |
| LegacyCbcCipher.DecryptAgreesWithCurrentRevision | src/cbc/AbstractCbcCipher.ts:114-147 | on a CBC id the earlier `decrypt` equals the current one on every input; otherwise both refuse, each with its own message |
| GcmCipher.GcmKeyBits | src/core/gcm/AbstractGcmCipher.ts:107 | the key size of a GCM id is the parsed one, 128, 192 or 256 |
| GcmCipher.Encrypt | src/core/gcm/AbstractGcmCipher.ts:94-118 | refuses a non-GCM id naming it, then an IV that is not 12 bytes, then a CEK of the wrong size; otherwise returns what AES-GCM returns for the unchanged CEK |
| GcmCipher.Decrypt | src/core/gcm/AbstractGcmCipher.ts:130-157 | refuses id, then tag, then IV, then CEK; otherwise returns AES-GCM decryption's result unchanged |
| GcmCipher.EncryptDecryptRoundTrip | src/core/gcm/AbstractGcmCipher.ts:94-157 | decrypting what `encrypt` produced gives the plaintext back |
| LegacyGcmCipher.VerifyCekLength | src/gcm/AbstractGcmCipher.ts:170-174 | passes iff the CEK is `keyBits >>> 3` bytes, as the current check, with 'Invalid content encryption key length' |
| LegacyGcmCipher.VerifyTagLength | src/gcm/AbstractGcmCipher.ts:181-185 | passes iff the tag is 16 bytes, with 'Invalid tag length' |
| LegacyGcmCipher.VerifyIvLength | src/gcm/AbstractGcmCipher.ts:192-196 | passes iff the IV is 12 bytes, with 'Invalid initialization vector length' |
| LegacyGcmCipher.LegacyGcmKeyBits | src/gcm/AbstractGcmCipher.ts:111 | `parseKeyBits` of a GCM id is the current revision's key size |
| LegacyGcmCipher.Encrypt | src/gcm/AbstractGcmCipher.ts:101-123 | refuses a non-GCM id, then a bad CEK, both before `randomBytes(12)` is called; a failing random source propagates; otherwise returns the drawn IV with AES-GCM's ciphertext and tag, or AES-GCM's failure |
| LegacyGcmCipher.Decrypt | src/gcm/AbstractGcmCipher.ts:135-162 | refuses id, tag, IV and CEK in that order; otherwise returns AES-GCM decryption's result |
| LegacyGcmCipher.EncryptDecryptRoundTrip | src/gcm/AbstractGcmCipher.ts:101-162 | the returned IV is 12 bytes and decrypting the result with it gives the plaintext back |
| LegacyGcmCipher.DecryptAgreesWithCurrentRevision | src/gcm/AbstractGcmCipher.ts:135-162 | whenever either revision's `decrypt` returns a plaintext, the other returns the same result |
| AesCipher.Encrypt | src/core/AesCipher.ts:42-53 | a CBC id gets the CBC engine's result, a GCM id the GCM engine's, any other id 'Invalid encryption mode: <id>' |
| AesCipher.Decrypt | src/core/AesCipher.ts:61-72 | the same routing for `decrypt` |
| AesCipher.GetIvByteLength | src/core/AesCipher.ts:83-93 | succeeds iff the id is supported, otherwise 'Invalid encryption mode: <id>' |
| AesCipher.GetCekByteLength | src/core/AesCipher.ts:104-114 | succeeds iff the id is supported, otherwise 'Invalid encryption mode: <id>' |
| AesCipher.ReportedLengthsAccepted | src/core/AesCipher.ts:83-114 | for a supported id, the selected engine's IV and CEK validators (`cbcVerifyIvLength` and `cbcVerifyCekLength`, or `gcmVerifyIvLength` and `gcmVerifyCekLength`) both pass iff the IV and CEK have the reported lengths |
| AesCipher.ListedCbcLengths | src/core/__tests__/AesCipher.spec.ts:162-185 | the CBC ids report a 16-byte IV and CEKs of 32, 48 and 64 bytes |
| AesCipher.ListedGcmLengths | src/core/__tests__/AesCipher.spec.ts:168-191 | the GCM ids report a 12-byte IV and CEKs of 16, 24 and 32 bytes |
| AesCipher.UnknownIdRefused | src/core/__tests__/AesCipher.spec.ts:174-197 | both length queries refuse 'INVALID' with 'Invalid encryption mode: INVALID' |
| AesCipher.EncryptDecryptRoundTrip | src/core/AesCipher.ts:42-72 | for every supported id, decrypting what `encrypt` produced gives the plaintext back |
| Aes.Encrypt | src/Aes.ts:30-40 | a CBC id gets the earlier CBC engine's result, a GCM id the earlier GCM engine's, any other id 'Unsupported encryption algorithm: <id>' |
| Aes.Decrypt | src/Aes.ts:42-52 | the same routing, with 'Unsupported decryption algorithm: <id>' |
| Aes.ReturnedIvLength | src/__tests__/Aes.spec.ts:56-106 | a successful `encrypt` returns a 16-byte IV for a CBC id and a 12-byte IV for a GCM id |
| Aes.EncryptDecryptRoundTrip | src/__tests__/Aes.spec.ts:125-190 | for every supported id, decrypting what `encrypt` returned, with its IV, gives the plaintext back |
| Aes.DecryptableByCurrentRevision | src/Aes.ts:30-52 | what the earlier facade encrypted, the current `AesCipher` decrypts with the same engines to the plaintext |
| Aes.UnknownIdRefused | src/Aes.ts:39-51 | 'INVALID' is refused by `encrypt` and `decrypt`, each with its own message |

## Left out

- `isWeb` and the choice between the Web Crypto and node-forge engines in the `Aes` constructor (src/Aes.ts:9-28): this probes the runtime. Each engine pair is a parameter instead.
- The node-forge and Web Crypto implementations of AES-CBC, HMAC, AES-GCM and SHA-256: they are foreign code. They appear as uninterpreted functions, with the predicates above as their assumed properties.
- `encryptionData` (CBOR encoding through `cbor-js`): this is a foreign library's round trip.
- `createCbcCipher` and `createGcmCipher`: constructor pass-throughs.
- The async/promise plumbing: every call is sequential, and a rejected promise is a `Failure`.
- Constant-time behaviour of `timingSafeEqual`: Dafny cannot express timing. The model has the loop's shape (all 32 rounds, no early exit) and its result.
- Type-only files (`src/Cipher.ts`, `src/core/Cipher.ts`, `src/types.ts`, `src/types/Enc.ts`). `src/core/Cipher.ts` still declares an `iv` in `EncryptResult`. The current engines do not return one, and the model follows the engines.
- src/core/cbc/utils/timingSafeEqual.ts and src/core/cbc/utils/cbcVerifyIvLength.ts are not part of this model. The current CBC engine imports them (src/core/cbc/AbstractCbcCipher.ts:6 and :9). The model gives that engine src/cbc/timingSafeEqual.ts and src/cbc/cbcVerifyIvLength.ts in their place. The engine's tests expect the same message prefix for a bad IV (src/core/cbc/__tests__/AbstractCbcCipher.spec.ts:169).
- src/core/gcm/utils/gcmVerifyIvLength.ts and src/core/gcm/utils/gcmVerifyTagLength.ts are not part of this model. The current GCM engine imports them (src/core/gcm/AbstractGcmCipher.ts:5-6). The model gives that engine src/gcm/gcmVerifyIvLength.ts and src/gcm/gcmVerifyTagLength.ts in their place. The engine's tests expect the same message prefixes (src/core/gcm/__tests__/AbstractGcmCipher.spec.ts:158 and :178).
- src/cbc/cbcVerifyCekLength.ts, src/cbc/cbcVerifyTagLength.ts, src/cbc/generateMacData.ts and src/parseKeyBits.ts are not part of this model. The earlier CBC engine is given the current CEK and tag validators, the current MAC input and the parser of src/cbc/parseKeyBits.ts, so its CEK and tag messages are assumed to be the current ones. The unit tests src/cbc/__tests__/cbcVerifyTagLength.spec.ts and src/cbc/__tests__/generateMacData.spec.ts agree with that. The earlier engine's own tests expect other texts: 'Invalid content encryption key length' for a bad CEK (src/cbc/__tests__/AbstractCbcCipher.spec.ts:117 and :198), 'Invalid tag length' for a bad tag (:240) and 'Invalid initialization vector length' for a bad IV (:219). The last one also contradicts src/cbc/cbcVerifyIvLength.ts:8-10, which the model follows.
- The `verifyCekLength`, `verifyTagLength` and `verifyIvLength` methods that the earlier CBC engine's tests call: the engine does not define them.
- `uint64BE` of the `@higayasuo/u8a-utils` library is modelled as the 8-byte big-endian encoding of a natural number below 2^64. Its result for a negative argument is not modelled.
- MacData.GenerateMacDataAsWritten: for an AAD whose 32-bit shifted length is negative (2^28 bytes or more, with bit 28 set) it returns None instead of a byte string, because `uint64BE` of a negative number is not modelled. The engines use the corrected `MacData.GenerateMacData`.
- KeyBitLength.ParseKeyBitLength: its contract only bounds the number. Its value on the supported ids and on digit strings is stated by `KeyBitLength.ParseDigits` and `KeyBitLength.KnownIdBits`. The JavaScript number type is modelled as an integer, with None for NaN.
- Strings are sequences of Unicode code points, while JavaScript's `slice` counts UTF-16 code units. For an id whose first four characters include one outside the Basic Multilingual Plane, `parseKeyBitLength`, `parseKeyBits`, `cbcGetCekByteLength` and `gcmGetCekByteLength` can differ from the model. For example, an emoji followed by '128CBC' parses to NaN in JavaScript, but to 128 in the model. None of the six supported ids is affected.
- The SHA-256 digest, AES and HMAC outputs are byte strings of any length. Their sizes are assumed only where a lemma's precondition says so.

## Findings

| source | as written | input that shows it | evidently intended | confidence | as-written member | corrected member |
|---|---|---|---|---|---|---|
| src/core/cbc/utils/generateMacData.ts:26 | AL is `uint64BE(aad.length << 3)`. `<<` is a 32-bit shift, so the bit length wraps modulo 2^32, and from 2^28 bytes on it can turn negative | an AAD of 2^29 bytes: `2^29 << 3` is 0, so AL says the AAD is empty. That MAC input equals the one for an empty AAD whose IV and ciphertext carry the same bytes | AL = 8·\|aad\| as a 64-bit big-endian integer (section 5.2.2.1 of RFC 7518) | not executed; follows from the JavaScript shift semantics | MacData.AsWrittenIsAmbiguous | MacData.MacDataInjective |
