# Wycheproof test helpers of Tink, modelled in Dafny

`WycheproofTestUtil` is the helper class through which Tink's Java test suite
consumes Wycheproof test-vector files (JSON documents of positive and negative
test cases for cryptographic primitives). The module `WycheproofTestUtil` in
`wycheproof_test_util.dfy` models its four pieces of logic as pure functions,
with lemmas about them:

- **Signature-algorithm names.** `GetSignatureAlgorithmName` turns a digest
  name and a signature scheme into the combined name of the Java Cryptography
  Architecture: "SHA-256" with "ECDSA" gives "SHA256WITHECDSA". Any digest
  other than "SHA-256" and "SHA-512" gives "", silently. Its contract also
  says that a supported digest always gives a name that ends with the
  scheme, unchanged. The lemmas show that the digest part is the digest name with its dash
  removed, against an independent definition `WithoutDashes`. They also show
  that the combined name determines both the digest and the scheme.
- **Locating a test-vector file.** `ResolvePath` is the path rule of
  `readJson`. On Android the path is placed under
  "/sdcard/googletest/test_runfiles/google3/"; elsewhere it is used as given.
  The platform probe is a boolean parameter.
- **Algorithm and version check.** `CheckAlgAndVersion` reads the
  "algorithm" and "generatorVersion" fields of a test-vector document, in that
  order. The document is a `map<string, string>`. The lines that the Java code
  prints become the `log` of the returned `CheckOutcome`. An absent field
  becomes `missing`, which names that field. A mismatch only adds an advisory
  line, and the check fails only when a field is absent. If the algorithm
  mismatches and the version field is then missing, the algorithm line is
  still in the log: Java prints it before it throws. The lemmas show four
  things. The algorithm warning appears iff the algorithms differ, and it is
  the line naming the expected and the found algorithm. The version warning
  appears iff the versions differ, and it is the line naming the expected
  version, the found version and the expected algorithm. The algorithm warning comes first.
  Expectations copied from the document give no warning.
- **Curve names.** `GetCurveType` maps "sepcp256r1" to NIST P-256, "secp384r1"
  to NIST P-384 and "secp521r1" to NIST P-521. Any other name fails with
  "Unknown curve name: " followed by the name. The P-256 name is kept exactly
  as the Java code spells it. It is "secp256r1", the name SEC 2 gives the
  curve in section 2.4.2, with an extra 'p' inserted after "se"; the correctly
  spelled name is
  rejected (`StandardP256NameRejected`). `CurveName` gives the accepted name of
  each curve type. It is the inverse of `GetCurveType`, in both directions.

## Model

| member | source | states |
|---|---|---|
| `WycheproofTestUtil.GetSignatureAlgorithmName` | java/src/test/java/com/google/crypto/tink/WycheproofTestUtil.java:43-52 | "SHA-256" gives "SHA256WITH" + scheme and "SHA-512" gives "SHA512WITH" + scheme; the result is "" iff the digest is neither of the two; a supported digest gives a name longer than the scheme that ends with the scheme, unchanged |
| `WycheproofTestUtil.SignatureNameDropsDash` | java/src/test/java/com/google/crypto/tink/WycheproofTestUtil.java:31-51 | for a supported digest the name is the digest with its dash removed, then "WITH", then the scheme, as the doc-comment describes the naming convention |
| `WycheproofTestUtil.SignatureNameInjective` | java/src/test/java/com/google/crypto/tink/WycheproofTestUtil.java:43-51 | two supported (digest, scheme) pairs with the same combined name are the same pair |
| `WycheproofTestUtil.ResolvePath` | java/src/test/java/com/google/crypto/tink/WycheproofTestUtil.java:78-82 | off Android the path is unchanged; on Android the result is the run-files prefix followed by the path |
| `WycheproofTestUtil.ResolvePathInjective` | java/src/test/java/com/google/crypto/tink/WycheproofTestUtil.java:78-82 | on either platform, different paths resolve to different files |
| `WycheproofTestUtil.GetString` | java/src/test/java/com/google/crypto/tink/WycheproofTestUtil.java:57 | reading a field succeeds iff the key is present and then gives its value; otherwise it fails naming the key |
| `WycheproofTestUtil.AlgorithmMismatchMessage` | java/src/test/java/com/google/crypto/tink/WycheproofTestUtil.java:60 | the algorithm warning starts with "Expecting algorithm ", names the expected algorithm right after that and ends with the algorithm found and "." |
| `WycheproofTestUtil.VersionMismatchMessage` | java/src/test/java/com/google/crypto/tink/WycheproofTestUtil.java:65-72 | the version warning starts with "Expecting test vectors with version ", names the expected version right after that, then ", got vectors with version " and the version found, and ends with the algorithm and "." |
| `WycheproofTestUtil.AdvisoryKindsDisjoint` | java/src/test/java/com/google/crypto/tink/WycheproofTestUtil.java:60-72 | no line is both an algorithm warning and a version warning |
| `WycheproofTestUtil.CheckAlgAndVersion` | java/src/test/java/com/google/crypto/tink/WycheproofTestUtil.java:55-74 | fails iff a required field is absent, naming "algorithm" before "generatorVersion"; a missing algorithm fails before anything is printed; otherwise exactly one line is printed per mismatched value, the version counting only when its field is present, and each line is an advisory warning |
| `WycheproofTestUtil.AlgorithmWarningIffMismatch` | java/src/test/java/com/google/crypto/tink/WycheproofTestUtil.java:57-61 | when the algorithm field is present, an algorithm warning is printed iff it differs from the expected algorithm, even if the check then fails; that warning is the first line and is the message built from the expected and the found algorithm |
| `WycheproofTestUtil.VersionWarningIffMismatch` | java/src/test/java/com/google/crypto/tink/WycheproofTestUtil.java:62-73 | when both fields are present, a version warning is printed iff the version differs from the expected one; that warning is the last line and is the message built from the expected version, the found version and the expected algorithm |
| `WycheproofTestUtil.WarningOrder` | java/src/test/java/com/google/crypto/tink/WycheproofTestUtil.java:57-73 | when both values differ, exactly two lines are printed, the algorithm warning first |
| `WycheproofTestUtil.CopiedExpectationsAreSilent` | java/src/test/java/com/google/crypto/tink/WycheproofTestUtil.java:55-74 | expectations copied from the document itself give no warning and no failure |
| `WycheproofTestUtil.GetCurveType` | java/src/test/java/com/google/crypto/tink/WycheproofTestUtil.java:86-103 | succeeds iff the name is "sepcp256r1", "secp384r1" or "secp521r1", and then `CurveName` of the result is that name; otherwise fails with "Unknown curve name: " + name |
| `WycheproofTestUtil.CurveNameRoundTrip` | java/src/test/java/com/google/crypto/tink/WycheproofTestUtil.java:93-99 | each curve type is returned for its accepted name: "sepcp256r1" gives NIST_P256, "secp384r1" NIST_P384, "secp521r1" NIST_P521 |
| `WycheproofTestUtil.GetCurveTypeInjective` | java/src/test/java/com/google/crypto/tink/WycheproofTestUtil.java:93-99 | distinct accepted names give distinct curve types |
| `WycheproofTestUtil.StandardP256NameRejected` | java/src/test/java/com/google/crypto/tink/WycheproofTestUtil.java:93-101 | the correctly spelled "secp256r1" fails with "Unknown curve name: secp256r1" |

## Left out

- Reading the file in `readJson` (java/src/test/java/com/google/crypto/tink/WycheproofTestUtil.java:84) is left out. This covers opening it, reading all its bytes and decoding them as UTF-8. It is file-system I/O, and `Util.readAll` is not part of this model.
- JSON parsing with `org.json.JSONObject` is left out because it is a foreign library. A document is only a map from the two keys read to string values.
- `JSONObject.getString` also fails when a field is present but is not a string. The model's documents hold only strings, so that failure is not modelled.
- `TestUtil.isAndroid()` is an environment probe and is not part of this model. It becomes the `isAndroid` parameter of `ResolvePath`.
- `System.out.println` is not modelled as output. Its lines are returned in `CheckOutcome.log`.
- `EllipticCurves.CurveType` is modelled only as its three constants. The curve arithmetic behind it is not part of this model.
- Java `null` arguments are left out, because every string in the model is a value. In Java some of them throw a `NullPointerException` (a null `md` at line 44, a null document). Others go on and print or concatenate the text "null": a null `signatureAlgorithm` gives "SHA256WITHnull" at line 51, and a null `expectedVersion` makes the comparison at line 63 false, so a warning containing "null" is printed.

