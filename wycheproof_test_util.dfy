/** A model of the Wycheproof test helpers of the Tink test suite: the
    signature-algorithm naming rule, the path rule used to locate test-vector
    files, the advisory algorithm/version check of a loaded test-vector
    document, and the curve-name lookup.

    The three helpers follow three different error policies, and the model
    keeps them apart by their result types:
    - GetSignatureAlgorithmName answers "" for an unsupported digest;
    - CheckAlgAndVersion reports mismatches as advisory log lines and fails
      only when a required field is absent;
    - GetCurveType fails with a message that carries the unknown name. */
module WycheproofTestUtil {

  datatype Option<+T> = None | Some(value: T)

  datatype Result<+T, +E> = Ok(value: T) | Err(error: E)

  // ---------------------------------------------------------------------------
  // Signature-algorithm names
  // ---------------------------------------------------------------------------

  /** The message digests for which a combined signature-algorithm name exists. */
  predicate IsSupportedDigest(md: string) {
    md == "SHA-256" || md == "SHA-512"
  }

  /** `s` with every dash removed: digest names carry a dash ("SHA-256") that
      the combined signature-algorithm names leave out ("SHA256WITHECDSA"). */
  function WithoutDashes(s: string): (r: string)
    ensures |r| <= |s|
    ensures forall i :: 0 <= i < |r| ==> r[i] != '-'
  {
    if s == [] then []
    else if s[0] == '-' then WithoutDashes(s[1..])
    else [s[0]] + WithoutDashes(s[1..])
  }

  /** The Java Cryptography Architecture name of the signature scheme
      `signatureAlgorithm` over the digest `md`, or "" when `md` is neither
      SHA-256 nor SHA-512. The scheme is taken verbatim. */
  function GetSignatureAlgorithmName(md: string, signatureAlgorithm: string): (r: string)
    ensures md == "SHA-256" ==> r == "SHA256WITH" + signatureAlgorithm
    ensures md == "SHA-512" ==> r == "SHA512WITH" + signatureAlgorithm
    ensures r == "" <==> !IsSupportedDigest(md)
    ensures IsSupportedDigest(md) ==>
      |r| > |signatureAlgorithm| && r[|r| - |signatureAlgorithm|..] == signatureAlgorithm
  {
    var token :=
      if md == "SHA-256" then "SHA256"
      else if md == "SHA-512" then "SHA512"
      else "";
    if token == "" then "" else token + "WITH" + signatureAlgorithm
  }

  /** Removing dashes distributes over concatenation. */
  lemma {:induction false} WithoutDashesAppend(a: string, b: string)
    ensures WithoutDashes(a + b) == WithoutDashes(a) + WithoutDashes(b)
  {
    if a != [] {
      assert (a + b)[1..] == a[1..] + b;
      WithoutDashesAppend(a[1..], b);
    } else {
      assert a + b == b;
    }
  }

  /** A string without a dash is left as it is. */
  lemma {:induction false} WithoutDashesNoDash(s: string)
    requires forall i :: 0 <= i < |s| ==> s[i] != '-'
    ensures WithoutDashes(s) == s
  {
    if s != [] {
      WithoutDashesNoDash(s[1..]);
    }
  }

  /** Dropping the one dash between two dash-free parts joins them. */
  lemma DropsSingleDash(head: string, tail: string)
    requires forall i :: 0 <= i < |head| ==> head[i] != '-'
    requires forall i :: 0 <= i < |tail| ==> tail[i] != '-'
    ensures WithoutDashes(head + "-" + tail) == head + tail
  {
    var dashTail := "-" + tail;
    assert head + "-" + tail == head + dashTail;
    assert dashTail[0] == '-' && dashTail[1..] == tail;
    WithoutDashesAppend(head, dashTail);
    WithoutDashesNoDash(head);
    WithoutDashesNoDash(tail);
    calc {
      WithoutDashes(head + dashTail);
      WithoutDashes(head) + WithoutDashes(dashTail);
      head + WithoutDashes(tail);
      head + tail;
    }
  }

  /** The rewritten digest is the digest name with its dash dropped, followed
      by "WITH" and the scheme. */
  lemma SignatureNameDropsDash(md: string, signatureAlgorithm: string)
    requires IsSupportedDigest(md)
    ensures GetSignatureAlgorithmName(md, signatureAlgorithm)
         == WithoutDashes(md) + "WITH" + signatureAlgorithm
  {
    var head, tail := "SHA", if md == "SHA-256" then "256" else "512";
    assert md == head + "-" + tail;
    DropsSingleDash(head, tail);
  }

  /** Distinct (digest, scheme) pairs with a supported digest never share a
      combined name, so the name identifies both parts. */
  lemma SignatureNameInjective(md1: string, s1: string, md2: string, s2: string)
    requires IsSupportedDigest(md1) && IsSupportedDigest(md2)
    requires GetSignatureAlgorithmName(md1, s1) == GetSignatureAlgorithmName(md2, s2)
    ensures md1 == md2 && s1 == s2
  {
  }

  // ---------------------------------------------------------------------------
  // Locating a test-vector file
  // ---------------------------------------------------------------------------

  /** The directory that holds the test run files on an Android device. */
  const AndroidRunfilesPrefix: string := "/sdcard/googletest/test_runfiles/google3/"

  /** The file opened for `path`: on Android the path is placed under the
      device's run-files directory, elsewhere it is used as given. */
  function ResolvePath(isAndroid: bool, path: string): (r: string)
    ensures !isAndroid ==> r == path
    ensures isAndroid ==> |r| == |AndroidRunfilesPrefix| + |path|
    ensures isAndroid ==> r[..|AndroidRunfilesPrefix|] == AndroidRunfilesPrefix
    ensures isAndroid ==> r[|AndroidRunfilesPrefix|..] == path
  {
    if isAndroid then AndroidRunfilesPrefix + path else path
  }

  /** On either platform, different paths resolve to different files. */
  lemma ResolvePathInjective(isAndroid: bool, p: string, q: string)
    requires ResolvePath(isAndroid, p) == ResolvePath(isAndroid, q)
    ensures p == q
  {
  }

  // ---------------------------------------------------------------------------
  // Algorithm and version of a test-vector document
  // ---------------------------------------------------------------------------

  /** The two top-level string fields of a test-vector document that are read
      here; the rest of the document is not modelled. */
  type JsonDocument = map<string, string>

  /** What a check leaves behind: the advisory lines it printed, in order,
      and the field whose absence aborted it, if any. */
  datatype CheckOutcome = CheckOutcome(log: seq<string>, missing: Option<string>)

  const AlgorithmKey: string := "algorithm"
  const VersionKey: string := "generatorVersion"

  const AlgorithmMessagePrefix: string := "Expecting algorithm "
  const VersionMessagePrefix: string := "Expecting test vectors with version "
  const VersionMessageInfix: string := ", got vectors with version "

  predicate HasRequiredFields(doc: JsonDocument) {
    AlgorithmKey in doc && VersionKey in doc
  }

  predicate IsAlgorithmMessage(m: string) {
    AlgorithmMessagePrefix <= m
  }

  predicate IsVersionMessage(m: string) {
    VersionMessagePrefix <= m
  }

  /** The advisory line for an unexpected algorithm; it names the expected
      algorithm first and the one found after it. */
  function AlgorithmMismatchMessage(expected: string, actual: string): (m: string)
    ensures IsAlgorithmMessage(m)
    ensures |m| > |AlgorithmMessagePrefix| + |expected|
    ensures m[|AlgorithmMessagePrefix|..|AlgorithmMessagePrefix| + |expected|] == expected
    ensures |m| > |actual| && m[|m| - |actual| - 1..] == actual + "."
  {
    var m := AlgorithmMessagePrefix + expected + ", got " + actual + ".";
    assert m == AlgorithmMessagePrefix + expected + (", got " + actual + ".");
    assert m == (AlgorithmMessagePrefix + expected + ", got ") + (actual + ".");
    m
  }

  /** The advisory line for an unexpected generator version; it names the
      expected version first, then the version found, then the algorithm. */
  function VersionMismatchMessage(expected: string, actual: string, algorithm: string): (m: string)
    ensures IsVersionMessage(m)
    ensures |m| > |VersionMessagePrefix| + |expected|
    ensures m[|VersionMessagePrefix|..|VersionMessagePrefix| + |expected|] == expected
    ensures var at := |VersionMessagePrefix| + |expected| + |VersionMessageInfix|;
      |m| > at + |actual| && m[at..at + |actual|] == actual
    ensures m[|VersionMessagePrefix| + |expected|..|VersionMessagePrefix| + |expected| + |VersionMessageInfix|]
         == VersionMessageInfix
    ensures |m| > |algorithm| && m[|m| - |algorithm| - 1..] == algorithm + "."
  {
    var head := VersionMessagePrefix + expected + VersionMessageInfix;
    var m := head + actual + " for " + algorithm + ".";
    assert m == VersionMessagePrefix + expected
                + (VersionMessageInfix + actual + " for " + algorithm + ".");
    assert m == head + (actual + " for " + algorithm + ".");
    assert m == (head + actual + " for ") + (algorithm + ".");
    m
  }

  /** The two kinds of advisory line can always be told apart. */
  lemma AdvisoryKindsDisjoint(m: string)
    ensures !(IsAlgorithmMessage(m) && IsVersionMessage(m))
  {
    assert AlgorithmMessagePrefix[10] != VersionMessagePrefix[10];
  }

  /** Reads the string field `key`, failing with the key when it is absent. */
  function GetString(doc: JsonDocument, key: string): (r: Result<string, string>)
    ensures r.Ok? <==> key in doc
    ensures r.Ok? ==> r.value == doc[key]
    ensures r.Err? ==> r.error == key
  {
    if key in doc then Ok(doc[key]) else Err(key)
  }

  /** Compares the document's algorithm and generator version with the
      expected ones. A mismatch only adds an advisory line; the check fails
      only when a field it reads is absent, and the algorithm is read (and
      its line printed) before the version. */
  function CheckAlgAndVersion(testvector: JsonDocument, expectedAlgorithm: string,
                              expectedVersion: string): (r: CheckOutcome)
    ensures r.missing.Some? <==> !HasRequiredFields(testvector)
    ensures AlgorithmKey !in testvector ==> r.missing == Some(AlgorithmKey) && r.log == []
    ensures AlgorithmKey in testvector && VersionKey !in testvector
            ==> r.missing == Some(VersionKey)
    ensures AlgorithmKey in testvector ==>
      |r.log| == (if expectedAlgorithm != testvector[AlgorithmKey] then 1 else 0)
                 + (if VersionKey in testvector && testvector[VersionKey] != expectedVersion then 1 else 0)
    ensures forall i :: 0 <= i < |r.log| ==> IsAlgorithmMessage(r.log[i]) || IsVersionMessage(r.log[i])
  {
    match GetString(testvector, AlgorithmKey)
    case Err(key) => CheckOutcome([], Some(key))
    case Ok(algorithm) =>
      var algorithmLog :=
        if expectedAlgorithm != algorithm
        then [AlgorithmMismatchMessage(expectedAlgorithm, algorithm)]
        else [];
      match GetString(testvector, VersionKey)
      case Err(key) => CheckOutcome(algorithmLog, Some(key))
      case Ok(generatorVersion) =>
        var versionLog :=
          if generatorVersion != expectedVersion
          then [VersionMismatchMessage(expectedVersion, generatorVersion, expectedAlgorithm)]
          else [];
        CheckOutcome(algorithmLog + versionLog, None)
  }

  /** Whether some line of `log` is an algorithm (resp. version) warning. */
  predicate WarnsAboutAlgorithm(log: seq<string>) {
    exists i :: 0 <= i < |log| && IsAlgorithmMessage(log[i])
  }

  predicate WarnsAboutVersion(log: seq<string>) {
    exists i :: 0 <= i < |log| && IsVersionMessage(log[i])
  }

  /** The algorithm warning is printed exactly when the document's algorithm
      differs from the expected one, whether or not the check then fails. */
  lemma AlgorithmWarningIffMismatch(testvector: JsonDocument, expectedAlgorithm: string,
                                    expectedVersion: string)
    requires AlgorithmKey in testvector
    ensures WarnsAboutAlgorithm(CheckAlgAndVersion(testvector, expectedAlgorithm, expectedVersion).log)
        <==> expectedAlgorithm != testvector[AlgorithmKey]
    ensures expectedAlgorithm != testvector[AlgorithmKey] ==>
      var log := CheckAlgAndVersion(testvector, expectedAlgorithm, expectedVersion).log;
      |log| > 0 && log[0] == AlgorithmMismatchMessage(expectedAlgorithm, testvector[AlgorithmKey])
  {
    var log := CheckAlgAndVersion(testvector, expectedAlgorithm, expectedVersion).log;
    if expectedAlgorithm != testvector[AlgorithmKey] {
      assert IsAlgorithmMessage(log[0]);
    } else {
      forall i | 0 <= i < |log| ensures !IsAlgorithmMessage(log[i]) {
        AdvisoryKindsDisjoint(log[i]);
      }
    }
  }

  /** With both fields present, the version warning is printed exactly when
      the document's version differs from the expected one. */
  lemma VersionWarningIffMismatch(testvector: JsonDocument, expectedAlgorithm: string,
                                  expectedVersion: string)
    requires HasRequiredFields(testvector)
    ensures WarnsAboutVersion(CheckAlgAndVersion(testvector, expectedAlgorithm, expectedVersion).log)
        <==> testvector[VersionKey] != expectedVersion
    ensures testvector[VersionKey] != expectedVersion ==>
      var log := CheckAlgAndVersion(testvector, expectedAlgorithm, expectedVersion).log;
      |log| > 0 && log[|log| - 1]
        == VersionMismatchMessage(expectedVersion, testvector[VersionKey], expectedAlgorithm)
  {
    var log := CheckAlgAndVersion(testvector, expectedAlgorithm, expectedVersion).log;
    if testvector[VersionKey] != expectedVersion {
      assert IsVersionMessage(log[|log| - 1]);
    } else {
      forall i | 0 <= i < |log| ensures !IsVersionMessage(log[i]) {
        AdvisoryKindsDisjoint(log[i]);
      }
    }
  }

  /** When both values differ, the algorithm warning comes before the
      version warning and nothing else is printed. */
  lemma WarningOrder(testvector: JsonDocument, expectedAlgorithm: string, expectedVersion: string)
    requires HasRequiredFields(testvector)
    requires expectedAlgorithm != testvector[AlgorithmKey]
    requires testvector[VersionKey] != expectedVersion
    ensures var log := CheckAlgAndVersion(testvector, expectedAlgorithm, expectedVersion).log;
      |log| == 2 && IsAlgorithmMessage(log[0]) && IsVersionMessage(log[1])
  {
  }

  /** Expectations copied from the document itself pass without a warning. */
  lemma CopiedExpectationsAreSilent(testvector: JsonDocument)
    requires HasRequiredFields(testvector)
    ensures CheckAlgAndVersion(testvector, testvector[AlgorithmKey], testvector[VersionKey])
         == CheckOutcome([], None)
  {
  }

  // ---------------------------------------------------------------------------
  // Curve names
  // ---------------------------------------------------------------------------

  /** The named curves the elliptic-curve code accepts. */
  datatype CurveType = NIST_P256 | NIST_P384 | NIST_P521

  /** The curve name accepted for each curve type. The P-256 name is
      "sepcp256r1", with its letters as the test suite spells them, not the
      "secp256r1" of SEC 2. */
  function CurveName(t: CurveType): (n: string)
  {
    match t
    case NIST_P256 => "sepcp256r1"
    case NIST_P384 => "secp384r1"
    case NIST_P521 => "secp521r1"
  }

  const UnknownCurvePrefix: string := "Unknown curve name: "

  /** The curve type named `curveName`, or a NoSuchAlgorithmException message
      that carries the unknown name. */
  function GetCurveType(curveName: string): (r: Result<CurveType, string>)
    ensures r.Ok? <==> curveName in {"sepcp256r1", "secp384r1", "secp521r1"}
    ensures r.Ok? ==> CurveName(r.value) == curveName
    ensures r.Err? ==> r.error == UnknownCurvePrefix + curveName
  {
    match curveName
    case "sepcp256r1" => Ok(NIST_P256)
    case "secp384r1" => Ok(NIST_P384)
    case "secp521r1" => Ok(NIST_P521)
    case _ => Err(UnknownCurvePrefix + curveName)
  }

  /** Every curve type is reached from its own name. */
  lemma CurveNameRoundTrip(t: CurveType)
    ensures GetCurveType(CurveName(t)) == Ok(t)
  {
  }

  /** Distinct accepted names give distinct curve types. */
  lemma GetCurveTypeInjective(n1: string, n2: string)
    requires GetCurveType(n1).Ok? && GetCurveType(n2).Ok?
    requires GetCurveType(n1).value == GetCurveType(n2).value
    ensures n1 == n2
  {
  }

  /** The correctly spelled SEC 2 name of P-256 is rejected. */
  lemma StandardP256NameRejected()
    ensures GetCurveType("secp256r1") == Err("Unknown curve name: secp256r1")
  {
    var n := "secp256r1";
    assert n != CurveName(NIST_P256) by { assert |n| != |CurveName(NIST_P256)|; }
    assert n != CurveName(NIST_P384) by { assert n[4] != CurveName(NIST_P384)[4]; }
    assert n != CurveName(NIST_P521) by { assert n[4] != CurveName(NIST_P521)[4]; }
    assert UnknownCurvePrefix + n == "Unknown curve name: secp256r1";
  }
}
