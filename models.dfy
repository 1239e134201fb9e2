/**
 * The wire models: claim types, source offsets, claims, the extraction request
 * with its field constraints, and the verification result types that the
 * verification service returns and caches.
 */
module Models {
  import opened Optional

  /** The five kinds of claim; each has a lower-case wire value. */
  datatype ClaimType = Factual | Statistical | Attribution | Temporal | Comparative

  const AllClaimTypes: seq<ClaimType> := [Factual, Statistical, Attribution, Temporal, Comparative]

  /** The enum's string value, as serialised. */
  function ClaimTypeValue(t: ClaimType): string {
    match t
    case Factual => "factual"
    case Statistical => "statistical"
    case Attribution => "attribution"
    case Temporal => "temporal"
    case Comparative => "comparative"
  }

  /** The position of a member in declaration order. */
  function ClaimTypeIndex(t: ClaimType): nat {
    match t
    case Factual => 0
    case Statistical => 1
    case Attribution => 2
    case Temporal => 3
    case Comparative => 4
  }

  /** `ClaimType(s)`: the member whose value is `s`, or nothing. */
  function ParseClaimType(s: string): (r: Option<ClaimType>)
    ensures r.Some? ==> ClaimTypeValue(r.value) == s
  {
    if s == "factual" then Some(Factual)
    else if s == "statistical" then Some(Statistical)
    else if s == "attribution" then Some(Attribution)
    else if s == "temporal" then Some(Temporal)
    else if s == "comparative" then Some(Comparative)
    else None
  }

  /** Parsing a value gives back its member, and only values of members parse. */
  lemma ClaimTypeRoundTrip(t: ClaimType, s: string)
    ensures ParseClaimType(ClaimTypeValue(t)) == Some(t)
    ensures ParseClaimType(s) == Some(t) <==> s == ClaimTypeValue(t)
  {
  }

  /** There are exactly five claim types, listed once each, and no two share a value. */
  lemma ClaimTypesEnumerated()
    ensures |AllClaimTypes| == 5
    ensures forall t: ClaimType :: t in AllClaimTypes
    ensures forall i, j :: 0 <= i < j < |AllClaimTypes| ==> AllClaimTypes[i] != AllClaimTypes[j]
    ensures forall t1: ClaimType, t2: ClaimType :: ClaimTypeValue(t1) == ClaimTypeValue(t2) ==> t1 == t2
  {
    var a := AllClaimTypes;
    assert a[0] == Factual && a[1] == Statistical && a[2] == Attribution && a[3] == Temporal && a[4] == Comparative;
    forall t: ClaimType ensures t in a {
      assert a[ClaimTypeIndex(t)] == t;
    }
    forall i, j | 0 <= i < j < |a| ensures a[i] != a[j] {
      assert ClaimTypeIndex(a[i]) == i && ClaimTypeIndex(a[j]) == j;
    }
    forall t1: ClaimType, t2: ClaimType | ClaimTypeValue(t1) == ClaimTypeValue(t2) ensures t1 == t2 {
      ClaimTypeRoundTrip(t1, ClaimTypeValue(t1));
      ClaimTypeRoundTrip(t2, ClaimTypeValue(t2));
    }
  }

  /** Where a claim's sentence sits in the source text (start inclusive, end exclusive). */
  datatype SourceOffset = SourceOffset(start: int, end: int)

  /** An extracted claim; `sourceOffset` is optional and defaults to absent. */
  datatype Claim = Claim(
    id: string,
    text: string,
    claimType: ClaimType,
    confidence: real,
    sourceOffset: Option<SourceOffset>)

  /** The constraint `Field(ge=0, le=1)` on `Claim.confidence`. */
  predicate ValidConfidence(c: Claim) {
    0.0 <= c.confidence <= 1.0
  }

  /** A field constraint violated while validating a model. */
  datatype FieldError = TextTooShort | TextTooLong | SourceNotAllowed | ConfidenceOutOfRange

  /** Building a `Claim` validates its confidence; the offset defaults to absent. */
  function NewClaim(id: string, text: string, claimType: ClaimType, confidence: real,
                    sourceOffset: Option<SourceOffset> := None): (r: Result<Claim, seq<FieldError>>)
    ensures r.Success? <==> 0.0 <= confidence <= 1.0
    ensures r.Success? ==>
      ValidConfidence(r.value) && r.value == Claim(id, text, claimType, confidence, sourceOffset)
    ensures r.Failure? ==> r.error == [ConfidenceOutOfRange]
  {
    if 0.0 <= confidence <= 1.0 then Success(Claim(id, text, claimType, confidence, sourceOffset))
    else Failure([ConfidenceOutOfRange])
  }

  const MinRequestTextLength := 1
  const MaxRequestTextLength := 50000
  const AllowedSources: set<string> := {"chatgpt", "claude"}

  /** A request to extract claims; `responseId` is optional and defaults to absent. */
  datatype ExtractClaimsRequest = ExtractClaimsRequest(text: string, source: string, responseId: Option<string>)

  /** Every constraint of `ExtractClaimsRequest` that `text` and `source` violate, in field order. */
  function RequestErrors(text: string, source: string): seq<FieldError> {
    (if |text| < MinRequestTextLength then [TextTooShort] else [])
    + (if |text| > MaxRequestTextLength then [TextTooLong] else [])
    + (if source !in AllowedSources then [SourceNotAllowed] else [])
  }

  /**
   * Validating an extraction request: it is accepted exactly when the text has
   * 1 to 50000 characters and the source is "chatgpt" or "claude", and a
   * rejection names each violated constraint.
   */
  function NewExtractClaimsRequest(text: string, source: string, responseId: Option<string> := None)
    : (r: Result<ExtractClaimsRequest, seq<FieldError>>)
    ensures r.Success? <==> 1 <= |text| <= 50000 && (source == "chatgpt" || source == "claude")
    ensures r.Success? ==> r.value == ExtractClaimsRequest(text, source, responseId)
    ensures r.Failure? ==> r.error != []
    ensures r.Failure? ==> (TextTooShort in r.error <==> |text| == 0)
    ensures r.Failure? ==> (TextTooLong in r.error <==> |text| > 50000)
    ensures r.Failure? ==> (SourceNotAllowed in r.error <==> source != "chatgpt" && source != "claude")
  {
    var errors := RequestErrors(text, source);
    if errors == [] then Success(ExtractClaimsRequest(text, source, responseId)) else Failure(errors)
  }

  /** The endpoint's validation examples: empty text and an unknown source are rejected. */
  lemma RequestExamples()
    ensures NewExtractClaimsRequest("", "chatgpt").Failure?
    ensures NewExtractClaimsRequest("Some text here.", "invalid").Failure?
    ensures NewExtractClaimsRequest("The company was founded in 2020.", "chatgpt", Some("test-response-123")).Success?
    ensures NewExtractClaimsRequest("In 2023, global temperatures reached record highs.", "claude").Success?
    ensures NewExtractClaimsRequest("In 2023, global temperatures reached record highs.", "claude").value.responseId == None
  {
  }

  /** The status of a verification. */
  datatype VerificationStatus = Pending | Verified | Disputed | Unverified | Error

  /** One fact-check source backing a verification. */
  datatype VerificationSource = VerificationSource(name: string, url: string, verdict: string, publishedDate: Option<string>)

  /** A verification: status, sources, confidence and the time it was made. */
  datatype VerificationResult = VerificationResult(
    status: VerificationStatus,
    sources: seq<VerificationSource>,
    confidence: real,
    verifiedAt: string)
}
