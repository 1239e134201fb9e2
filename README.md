# Fact-check backend core, modelled in Dafny

This project models the core of the fact-check backend of an LLM fact checker.
It has five parts:

- **Claim extraction** (`PatternExtractor`). Regex hits become pattern matches in
  the order of the pattern table. Each match is widened to its sentence, and the
  window is stripped. The extractor skips sentences it has already seen and
  sentences that are too short or too long. It builds claims with confidence 0.6,
  sorts them stably by start offset, and drops any claim that overlaps one it has
  already kept (more than half of the shorter claim).
- **The verification service** (`VerificationService`). `verify` first looks in
  the cache. On a miss, it asks the fact-check client. A failure gives an ERROR
  result, which is not cached. Otherwise the service turns the fact-checks into
  sources, aggregates their ratings into a status and a confidence, caches the
  result and returns it.
- **The Google Fact Check Tools client** (`GoogleFactCheckClient`). `search`
  makes at most three attempts, with exponential backoff. It retries on 429,
  server errors, transport errors and undecodable bodies. It raises at once on
  any other non-2xx status. When every attempt fails, it raises the last error. It
  then flattens the response into fact-check results, with defaults for missing
  keys.
- **The verification cache** (`VerificationCache`). A table keyed by the claim
  text, stripped and lower-cased, with `get`, `set`, `clear` and `len`.
- **The wire models**: claim types, claims, and the extraction request with its
  field constraints.

Modules:

- `Optional` (`Option`, `Result`)
- `Basics` (min, max and two prefix lemmas)
- `Strings` (Python's `str.strip` and `str.lower`)
- `Models`
- `Patterns`
- `Cache`
- `GoogleFactCheck`
- `Verification`

Where the source changes state step by step, the model is imperative:

- The extractor's loops, the client's retry loop and the aggregation loop are
  methods. A loop invariant ties each one to a specification function.
- The cache is a class over a `map` field.
- The service and the client are classes.

The properties are then proved about those specification functions.

The regex engine is not modelled. `hits[g][p]` is the list of hits of pattern `p`
of the `g`-th claim type, in table order. Each hit has its start, its end and the
matched slice. The outcome of the `k`-th HTTP attempt of a search is `replies(k)`.
The sleeps the client would take are returned as a list, in seconds. The claim
ids (`uuid4`) are a parameter `newId`; the `k`-th claim `_matches_to_claims`
emits gets `newId(k)`, before sorting and de-duplication. The current time is a
parameter `now`.

`service.py` imports `VerificationResult`, `VerificationSource` and
`VerificationStatus` from `models.py`, and `cache.py` imports `VerificationResult`
from it for typing only; `models.py` does not define them. The model defines them
in `Models`, with the fields the service fills in.

## Model

| member | source | states |
|---|---|---|
| Models.ParseClaimType | packages/factcheck/src/factcheck/models.py:9-16 | a parsed claim type has exactly the given wire value |
| Models.ClaimTypeRoundTrip | packages/factcheck/src/factcheck/models.py:9-16 | parsing a member's value gives that member back, and a string parses to a member exactly when it is that member's value |
| Models.ClaimTypesEnumerated | packages/factcheck/src/factcheck/models.py:9-16 | there are five claim types, each listed once, and no two share a wire value |
| Models.NewClaim | packages/factcheck/src/factcheck/models.py:26-35 | a claim is built exactly when its confidence is in [0, 1]; the offset defaults to absent; otherwise the one violated constraint is reported |
| Models.NewExtractClaimsRequest | packages/factcheck/src/factcheck/models.py:38-46 | a request is accepted exactly when the text has 1 to 50000 characters and the source is "chatgpt" or "claude"; a rejection lists each violated constraint and no other |
| Models.RequestExamples | packages/factcheck/tests/test_extract_claims.py:141-190 | empty text and the source "invalid" are rejected; the two valid requests are accepted, and `responseId` defaults to absent |
| Strings.TrimStart | packages/factcheck/src/factcheck/extractors/patterns.py:111 | the left trim is a suffix of its input that is empty or starts with a non-whitespace character |
| Strings.TrimEnd | packages/factcheck/src/factcheck/extractors/patterns.py:111 | the right trim is a prefix of its input that is empty or ends with a non-whitespace character |
| Strings.StripEnds | packages/factcheck/src/factcheck/extractors/patterns.py:111 | a stripped string is empty or has non-whitespace at both ends |
| Strings.StripSlice | packages/factcheck/src/factcheck/extractors/patterns.py:111 | a stripped string is a contiguous slice of its input |
| Strings.StripDropsSpace | packages/factcheck/src/factcheck/extractors/patterns.py:111 | what strip removes is whitespace only |
| Strings.StripEmpty | packages/factcheck/src/factcheck/extractors/patterns.py:111 | strip gives the empty string exactly when the input is all whitespace |
| Strings.StripIdempotent | packages/factcheck/src/factcheck/verification/cache.py:32 | stripping twice is stripping once |
| Strings.StripLower | packages/factcheck/src/factcheck/verification/cache.py:32 | stripping and lower-casing commute |
| Strings.LowerIdempotent | packages/factcheck/src/factcheck/verification/cache.py:32 | lower-casing twice is lower-casing once |
| Strings.StripPadded | packages/factcheck/src/factcheck/verification/cache.py:32 | surrounding whitespace does not change the stripped text |
| Patterns.PatternRank | packages/factcheck/src/factcheck/extractors/patterns.py:24-65 | each claim type has one position in the pattern table's order |
| Patterns.TagAllAt | packages/factcheck/src/factcheck/extractors/patterns.py:83-91 | one pattern's hits become one match each, in order, tagged with the pattern's type |
| Patterns.CollectTypeMatches | packages/factcheck/src/factcheck/extractors/patterns.py:82-91 | the matches of one claim type are its patterns' hits in pattern order, each in its finditer order |
| Patterns.CollectMatches | packages/factcheck/src/factcheck/extractors/patterns.py:79-91 | the collected matches are the hits of all patterns in table order |
| Patterns.TypeMatchesFacts | packages/factcheck/src/factcheck/extractors/patterns.py:82-91 | every match of a type carries that type and its slice of the text |
| Patterns.MatchesOfFacts | packages/factcheck/src/factcheck/extractors/patterns.py:79-91 | all matches lie inside the text and carry their slice; their claim types appear in table order |
| Patterns.SentenceStartFacts | packages/factcheck/src/factcheck/extractors/patterns.py:134-143 | the window starts at 0 or right after a sentence ending, with no ending between it and the position |
| Patterns.FindSentenceStart | packages/factcheck/src/factcheck/extractors/patterns.py:134-143 | the backward scan returns the sentence start described above |
| Patterns.SentenceEndFacts | packages/factcheck/src/factcheck/extractors/patterns.py:145-155 | the window ends right after the first sentence ending at or after the position, or at the end of the text when there is none |
| Patterns.FindSentenceEnd | packages/factcheck/src/factcheck/extractors/patterns.py:145-155 | the forward scan returns the sentence end described above |
| Patterns.CandidatesAt | packages/factcheck/src/factcheck/extractors/patterns.py:106-111 | the i-th sentence candidate is the stripped window around the i-th match |
| Patterns.CandidateTypes | packages/factcheck/src/factcheck/extractors/patterns.py:106-111 | each candidate keeps its match's claim type |
| Patterns.MatchesToClaims | packages/factcheck/src/factcheck/extractors/patterns.py:101-132 | the loop over matches builds the claims of the seen-set and length filter, with ids drawn in order |
| Patterns.SeenIs | packages/factcheck/src/factcheck/extractors/patterns.py:104-116 | a sentence is in the seen set exactly when some earlier candidate had it |
| Patterns.ClaimTextsSeen | packages/factcheck/src/factcheck/extractors/patterns.py:104-122 | every claim's text is a sentence that was seen |
| Patterns.ClaimTextsDistinct | packages/factcheck/src/factcheck/extractors/patterns.py:113-116 | no two claims have the same text |
| Patterns.ClaimFromFirst | packages/factcheck/src/factcheck/extractors/patterns.py:113-130 | each claim comes from the first candidate with its sentence, which has an acceptable length; its id is the k-th id |
| Patterns.ClaimsCoverCandidates | packages/factcheck/src/factcheck/extractors/patterns.py:113-130 | every candidate sentence of 10 to 500 characters yields a claim with that text |
| Patterns.ClaimsOfShape | packages/factcheck/src/factcheck/extractors/patterns.py:106-130 | each claim's offset is the sentence window (sentence start before the match's start, sentence end after its end) of some match, so it contains the matched words; the claim has that match's type, its text is the window stripped with 10 to 500 characters, its confidence is 0.6 and the k-th claim has the k-th id |
| Patterns.ClaimTypePrecedence | packages/factcheck/src/factcheck/extractors/patterns.py:81-116 | a claim has the type of some match with its sentence, and that type comes first in table order among all matches with its sentence |
| Patterns.MatchPrecedence | packages/factcheck/src/factcheck/extractors/patterns.py:106-116 | for matches in rank order, a claim has the type of some match with its sentence, and no match with its sentence ranks earlier |
| Patterns.MatchTypeOfClaims | packages/factcheck/src/factcheck/extractors/patterns.py:106-130 | for matches in any order, every claim has the sentence and the type of some match |
| Patterns.ClaimsFromRankPrecedence | packages/factcheck/src/factcheck/extractors/patterns.py:113-130 | for candidates whose ranks never decrease, a claim's type ranks no later than any candidate with its sentence |
| Patterns.ClaimsOverlap | packages/factcheck/src/factcheck/extractors/patterns.py:181-201 | `_claims_overlap`: equal texts when an offset is missing, otherwise a shared length above half the shorter window; its symmetry and the integer form are OverlapFacts |
| Patterns.OverlapFacts | packages/factcheck/src/factcheck/extractors/patterns.py:181-201 | overlap is symmetric; disjoint windows never overlap; claims with offsets overlap exactly when the shared length exceeds half the shorter window |
| Patterns.InsertMultiset | packages/factcheck/src/factcheck/extractors/patterns.py:163-165 | inserting adds exactly the one claim |
| Patterns.InsertSorted | packages/factcheck/src/factcheck/extractors/patterns.py:163-165 | inserting into a list sorted by start keeps it sorted |
| Patterns.InsertStable | packages/factcheck/src/factcheck/extractors/patterns.py:163-165 | inserting puts the claim before the others with the same start |
| Patterns.SortPermutes | packages/factcheck/src/factcheck/extractors/patterns.py:163-165 | sorting is a permutation of the claims |
| Patterns.SortSorted | packages/factcheck/src/factcheck/extractors/patterns.py:163-165 | the sorted list is ordered by start, with 0 for a missing offset |
| Patterns.SortStable | packages/factcheck/src/factcheck/extractors/patterns.py:163-165 | claims with equal starts keep their relative order |
| Patterns.SortDistinct | packages/factcheck/src/factcheck/extractors/patterns.py:163-165 | sorting keeps the texts pairwise distinct |
| Patterns.KeepSubsequence | packages/factcheck/src/factcheck/extractors/patterns.py:167-179 | the kept claims are a subsequence of the sorted claims |
| Patterns.KeepMembers | packages/factcheck/src/factcheck/extractors/patterns.py:167-179 | every kept claim is one of the input claims |
| Patterns.KeepSorted | packages/factcheck/src/factcheck/extractors/patterns.py:167-179 | keeping preserves the order by start |
| Patterns.KeepDistinct | packages/factcheck/src/factcheck/extractors/patterns.py:167-179 | keeping preserves distinct texts |
| Patterns.KeepPairwiseDisjoint | packages/factcheck/src/factcheck/extractors/patterns.py:167-179 | no two kept claims overlap, in either direction |
| Patterns.KeepCovers | packages/factcheck/src/factcheck/extractors/patterns.py:167-179 | every dropped claim overlaps a kept one |
| Patterns.KeepEmpty | packages/factcheck/src/factcheck/extractors/patterns.py:159-179 | nothing is kept exactly when there is nothing to keep |
| Patterns.DeduplicateClaims | packages/factcheck/src/factcheck/extractors/patterns.py:157-179 | the method keeps, in sorted order, each claim that overlaps none kept before it; an empty list stays empty |
| Patterns.DeduplicateFacts | packages/factcheck/src/factcheck/extractors/patterns.py:157-179 | the result is a sorted subsequence of the sorted input with no overlapping pair; every input claim is kept or overlaps a kept one; it is empty exactly when the input is |
| Patterns.Extract | packages/factcheck/src/factcheck/extractors/patterns.py:70-99 | `extract` composes collection, conversion to claims and de-duplication |
| Patterns.ExtractFacts | packages/factcheck/src/factcheck/extractors/patterns.py:70-132 | the extracted claims have distinct texts; each is a well-formed stripped sentence window with a valid confidence, whose offset is the sentence window around one of the matches and contains it; they are sorted by start, and no two overlap |
| Patterns.ExtractOrigins | packages/factcheck/src/factcheck/extractors/patterns.py:70-130 | every extracted claim's offset is the sentence window around one of the pattern matches, containing it, and the claim has that match's type |
| Cache.MakeKey | packages/factcheck/src/factcheck/verification/cache.py:29-33 | the key is the text stripped and lower-cased, never longer than the text; its case and padding insensitivity are MakeKeyFolds, MakeKeyIgnoresCase and MakeKeyIgnoresPadding |
| Cache.MakeKeyFolds | packages/factcheck/src/factcheck/verification/cache.py:29-33 | the key is the lower-cased text, stripped |
| Cache.MakeKeyIgnoresCase | packages/factcheck/src/factcheck/verification/cache.py:29-33 | texts that differ only in case share a key |
| Cache.MakeKeyIgnoresPadding | packages/factcheck/src/factcheck/verification/cache.py:29-33 | texts that differ only in surrounding whitespace share a key |
| Cache.MakeKeyIdempotent | packages/factcheck/src/factcheck/verification/cache.py:29-33 | normalising a key again changes nothing |
| Cache.Lookup | packages/factcheck/src/factcheck/verification/cache.py:35-45 | a lookup finds a value exactly when the text's key is present, and then returns the value stored under it |
| Cache.StoreThenLookup | packages/factcheck/src/factcheck/verification/cache.py:35-55 | after a store, a lookup with the same key finds the stored result; other keys are unaffected |
| Cache.StoreOverwrites | packages/factcheck/src/factcheck/verification/cache.py:47-55 | a second store under the same key replaces the first |
| Cache.StoreSize | packages/factcheck/src/factcheck/verification/cache.py:47-63 | a store adds one entry for a new key and none for a present one |
| Cache.VerificationCache.constructor | packages/factcheck/src/factcheck/verification/cache.py:17-27 | a new cache is empty |
| Cache.VerificationCache.Get | packages/factcheck/src/factcheck/verification/cache.py:35-45 | `get` returns the lookup of the text's key, and None exactly when the key is absent |
| Cache.VerificationCache.Set | packages/factcheck/src/factcheck/verification/cache.py:47-55 | `set` stores the result under the text's key and changes nothing else |
| Cache.VerificationCache.Clear | packages/factcheck/src/factcheck/verification/cache.py:57-59 | `clear` leaves no entries |
| Cache.VerificationCache.Len | packages/factcheck/src/factcheck/verification/cache.py:61-63 | `len` is the number of stored keys |
| GoogleFactCheck.ToResultDefaults | packages/factcheck/src/factcheck/verification/google_factcheck.py:138-145 | a review's result takes the publisher name, url and rating, or "Unknown", "" and "Unknown" when absent, and its review date as it is |
| GoogleFactCheck.ResultsOfAt | packages/factcheck/src/factcheck/verification/google_factcheck.py:137-146 | the reviews of one claim give one result each, in order |
| GoogleFactCheck.FlattenLength | packages/factcheck/src/factcheck/verification/google_factcheck.py:134-146 | the response gives exactly as many results as it has reviews |
| GoogleFactCheck.FlattenAt | packages/factcheck/src/factcheck/verification/google_factcheck.py:134-146 | the j-th review of the i-th claim is the result at position (reviews before claim i) + j |
| GoogleFactCheck.ParseResponse | packages/factcheck/src/factcheck/verification/google_factcheck.py:130-148 | the nested loop builds the flattened results; absent `claims` or `claimReview` count as empty |
| GoogleFactCheck.ClassifyCases | packages/factcheck/src/factcheck/verification/google_factcheck.py:72-123 | one attempt: 429, status 500 and up, transport errors and undecodable bodies are retried; other non-2xx statuses raise; a decoded 2xx body is parsed |
| GoogleFactCheck.SearchFromStep | packages/factcheck/src/factcheck/verification/google_factcheck.py:71-123 | one loop iteration: a parsed body or a raise ends the search; a retry sleeps for the current backoff and goes on with a doubled backoff and the error as last error |
| GoogleFactCheck.BackoffPowers | packages/factcheck/src/factcheck/verification/google_factcheck.py:68-87 | starting at 1 second, the k-th sleep is 2^k seconds |
| GoogleFactCheck.SearchFromBounds | packages/factcheck/src/factcheck/verification/google_factcheck.py:71 | a search makes at most three attempts and sleeps at most once per attempt |
| GoogleFactCheck.SearchFromRetries | packages/factcheck/src/factcheck/verification/google_factcheck.py:71-123 | every attempt before the last was a retryable failure |
| GoogleFactCheck.SearchFromSleeps | packages/factcheck/src/factcheck/verification/google_factcheck.py:86-122 | the sleeps double each time, starting from the initial backoff |
| GoogleFactCheck.SearchFromEnd | packages/factcheck/src/factcheck/verification/google_factcheck.py:71-128 | a search that makes no attempt from here has used up its attempts and raises the last error, if there is one; otherwise the last attempt decides the outcome |
| GoogleFactCheck.SearchPolicy | packages/factcheck/src/factcheck/verification/google_factcheck.py:57-128 | without a key there is no attempt and the result is empty; with one there are 1 to 3 attempts, every one but the last retryable, sleeps of 1, 2, 4 seconds, and the last attempt decides (an exhausted search raises its last error) |
| GoogleFactCheck.ClientErrorRaisesAtOnce | packages/factcheck/src/factcheck/verification/google_factcheck.py:101-114 | a 4xx other than 429 on the first attempt raises that status after one attempt and no sleep |
| GoogleFactCheck.ResumeRetry | packages/factcheck/src/factcheck/verification/google_factcheck.py:75-123 | a retried attempt moves its sleep into the sleeps taken so far and continues with the next attempt |
| GoogleFactCheck.ResumeStop | packages/factcheck/src/factcheck/verification/google_factcheck.py:90-114 | an attempt that parses or raises ends the search after that attempt, with no further sleep |
| GoogleFactCheck.GoogleFactCheckClient.constructor | packages/factcheck/src/factcheck/verification/google_factcheck.py:31-33 | an absent or empty key falls back to the configured one |
| GoogleFactCheck.GoogleFactCheckClient.Search | packages/factcheck/src/factcheck/verification/google_factcheck.py:45-128 | the retry loop produces the outcome, attempt count and sleeps of the search policy above |
| Verification.CountsBounded | packages/factcheck/src/factcheck/verification/service.py:105-116 | the true and false counts together never exceed the number of sources |
| Verification.CountsStep | packages/factcheck/src/factcheck/verification/service.py:108-114 | a source adds to the true count if a true pattern matches its lower-cased rating, else to the false count if a false pattern matches, else to neither |
| Verification.AggregatedConfidence | packages/factcheck/src/factcheck/verification/service.py:102-131 | the confidence is in [0, 1], and 0 exactly when there are no sources |
| Verification.AggregatedStatus | packages/factcheck/src/factcheck/verification/service.py:102-131 | VERIFIED exactly when true ratings outnumber false, DISPUTED exactly when false outnumber true, otherwise UNVERIFIED; never ERROR or PENDING |
| Verification.VerificationService.constructor | packages/factcheck/src/factcheck/verification/service.py:29-41 | a given client is kept and a missing one is replaced by a fresh client with the configured key; a given non-empty cache is kept, while a missing or empty one (falsy through its length) is replaced by a fresh empty cache; no queries have been made |
| Verification.VerificationService.AggregateResults | packages/factcheck/src/factcheck/verification/service.py:91-131 | the counting loop gives the aggregated status and confidence: (UNVERIFIED, 0.0) with no sources, (UNVERIFIED, 0.3) with none classified, the majority's share, or (UNVERIFIED, 0.5) on a tie; the confidence is in [0, 1] |
| Verification.VerificationService.Verify | packages/factcheck/src/factcheck/verification/service.py:43-89 | a cache hit is returned without querying or changing the cache; a miss queries once; a search that raises gives the error result and caches nothing; otherwise the fresh result is cached under the claim and returned |
| Verification.ErrorResult | packages/factcheck/src/factcheck/verification/service.py:133-140 | `_create_error_result` is (ERROR, no sources, 0.0, now); `Verify` returns it, uncached, when the search raises |
| Verification.FreshResultFacts | packages/factcheck/src/factcheck/verification/service.py:65-84 | a fresh result has one source per fact-check, in order, a confidence in [0, 1], and a status other than ERROR |

## Left out

- The regular expressions of the pattern table are not modelled, and neither is
  the regex engine. Their hits are an input: a list per pattern, in finditer
  order, each inside the text with its matched slice.
- The rating patterns (`TRUE_PATTERNS`, `FALSE_PATTERNS`, with word boundaries
  and negative lookbehinds) are the abstract predicates `ratesTrue` and
  `ratesFalse` on the lower-cased rating.
- The HTTP transport (`httpx`), the lazily created HTTP client, its timeout and
  `close` on the client and on the service are not modelled. The outcome of each
  attempt is an input.
- `asyncio.sleep` is not taken. The durations are returned as the `sleeps` list.
- JSON decoding is not modelled. A body either decodes to the response shape or
  counts as undecodable. Ill-typed JSON, such as a response where `claims` is not
  a list, is not represented.
- The SHA-256 hash and its 16-character truncation in `_make_key` are not
  modelled. The model keys the table by the normalised text itself, so hash
  collisions between different texts are not represented.
- The cache's TTL expiry and its `maxsize` eviction are not modelled, because they
  depend on the clock and on the eviction policy of `cachetools`.
- `uuid.uuid4()` and `datetime.now()` are left out because they are randomness
  and the clock. They become the parameters `newId` and `now`.
- `str.lower` is modelled on ASCII letters only. Unicode case mapping is not
  modelled.
- Python floats are modelled as reals, so rounding is not modelled.
- Reading `settings.google_api_key` and `settings.cache_ttl_seconds` is left out,
  because the configuration module is not part of this model. The configured key
  is a parameter of the service's constructor.
- `ExtractClaimsResponse` is not modelled, because no modelled operation builds
  it; the HTTP endpoint that does is not part of this model.
- Verification.VerificationService.Verify: `except Exception` around `search` is
  modelled only for the exceptions `search` itself raises (status, request and
  decoding errors). Other exceptions are not represented, so the error result is
  tied to those.
- `ExtractClaimsRequest` is validated only for `text` and `source`. Pydantic's
  aliasing (`responseId`, `sourceOffset`, `processingTime`) and serialisation are
  not modelled.
- Logging is not modelled.
- `async` scheduling and concurrency are left out: each call is modelled as one
  sequential step.
- `main.py`, `config.py` and the HTTP endpoint are not part of this model.
