/**
 * The Google Fact Check Tools client: the flattening of a search response into
 * fact-check results, and the retry policy of `search` over the outcomes of its
 * HTTP attempts. The k-th HTTP attempt's outcome is an input; the sleeps the
 * client would take are returned instead of taken.
 */
module GoogleFactCheck {
  import opened Optional
  import opened Basics

  /** `FactCheckResult`. */
  datatype FactCheckResult = FactCheckResult(publisherName: string, url: string, rating: string,
                                             publishedDate: Option<string>)

  /** The decoded JSON of a search response; `None` stands for an absent key. */
  datatype Publisher = Publisher(name: Option<string>)
  datatype ClaimReview = ClaimReview(publisher: Option<Publisher>, url: Option<string>,
                                     textualRating: Option<string>, reviewDate: Option<string>)
  datatype ClaimEntry = ClaimEntry(claimReview: Option<seq<ClaimReview>>)
  datatype SearchResponse = SearchResponse(claims: Option<seq<ClaimEntry>>)

  const MaxRetries: nat := 3
  const InitialBackoff: real := 1.0

  // ---------------------------------------------------------------------------
  // _parse_response

  /** One review as a result, with the defaults of `_parse_response` for absent keys. */
  function ToResult(review: ClaimReview): FactCheckResult {
    var publisher := review.publisher.GetOr(Publisher(None));
    FactCheckResult(publisher.name.GetOr("Unknown"), review.url.GetOr(""),
                    review.textualRating.GetOr("Unknown"), review.reviewDate)
  }

  /** Absent keys take their defaults; present ones are copied. */
  lemma ToResultDefaults(review: ClaimReview)
    ensures ToResult(review).publisherName ==
      if review.publisher.Some? && review.publisher.value.name.Some? then review.publisher.value.name.value
      else "Unknown"
    ensures ToResult(review).url == if review.url.Some? then review.url.value else ""
    ensures ToResult(review).rating == if review.textualRating.Some? then review.textualRating.value else "Unknown"
    ensures ToResult(review).publishedDate == review.reviewDate
  {
  }

  function ReviewsOf(entry: ClaimEntry): seq<ClaimReview> {
    entry.claimReview.GetOr([])
  }

  /** The results of one claim's reviews, in order. */
  function ResultsOf(reviews: seq<ClaimReview>): seq<FactCheckResult> {
    if reviews == [] then []
    else ResultsOf(reviews[..|reviews| - 1]) + [ToResult(reviews[|reviews| - 1])]
  }

  /** The results of several claims, claim after claim. */
  function Flatten(entries: seq<ClaimEntry>): seq<FactCheckResult> {
    if entries == [] then []
    else Flatten(entries[..|entries| - 1]) + ResultsOf(ReviewsOf(entries[|entries| - 1]))
  }

  lemma ResultsOfSnoc(before: seq<FactCheckResult>, reviews: seq<ClaimReview>, j: nat)
    requires j < |reviews|
    ensures before + ResultsOf(reviews[..j + 1]) == (before + ResultsOf(reviews[..j])) + [ToResult(reviews[j])]
  {
    PrefixSnoc(reviews, j);
  }

  lemma FlattenSnoc(entries: seq<ClaimEntry>, i: nat)
    requires i < |entries|
    ensures Flatten(entries[..i + 1]) == Flatten(entries[..i]) + ResultsOf(ReviewsOf(entries[i])[..|ReviewsOf(entries[i])|])
  {
    PrefixSnoc(entries, i);
    WholePrefix(ReviewsOf(entries[i]));
  }

  /** What `_parse_response` returns. */
  function ParsedResults(data: SearchResponse): seq<FactCheckResult> {
    Flatten(data.claims.GetOr([]))
  }

  /** The number of reviews in `entries`. */
  function ReviewCount(entries: seq<ClaimEntry>): nat {
    if entries == [] then 0
    else ReviewCount(entries[..|entries| - 1]) + |ReviewsOf(entries[|entries| - 1])|
  }

  lemma {:induction false} ResultsOfAt(reviews: seq<ClaimReview>)
    ensures |ResultsOf(reviews)| == |reviews|
    ensures forall j :: 0 <= j < |reviews| ==> ResultsOf(reviews)[j] == ToResult(reviews[j])
    decreases |reviews|
  {
    if reviews != [] {
      ResultsOfAt(reviews[..|reviews| - 1]);
    }
  }

  /** One result per review, over all claims. */
  lemma {:induction false} FlattenLength(entries: seq<ClaimEntry>)
    ensures |Flatten(entries)| == ReviewCount(entries)
    decreases |entries|
  {
    if entries != [] {
      FlattenLength(entries[..|entries| - 1]);
      ResultsOfAt(ReviewsOf(entries[|entries| - 1]));
    }
  }

  /** Review `j` of claim `i` yields the result after all reviews of the earlier claims. */
  lemma {:induction false} FlattenAt(entries: seq<ClaimEntry>, i: int, j: int)
    requires 0 <= i < |entries| && 0 <= j < |ReviewsOf(entries[i])|
    ensures ReviewCount(entries[..i]) + j < |Flatten(entries)|
    ensures Flatten(entries)[ReviewCount(entries[..i]) + j] == ToResult(ReviewsOf(entries[i])[j])
    decreases |entries|
  {
    var n := |entries| - 1;
    var init := entries[..n];
    var tail := ResultsOf(ReviewsOf(entries[n]));
    assert Flatten(entries) == Flatten(init) + tail;
    assert |Flatten(init)| == ReviewCount(init) by {
      FlattenLength(init);
    }
    if i < n {
      assert init[..i] == entries[..i] && init[i] == entries[i];
      FlattenAt(init, i, j);
    } else {
      assert entries[..i] == init;
      assert tail[j] == ToResult(ReviewsOf(entries[n])[j]) by {
        ResultsOfAt(ReviewsOf(entries[n]));
      }
    }
  }

  /** `_parse_response`: for each claim, for each of its reviews, append its result. */
  method ParseResponse(data: SearchResponse) returns (results: seq<FactCheckResult>)
    ensures results == ParsedResults(data)
  {
    results := [];
    var claims := data.claims.GetOr([]);
    for i := 0 to |claims|
      invariant results == Flatten(claims[..i])
    {
      var claimReviews := claims[i].claimReview.GetOr([]);
      ghost var before := results;
      for j := 0 to |claimReviews|
        invariant results == before + ResultsOf(claimReviews[..j])
      {
        var review := claimReviews[j];
        var publisher := review.publisher.GetOr(Publisher(None));
        results := results + [FactCheckResult(publisher.name.GetOr("Unknown"), review.url.GetOr(""),
                                              review.textualRating.GetOr("Unknown"), review.reviewDate)];
        ResultsOfSnoc(before, claimReviews, j);
      }
      FlattenSnoc(claims, i);
    }
    WholePrefix(claims);
  }

  // ---------------------------------------------------------------------------
  // The retry policy of search

  /** What the k-th HTTP attempt produced: a response (with its decoded body, `None` when not JSON) or a transport error. */
  datatype Attempt = Reply(statusCode: int, body: Option<SearchResponse>) | TransportError

  /** The exceptions `search` can raise or remember as `last_error`. */
  datatype SearchError = StatusError(statusCode: int) | RequestFailed | DecodingFailed

  datatype SearchOutcome = Found(results: seq<FactCheckResult>) | Raised(error: SearchError)

  /** How one attempt ends: retry after a sleep, raise at once, or return parsed results. */
  datatype Step = Retry(error: SearchError) | Fail(error: SearchError) | Done(results: seq<FactCheckResult>)

  /** `raise_for_status` accepts exactly the 2xx codes. */
  predicate IsSuccess(statusCode: int) {
    200 <= statusCode < 300
  }

  /**
   * The try/except of one attempt: 429 is retried; another non-2xx status is
   * retried from 500 up and raised below; an undecodable body or a transport
   * error is retried; a decoded 2xx body is parsed.
   */
  function Classify(a: Attempt): Step {
    match a
    case TransportError => Retry(RequestFailed)
    case Reply(code, body) =>
      if code == 429 then Retry(StatusError(429))
      else if !IsSuccess(code) then (if code >= 500 then Retry(StatusError(code)) else Fail(StatusError(code)))
      else if body.None? then Retry(DecodingFailed)
      else Done(ParsedResults(body.value))
  }

  /** The classification, stated case by case. */
  lemma ClassifyCases(a: Attempt)
    ensures a.TransportError? ==> Classify(a) == Retry(RequestFailed)
    ensures a.Reply? && a.statusCode == 429 ==> Classify(a) == Retry(StatusError(429))
    ensures a.Reply? && a.statusCode >= 500 ==> Classify(a) == Retry(StatusError(a.statusCode))
    ensures a.Reply? && a.statusCode != 429 && !IsSuccess(a.statusCode) && a.statusCode < 500 ==>
      Classify(a) == Fail(StatusError(a.statusCode))
    ensures a.Reply? && IsSuccess(a.statusCode) && a.body.None? ==> Classify(a) == Retry(DecodingFailed)
    ensures a.Reply? && IsSuccess(a.statusCode) && a.body.Some? ==> Classify(a) == Done(ParsedResults(a.body.value))
  {
  }

  /** The outcome of a search, how many attempts it made and the sleeps between them, in seconds. */
  datatype Trace = Trace(outcome: SearchOutcome, attempts: nat, sleeps: seq<real>)

  /** `search` from attempt `attempt` on, with the current backoff and last error. */
  function SearchFrom(replies: nat -> Attempt, attempt: nat, backoff: real, lastError: Option<SearchError>): Trace
    decreases MaxRetries - attempt
  {
    if attempt >= MaxRetries then
      Trace(if lastError.Some? then Raised(lastError.value) else Found([]), attempt, [])
    else
      match Classify(replies(attempt))
      case Done(results) => Trace(Found(results), attempt + 1, [])
      case Fail(e) => Trace(Raised(e), attempt + 1, [])
      case Retry(e) =>
        var rest := SearchFrom(replies, attempt + 1, Doubled(backoff), Some(e));
        Trace(rest.outcome, rest.attempts, [backoff] + rest.sleeps)
  }

  /** `search`: nothing is attempted without an API key. */
  function SearchTrace(apiKey: Option<string>, replies: nat -> Attempt): Trace {
    if apiKey.None? || apiKey.value == "" then Trace(Found([]), 0, [])
    else SearchFrom(replies, 0, InitialBackoff, None)
  }

  /** `backoff *= 2`. */
  function Doubled(backoff: real): real {
    2.0 * backoff
  }

  function Pow2(k: nat): real {
    if k == 0 then 1.0 else 2.0 * Pow2(k - 1)
  }

  /** One attempt of `SearchFrom`, unfolded. */
  lemma SearchFromStep(replies: nat -> Attempt, attempt: nat, backoff: real, lastError: Option<SearchError>)
    requires attempt < MaxRetries
    ensures Classify(replies(attempt)).Done? ==>
      SearchFrom(replies, attempt, backoff, lastError) == Trace(Found(Classify(replies(attempt)).results), attempt + 1, [])
    ensures Classify(replies(attempt)).Fail? ==>
      SearchFrom(replies, attempt, backoff, lastError) == Trace(Raised(Classify(replies(attempt)).error), attempt + 1, [])
    ensures Classify(replies(attempt)).Retry? ==>
      SearchFrom(replies, attempt, backoff, lastError) ==
        Trace(SearchFrom(replies, attempt + 1, Doubled(backoff), Some(Classify(replies(attempt)).error)).outcome,
              SearchFrom(replies, attempt + 1, Doubled(backoff), Some(Classify(replies(attempt)).error)).attempts,
              [backoff] + SearchFrom(replies, attempt + 1, Doubled(backoff), Some(Classify(replies(attempt)).error)).sleeps)
  {
  }

  /** The sleep before retry `k` when the first sleep is `backoff`: it doubles each time. */
  function BackoffAt(backoff: real, k: nat): real {
    if k == 0 then backoff else Doubled(BackoffAt(backoff, k - 1))
  }

  /** Starting from one second, the k-th sleep lasts 2^k seconds. */
  lemma {:induction false} BackoffPowers(k: nat)
    ensures BackoffAt(InitialBackoff, k) == Pow2(k)
  {
    if k > 0 {
      BackoffPowers(k - 1);
    }
  }

  lemma {:induction false} SearchFromBounds(replies: nat -> Attempt, attempt: nat, backoff: real,
                                            lastError: Option<SearchError>)
    requires attempt <= MaxRetries
    ensures attempt <= SearchFrom(replies, attempt, backoff, lastError).attempts <= MaxRetries
    ensures |SearchFrom(replies, attempt, backoff, lastError).sleeps| <=
      SearchFrom(replies, attempt, backoff, lastError).attempts - attempt
    decreases MaxRetries - attempt
  {
    if attempt < MaxRetries {
      SearchFromStep(replies, attempt, backoff, lastError);
      var step := Classify(replies(attempt));
      if step.Retry? {
        SearchFromBounds(replies, attempt + 1, Doubled(backoff), Some(step.error));
      }
    }
  }

  lemma {:induction false} SearchFromRetries(replies: nat -> Attempt, attempt: nat, backoff: real,
                                             lastError: Option<SearchError>)
    requires attempt <= MaxRetries
    ensures forall k :: attempt <= k < SearchFrom(replies, attempt, backoff, lastError).attempts - 1 ==>
      Classify(replies(k)).Retry?
    decreases MaxRetries - attempt
  {
    if attempt < MaxRetries {
      SearchFromStep(replies, attempt, backoff, lastError);
      var step := Classify(replies(attempt));
      if step.Retry? {
        SearchFromRetries(replies, attempt + 1, Doubled(backoff), Some(step.error));
      }
    }
  }

  lemma {:induction false} SearchFromSleeps(replies: nat -> Attempt, attempt: nat, backoff: real,
                                            lastError: Option<SearchError>)
    requires attempt <= MaxRetries
    ensures forall k :: 0 <= k < |SearchFrom(replies, attempt, backoff, lastError).sleeps| ==>
      SearchFrom(replies, attempt, backoff, lastError).sleeps[k] == BackoffAt(backoff, k)
    decreases MaxRetries - attempt
  {
    if attempt < MaxRetries {
      SearchFromStep(replies, attempt, backoff, lastError);
      var step := Classify(replies(attempt));
      if step.Retry? {
        var next := Doubled(backoff);
        var rest := SearchFrom(replies, attempt + 1, next, Some(step.error));
        SearchFromSleeps(replies, attempt + 1, next, Some(step.error));
        var t := SearchFrom(replies, attempt, backoff, lastError);
        forall k | 0 <= k < |t.sleeps| ensures t.sleeps[k] == BackoffAt(backoff, k) {
          if k > 0 {
            assert t.sleeps[k] == rest.sleeps[k - 1];
            BackoffShift(backoff, k - 1);
          }
        }
      }
    }
  }

  lemma {:induction false} BackoffShift(backoff: real, k: nat)
    ensures BackoffAt(Doubled(backoff), k) == BackoffAt(backoff, k + 1)
  {
    if k > 0 {
      BackoffShift(backoff, k - 1);
    }
  }

  lemma {:induction false} SearchFromEnd(replies: nat -> Attempt, attempt: nat, backoff: real,
                                         lastError: Option<SearchError>)
    requires attempt <= MaxRetries
    ensures SearchFrom(replies, attempt, backoff, lastError).attempts == attempt ==>
      attempt == MaxRetries && SearchFrom(replies, attempt, backoff, lastError).sleeps == [] &&
      SearchFrom(replies, attempt, backoff, lastError).outcome ==
        (if lastError.Some? then Raised(lastError.value) else Found([]))
    ensures SearchFrom(replies, attempt, backoff, lastError).attempts > attempt ==>
      LastDecides(replies, attempt, SearchFrom(replies, attempt, backoff, lastError))
    decreases MaxRetries - attempt
  {
    if attempt < MaxRetries {
      var step := Classify(replies(attempt));
      if step.Retry? {
        var t := SearchFrom(replies, attempt, backoff, lastError);
        var rest := SearchFrom(replies, attempt + 1, Doubled(backoff), Some(step.error));
        assert t.outcome == rest.outcome && t.attempts == rest.attempts && t.sleeps == [backoff] + rest.sleeps by {
          SearchFromStep(replies, attempt, backoff, lastError);
        }
        SearchFromEnd(replies, attempt + 1, Doubled(backoff), Some(step.error));
        SearchFromBounds(replies, attempt + 1, Doubled(backoff), Some(step.error));
        if rest.attempts > attempt + 1 {
          assert LastDecides(replies, attempt + 1, rest);
        }
      } else {
        SearchFromStep(replies, attempt, backoff, lastError);
      }
    }
  }

  /**
   * The last attempt of a trace that starts at `attempt` decides its outcome: parsed
   * results or an immediate raise end the search with one sleep fewer than
   * attempts; a retryable failure can only be last when the attempts are used up,
   * and then its error is raised after a final sleep.
   */
  predicate LastDecides(replies: nat -> Attempt, attempt: nat, t: Trace)
    requires t.attempts > attempt
  {
    match Classify(replies(t.attempts - 1))
    case Done(results) => t.outcome == Found(results) && |t.sleeps| == t.attempts - attempt - 1
    case Fail(e) => t.outcome == Raised(e) && |t.sleeps| == t.attempts - attempt - 1
    case Retry(e) => t.attempts == MaxRetries && t.outcome == Raised(e) && |t.sleeps| == t.attempts - attempt
  }

  /**
   * The retry policy of `search`: without a key nothing is attempted and the
   * result is empty; otherwise one to three attempts are made, every attempt but
   * the last was retryable, the sleeps are 1, 2, 4 seconds in turn, and the last
   * attempt decides the outcome. In particular a search that exhausts its
   * attempts raises the last error and never returns an empty result.
   */
  lemma SearchPolicy(apiKey: Option<string>, replies: nat -> Attempt)
    ensures (apiKey.None? || apiKey.value == "") ==> SearchTrace(apiKey, replies) == Trace(Found([]), 0, [])
    ensures apiKey.Some? && apiKey.value != "" ==>
      && 1 <= SearchTrace(apiKey, replies).attempts <= MaxRetries
      && (forall k :: 0 <= k < SearchTrace(apiKey, replies).attempts - 1 ==> Classify(replies(k)).Retry?)
      && (forall k :: 0 <= k < |SearchTrace(apiKey, replies).sleeps| ==>
            SearchTrace(apiKey, replies).sleeps[k] == Pow2(k))
      && LastDecides(replies, 0, SearchTrace(apiKey, replies))
  {
    if apiKey.Some? && apiKey.value != "" {
      SearchFromBounds(replies, 0, InitialBackoff, None);
      SearchFromRetries(replies, 0, InitialBackoff, None);
      SearchFromSleeps(replies, 0, InitialBackoff, None);
      SearchFromEnd(replies, 0, InitialBackoff, None);
      forall k | 0 <= k < |SearchTrace(apiKey, replies).sleeps| ensures SearchTrace(apiKey, replies).sleeps[k] == Pow2(k) {
        BackoffPowers(k);
      }
    }
  }

  /** A client error other than 429 on the first attempt raises at once, after one attempt and no sleep. */
  lemma ClientErrorRaisesAtOnce(apiKey: string, replies: nat -> Attempt)
    requires apiKey != ""
    requires replies(0).Reply? && replies(0).statusCode != 429
    requires 400 <= replies(0).statusCode < 500
    ensures SearchTrace(Some(apiKey), replies) ==
      Trace(Raised(StatusError(replies(0).statusCode)), 1, [])
  {
  }

  /** A trace continued after the sleeps taken so far. */
  function Resume(sleeps: seq<real>, t: Trace): Trace {
    Trace(t.outcome, t.attempts, sleeps + t.sleeps)
  }

  /** Resuming at a retried attempt moves its sleep into the prefix and goes on with the next attempt. */
  lemma ResumeRetry(sleeps: seq<real>, replies: nat -> Attempt, attempt: nat, backoff: real,
                    lastError: Option<SearchError>, e: SearchError)
    requires attempt < MaxRetries && Classify(replies(attempt)) == Retry(e)
    ensures Resume(sleeps, SearchFrom(replies, attempt, backoff, lastError)) ==
      Resume(sleeps + [backoff], SearchFrom(replies, attempt + 1, Doubled(backoff), Some(e)))
  {
    var rest := SearchFrom(replies, attempt + 1, Doubled(backoff), Some(e));
    assert sleeps + ([backoff] + rest.sleeps) == (sleeps + [backoff]) + rest.sleeps;
  }

  /** Resuming at an attempt that raises or parses ends the search there. */
  lemma ResumeStop(sleeps: seq<real>, replies: nat -> Attempt, attempt: nat, backoff: real,
                   lastError: Option<SearchError>, outcome: SearchOutcome)
    requires attempt < MaxRetries
    requires Classify(replies(attempt)).Fail? ==> outcome == Raised(Classify(replies(attempt)).error)
    requires Classify(replies(attempt)).Done? ==> outcome == Found(Classify(replies(attempt)).results)
    requires !Classify(replies(attempt)).Retry?
    ensures Resume(sleeps, SearchFrom(replies, attempt, backoff, lastError)) == Trace(outcome, attempt + 1, sleeps)
  {
    assert sleeps + [] == sleeps;
  }

  /** `GoogleFactCheckClient`. */
  class GoogleFactCheckClient {
    const apiKey: Option<string>

    /** An empty or absent key falls back to the configured one. */
    constructor (apiKey: Option<string>, configuredKey: Option<string>)
      ensures this.apiKey == if apiKey.Some? && apiKey.value != "" then apiKey else configuredKey
    {
      this.apiKey := if apiKey.Some? && apiKey.value != "" then apiKey else configuredKey;
    }

    /**
     * `search`: `replies(k)` is what the k-th HTTP request for `query` produced.
     * Returns the outcome, the number of attempts and the sleeps, in order.
     */
    method Search(query: string, replies: nat -> Attempt)
      returns (outcome: SearchOutcome, attempts: nat, sleeps: seq<real>)
      ensures Trace(outcome, attempts, sleeps) == SearchTrace(apiKey, replies)
    {
      if apiKey.None? || apiKey.value == "" {
        return Found([]), 0, [];
      }
      var backoff := InitialBackoff;
      var lastError: Option<SearchError> := None;
      attempts, sleeps := 0, [];
      assert [] + SearchFrom(replies, 0, backoff, lastError).sleeps == SearchFrom(replies, 0, backoff, lastError).sleeps;
      for attempt := 0 to MaxRetries
        invariant attempts == attempt
        invariant attempt > 0 ==> lastError.Some?
        invariant SearchTrace(apiKey, replies) == Resume(sleeps, SearchFrom(replies, attempt, backoff, lastError))
      {
        var reply := replies(attempt);
        attempts := attempts + 1;
        if reply.TransportError? {
          ResumeRetry(sleeps, replies, attempt, backoff, lastError, RequestFailed);
          lastError := Some(RequestFailed);
          sleeps := sleeps + [backoff];
          backoff := Doubled(backoff);
          continue;
        }
        if reply.statusCode == 429 {
          ResumeRetry(sleeps, replies, attempt, backoff, lastError, StatusError(429));
          lastError := Some(StatusError(429));
          sleeps := sleeps + [backoff];
          backoff := Doubled(backoff);
          continue;
        }
        if !IsSuccess(reply.statusCode) {
          ghost var previous := lastError;
          lastError := Some(StatusError(reply.statusCode));
          if reply.statusCode >= 500 {
            ResumeRetry(sleeps, replies, attempt, backoff, previous, StatusError(reply.statusCode));
            sleeps := sleeps + [backoff];
            backoff := Doubled(backoff);
            continue;
          }
          ResumeStop(sleeps, replies, attempt, backoff, previous, Raised(StatusError(reply.statusCode)));
          return Raised(StatusError(reply.statusCode)), attempts, sleeps;
        }
        if reply.body.None? {
          ResumeRetry(sleeps, replies, attempt, backoff, lastError, DecodingFailed);
          lastError := Some(DecodingFailed);
          sleeps := sleeps + [backoff];
          backoff := Doubled(backoff);
          continue;
        }
        var results := ParseResponse(reply.body.value);
        ResumeStop(sleeps, replies, attempt, backoff, lastError, Found(results));
        return Found(results), attempts, sleeps;
      }
      // Every attempt that did not return set the last error, so the trailing empty return is unreachable.
      assert lastError.Some?;
      outcome := Raised(lastError.value);
    }
  }
}
