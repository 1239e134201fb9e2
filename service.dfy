/**
 * The verification service: the cache-first `verify` flow around the fact-check
 * client, and the aggregation of fact-check ratings into a status and a
 * confidence. The two rating pattern lists are abstract predicates on the
 * lower-cased rating.
 */
module Verification {
  import opened Optional
  import opened Basics
  import opened Strings
  import opened Models
  import opened Cache
  import opened GoogleFactCheck

  /** Whether a rating predicate matches the source's lower-cased verdict. */
  predicate Rates(rates: string -> bool, source: VerificationSource) {
    rates(Lower(source.verdict))
  }

  /** The sources counted as true: those the true patterns match. */
  function TrueCount(sources: seq<VerificationSource>, ratesTrue: string -> bool): nat {
    if sources == [] then 0
    else TrueCount(sources[..|sources| - 1], ratesTrue) + (if Rates(ratesTrue, sources[|sources| - 1]) then 1 else 0)
  }

  /** The sources counted as false: those the false patterns match and the true patterns do not. */
  function FalseCount(sources: seq<VerificationSource>, ratesTrue: string -> bool, ratesFalse: string -> bool): nat {
    if sources == [] then 0
    else
      var s := sources[|sources| - 1];
      FalseCount(sources[..|sources| - 1], ratesTrue, ratesFalse)
        + (if !Rates(ratesTrue, s) && Rates(ratesFalse, s) then 1 else 0)
  }

  /** Each source adds to at most one counter, so the two counts never exceed the number of sources. */
  lemma {:induction false} CountsBounded(sources: seq<VerificationSource>, ratesTrue: string -> bool,
                                         ratesFalse: string -> bool)
    ensures TrueCount(sources, ratesTrue) + FalseCount(sources, ratesTrue, ratesFalse) <= |sources|
    decreases |sources|
  {
    if sources != [] {
      CountsBounded(sources[..|sources| - 1], ratesTrue, ratesFalse);
    }
  }

  /**
   * One more source adds one to the true count when the true patterns match it,
   * else one to the false count when the false patterns match it, else nothing.
   */
  lemma CountsStep(sources: seq<VerificationSource>, s: VerificationSource, ratesTrue: string -> bool,
                   ratesFalse: string -> bool)
    ensures Rates(ratesTrue, s) ==>
      TrueCount(sources + [s], ratesTrue) == TrueCount(sources, ratesTrue) + 1 &&
      FalseCount(sources + [s], ratesTrue, ratesFalse) == FalseCount(sources, ratesTrue, ratesFalse)
    ensures !Rates(ratesTrue, s) && Rates(ratesFalse, s) ==>
      TrueCount(sources + [s], ratesTrue) == TrueCount(sources, ratesTrue) &&
      FalseCount(sources + [s], ratesTrue, ratesFalse) == FalseCount(sources, ratesTrue, ratesFalse) + 1
    ensures !Rates(ratesTrue, s) && !Rates(ratesFalse, s) ==>
      TrueCount(sources + [s], ratesTrue) == TrueCount(sources, ratesTrue) &&
      FalseCount(sources + [s], ratesTrue, ratesFalse) == FalseCount(sources, ratesTrue, ratesFalse)
  {
    assert (sources + [s])[..|sources|] == sources;
  }

  /**
   * The status and confidence `_aggregate_results` assigns: no sources give
   * (UNVERIFIED, 0.0); none classified give (UNVERIFIED, 0.3); a majority of
   * true or false ratings gives VERIFIED or DISPUTED with the majority's share
   * of all sources; a tie gives (UNVERIFIED, 0.5).
   */
  function Aggregated(sources: seq<VerificationSource>, ratesTrue: string -> bool, ratesFalse: string -> bool)
    : (VerificationStatus, real)
  {
    if |sources| == 0 then (Unverified, 0.0)
    else
      var trueCount := TrueCount(sources, ratesTrue);
      var falseCount := FalseCount(sources, ratesTrue, ratesFalse);
      if trueCount + falseCount == 0 then (Unverified, 0.3)
      else
        var confidence := (Max(trueCount, falseCount) as real) / (|sources| as real);
        if trueCount > falseCount then (Verified, confidence)
        else if falseCount > trueCount then (Disputed, confidence)
        else (Unverified, 0.5)
  }

  /** A share of `m` out of `n` items, `0 < m <= n`, lies in (0, 1]. */
  lemma ShareBounds(m: nat, n: nat)
    requires 0 < m <= n
    ensures 0.0 < (m as real) / (n as real) <= 1.0
  {
    var c := (m as real) / (n as real);
    assert c * (n as real) == m as real;
  }

  /** The aggregated confidence lies in [0, 1] and is 0 exactly when there are no sources. */
  lemma AggregatedConfidence(sources: seq<VerificationSource>, ratesTrue: string -> bool, ratesFalse: string -> bool)
    ensures 0.0 <= Aggregated(sources, ratesTrue, ratesFalse).1 <= 1.0
    ensures Aggregated(sources, ratesTrue, ratesFalse).1 == 0.0 <==> |sources| == 0
  {
    var t := TrueCount(sources, ratesTrue);
    var f := FalseCount(sources, ratesTrue, ratesFalse);
    CountsBounded(sources, ratesTrue, ratesFalse);
    if |sources| > 0 && t + f > 0 {
      ShareBounds(Max(t, f), |sources|);
    }
  }

  /**
   * The status is VERIFIED exactly on a true majority, DISPUTED exactly on a
   * false majority, and otherwise UNVERIFIED, never ERROR or PENDING.
   */
  lemma AggregatedStatus(sources: seq<VerificationSource>, ratesTrue: string -> bool, ratesFalse: string -> bool)
    ensures Aggregated(sources, ratesTrue, ratesFalse).0 == Verified <==>
      TrueCount(sources, ratesTrue) > FalseCount(sources, ratesTrue, ratesFalse)
    ensures Aggregated(sources, ratesTrue, ratesFalse).0 == Disputed <==>
      FalseCount(sources, ratesTrue, ratesFalse) > TrueCount(sources, ratesTrue)
    ensures Aggregated(sources, ratesTrue, ratesFalse).0 in {Verified, Disputed, Unverified}
  {
  }

  /** One source per fact-check, in order. */
  function SourceOf(factCheck: FactCheckResult): VerificationSource {
    VerificationSource(factCheck.publisherName, factCheck.url, factCheck.rating, factCheck.publishedDate)
  }

  function SourcesOf(factChecks: seq<FactCheckResult>): seq<VerificationSource> {
    seq(|factChecks|, i requires 0 <= i < |factChecks| => SourceOf(factChecks[i]))
  }

  /** `_create_error_result`: status ERROR, no sources, confidence 0. */
  function ErrorResult(verifiedAt: string): VerificationResult {
    VerificationResult(Error, [], 0.0, verifiedAt)
  }

  /** The result `verify` builds from the fact-checks of a successful search. */
  function FreshResult(factChecks: seq<FactCheckResult>, ratesTrue: string -> bool, ratesFalse: string -> bool,
                       verifiedAt: string): VerificationResult
  {
    var sources := SourcesOf(factChecks);
    var (status, confidence) := Aggregated(sources, ratesTrue, ratesFalse);
    VerificationResult(status, sources, confidence, verifiedAt)
  }

  /** `VerificationService`. */
  class VerificationService {
    const client: GoogleFactCheckClient
    const cache: VerificationCache
    /** Whether any of TRUE_PATTERNS, resp. FALSE_PATTERNS, occurs in a lower-cased rating. */
    const ratesTrue: string -> bool
    const ratesFalse: string -> bool
    /** The claim texts the client has been asked about, in order. */
    ghost var queries: seq<string>

    /**
     * `__init__`: a missing client is replaced by a default one, which reads the
     * configured key; a missing cache, and also an empty one (it has a length of 0,
     * so `cache or VerificationCache()` takes the default), is replaced by a new cache.
     */
    constructor (client: GoogleFactCheckClient?, cache: VerificationCache?, configuredKey: Option<string>,
                 ratesTrue: string -> bool, ratesFalse: string -> bool)
      ensures client != null ==> this.client == client
      ensures client == null ==> fresh(this.client) && this.client.apiKey == configuredKey
      ensures cache != null && |cache.entries| > 0 ==> this.cache == cache
      ensures cache == null || |cache.entries| == 0 ==> fresh(this.cache) && this.cache.entries == map[]
      ensures this.ratesTrue == ratesTrue && this.ratesFalse == ratesFalse
      ensures queries == []
    {
      if client != null {
        this.client := client;
      } else {
        var c := new GoogleFactCheckClient(None, configuredKey);
        this.client := c;
      }
      if cache != null && |cache.entries| > 0 {
        this.cache := cache;
      } else {
        var c := new VerificationCache();
        this.cache := c;
      }
      this.ratesTrue := ratesTrue;
      this.ratesFalse := ratesFalse;
      queries := [];
    }

    /** `_aggregate_results`: one pass counting true and false ratings. */
    method AggregateResults(sources: seq<VerificationSource>) returns (status: VerificationStatus, confidence: real)
      ensures (status, confidence) == Aggregated(sources, ratesTrue, ratesFalse)
      ensures 0.0 <= confidence <= 1.0
    {
      AggregatedConfidence(sources, ratesTrue, ratesFalse);
      if |sources| == 0 {
        return Unverified, 0.0;
      }
      var trueCount := 0;
      var falseCount := 0;
      for i := 0 to |sources|
        invariant trueCount == TrueCount(sources[..i], ratesTrue)
        invariant falseCount == FalseCount(sources[..i], ratesTrue, ratesFalse)
      {
        var ratingLower := Lower(sources[i].verdict);
        assert sources[..i + 1] == sources[..i] + [sources[i]];
        CountsStep(sources[..i], sources[i], ratesTrue, ratesFalse);
        if ratesTrue(ratingLower) {
          trueCount := trueCount + 1;
        } else if ratesFalse(ratingLower) {
          falseCount := falseCount + 1;
        }
      }
      assert sources[..|sources|] == sources;
      var totalClassified := trueCount + falseCount;
      if totalClassified == 0 {
        return Unverified, 0.3;
      }
      confidence := (Max(trueCount, falseCount) as real) / (|sources| as real);
      if trueCount > falseCount {
        status := Verified;
      } else if falseCount > trueCount {
        status := Disputed;
      } else {
        status, confidence := Unverified, 0.5;
      }
    }

    /**
     * `verify`: a cached result is returned as it is, without asking the client;
     * otherwise the client is asked once; if it raises, the error result is
     * returned and nothing is cached; if it answers, the result built from its
     * fact-checks is cached under the claim text and returned. `replies` stands
     * for the HTTP attempts of that search and `now` for the current time.
     */
    method Verify(claimText: string, replies: nat -> Attempt, now: string) returns (result: VerificationResult)
      modifies this, cache
      ensures Lookup(old(cache.entries), claimText).Some? ==>
        result == Lookup(old(cache.entries), claimText).value &&
        cache.entries == old(cache.entries) && queries == old(queries)
      ensures Lookup(old(cache.entries), claimText).None? ==> queries == old(queries) + [claimText]
      ensures Lookup(old(cache.entries), claimText).None? && SearchTrace(client.apiKey, replies).outcome.Raised? ==>
        result == ErrorResult(now) && cache.entries == old(cache.entries)
      ensures Lookup(old(cache.entries), claimText).None? && SearchTrace(client.apiKey, replies).outcome.Found? ==>
        result == FreshResult(SearchTrace(client.apiKey, replies).outcome.results, ratesTrue, ratesFalse, now) &&
        cache.entries == Store(old(cache.entries), claimText, result)
    {
      var cached := cache.Get(claimText);
      if cached.Some? {
        return cached.value;
      }
      queries := queries + [claimText];
      var outcome, _, _ := client.Search(claimText, replies);
      if outcome.Raised? {
        return ErrorResult(now);
      }
      var factChecks := outcome.results;
      var sources := SourcesOf(factChecks);
      var status, confidence := AggregateResults(sources);
      result := VerificationResult(status, sources, confidence, now);
      cache.Set(claimText, result);
    }
  }

  /** The result `verify` builds has one source per fact-check, in order, and a confidence in [0, 1]. */
  lemma FreshResultFacts(factChecks: seq<FactCheckResult>, ratesTrue: string -> bool, ratesFalse: string -> bool,
                         verifiedAt: string)
    ensures |FreshResult(factChecks, ratesTrue, ratesFalse, verifiedAt).sources| == |factChecks|
    ensures forall i :: 0 <= i < |factChecks| ==>
      FreshResult(factChecks, ratesTrue, ratesFalse, verifiedAt).sources[i] == SourceOf(factChecks[i])
    ensures 0.0 <= FreshResult(factChecks, ratesTrue, ratesFalse, verifiedAt).confidence <= 1.0
    ensures FreshResult(factChecks, ratesTrue, ratesFalse, verifiedAt).status != Error
  {
    AggregatedConfidence(SourcesOf(factChecks), ratesTrue, ratesFalse);
    AggregatedStatus(SourcesOf(factChecks), ratesTrue, ratesFalse);
  }
}
