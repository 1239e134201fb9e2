/**
 * The pattern-based claim extractor. Regex hits are inputs; everything built
 * from them (the match list in PATTERNS order, sentence windows, the seen-set
 * filter, the length filter, the stable sort by offset and the overlap
 * de-duplication) is modelled as the extractor performs it.
 */
module Patterns {
  import opened Optional
  import opened Strings
  import opened Models
  import opened Basics

  /** One hit of one compiled pattern: `match.start()`, `match.end()`, `match.group(0)`. */
  datatype Hit = Hit(start: int, end: int, matchText: string)

  /** A hit tagged with the claim type of the pattern that produced it. */
  datatype PatternMatch = PatternMatch(start: int, end: int, matchText: string, claimType: ClaimType)

  /** The claim types of PATTERNS in its iteration order; each has three compiled patterns. */
  const PatternTypes: seq<ClaimType> := [Statistical, Temporal, Factual, Attribution, Comparative]
  const PatternsPerType := 3

  const BaseConfidence: real := 0.6
  const MinSentenceLength := 10
  const MaxSentenceLength := 500
  const SentenceEndings: string := ".!?\n"

  predicate IsSentenceEnding(c: char) {
    c in SentenceEndings
  }

  /** A regex engine reports hits inside the text, with the matched slice. */
  predicate ValidHit(text: string, h: Hit) {
    0 <= h.start <= h.end <= |text| && h.matchText == text[h.start..h.end]
  }

  predicate ValidMatch(text: string, m: PatternMatch) {
    0 <= m.start <= m.end <= |text| && m.matchText == text[m.start..m.end]
  }

  predicate ValidMatches(text: string, ms: seq<PatternMatch>) {
    forall i :: 0 <= i < |ms| ==> ValidMatch(text, ms[i])
  }

  /** Hits for every compiled pattern: `hits[g][p]` lists the hits of pattern `p` of type `PatternTypes[g]`. */
  predicate ValidHits(text: string, hits: seq<seq<seq<Hit>>>) {
    && |hits| == |PatternTypes|
    && (forall g :: 0 <= g < |hits| ==> |hits[g]| == PatternsPerType)
    && (forall g, p, k :: 0 <= g < |hits| && 0 <= p < |hits[g]| && 0 <= k < |hits[g][p]| ==>
          ValidHit(text, hits[g][p][k]))
  }

  // ---------------------------------------------------------------------------
  // Collecting the matches in PATTERNS order

  function Tagged(h: Hit, t: ClaimType): PatternMatch {
    PatternMatch(h.start, h.end, h.matchText, t)
  }

  /** The hits of one pattern, tagged with its type. */
  function TagAll(found: seq<Hit>, t: ClaimType): (r: seq<PatternMatch>)
  {
    if found == [] then [] else TagAll(found[..|found| - 1], t) + [Tagged(found[|found| - 1], t)]
  }

  lemma {:induction false} TagAllAt(found: seq<Hit>, t: ClaimType)
    ensures |TagAll(found, t)| == |found|
    ensures forall k :: 0 <= k < |found| ==> TagAll(found, t)[k] == Tagged(found[k], t)
    decreases |found|
  {
    if found != [] {
      TagAllAt(found[..|found| - 1], t);
    }
  }

  /** The hits of several patterns of one type, pattern after pattern. */
  function TypeMatches(patterns: seq<seq<Hit>>, t: ClaimType): seq<PatternMatch> {
    if patterns == [] then []
    else TypeMatches(patterns[..|patterns| - 1], t) + TagAll(patterns[|patterns| - 1], t)
  }

  /** The match list `extract` builds: type after type, pattern after pattern, hit after hit. */
  function MatchesOf(hits: seq<seq<seq<Hit>>>): seq<PatternMatch>
    requires |hits| <= |PatternTypes|
  {
    if hits == [] then []
    else MatchesOf(hits[..|hits| - 1]) + TypeMatches(hits[|hits| - 1], PatternTypes[|hits| - 1])
  }

  /** The position of a claim type in PATTERNS order: lower ranks come first in the match list. */
  function PatternRank(t: ClaimType): (r: nat)
    ensures r < |PatternTypes| && PatternTypes[r] == t
  {
    match t
    case Statistical => 0
    case Temporal => 1
    case Factual => 2
    case Attribution => 3
    case Comparative => 4
  }

  /** The first loop nest of `extract`: type after type, in PATTERNS order. */
  method CollectMatches(hits: seq<seq<seq<Hit>>>) returns (matches: seq<PatternMatch>)
    requires |hits| == |PatternTypes|
    ensures matches == MatchesOf(hits)
  {
    matches := [];
    for g := 0 to |PatternTypes|
      invariant matches == MatchesOf(hits[..g])
    {
      var typeMatches := CollectTypeMatches(hits[g], PatternTypes[g]);
      matches := matches + typeMatches;
      MatchesOfSnoc(hits, g);
    }
    WholePrefix(hits);
  }

  /** The inner two loops of that nest: the hits of each pattern of one type, tagged with the type. */
  method CollectTypeMatches(patterns: seq<seq<Hit>>, claimType: ClaimType) returns (matches: seq<PatternMatch>)
    ensures matches == TypeMatches(patterns, claimType)
  {
    matches := [];
    for p := 0 to |patterns|
      invariant matches == TypeMatches(patterns[..p], claimType)
    {
      var found := patterns[p];
      ghost var start := matches;
      for k := 0 to |found|
        invariant matches == start + TagAll(found[..k], claimType)
      {
        matches := matches + [PatternMatch(found[k].start, found[k].end, found[k].matchText, claimType)];
        TagAllSnoc(start, found, k, claimType);
      }
      TypeMatchesSnoc(patterns, p, claimType);
    }
    WholePrefix(patterns);
  }

  lemma TagAllSnoc(start: seq<PatternMatch>, found: seq<Hit>, k: nat, t: ClaimType)
    requires k < |found|
    ensures start + TagAll(found[..k + 1], t) == (start + TagAll(found[..k], t)) + [Tagged(found[k], t)]
  {
    assert found[..k + 1][..k] == found[..k];
  }

  lemma TypeMatchesSnoc(patterns: seq<seq<Hit>>, p: nat, t: ClaimType)
    requires p < |patterns|
    ensures TypeMatches(patterns[..p + 1], t) == TypeMatches(patterns[..p], t) + TagAll(patterns[p][..|patterns[p]|], t)
  {
    assert patterns[..p + 1][..p] == patterns[..p];
    WholePrefix(patterns[p]);
  }


  lemma MatchesOfSnoc(hits: seq<seq<seq<Hit>>>, g: nat)
    requires g < |hits| <= |PatternTypes|
    ensures MatchesOf(hits[..g + 1]) == MatchesOf(hits[..g]) + TypeMatches(hits[g], PatternTypes[g])
  {
    assert hits[..g + 1][..g] == hits[..g];
  }

  lemma {:induction false} TypeMatchesFacts(text: string, patterns: seq<seq<Hit>>, t: ClaimType)
    requires forall p, k :: 0 <= p < |patterns| && 0 <= k < |patterns[p]| ==> ValidHit(text, patterns[p][k])
    ensures forall i :: 0 <= i < |TypeMatches(patterns, t)| ==>
      TypeMatches(patterns, t)[i].claimType == t && ValidMatch(text, TypeMatches(patterns, t)[i])
    decreases |patterns|
  {
    if patterns != [] {
      var init := patterns[..|patterns| - 1];
      TypeMatchesFacts(text, init, t);
      TagAllAt(patterns[|patterns| - 1], t);
    }
  }

  /**
   * Every collected match is a valid match, and the list is ordered by PATTERNS
   * order: a match of an earlier type never comes after one of a later type.
   */
  lemma {:induction false} MatchesOfFacts(text: string, hits: seq<seq<seq<Hit>>>)
    requires |hits| <= |PatternTypes|
    requires forall g, p, k :: 0 <= g < |hits| && 0 <= p < |hits[g]| && 0 <= k < |hits[g][p]| ==>
      ValidHit(text, hits[g][p][k])
    ensures ValidMatches(text, MatchesOf(hits))
    ensures forall i :: 0 <= i < |MatchesOf(hits)| ==> PatternRank(MatchesOf(hits)[i].claimType) < |hits|
    ensures forall i, j :: 0 <= i < j < |MatchesOf(hits)| ==>
      PatternRank(MatchesOf(hits)[i].claimType) <= PatternRank(MatchesOf(hits)[j].claimType)
    decreases |hits|
  {
    if hits != [] {
      var g := |hits| - 1;
      var init := hits[..g];
      MatchesOfFacts(text, init);
      TypeMatchesFacts(text, hits[g], PatternTypes[g]);
      assert PatternRank(PatternTypes[g]) == g;
    }
  }

  // ---------------------------------------------------------------------------
  // Sentence windows

  /** Where the sentence holding position `pos` starts, scanning backwards. */
  function SentenceStart(text: string, pos: int): (s: int)
    requires 0 <= pos <= |text|
    ensures 0 <= s <= pos
    decreases pos
  {
    if pos == 0 || IsSentenceEnding(text[pos - 1]) then pos else SentenceStart(text, pos - 1)
  }

  /**
   * The sentence start is the nearest position at or before `pos` that is 0 or
   * follows a sentence ending, with no ending in between.
   */
  lemma {:induction false} SentenceStartFacts(text: string, pos: int)
    requires 0 <= pos <= |text|
    ensures SentenceStart(text, pos) == 0 || IsSentenceEnding(text[SentenceStart(text, pos) - 1])
    ensures forall k :: SentenceStart(text, pos) <= k < pos ==> !IsSentenceEnding(text[k])
    decreases pos
  {
    if !(pos == 0 || IsSentenceEnding(text[pos - 1])) {
      SentenceStartFacts(text, pos - 1);
    }
  }

  /** Where the sentence holding position `pos` ends, scanning forwards. */
  function SentenceEnd(text: string, pos: int): (e: int)
    requires 0 <= pos <= |text|
    ensures pos <= e <= |text|
    decreases |text| - pos
  {
    if pos == |text| then pos
    else if IsSentenceEnding(text[pos]) then pos + 1
    else SentenceEnd(text, pos + 1)
  }

  /**
   * The sentence end lies just after the first sentence ending at or after `pos`
   * (the ending is included), or at the end of the text when there is none.
   */
  lemma {:induction false} SentenceEndFacts(text: string, pos: int)
    requires 0 <= pos <= |text|
    ensures forall k :: pos <= k < SentenceEnd(text, pos) - 1 ==> !IsSentenceEnding(text[k])
    ensures (pos < SentenceEnd(text, pos) && IsSentenceEnding(text[SentenceEnd(text, pos) - 1]))
         || (SentenceEnd(text, pos) == |text| && forall k :: pos <= k < |text| ==> !IsSentenceEnding(text[k]))
    decreases |text| - pos
  {
    if pos < |text| && !IsSentenceEnding(text[pos]) {
      SentenceEndFacts(text, pos + 1);
    }
  }

  /** `_find_sentence_start`: scans backwards from `pos`. */
  method FindSentenceStart(text: string, pos: int) returns (start: int)
    requires 0 <= pos <= |text|
    ensures start == SentenceStart(text, pos)
  {
    start := pos;
    while start > 0
      invariant 0 <= start <= pos
      invariant SentenceStart(text, start) == SentenceStart(text, pos)
    {
      if IsSentenceEnding(text[start - 1]) {
        break;
      }
      start := start - 1;
    }
  }

  /** `_find_sentence_end`: scans forwards from `pos` and includes the ending. */
  method FindSentenceEnd(text: string, pos: int) returns (end: int)
    requires 0 <= pos <= |text|
    ensures end == SentenceEnd(text, pos)
  {
    end := pos;
    while end < |text|
      invariant pos <= end <= |text|
      invariant SentenceEnd(text, end) == SentenceEnd(text, pos)
    {
      if IsSentenceEnding(text[end]) {
        end := end + 1;
        break;
      }
      end := end + 1;
    }
  }

  // ---------------------------------------------------------------------------
  // From matches to claims

  /** What one match contributes: its stripped sentence, the unstripped window and its type. */
  datatype Candidate = Candidate(sentence: string, offset: SourceOffset, claimType: ClaimType)

  /** The candidate of match `m`: the window around it, between sentence boundaries. */
  function CandidateOf(text: string, m: PatternMatch): Candidate
    requires ValidMatch(text, m)
  {
    var start := SentenceStart(text, m.start);
    var end := SentenceEnd(text, m.end);
    Candidate(Strip(text[start..end]), SourceOffset(start, end), m.claimType)
  }

  function Candidates(text: string, ms: seq<PatternMatch>): (cs: seq<Candidate>)
    requires ValidMatches(text, ms)
    ensures |cs| == |ms|
  {
    if ms == [] then []
    else Candidates(text, ms[..|ms| - 1]) + [CandidateOf(text, ms[|ms| - 1])]
  }

  lemma {:induction false} CandidatesAt(text: string, ms: seq<PatternMatch>, i: int)
    requires ValidMatches(text, ms)
    requires 0 <= i < |ms|
    ensures Candidates(text, ms)[i] == CandidateOf(text, ms[i])
    decreases |ms|
  {
    if i < |ms| - 1 {
      CandidatesAt(text, ms[..|ms| - 1], i);
    }
  }

  lemma CandidatesSnoc(text: string, ms: seq<PatternMatch>, i: nat)
    requires ValidMatches(text, ms)
    requires i < |ms|
    ensures Candidates(text, ms[..i + 1]) == Candidates(text, ms[..i]) + [CandidateOf(text, ms[i])]
  {
    assert ms[..i + 1][..i] == ms[..i];
  }

  lemma CandidateTypes(text: string, ms: seq<PatternMatch>)
    requires ValidMatches(text, ms)
    ensures forall i :: 0 <= i < |ms| ==> Candidates(text, ms)[i].claimType == ms[i].claimType
  {
    forall i | 0 <= i < |ms| ensures Candidates(text, ms)[i].claimType == ms[i].claimType {
      CandidatesAt(text, ms, i);
    }
  }

  predicate AcceptableLength(sentence: string) {
    MinSentenceLength <= |sentence| <= MaxSentenceLength
  }

  /** The claim a candidate yields under identifier `id`. */
  function ClaimFor(c: Candidate, id: string): Claim {
    Claim(id, c.sentence, c.claimType, BaseConfidence, Some(c.offset))
  }

  /** The sentences of all candidates in `cs`: the seen-sentence set after them. */
  function Seen(cs: seq<Candidate>): set<string> {
    if cs == [] then {} else Seen(cs[..|cs| - 1]) + {cs[|cs| - 1].sentence}
  }

  /**
   * The claims emitted for candidates `cs`, in order: a candidate whose
   * sentence was seen before is skipped; otherwise its sentence is marked
   * seen, and it yields a claim when the sentence has 10 to 500 characters.
   * The k-th claim emitted takes the identifier `newId(k)`.
   */
  function ClaimsFrom(cs: seq<Candidate>, newId: nat -> string): seq<Claim> {
    if cs == [] then []
    else
      var init := cs[..|cs| - 1];
      var c := cs[|cs| - 1];
      var claims := ClaimsFrom(init, newId);
      if c.sentence in Seen(init) || !AcceptableLength(c.sentence) then claims
      else claims + [ClaimFor(c, newId(|claims|))]
  }

  /** One more candidate: `ClaimsFrom` and `Seen` unfolded once at the end. */
  lemma ClaimsFromSnoc(cs: seq<Candidate>, c: Candidate, newId: nat -> string)
    ensures Seen(cs + [c]) == Seen(cs) + {c.sentence}
    ensures ClaimsFrom(cs + [c], newId) ==
      if c.sentence in Seen(cs) || !AcceptableLength(c.sentence) then ClaimsFrom(cs, newId)
      else ClaimsFrom(cs, newId) + [ClaimFor(c, newId(|ClaimsFrom(cs, newId)|))]
  {
    assert (cs + [c])[..|cs|] == cs;
  }

  /** The claims `_matches_to_claims` builds from the matches of `text`. */
  function ClaimsOf(text: string, ms: seq<PatternMatch>, newId: nat -> string): seq<Claim>
    requires ValidMatches(text, ms)
  {
    ClaimsFrom(Candidates(text, ms), newId)
  }

  /** `_matches_to_claims`. */
  method MatchesToClaims(text: string, matches: seq<PatternMatch>, newId: nat -> string)
    returns (claims: seq<Claim>)
    requires ValidMatches(text, matches)
    ensures claims == ClaimsOf(text, matches, newId)
  {
    claims := [];
    var seen: set<string> := {};
    ghost var cs: seq<Candidate> := [];
    for i := 0 to |matches|
      invariant cs == Candidates(text, matches[..i])
      invariant claims == ClaimsFrom(cs, newId)
      invariant seen == Seen(cs)
    {
      var m := matches[i];
      var sentenceStart := FindSentenceStart(text, m.start);
      var sentenceEnd := FindSentenceEnd(text, m.end);
      var sentence := Strip(text[sentenceStart..sentenceEnd]);
      ghost var c := Candidate(sentence, SourceOffset(sentenceStart, sentenceEnd), m.claimType);
      assert c == CandidateOf(text, m);
      CandidatesSnoc(text, matches, i);
      ClaimsFromSnoc(cs, c, newId);
      cs := cs + [c];
      if sentence in seen {
        AddPresent(seen, sentence);
        continue;
      }
      seen := seen + {sentence};
      if |sentence| < MinSentenceLength || |sentence| > MaxSentenceLength {
        continue;
      }
      claims := claims + [Claim(newId(|claims|), sentence, m.claimType, BaseConfidence,
                                Some(SourceOffset(sentenceStart, sentenceEnd)))];
    }
    assert matches[..|matches|] == matches;
  }

  lemma AddPresent(s: set<string>, x: string)
    requires x in s
    ensures s + {x} == s
  {
  }

  /** Candidate `j` is the first, in input order, with its sentence. */
  predicate FirstWithSentence(cs: seq<Candidate>, j: int) {
    0 <= j < |cs| && forall i :: 0 <= i < j ==> cs[i].sentence != cs[j].sentence
  }

  lemma {:induction false} SeenIs(cs: seq<Candidate>, t: string)
    ensures t in Seen(cs) <==> exists i :: 0 <= i < |cs| && cs[i].sentence == t
    decreases |cs|
  {
    if cs != [] {
      var init := cs[..|cs| - 1];
      SeenIs(init, t);
      if t in Seen(init) {
        var i :| 0 <= i < |init| && init[i].sentence == t;
        assert cs[i] == init[i];
      }
      if exists i :: 0 <= i < |cs| && cs[i].sentence == t {
        var i :| 0 <= i < |cs| && cs[i].sentence == t;
        if i < |init| {
          assert init[i] == cs[i];
        }
      }
    }
  }

  /** Every emitted claim's text was marked seen. */
  lemma {:induction false} ClaimTextsSeen(cs: seq<Candidate>, newId: nat -> string)
    ensures forall k :: 0 <= k < |ClaimsFrom(cs, newId)| ==> ClaimsFrom(cs, newId)[k].text in Seen(cs)
    decreases |cs|
  {
    if cs != [] {
      ClaimTextsSeen(cs[..|cs| - 1], newId);
    }
  }

  /** No two emitted claims have the same text. */
  lemma {:induction false} ClaimTextsDistinct(cs: seq<Candidate>, newId: nat -> string)
    ensures DistinctTexts(ClaimsFrom(cs, newId))
    decreases |cs|
  {
    if cs != [] {
      var init := cs[..|cs| - 1];
      assert cs == init + [cs[|cs| - 1]];
      ClaimsFromSnoc(init, cs[|cs| - 1], newId);
      ClaimTextsDistinct(init, newId);
      ClaimTextsSeen(init, newId);
    }
  }

  /**
   * The k-th emitted claim comes from the first candidate with its sentence, and
   * carries identifier `newId(k)`.
   */
  lemma {:induction false} ClaimFromFirst(cs: seq<Candidate>, newId: nat -> string, k: nat)
    requires k < |ClaimsFrom(cs, newId)|
    ensures exists j ::
      FirstWithSentence(cs, j) && AcceptableLength(cs[j].sentence) && ClaimsFrom(cs, newId)[k] == ClaimFor(cs[j], newId(k))
    decreases |cs|
  {
    var n := |cs| - 1;
    var init := cs[..n];
    var c := cs[n];
    assert cs == init + [c];
    var prev := ClaimsFrom(init, newId);
    var claims := ClaimsFrom(cs, newId);
    if k < |prev| {
      assert claims[k] == prev[k] by {
        ClaimsFromSnoc(init, c, newId);
      }
      ClaimFromFirst(init, newId, k);
      var j :| FirstWithSentence(init, j) && AcceptableLength(init[j].sentence) &&
        prev[k] == ClaimFor(init[j], newId(k));
      FirstWithSentenceSnoc(init, c, j);
      assert cs[j] == init[j];
    } else {
      assert k == |prev| && claims[k] == ClaimFor(c, newId(k)) && c.sentence !in Seen(init) &&
        AcceptableLength(c.sentence) by {
        ClaimsFromSnoc(init, c, newId);
      }
      FirstWithSentenceLast(init, c);
    }
  }

  lemma FirstWithSentenceSnoc(cs: seq<Candidate>, c: Candidate, j: int)
    requires FirstWithSentence(cs, j)
    ensures FirstWithSentence(cs + [c], j)
  {
    assert forall i :: 0 <= i <= j ==> (cs + [c])[i] == cs[i];
  }

  lemma FirstWithSentenceLast(cs: seq<Candidate>, c: Candidate)
    requires c.sentence !in Seen(cs)
    ensures FirstWithSentence(cs + [c], |cs|)
  {
    SeenIs(cs, c.sentence);
    assert forall i :: 0 <= i < |cs| ==> (cs + [c])[i] == cs[i];
  }

  /** Every candidate whose sentence has an acceptable length has that sentence among the claims. */
  lemma {:induction false} ClaimsCoverCandidates(cs: seq<Candidate>, newId: nat -> string)
    ensures var claims := ClaimsFrom(cs, newId);
      forall j :: 0 <= j < |cs| && AcceptableLength(cs[j].sentence) ==>
        exists k :: 0 <= k < |claims| && claims[k].text == cs[j].sentence
    decreases |cs|
  {
    if cs != [] {
      var n := |cs| - 1;
      var init := cs[..n];
      var prev := ClaimsFrom(init, newId);
      var claims := ClaimsFrom(cs, newId);
      assert cs == init + [cs[n]];
      ClaimsFromSnoc(init, cs[n], newId);
      ClaimsCoverCandidates(init, newId);
      assert forall k :: 0 <= k < |prev| ==> claims[k] == prev[k];
      forall j | 0 <= j < |cs| && AcceptableLength(cs[j].sentence)
        ensures exists k :: 0 <= k < |claims| && claims[k].text == cs[j].sentence
      {
        if j < n {
          assert init[j] == cs[j];
          var k :| 0 <= k < |prev| && prev[k].text == init[j].sentence;
          assert claims[k].text == cs[j].sentence;
        } else if cs[n].sentence in Seen(init) {
          SeenIs(init, cs[n].sentence);
          var i :| 0 <= i < n && init[i].sentence == cs[n].sentence;
          var k :| 0 <= k < |prev| && prev[k].text == init[i].sentence;
          assert claims[k].text == cs[j].sentence;
        } else {
          assert claims[|prev|].text == cs[n].sentence;
        }
      }
    }
  }

  /**
   * The shape of every claim `_matches_to_claims` emits: its offset is the unstripped
   * sentence window of some match, its text is that window stripped and has 10 to 500
   * characters, its confidence is the base confidence and the k-th claim has id `newId(k)`.
   */
  lemma ClaimsOfShape(text: string, ms: seq<PatternMatch>, newId: nat -> string)
    requires ValidMatches(text, ms)
    ensures var claims := ClaimsOf(text, ms, newId);
      forall k :: 0 <= k < |claims| ==> WellFormed(text, claims[k]) && claims[k].id == newId(k)
    ensures var claims := ClaimsOf(text, ms, newId);
      forall k :: 0 <= k < |claims| ==> FromSomeMatch(text, claims[k], ms)
  {
    var cs := Candidates(text, ms);
    var claims := ClaimsOf(text, ms, newId);
    forall k | 0 <= k < |claims|
      ensures WellFormed(text, claims[k]) && claims[k].id == newId(k)
      ensures FromSomeMatch(text, claims[k], ms)
    {
      ClaimFromFirst(cs, newId, k);
      var j :| FirstWithSentence(cs, j) && AcceptableLength(cs[j].sentence) && claims[k] == ClaimFor(cs[j], newId(k));
      CandidatesAt(text, ms, j);
      assert BuiltFrom(text, claims[k], ms[j]);
    }
  }

  /**
   * Claim `c` was built from match `m`: its offset is the sentence window around
   * `m`, which contains the matched words, and it has `m`'s claim type.
   */
  predicate BuiltFrom(text: string, c: Claim, m: PatternMatch) {
    && ValidMatch(text, m)
    && c.sourceOffset == Some(SourceOffset(SentenceStart(text, m.start), SentenceEnd(text, m.end)))
    && c.sourceOffset.value.start <= m.start <= m.end <= c.sourceOffset.value.end
    && c.claimType == m.claimType
  }

  /** Claim `c` was built from one of the matches `ms`. */
  predicate FromSomeMatch(text: string, c: Claim, ms: seq<PatternMatch>) {
    exists j :: 0 <= j < |ms| && BuiltFrom(text, c, ms[j])
  }

  /** A claim as `_matches_to_claims` builds it from `text`. */
  predicate WellFormed(text: string, c: Claim) {
    && c.confidence == BaseConfidence
    && AcceptableLength(c.text)
    && c.sourceOffset.Some?
    && 0 <= c.sourceOffset.value.start <= c.sourceOffset.value.end <= |text|
    && c.text == Strip(text[c.sourceOffset.value.start..c.sourceOffset.value.end])
  }

  /**
   * A claim's type is the type of the first match with its sentence, so it ranks
   * no later in PATTERNS order than any other match whose sentence is the claim's text.
   */
  lemma ClaimTypePrecedence(text: string, hits: seq<seq<seq<Hit>>>, newId: nat -> string)
    requires ValidHits(text, hits)
    ensures ValidMatches(text, MatchesOf(hits))
    ensures var ms := MatchesOf(hits); var claims := ClaimsOf(text, ms, newId);
      forall k, i :: 0 <= k < |claims| && 0 <= i < |ms| && Candidates(text, ms)[i].sentence == claims[k].text ==>
        PatternRank(claims[k].claimType) <= PatternRank(ms[i].claimType)
    ensures var ms := MatchesOf(hits); var claims := ClaimsOf(text, ms, newId);
      forall k :: 0 <= k < |claims| ==> TypeOfSomeMatch(text, claims[k], ms)
  {
    MatchesOfFacts(text, hits);
    MatchPrecedence(text, MatchesOf(hits), newId);
  }

  /**
   * `ClaimTypePrecedence` for any match list ordered by rank: a claim has the type
   * of some match with its sentence, and that type ranks no later than any other.
   */
  lemma MatchPrecedence(text: string, ms: seq<PatternMatch>, newId: nat -> string)
    requires ValidMatches(text, ms)
    requires forall i, j :: 0 <= i < j < |ms| ==> PatternRank(ms[i].claimType) <= PatternRank(ms[j].claimType)
    ensures var claims := ClaimsOf(text, ms, newId);
      forall k, i :: 0 <= k < |claims| && 0 <= i < |ms| && Candidates(text, ms)[i].sentence == claims[k].text ==>
        PatternRank(claims[k].claimType) <= PatternRank(ms[i].claimType)
    ensures var claims := ClaimsOf(text, ms, newId);
      forall k :: 0 <= k < |claims| ==> TypeOfSomeMatch(text, claims[k], ms)
  {
    var cs := Candidates(text, ms);
    CandidateTypes(text, ms);
    ClaimsFromRankPrecedence(cs, newId);
    MatchTypeOfClaims(text, ms, newId);
  }

  /** Every claim has the sentence and the type of some match. */
  lemma MatchTypeOfClaims(text: string, ms: seq<PatternMatch>, newId: nat -> string)
    requires ValidMatches(text, ms)
    ensures var claims := ClaimsOf(text, ms, newId);
      forall k :: 0 <= k < |claims| ==> TypeOfSomeMatch(text, claims[k], ms)
  {
    var cs := Candidates(text, ms);
    var claims := ClaimsOf(text, ms, newId);
    forall k | 0 <= k < |claims|
      ensures TypeOfSomeMatch(text, claims[k], ms)
    {
      ClaimFromFirst(cs, newId, k);
      var j :| FirstWithSentence(cs, j) && AcceptableLength(cs[j].sentence) && claims[k] == ClaimFor(cs[j], newId(k));
      CandidatesAt(text, ms, j);
      assert cs[j].sentence == claims[k].text && claims[k].claimType == ms[j].claimType;
    }
  }

  /** Claim `c` has the sentence and the claim type of one of the matches `ms`. */
  predicate TypeOfSomeMatch(text: string, c: Claim, ms: seq<PatternMatch>) {
    && ValidMatches(text, ms)
    && exists i :: 0 <= i < |ms| && Candidates(text, ms)[i].sentence == c.text && c.claimType == ms[i].claimType
  }

  /** Over candidates ordered by rank, a claim ranks no later than any candidate with its text. */
  lemma ClaimsFromRankPrecedence(cs: seq<Candidate>, newId: nat -> string)
    requires forall i, j :: 0 <= i < j < |cs| ==> PatternRank(cs[i].claimType) <= PatternRank(cs[j].claimType)
    ensures forall k, i ::
      0 <= k < |ClaimsFrom(cs, newId)| && 0 <= i < |cs| && cs[i].sentence == ClaimsFrom(cs, newId)[k].text ==>
        PatternRank(ClaimsFrom(cs, newId)[k].claimType) <= PatternRank(cs[i].claimType)
  {
    var claims := ClaimsFrom(cs, newId);
    forall k, i | 0 <= k < |claims| && 0 <= i < |cs| && cs[i].sentence == claims[k].text
      ensures PatternRank(claims[k].claimType) <= PatternRank(cs[i].claimType)
    {
      ClaimFromFirst(cs, newId, k);
      var j :| FirstWithSentence(cs, j) && AcceptableLength(cs[j].sentence) && claims[k] == ClaimFor(cs[j], newId(k));
      assert j <= i;
    }
  }

  // ---------------------------------------------------------------------------
  // Overlap between claims

  /**
   * `_claims_overlap`: without offsets, equal texts; otherwise the intervals must
   * intersect and the intersection must be longer than half the shorter interval.
   */
  predicate ClaimsOverlap(c1: Claim, c2: Claim) {
    if c1.sourceOffset.None? || c2.sourceOffset.None? then c1.text == c2.text
    else
      var start1, end1 := c1.sourceOffset.value.start, c1.sourceOffset.value.end;
      var start2, end2 := c2.sourceOffset.value.start, c2.sourceOffset.value.end;
      var overlapStart := Max(start1, start2);
      var overlapEnd := Min(end1, end2);
      if overlapEnd <= overlapStart then false
      else
        var overlapLen := overlapEnd - overlapStart;
        (overlapLen as real) > 0.5 * (Min(end1 - start1, end2 - start2) as real)
  }

  /**
   * Overlap is symmetric, fails for intervals that do not intersect, and in
   * integers says: the intersection is nonempty and twice its length exceeds the
   * shorter length.
   */
  lemma OverlapFacts(c1: Claim, c2: Claim)
    ensures ClaimsOverlap(c1, c2) == ClaimsOverlap(c2, c1)
    ensures c1.sourceOffset.Some? && c2.sourceOffset.Some? ==>
      var o1, o2 := c1.sourceOffset.value, c2.sourceOffset.value;
      (Min(o1.end, o2.end) <= Max(o1.start, o2.start) ==> !ClaimsOverlap(c1, c2)) &&
      (ClaimsOverlap(c1, c2) <==>
        Min(o1.end, o2.end) > Max(o1.start, o2.start) &&
        2 * (Min(o1.end, o2.end) - Max(o1.start, o2.start)) > Min(o1.end - o1.start, o2.end - o2.start))
  {
  }

  // ---------------------------------------------------------------------------
  // The stable sort by offset start

  /** The sort key of `_deduplicate_claims`: the offset start, or 0 without an offset. */
  function StartKey(c: Claim): int {
    if c.sourceOffset.Some? then c.sourceOffset.value.start else 0
  }

  predicate SortedByStart(s: seq<Claim>) {
    forall i, j :: 0 <= i < j < |s| ==> StartKey(s[i]) <= StartKey(s[j])
  }

  /** Insert `c` before the first element whose key is not smaller than its own. */
  function InsertByStart(c: Claim, s: seq<Claim>): seq<Claim> {
    if s == [] || StartKey(c) <= StartKey(s[0]) then [c] + s
    else [s[0]] + InsertByStart(c, s[1..])
  }

  /** Python's `sorted` by `StartKey`: a stable insertion sort. */
  function SortByStart(s: seq<Claim>): seq<Claim> {
    if s == [] then [] else InsertByStart(s[0], SortByStart(s[1..]))
  }

  /** The elements of `s` with sort key `key`, in order. */
  function WithStart(s: seq<Claim>, key: int): seq<Claim> {
    if s == [] then []
    else (if StartKey(s[0]) == key then [s[0]] else []) + WithStart(s[1..], key)
  }

  predicate DistinctTexts(s: seq<Claim>) {
    forall i, j :: 0 <= i < j < |s| ==> s[i].text != s[j].text
  }

  lemma {:induction false} InsertMultiset(c: Claim, s: seq<Claim>)
    ensures multiset(InsertByStart(c, s)) == multiset(s) + multiset{c}
    decreases |s|
  {
    if !(s == [] || StartKey(c) <= StartKey(s[0])) {
      var rest := InsertByStart(c, s[1..]);
      assert multiset(rest) == multiset(s[1..]) + multiset{c} by {
        InsertMultiset(c, s[1..]);
      }
      assert multiset(s) == multiset{s[0]} + multiset(s[1..]) by {
        assert s == [s[0]] + s[1..];
      }
      assert multiset([s[0]] + rest) == multiset{s[0]} + multiset(rest);
    }
  }

  lemma {:induction false} InsertMembers(c: Claim, s: seq<Claim>)
    ensures forall x :: x in InsertByStart(c, s) <==> x == c || x in s
    decreases |s|
  {
    if !(s == [] || StartKey(c) <= StartKey(s[0])) {
      InsertMembers(c, s[1..]);
      assert s == [s[0]] + s[1..];
    }
  }

  lemma {:induction false} InsertSorted(c: Claim, s: seq<Claim>)
    requires SortedByStart(s)
    ensures SortedByStart(InsertByStart(c, s))
    decreases |s|
  {
    if !(s == [] || StartKey(c) <= StartKey(s[0])) {
      var rest := InsertByStart(c, s[1..]);
      InsertSorted(c, s[1..]);
      InsertMembers(c, s[1..]);
      var r := [s[0]] + rest;
      forall i, j | 0 <= i < j < |r| ensures StartKey(r[i]) <= StartKey(r[j]) {
        assert r[j] == rest[j - 1] && r[j] in rest;
        if r[j] != c {
          var k :| 0 <= k < |s[1..]| && s[1..][k] == r[j];
          assert s[k + 1] == r[j];
        }
        if 0 < i {
          assert r[i] == rest[i - 1];
        }
      }
    }
  }

  lemma {:induction false} InsertStable(c: Claim, s: seq<Claim>, key: int)
    ensures WithStart(InsertByStart(c, s), key) == (if StartKey(c) == key then [c] else []) + WithStart(s, key)
    decreases |s|
  {
    if s == [] || StartKey(c) <= StartKey(s[0]) {
      assert ([c] + s)[1..] == s;
    } else {
      var rest := InsertByStart(c, s[1..]);
      InsertStable(c, s[1..], key);
      assert ([s[0]] + rest)[1..] == rest;
      assert StartKey(c) == key ==> StartKey(s[0]) != key;
    }
  }

  lemma {:induction false} InsertDistinct(c: Claim, s: seq<Claim>)
    requires DistinctTexts(s)
    requires forall i :: 0 <= i < |s| ==> s[i].text != c.text
    ensures DistinctTexts(InsertByStart(c, s))
    decreases |s|
  {
    if s == [] || StartKey(c) <= StartKey(s[0]) {
      var r := [c] + s;
      forall i, j | 0 <= i < j < |r| ensures r[i].text != r[j].text {
        assert r[j] == s[j - 1];
        if 0 < i {
          assert r[i] == s[i - 1];
        }
      }
    } else {
      var rest := InsertByStart(c, s[1..]);
      InsertDistinct(c, s[1..]);
      InsertMembers(c, s[1..]);
      var r := [s[0]] + rest;
      forall i, j | 0 <= i < j < |r| ensures r[i].text != r[j].text {
        assert r[j] == rest[j - 1] && r[j] in rest;
        if r[j] != c {
          var k :| 0 <= k < |s[1..]| && s[1..][k] == r[j];
          assert s[k + 1] == r[j];
        }
        if 0 < i {
          assert r[i] == rest[i - 1];
        }
      }
    }
  }

  /** `sorted(claims, key=...)` returns its input rearranged: the same claims, as many times each. */
  lemma SortPermutes(s: seq<Claim>)
    ensures multiset(SortByStart(s)) == multiset(s)
    ensures forall x :: x in SortByStart(s) <==> x in s
  {
    SortMultiset(s);
    forall x ensures x in SortByStart(s) <==> x in s {
      assert x in SortByStart(s) <==> x in multiset(SortByStart(s));
      assert x in s <==> x in multiset(s);
    }
  }

  lemma {:induction false} SortMultiset(s: seq<Claim>)
    ensures multiset(SortByStart(s)) == multiset(s)
    decreases |s|
  {
    if s != [] {
      var rest := SortByStart(s[1..]);
      assert multiset(rest) == multiset(s[1..]) by {
        SortMultiset(s[1..]);
      }
      assert multiset(InsertByStart(s[0], rest)) == multiset(rest) + multiset{s[0]} by {
        InsertMultiset(s[0], rest);
      }
      assert multiset(s) == multiset(s[1..]) + multiset{s[0]} by {
        assert s == [s[0]] + s[1..];
      }
    }
  }

  /** The sort orders claims by start. */
  lemma {:induction false} SortSorted(s: seq<Claim>)
    ensures SortedByStart(SortByStart(s))
    decreases |s|
  {
    if s != [] {
      SortSorted(s[1..]);
      InsertSorted(s[0], SortByStart(s[1..]));
    }
  }

  /** The sort is stable: claims with equal keys keep their input order. */
  lemma {:induction false} SortStable(s: seq<Claim>, key: int)
    ensures WithStart(SortByStart(s), key) == WithStart(s, key)
    decreases |s|
  {
    if s != [] {
      SortStable(s[1..], key);
      InsertStable(s[0], SortByStart(s[1..]), key);
    }
  }

  /** The sort keeps distinct texts distinct. */
  lemma {:induction false} SortDistinct(s: seq<Claim>)
    requires DistinctTexts(s)
    ensures DistinctTexts(SortByStart(s))
    decreases |s|
  {
    if s != [] {
      var rest := SortByStart(s[1..]);
      assert DistinctTexts(s[1..]);
      SortDistinct(s[1..]);
      SortPermutes(s[1..]);
      forall i | 0 <= i < |rest| ensures rest[i].text != s[0].text {
        assert rest[i] in s[1..];
        var j :| 0 <= j < |s[1..]| && s[1..][j] == rest[i];
        assert s[j + 1] == rest[i];
      }
      InsertDistinct(s[0], rest);
    }
  }

  // ---------------------------------------------------------------------------
  // De-duplication

  predicate OverlapsAny(c: Claim, kept: seq<Claim>) {
    exists i :: 0 <= i < |kept| && ClaimsOverlap(c, kept[i])
  }

  /** The loop of `_deduplicate_claims`: keep a claim unless it overlaps one already kept. */
  function KeepNonOverlapping(s: seq<Claim>): seq<Claim> {
    if s == [] then []
    else
      var kept := KeepNonOverlapping(s[..|s| - 1]);
      if OverlapsAny(s[|s| - 1], kept) then kept else kept + [s[|s| - 1]]
  }

  lemma KeepSnoc(s: seq<Claim>, i: nat)
    requires i < |s|
    ensures KeepNonOverlapping(s[..i + 1]) ==
      if OverlapsAny(s[i], KeepNonOverlapping(s[..i])) then KeepNonOverlapping(s[..i])
      else KeepNonOverlapping(s[..i]) + [s[i]]
  {
    assert s[..i + 1][..i] == s[..i];
  }

  /** `a` is `b` with some elements left out, the rest in order. */
  predicate IsSubsequence<T(==)>(a: seq<T>, b: seq<T>)
    decreases |b|
  {
    if a == [] then true
    else if b == [] then false
    else if a[|a| - 1] == b[|b| - 1] then IsSubsequence(a[..|a| - 1], b[..|b| - 1])
    else IsSubsequence(a, b[..|b| - 1])
  }

  lemma {:induction false} SubsequenceExtend<T>(a: seq<T>, b: seq<T>, y: T)
    requires IsSubsequence(a, b)
    ensures IsSubsequence(a, b + [y])
    decreases |b|, 1
  {
    assert (b + [y])[..|b|] == b;
    if a != [] && a[|a| - 1] == y {
      SubsequenceDropLast(a, b);
    }
  }

  lemma {:induction false} SubsequenceDropLast<T>(a: seq<T>, b: seq<T>)
    requires a != [] && IsSubsequence(a, b)
    ensures IsSubsequence(a[..|a| - 1], b)
    decreases |b|, 0
  {
    var n := |b| - 1;
    if a[|a| - 1] == b[n] {
      SubsequenceExtend(a[..|a| - 1], b[..n], b[n]);
      assert b[..n] + [b[n]] == b;
    } else {
      SubsequenceDropLast(a, b[..n]);
      SubsequenceExtend(a[..|a| - 1], b[..n], b[n]);
      assert b[..n] + [b[n]] == b;
    }
  }

  /** The kept claims are the input with some claims left out, in input order. */
  lemma {:induction false} KeepSubsequence(s: seq<Claim>)
    ensures IsSubsequence(KeepNonOverlapping(s), s)
    decreases |s|
  {
    if s != [] {
      var n := |s| - 1;
      var kept := KeepNonOverlapping(s[..n]);
      KeepSubsequence(s[..n]);
      assert s[..n] + [s[n]] == s;
      if OverlapsAny(s[n], kept) {
        SubsequenceExtend(kept, s[..n], s[n]);
      } else {
        assert (kept + [s[n]])[..|kept|] == kept;
      }
    }
  }

  lemma {:induction false} KeepMembers(s: seq<Claim>)
    ensures forall x :: x in KeepNonOverlapping(s) ==> x in s
    decreases |s|
  {
    if s != [] {
      KeepMembers(s[..|s| - 1]);
      assert forall x :: x in s[..|s| - 1] ==> x in s;
    }
  }

  lemma {:induction false} KeepSorted(s: seq<Claim>)
    requires SortedByStart(s)
    ensures SortedByStart(KeepNonOverlapping(s))
    decreases |s|
  {
    if s != [] {
      var n := |s| - 1;
      var init := s[..n];
      var kept := KeepNonOverlapping(init);
      KeepSorted(init);
      KeepMembers(init);
      if !OverlapsAny(s[n], kept) {
        forall i | 0 <= i < |kept| ensures StartKey(kept[i]) <= StartKey(s[n]) {
          assert kept[i] in kept;
          var j :| 0 <= j < |init| && init[j] == kept[i];
          assert s[j] == kept[i];
        }
      }
    }
  }

  lemma {:induction false} KeepDistinct(s: seq<Claim>)
    requires DistinctTexts(s)
    ensures DistinctTexts(KeepNonOverlapping(s))
    decreases |s|
  {
    if s != [] {
      var n := |s| - 1;
      var init := s[..n];
      var kept := KeepNonOverlapping(init);
      KeepDistinct(init);
      KeepMembers(init);
      if !OverlapsAny(s[n], kept) {
        forall i | 0 <= i < |kept| ensures kept[i].text != s[n].text {
          assert kept[i] in kept;
          var j :| 0 <= j < |init| && init[j] == kept[i];
          assert s[j] == kept[i];
        }
      }
    }
  }

  /** No kept claim overlaps another, in either argument order. */
  lemma {:induction false} KeepPairwiseDisjoint(s: seq<Claim>)
    ensures forall i, j :: 0 <= i < j < |KeepNonOverlapping(s)| ==>
      !ClaimsOverlap(KeepNonOverlapping(s)[j], KeepNonOverlapping(s)[i]) &&
      !ClaimsOverlap(KeepNonOverlapping(s)[i], KeepNonOverlapping(s)[j])
    decreases |s|
  {
    if s != [] {
      var n := |s| - 1;
      var kept := KeepNonOverlapping(s[..n]);
      KeepPairwiseDisjoint(s[..n]);
      if !OverlapsAny(s[n], kept) {
        var r := kept + [s[n]];
        forall i, j | 0 <= i < j < |r| ensures !ClaimsOverlap(r[j], r[i]) && !ClaimsOverlap(r[i], r[j]) {
          OverlapFacts(r[i], r[j]);
        }
      }
    }
  }

  /** Every input claim is kept or overlaps a kept claim: the kept set is maximal. */
  lemma {:induction false} KeepCovers(s: seq<Claim>)
    ensures forall i :: 0 <= i < |s| ==>
      s[i] in KeepNonOverlapping(s) || OverlapsAny(s[i], KeepNonOverlapping(s))
    decreases |s|
  {
    if s != [] {
      var n := |s| - 1;
      var kept := KeepNonOverlapping(s[..n]);
      KeepCovers(s[..n]);
      var r := KeepNonOverlapping(s);
      assert forall i :: 0 <= i < |kept| ==> r[i] == kept[i];
      forall i | 0 <= i < |s| ensures s[i] in r || OverlapsAny(s[i], r) {
        if i < n {
          assert s[..n][i] == s[i];
          if OverlapsAny(s[i], kept) {
            var j :| 0 <= j < |kept| && ClaimsOverlap(s[i], kept[j]);
            assert ClaimsOverlap(s[i], r[j]);
          } else {
            var j :| 0 <= j < |kept| && kept[j] == s[i];
            assert r[j] == s[i];
          }
        } else if !OverlapsAny(s[n], kept) {
          assert r[|kept|] == s[n];
        }
      }
    }
  }

  /** Nothing is kept only when there is nothing to keep: the first claim always stays. */
  lemma {:induction false} KeepEmpty(s: seq<Claim>)
    ensures KeepNonOverlapping(s) == [] <==> s == []
    decreases |s|
  {
    if s != [] {
      KeepEmpty(s[..|s| - 1]);
    }
  }

  /** `_deduplicate_claims`. */
  method DeduplicateClaims(claims: seq<Claim>) returns (result: seq<Claim>)
    ensures result == KeepNonOverlapping(SortByStart(claims))
  {
    if |claims| == 0 {
      return claims;
    }
    var sortedClaims := SortByStart(claims);
    result := [];
    for i := 0 to |sortedClaims|
      invariant result == KeepNonOverlapping(sortedClaims[..i])
    {
      var claim := sortedClaims[i];
      var isDuplicate := false;
      var j := 0;
      while j < |result|
        invariant 0 <= j <= |result|
        invariant !isDuplicate
        invariant forall k :: 0 <= k < j ==> !ClaimsOverlap(claim, result[k])
      {
        if ClaimsOverlap(claim, result[j]) {
          isDuplicate := true;
          break;
        }
        j := j + 1;
      }
      assert isDuplicate <==> OverlapsAny(claim, result);
      KeepSnoc(sortedClaims, i);
      if !isDuplicate {
        result := result + [claim];
      }
    }
    WholePrefix(sortedClaims);
  }

  /**
   * What `_deduplicate_claims` returns: a subsequence of the input sorted stably by
   * start, sorted, with no two claims overlapping, every input claim kept or
   * overlapping a kept one, and empty only for an empty input.
   */
  lemma DeduplicateFacts(claims: seq<Claim>)
    ensures IsSubsequence(KeepNonOverlapping(SortByStart(claims)), SortByStart(claims))
    ensures SortedByStart(KeepNonOverlapping(SortByStart(claims)))
    ensures forall i, j :: 0 <= i < j < |KeepNonOverlapping(SortByStart(claims))| ==>
      !ClaimsOverlap(KeepNonOverlapping(SortByStart(claims))[i], KeepNonOverlapping(SortByStart(claims))[j])
    ensures forall c :: c in claims ==>
      c in KeepNonOverlapping(SortByStart(claims)) || OverlapsAny(c, KeepNonOverlapping(SortByStart(claims)))
    ensures forall c :: c in KeepNonOverlapping(SortByStart(claims)) ==> c in claims
    ensures KeepNonOverlapping(SortByStart(claims)) == [] <==> claims == []
  {
    var sorted := SortByStart(claims);
    SortPermutes(claims);
    SortSorted(claims);
    KeepSubsequence(sorted);
    KeepSorted(sorted);
    KeepPairwiseDisjoint(sorted);
    KeepMembers(sorted);
    KeepEmpty(sorted);
    KeepCovers(sorted);
    forall c | c in claims ensures c in KeepNonOverlapping(sorted) || OverlapsAny(c, KeepNonOverlapping(sorted)) {
      assert c in sorted;
    }
    assert sorted == [] <==> claims == [];
  }

  // ---------------------------------------------------------------------------
  // extract

  /** The claims `extract` returns for the given regex hits. */
  function ExtractedClaims(text: string, hits: seq<seq<seq<Hit>>>, newId: nat -> string): seq<Claim>
    requires ValidHits(text, hits)
  {
    MatchesOfFacts(text, hits);
    KeepNonOverlapping(SortByStart(ClaimsOf(text, MatchesOf(hits), newId)))
  }

  /** `PatternExtractor.extract`. */
  method Extract(text: string, hits: seq<seq<seq<Hit>>>, newId: nat -> string) returns (claims: seq<Claim>)
    requires ValidHits(text, hits)
    ensures claims == ExtractedClaims(text, hits, newId)
  {
    var matches := CollectMatches(hits);
    MatchesOfFacts(text, hits);
    claims := MatchesToClaims(text, matches, newId);
    claims := DeduplicateClaims(claims);
  }

  /**
   * The claims `extract` returns have pairwise distinct texts, each is a
   * stripped sentence window of the text of acceptable length with confidence
   * 0.6 (so in [0, 1]) whose offset is the window around one of the matches,
   * they are sorted by start and no two overlap.
   */
  lemma ExtractFacts(text: string, hits: seq<seq<seq<Hit>>>, newId: nat -> string)
    requires ValidHits(text, hits)
    ensures DistinctTexts(ExtractedClaims(text, hits, newId))
    ensures forall i :: 0 <= i < |ExtractedClaims(text, hits, newId)| ==>
      WellFormed(text, ExtractedClaims(text, hits, newId)[i]) && ValidConfidence(ExtractedClaims(text, hits, newId)[i])
    ensures SortedByStart(ExtractedClaims(text, hits, newId))
    ensures forall i, j :: 0 <= i < j < |ExtractedClaims(text, hits, newId)| ==>
      !ClaimsOverlap(ExtractedClaims(text, hits, newId)[i], ExtractedClaims(text, hits, newId)[j])
    ensures forall i :: 0 <= i < |ExtractedClaims(text, hits, newId)| ==>
      FromSomeMatch(text, ExtractedClaims(text, hits, newId)[i], MatchesOf(hits))
  {
    MatchesOfFacts(text, hits);
    var ms := MatchesOf(hits);
    var cs := ClaimsOf(text, ms, newId);
    var sorted := SortByStart(cs);
    var out := KeepNonOverlapping(sorted);
    assert out == ExtractedClaims(text, hits, newId);
    ClaimTextsDistinct(Candidates(text, ms), newId);
    SortDistinct(cs);
    KeepDistinct(sorted);
    ClaimsOfShape(text, ms, newId);
    DeduplicateFacts(cs);
    forall i | 0 <= i < |out| ensures WellFormed(text, out[i]) && ValidConfidence(out[i]) {
      assert out[i] in cs;
      var k :| 0 <= k < |cs| && cs[k] == out[i];
    }
    ExtractOrigins(text, hits, newId);
  }

  /** Each claim `extract` returns was built from one of the pattern matches. */
  lemma ExtractOrigins(text: string, hits: seq<seq<seq<Hit>>>, newId: nat -> string)
    requires ValidHits(text, hits)
    ensures forall i :: 0 <= i < |ExtractedClaims(text, hits, newId)| ==>
      FromSomeMatch(text, ExtractedClaims(text, hits, newId)[i], MatchesOf(hits))
  {
    MatchesOfFacts(text, hits);
    var ms := MatchesOf(hits);
    var cs := ClaimsOf(text, ms, newId);
    var out := KeepNonOverlapping(SortByStart(cs));
    assert out == ExtractedClaims(text, hits, newId);
    ClaimsOfShape(text, ms, newId);
    KeepMembers(SortByStart(cs));
    SortPermutes(cs);
    forall i | 0 <= i < |out| ensures FromSomeMatch(text, out[i], ms) {
      assert out[i] in cs;
      var k :| 0 <= k < |cs| && cs[k] == out[i];
    }
  }
}
