/**
 * The verification cache: a table from normalised claim texts to verification
 * results. The key is the normalised text itself; expiry and size-based eviction
 * are not modelled.
 */
module Cache {
  import opened Optional
  import opened Strings
  import opened Models

  /** `_make_key`: the claim text stripped of surrounding whitespace and lower-cased; never longer than the text. */
  function MakeKey(claimText: string): (key: string)
    ensures |key| <= |claimText|
  {
    Lower(Strip(claimText))
  }

  /** The key only depends on the case-folded text: both normalisations commute. */
  lemma MakeKeyFolds(claimText: string)
    ensures MakeKey(claimText) == Strip(Lower(claimText))
  {
    StripLower(claimText);
  }

  /** Texts that differ only in letter case share a key. */
  lemma MakeKeyIgnoresCase(t1: string, t2: string)
    requires Lower(t1) == Lower(t2)
    ensures MakeKey(t1) == MakeKey(t2)
  {
    MakeKeyFolds(t1);
    MakeKeyFolds(t2);
  }

  /** Texts that differ only in surrounding whitespace share a key. */
  lemma MakeKeyIgnoresPadding(pre: string, claimText: string, post: string)
    requires AllSpace(pre) && AllSpace(post)
    ensures MakeKey(pre + claimText + post) == MakeKey(claimText)
  {
    StripPadded(pre, claimText, post);
  }

  /** A key is its own key. */
  lemma MakeKeyIdempotent(claimText: string)
    ensures MakeKey(MakeKey(claimText)) == MakeKey(claimText)
  {
    var s := Strip(claimText);
    StripLower(s);
    StripIdempotent(claimText);
    LowerIdempotent(s);
  }

  /** What `get` returns from a table. */
  function Lookup(entries: map<string, VerificationResult>, claimText: string): (r: Option<VerificationResult>)
    ensures r.Some? <==> MakeKey(claimText) in entries
    ensures r.Some? ==> r.value == entries[MakeKey(claimText)]
  {
    var key := MakeKey(claimText);
    if key in entries then Some(entries[key]) else None
  }

  /** The table after `set`. */
  function Store(entries: map<string, VerificationResult>, claimText: string, result: VerificationResult)
    : map<string, VerificationResult>
  {
    entries[MakeKey(claimText) := result]
  }

  /** After `set(t, r)`, `get` on any text with the same key returns `r`; other keys are unchanged. */
  lemma StoreThenLookup(entries: map<string, VerificationResult>, t: string, r: VerificationResult, t': string)
    ensures MakeKey(t') == MakeKey(t) ==> Lookup(Store(entries, t, r), t') == Some(r)
    ensures MakeKey(t') != MakeKey(t) ==> Lookup(Store(entries, t, r), t') == Lookup(entries, t')
  {
  }

  /** A second `set` under the same key overwrites the first. */
  lemma StoreOverwrites(entries: map<string, VerificationResult>, t1: string, r1: VerificationResult,
                        t2: string, r2: VerificationResult)
    requires MakeKey(t1) == MakeKey(t2)
    ensures Store(Store(entries, t1, r1), t2, r2) == Store(entries, t2, r2)
  {
  }

  /** `set` adds at most one entry, and none when the key is present. */
  lemma StoreSize(entries: map<string, VerificationResult>, t: string, r: VerificationResult)
    ensures MakeKey(t) in entries ==> |Store(entries, t, r)| == |entries|
    ensures MakeKey(t) !in entries ==> |Store(entries, t, r)| == |entries| + 1
  {
    var key := MakeKey(t);
    var m := Store(entries, t, r);
    if key in entries {
      assert m.Keys == entries.Keys;
    } else {
      assert m.Keys == entries.Keys + {key};
    }
  }

  /** `VerificationCache`. */
  class VerificationCache {
    var entries: map<string, VerificationResult>

    constructor ()
      ensures entries == map[]
    {
      entries := map[];
    }

    /** `get`: the stored result under the text's key, or None when the key is absent. */
    method Get(claimText: string) returns (r: Option<VerificationResult>)
      ensures r == Lookup(entries, claimText)
      ensures r.None? <==> MakeKey(claimText) !in entries
    {
      var key := MakeKey(claimText);
      if key in entries {
        r := Some(entries[key]);
      } else {
        r := None;
      }
    }

    /** `set`: store under the text's key, replacing any earlier value. */
    method Set(claimText: string, result: VerificationResult)
      modifies this
      ensures entries == Store(old(entries), claimText, result)
    {
      var key := MakeKey(claimText);
      entries := entries[key := result];
    }

    /** `clear`: drop every entry. */
    method Clear()
      modifies this
      ensures entries == map[]
      ensures |entries| == 0
    {
      entries := map[];
    }

    /** `__len__`: the number of stored keys. */
    method Len() returns (n: nat)
      ensures n == |entries|
    {
      n := |entries|;
    }
  }
}
