/**
 * The rest of `search_legal_context` of core/langchain_rag.py: the per-source reliability
 * weights, the final sort / threshold / cut, the five-minute result cache around the whole
 * search, `clear_cache`, and `search_store_policies` on top of it.
 *
 * The two retrievers and the clock are inputs: `Backends` holds the FAISS semantic search and
 * the SQLite keyword search as functions, and every cached call is given the time it starts at
 * (`now`) and the time it stores its result at (`finishedAt`).
 */
module HybridSearch {
  import opened PyText
  import opened Wrappers
  import opened Records
  import opened Ranking
  import opened QueryExpansion
  import opened HybridRanker

  /** `SOURCE_WEIGHTS`. */
  const SourceWeights: map<string, real> := map["law" := 1.0, "precedent" := 0.9, "store_policy" := 0.8]

  /** `SOURCE_WEIGHTS.get(metadata.get("source_type", "unknown"), 0.5)`. */
  function SourceWeight(metadata: Metadata): real {
    match Get(metadata, "source_type", Str("unknown"))
    case Str(t) => if t in SourceWeights then SourceWeights[t] else 0.5
    case Int(_) => 0.5
  }

  /** Statutes weigh 1.0, case law 0.9, store policies 0.8, and every other source (or none) 0.5. */
  lemma SourceWeightTable(metadata: Metadata)
    ensures var w := SourceWeight(metadata);
      var t := Get(metadata, "source_type", Str("unknown"));
      && (t == Str("law") ==> w == 1.0)
      && (t == Str("precedent") ==> w == 0.9)
      && (t == Str("store_policy") ==> w == 0.8)
      && (t != Str("law") && t != Str("precedent") && t != Str("store_policy") ==> w == 0.5)
      && 0.5 <= w <= 1.0
  {
  }

  /** `base_score * weight` for a result with this metadata. */
  function WeightedScore(base: real, metadata: Metadata): real {
    base * SourceWeight(metadata)
  }

  /** The result with `weighted_score` written: its base score times its source's weight. */
  function Weighted(r: SearchHit): SearchHit {
    r.(weightedScore := Some(WeightedScore(BaseScore(r), r.metadata)))
  }

  function WeightAll(rs: seq<SearchHit>): seq<SearchHit> {
    seq(|rs|, i requires 0 <= i < |rs| => Weighted(rs[i]))
  }

  /** The loop `for result in results: result["weighted_score"] = ...`. */
  method ApplyWeights(rs: seq<SearchHit>) returns (out: seq<SearchHit>)
    ensures out == WeightAll(rs)
  {
    out := rs;
    for i := 0 to |rs|
      invariant |out| == |rs|
      invariant forall j | 0 <= j < i :: out[j] == Weighted(rs[j])
      invariant forall j | i <= j < |rs| :: out[j] == rs[j]
    {
      out := out[i := Weighted(out[i])];
    }
  }

  /**
   * Weighting writes `weighted_score` and nothing else; the weighted score is the base score
   * times the source weight, so a non-negative base score is scaled down to between half of
   * itself and itself.
   */
  lemma WeightingScales(rs: seq<SearchHit>)
    ensures |WeightAll(rs)| == |rs|
    ensures forall i | 0 <= i < |rs| ::
      && WeightAll(rs)[i].(weightedScore := rs[i].weightedScore) == rs[i]
      && WeightAll(rs)[i].weightedScore == Some(BaseScore(rs[i]) * SourceWeight(rs[i].metadata))
      && (BaseScore(rs[i]) >= 0.0 ==>
            BaseScore(rs[i]) * 0.5 <= WeightAll(rs)[i].weightedScore.value <= BaseScore(rs[i]))
  {
    forall i | 0 <= i < |rs|
      ensures BaseScore(rs[i]) >= 0.0 ==>
        BaseScore(rs[i]) * 0.5 <= WeightAll(rs)[i].weightedScore.value <= BaseScore(rs[i])
    {
      var b := BaseScore(rs[i]);
      var w := SourceWeight(rs[i].metadata);
      SourceWeightTable(rs[i].metadata);
      if b >= 0.0 {
        assert b * 0.5 <= b * w by {
          assert b * (w - 0.5) >= 0.0;
        }
        assert b * w <= b by {
          assert b * (1.0 - w) >= 0.0;
        }
      }
    }
  }

  /** The final sort key `x.get("weighted_score", x.get("score", 0))`. */
  function SortKey(r: SearchHit): real {
    if r.weightedScore.Some? then r.weightedScore.value else r.score
  }

  /** The filter `r.get("score", 0) >= score_threshold`, on the retriever's own score. */
  function AtLeast(threshold: real): SearchHit -> bool {
    (r: SearchHit) => r.score >= threshold
  }

  /** `results.sort(key=..., reverse=True)`, then `[r for r in results if ...][:top_k]`. */
  function FinalRanking(rs: seq<SearchHit>, topK: int, threshold: real): seq<SearchHit> {
    Prefix(Filter(SortDesc(rs, SortKey), AtLeast(threshold)), topK)
  }

  /**
   * At most `top_k` results, in order of non-increasing weighted score, each one of the inputs,
   * and each with its retriever score at or above the threshold.
   */
  lemma FinalRanked(rs: seq<SearchHit>, topK: int, threshold: real)
    ensures var r := FinalRanking(rs, topK, threshold);
      && (topK >= 0 ==> |r| <= topK)
      && NonIncreasing(r, SortKey)
      && (forall h | h in r :: h in rs && h.score >= threshold)
  {
    var s := SortDesc(rs, SortKey);
    var f := Filter(s, AtLeast(threshold));
    FilterKeepsOrder(s, AtLeast(threshold), SortKey);
    PrefixOrdered(f, SortKey, topK);
    SortDescMembers(rs, SortKey);
  }

  /** A result that passes the threshold but is left out means `top_k` results with a weighted score at least as high were kept. */
  lemma FinalKeepsBest(rs: seq<SearchHit>, topK: nat, threshold: real, x: SearchHit)
    requires x in rs && x.score >= threshold && x !in FinalRanking(rs, topK, threshold)
    ensures |FinalRanking(rs, topK, threshold)| == topK
    ensures forall h | h in FinalRanking(rs, topK, threshold) :: SortKey(h) >= SortKey(x)
  {
    var s := SortDesc(rs, SortKey);
    var f := Filter(s, AtLeast(threshold));
    assert x in multiset(s);
    assert AtLeast(threshold)(x);
    FilterKeepsOrder(s, AtLeast(threshold), SortKey);
    PrefixKeepsBest(f, SortKey, topK, x);
  }

  /** The arguments of one `search_legal_context` call. */
  datatype Request = Request(
    query: string, topK: int, threshold: real, collections: Option<seq<string>>,
    useHybrid: bool, useExpansion: bool, useCache: bool)

  /** `_semantic_search(query, top_k, collections)` and `_keyword_search(query, top_k)`. */
  datatype Backends = Backends(
    semantic: (string, int, Option<seq<string>>) -> seq<SearchHit>,
    keyword: (string, int) -> seq<SearchHit>)

  /**
   * The uncached search: the semantic search gets the expanded query and `2 * top_k`; in hybrid
   * mode the keyword search gets the original query and `top_k` and the two lists are fused;
   * then the weights, the final sort, the threshold and the cut.
   */
  function Pipeline(req: Request, b: Backends): seq<SearchHit> {
    var searchQuery := if req.useExpansion then ExpandQuery(req.query) else req.query;
    var sem := b.semantic(searchQuery, req.topK * 2, req.collections);
    var fused := if req.useHybrid then HybridList(sem, b.keyword(req.query, req.topK), req.topK) else sem;
    FinalRanking(WeightAll(fused), req.topK, req.threshold)
  }

  /** The semantic list the pipeline fuses or ranks. */
  function SemanticList(req: Request, b: Backends): seq<SearchHit> {
    b.semantic(if req.useExpansion then ExpandQuery(req.query) else req.query, req.topK * 2, req.collections)
  }

  /**
   * The uncached search returns at most `top_k` results in order of non-increasing weighted score,
   * all at or above the threshold and all weighted.
   */
  lemma PipelineRanked(req: Request, b: Backends)
    ensures var r := Pipeline(req, b);
      && (req.topK >= 0 ==> |r| <= req.topK)
      && NonIncreasing(r, SortKey)
      && (forall h | h in r :: h.score >= req.threshold && h.weightedScore.Some?)
  {
    var sem := SemanticList(req, b);
    var fused := if req.useHybrid then HybridList(sem, b.keyword(req.query, req.topK), req.topK) else sem;
    assert Pipeline(req, b) == FinalRanking(WeightAll(fused), req.topK, req.threshold);
    WeightedRanked(fused, req.topK, req.threshold);
  }

  /** Ranking weighted results keeps the guarantees of the final ranking, and every result is weighted. */
  lemma WeightedRanked(fused: seq<SearchHit>, topK: int, threshold: real)
    ensures var r := FinalRanking(WeightAll(fused), topK, threshold);
      && (topK >= 0 ==> |r| <= topK)
      && NonIncreasing(r, SortKey)
      && (forall h | h in r :: h.score >= threshold && h.weightedScore.Some?)
  {
    var weighted := WeightAll(fused);
    FinalRanked(weighted, topK, threshold);
    forall h | h in weighted ensures h.weightedScore.Some? {
      var i :| 0 <= i < |weighted| && weighted[i] == h;
    }
  }

  /**
   * In hybrid mode each result is the record kept for a fingerprint the two lists produced, with
   * its fused score as `hybrid_score` and that score times its source weight as `weighted_score`.
   */
  lemma PipelineHybridScores(req: Request, b: Backends)
    requires req.useHybrid
    ensures var sem := SemanticList(req, b);
      var kw := b.keyword(req.query, req.topK);
      forall h | h in Pipeline(req, b) :: WeightedFusion(sem, kw, h)
  {
    var sem := SemanticList(req, b);
    var kw := b.keyword(req.query, req.topK);
    var weighted := WeightAll(HybridList(sem, kw, req.topK));
    assert Pipeline(req, b) == FinalRanking(weighted, req.topK, req.threshold);
    FinalRanked(weighted, req.topK, req.threshold);
    WeightedHybridList(sem, kw, req.topK);
  }

  /** `h` is the record kept for a seen fingerprint, with its fused score and that score times its source weight written in. */
  ghost predicate WeightedFusion(sem: seq<SearchHit>, kw: seq<SearchHit>, h: SearchHit) {
    && Seen(sem, kw, Fingerprint(h))
    && h.hybridScore == Some(FusedScore(sem, kw, Fingerprint(h)))
    && h.weightedScore == Some(WeightedScore(FusedScore(sem, kw, Fingerprint(h)), h.metadata))
  }

  lemma WeightedHybridList(sem: seq<SearchHit>, kw: seq<SearchHit>, topK: int)
    ensures forall h | h in WeightAll(HybridList(sem, kw, topK)) :: WeightedFusion(sem, kw, h)
  {
    var top := HybridKeys(sem, kw, topK);
    var fused := HybridList(sem, kw, topK);
    var weighted := WeightAll(fused);
    HybridFingerprints(sem, kw, topK);
    forall h | h in weighted ensures WeightedFusion(sem, kw, h) {
      var i :| 0 <= i < |weighted| && weighted[i] == h;
      var fp := top[i];
      assert fp in top;
      assert fused[i] == HybridEntry(sem, kw, fp);
      assert Fingerprint(h) == Fingerprint(fused[i]) == fp;
      assert BaseScore(fused[i]) == FusedScore(sem, kw, fp);
      assert h.metadata == fused[i].metadata;
    }
  }

  /** The search itself: expansion, the hybrid branch or the semantic list alone, the weights, and the final ranking. */
  method RunPipeline(req: Request, b: Backends) returns (results: seq<SearchHit>)
    ensures results == Pipeline(req, b)
  {
    var searchQuery := req.query;
    if req.useExpansion {
      searchQuery := ExpandQuery(req.query);
    }
    var fused: seq<SearchHit>;
    if req.useHybrid {
      var sem := b.semantic(searchQuery, req.topK * 2, req.collections);
      var kw := b.keyword(req.query, req.topK);
      fused := HybridResults(sem, kw, req.topK);
    } else {
      fused := b.semantic(searchQuery, req.topK * 2, req.collections);
    }
    var weighted := ApplyWeights(fused);
    results := FinalRanking(weighted, req.topK, req.threshold);
  }

  /**
   * The cache key `md5(f"{query}:{top_k}:{collections}")`, modelled by the triple itself: the
   * threshold and the three flags are not part of it.
   */
  datatype CacheKey = CacheKey(query: string, topK: int, collections: Option<seq<string>>)

  function KeyOf(req: Request): CacheKey {
    CacheKey(req.query, req.topK, req.collections)
  }

  /** A cache entry `(time.time(), results)`. */
  datatype CacheEntry = CacheEntry(time: real, results: seq<SearchHit>)

  /** `CACHE_TTL`, in seconds. */
  const CacheTtl: real := 300.0

  /** An entry under `key` younger than the time to live. */
  predicate Fresh(entries: map<CacheKey, CacheEntry>, key: CacheKey, now: real) {
    key in entries && now - entries[key].time < CacheTtl
  }

  /** What a cached search returns and the cache it leaves. */
  datatype Outcome = Outcome(results: seq<SearchHit>, entries: map<CacheKey, CacheEntry>)

  /** `search_legal_context` with its cache. */
  function CachedSearch(entries: map<CacheKey, CacheEntry>, req: Request, b: Backends, now: real, finishedAt: real): Outcome {
    var key := KeyOf(req);
    if req.useCache && Fresh(entries, key, now) then Outcome(entries[key].results, entries)
    else
      var results := Pipeline(req, b);
      Outcome(results, if req.useCache then entries[key := CacheEntry(finishedAt, results)] else entries)
  }

  /**
   * With the cache on, a fresh entry is returned as stored and the cache is left alone, whatever
   * the threshold, the hybrid and expansion flags and the retrievers: two such calls with the same
   * query, `top_k` and collections get the same list.
   */
  lemma FreshHitIgnoresSettings(entries: map<CacheKey, CacheEntry>, r1: Request, r2: Request,
                                b1: Backends, b2: Backends, now: real, t1: real, t2: real)
    requires r1.useCache && r2.useCache && KeyOf(r1) == KeyOf(r2) && Fresh(entries, KeyOf(r1), now)
    ensures CachedSearch(entries, r1, b1, now, t1).results == entries[KeyOf(r1)].results
    ensures CachedSearch(entries, r1, b1, now, t1) == CachedSearch(entries, r2, b2, now, t2)
  {
  }

  /**
   * Without a fresh entry (or with the cache off) the search runs; with the cache on its result
   * is stored under the key with the finishing time. No other key changes.
   */
  lemma MissRecomputes(entries: map<CacheKey, CacheEntry>, req: Request, b: Backends, now: real, finishedAt: real)
    requires !req.useCache || !Fresh(entries, KeyOf(req), now)
    ensures CachedSearch(entries, req, b, now, finishedAt).results == Pipeline(req, b)
    ensures req.useCache ==>
      CachedSearch(entries, req, b, now, finishedAt).entries[KeyOf(req)] == CacheEntry(finishedAt, Pipeline(req, b))
    ensures forall k | k != KeyOf(req) ::
      (k in CachedSearch(entries, req, b, now, finishedAt).entries <==> k in entries)
      && (k in entries ==> CachedSearch(entries, req, b, now, finishedAt).entries[k] == entries[k])
    ensures !req.useCache ==> CachedSearch(entries, req, b, now, finishedAt).entries == entries
  {
  }

  /**
   * With the cache on, the list returned is the list stored under the key afterwards, so a
   * repeat of the call before that entry grows stale returns it again, recomputing nothing.
   */
  lemma RepeatWithinTtl(entries: map<CacheKey, CacheEntry>, req: Request, again: Request, b: Backends, b2: Backends,
                        now: real, finishedAt: real, later: real, finishedLater: real)
    requires req.useCache && again.useCache && KeyOf(again) == KeyOf(req)
    requires later - CachedSearch(entries, req, b, now, finishedAt).entries[KeyOf(req)].time < CacheTtl
    ensures var first := CachedSearch(entries, req, b, now, finishedAt);
      CachedSearch(first.entries, again, b2, later, finishedLater) == Outcome(first.results, first.entries)
  {
  }

  /** `COLLECTION_POLICIES`. */
  const PolicyCollection: string := "store_policies"

  /** `if store_filter:`: a filter is applied only when one is given and it is not empty. */
  predicate FilterOn(storeFilter: Option<string>) {
    storeFilter.Some? && storeFilter.value != ""
  }

  /**
   * The call `search_by_collection(query, COLLECTION_POLICIES, top_k * 2 if store_filter else top_k, 0.2)`
   * makes, with the defaults of `search_legal_context` for the flags.
   */
  function PolicyRequest(query: string, topK: int, storeFilter: Option<string>): Request {
    Request(query, if FilterOn(storeFilter) then topK * 2 else topK, 0.2, Some([PolicyCollection]), true, true, true)
  }

  /** `r["metadata"].get("store", "").lower() == store_filter` for a string store name. */
  function StoreIs(filter: string): SearchHit -> bool {
    (h: SearchHit) => match Get(h.metadata, "store", Str("")) {
      case Str(s) => LowerAscii(s) == filter
      case Int(_) => false
    }
  }

  /** A result whose `store` is not a string: `.lower()` on it raises `AttributeError`. */
  predicate StoreNotText(h: SearchHit) {
    Get(h.metadata, "store", Str("")).Int?
  }

  /** The store filter and the cut to `top_k`; the comprehension raises on the first store name that is not a string. */
  function FilterByStore(results: seq<SearchHit>, filter: string, topK: int): Result<seq<SearchHit>, string> {
    if exists h | h in results :: StoreNotText(h) then Failure("AttributeError: 'int' object has no attribute 'lower'")
    else Success(Prefix(Filter(results, StoreIs(LowerAscii(filter))), topK))
  }

  /** `search_store_policies` with its cache: the outcome and the cache it leaves. */
  function StorePolicies(entries: map<CacheKey, CacheEntry>, query: string, topK: int, storeFilter: Option<string>,
                         b: Backends, now: real, finishedAt: real): (Result<seq<SearchHit>, string>, map<CacheKey, CacheEntry>)
  {
    var o := CachedSearch(entries, PolicyRequest(query, topK, storeFilter), b, now, finishedAt);
    (if FilterOn(storeFilter) then FilterByStore(o.results, storeFilter.value, topK) else Success(Prefix(o.results, topK)), o.entries)
  }

  /**
   * `search_store_policies` fails exactly when a filter is given and a result names its store by
   * something other than a string; otherwise it returns at most `top_k` of the searched results,
   * in their order, each from the filtered store (compared in lower case) when a filter is on,
   * and a result from that store is left out only when `top_k` results were returned.
   */
  lemma StorePoliciesFiltered(entries: map<CacheKey, CacheEntry>, query: string, topK: int, storeFilter: Option<string>,
                              b: Backends, now: real, finishedAt: real)
    ensures var searched := CachedSearch(entries, PolicyRequest(query, topK, storeFilter), b, now, finishedAt).results;
      var r := StorePolicies(entries, query, topK, storeFilter, b, now, finishedAt).0;
      && (r.Failure? <==> FilterOn(storeFilter) && exists h | h in searched :: StoreNotText(h))
      && (r.Success? ==>
            && (topK >= 0 ==> |r.value| <= topK)
            && (forall h | h in r.value :: h in searched)
            && (FilterOn(storeFilter) ==> forall h | h in r.value ::
                  Get(h.metadata, "store", Str("")).Str?
                  && LowerAscii(Get(h.metadata, "store", Str("")).s) == LowerAscii(storeFilter.value))
            && (FilterOn(storeFilter) ==>
                  r.value == Prefix(Filter(searched, StoreIs(LowerAscii(storeFilter.value))), topK))
            && (FilterOn(storeFilter) && topK >= 0 ==> forall h | h in searched && StoreIs(LowerAscii(storeFilter.value))(h) ::
                  h in r.value || |r.value| == topK))
    ensures !FilterOn(storeFilter) ==>
      StorePolicies(entries, query, topK, storeFilter, b, now, finishedAt).0
        == Success(Prefix(CachedSearch(entries, PolicyRequest(query, topK, storeFilter), b, now, finishedAt).results, topK))
  {
    var searched := CachedSearch(entries, PolicyRequest(query, topK, storeFilter), b, now, finishedAt).results;
    if FilterOn(storeFilter) {
      var keep := StoreIs(LowerAscii(storeFilter.value));
      var p := Prefix(Filter(searched, keep), topK);
      forall h | h in p ensures h in searched && keep(h) {
        assert h in Filter(searched, keep);
      }
    }
  }

  /** The module-level `_search_cache`, with the searches that read and fill it. */
  class SearchCache {
    var entries: map<CacheKey, CacheEntry>

    constructor ()
      ensures entries == map[]
    {
      entries := map[];
    }

    /** `search_legal_context`. */
    method SearchLegalContext(req: Request, b: Backends, now: real, finishedAt: real) returns (results: seq<SearchHit>)
      modifies this
      ensures Outcome(results, entries) == CachedSearch(old(entries), req, b, now, finishedAt)
    {
      var key := KeyOf(req);
      if req.useCache && key in entries && now - entries[key].time < CacheTtl {
        return entries[key].results;
      }
      results := RunPipeline(req, b);
      if req.useCache {
        entries := entries[key := CacheEntry(finishedAt, results)];
      }
    }

    /** `search_store_policies`. */
    method SearchStorePolicies(query: string, topK: int, storeFilter: Option<string>, b: Backends, now: real, finishedAt: real)
      returns (r: Result<seq<SearchHit>, string>)
      modifies this
      ensures (r, entries) == StorePolicies(old(entries), query, topK, storeFilter, b, now, finishedAt)
    {
      var results := SearchLegalContext(PolicyRequest(query, topK, storeFilter), b, now, finishedAt);
      if FilterOn(storeFilter) {
        r := FilterByStore(results, storeFilter.value, topK);
      } else {
        r := Success(Prefix(results, topK));
      }
    }

    /** `clear_cache`: every entry is dropped, so the next search of any key runs afresh. */
    method ClearCache()
      modifies this
      ensures entries == map[]
      ensures forall key, now: real :: !Fresh(entries, key, now)
    {
      entries := map[];
    }
  }
}
