/**
 * The hybrid search of core/langchain_rag.py (`search_legal_context`, `search_store_policies`,
 * `clear_cache`): reciprocal-rank fusion of a semantic and a keyword result list, per-source
 * reliability weights, the final sort / threshold / cut, and the five-minute result cache.
 *
 * The FAISS semantic search and the SQLite keyword search are parameters; the MD5 fingerprint
 * `md5(text[:100])` is modelled by `text[:100]` itself, an injective stand-in for the digest.
 */
module HybridRanker {
  import opened PyText
  import opened Wrappers
  import opened Records
  import opened Ranking
  import opened QueryExpansion

  /**
   * A result dict: `text`, `metadata`, the retriever's `score`, and the `hybrid_score` and
   * `weighted_score` the ranker writes into it (absent until written).
   */
  datatype SearchHit = SearchHit(text: string, metadata: Metadata, score: real, hybridScore: Option<real>, weightedScore: Option<real>)

  /** The document key `md5(result["text"][:100])`, modelled by the 100-character prefix. */
  function Fingerprint(r: SearchHit): string {
    Prefix(r.text, 100)
  }

  /** The share `weight / (60 + rank)` a list gives the result at `rank`. */
  function RankShare(weight: real, rank: nat): real {
    weight / (60 + rank) as real
  }

  /** Sum of the shares of the first `n` results of `list` whose fingerprint is `fp`. */
  function RrfSum(list: seq<SearchHit>, fp: string, weight: real, n: nat): real
    requires n <= |list|
  {
    if n == 0 then 0.0
    else RrfSum(list, fp, weight, n - 1) + (if Fingerprint(list[n - 1]) == fp then RankShare(weight, n - 1) else 0.0)
  }

  /** The last rank below `n` holding `fp`, or -1. */
  function LastRank(list: seq<SearchHit>, fp: string, n: nat): (r: int)
    requires n <= |list|
    ensures -1 <= r < n
    ensures r >= 0 ==> Fingerprint(list[r]) == fp
  {
    if n == 0 then -1
    else if Fingerprint(list[n - 1]) == fp then n - 1
    else LastRank(list, fp, n - 1)
  }

  /** The first rank below `n` holding `fp`, or -1. */
  function FirstRank(list: seq<SearchHit>, fp: string, n: nat): (r: int)
    requires n <= |list|
    ensures -1 <= r < n
    ensures r >= 0 ==> Fingerprint(list[r]) == fp
  {
    if n == 0 then -1
    else
      var f := FirstRank(list, fp, n - 1);
      if f >= 0 then f
      else if Fingerprint(list[n - 1]) == fp then n - 1
      else -1
  }

  /** The fingerprints of the first `m` results of `all`, each once, in order of first appearance: the key order of `combined_scores`. */
  function KeyOrder(all: seq<SearchHit>, m: nat): seq<string>
    requires m <= |all|
  {
    if m == 0 then []
    else
      var o := KeyOrder(all, m - 1);
      var fp := Fingerprint(all[m - 1]);
      if fp in o then o else o + [fp]
  }

  /** `fp` occurs in the semantic or the keyword list. */
  predicate Seen(sem: seq<SearchHit>, kw: seq<SearchHit>, fp: string) {
    LastRank(sem, fp, |sem|) >= 0 || FirstRank(kw, fp, |kw|) >= 0
  }

  /** The fused score of a fingerprint: the semantic shares at weight 0.7 plus the keyword shares at weight 0.3. */
  function FusedScore(sem: seq<SearchHit>, kw: seq<SearchHit>, fp: string): real {
    RrfSum(sem, fp, 0.7, |sem|) + RrfSum(kw, fp, 0.3, |kw|)
  }

  function ScoreOf(sem: seq<SearchHit>, kw: seq<SearchHit>): string -> real {
    fp => FusedScore(sem, kw, fp)
  }

  /** The record kept for a fingerprint: its last semantic occurrence, else its first keyword occurrence. */
  function Record(sem: seq<SearchHit>, kw: seq<SearchHit>, fp: string): SearchHit
    requires Seen(sem, kw, fp)
  {
    if LastRank(sem, fp, |sem|) >= 0 then sem[LastRank(sem, fp, |sem|)] else kw[FirstRank(kw, fp, |kw|)]
  }

  /** What the two RRF loops leave behind: `combined_scores`, `result_data` and the key order of the former. */
  datatype Fusion = Fusion(scores: map<string, real>, data: map<string, SearchHit>, order: seq<string>)

  /** The keys of `combined_scores` after the first `rank` semantic results. */
  ghost predicate SemanticKeys(sem: seq<SearchHit>, rank: nat, scores: map<string, real>)
    requires rank <= |sem|
  {
    forall fp :: fp in scores <==> LastRank(sem, fp, rank) >= 0
  }

  /** The running sums of the semantic shares. */
  ghost predicate SemanticSums(sem: seq<SearchHit>, rank: nat, scores: map<string, real>)
    requires rank <= |sem|
  {
    forall fp :: (if fp in scores then scores[fp] else 0.0) == RrfSum(sem, fp, 0.7, rank)
  }

  /** The records: the last semantic occurrence so far. */
  ghost predicate SemanticRecords(sem: seq<SearchHit>, rank: nat, data: map<string, SearchHit>)
    requires rank <= |sem|
  {
    forall fp | fp in data :: LastRank(sem, fp, rank) >= 0 && data[fp] == sem[LastRank(sem, fp, rank)]
  }

  /** The state of the semantic loop after the first `rank` results. */
  ghost predicate SemanticAfter(sem: seq<SearchHit>, rank: nat, f: Fusion)
    requires rank <= |sem|
  {
    && SemanticKeys(sem, rank, f.scores)
    && SemanticSums(sem, rank, f.scores)
    && f.data.Keys == f.scores.Keys
    && SemanticRecords(sem, rank, f.data)
    && (forall fp :: fp in f.order <==> fp in f.scores)
    && f.order == KeyOrder(sem, rank)
  }

  /** One turn of `for rank, result in enumerate(semantic_results)`. */
  function AddSemantic(f: Fusion, r: SearchHit, rank: nat): Fusion {
    var key := Fingerprint(r);
    Fusion(
      f.scores[key := (if key in f.scores then f.scores[key] else 0.0) + RankShare(0.7, rank)],
      f.data[key := r],
      if key in f.scores then f.order else f.order + [key])
  }

  lemma SemanticKeysStep(sem: seq<SearchHit>, rank: nat, scores: map<string, real>, share: real)
    requires rank < |sem| && SemanticKeys(sem, rank, scores)
    ensures var key := Fingerprint(sem[rank]);
      SemanticKeys(sem, rank + 1, scores[key := (if key in scores then scores[key] else 0.0) + share])
  {
    var key := Fingerprint(sem[rank]);
    forall fp | fp != key ensures LastRank(sem, fp, rank + 1) == LastRank(sem, fp, rank) {
    }
  }

  lemma SemanticSumsStep(sem: seq<SearchHit>, rank: nat, scores: map<string, real>)
    requires rank < |sem| && SemanticSums(sem, rank, scores)
    ensures var key := Fingerprint(sem[rank]);
      SemanticSums(sem, rank + 1, scores[key := (if key in scores then scores[key] else 0.0) + RankShare(0.7, rank)])
  {
    var key := Fingerprint(sem[rank]);
    forall fp | fp != key ensures RrfSum(sem, fp, 0.7, rank + 1) == RrfSum(sem, fp, 0.7, rank) {
    }
  }

  lemma SemanticRecordsStep(sem: seq<SearchHit>, rank: nat, data: map<string, SearchHit>)
    requires rank < |sem| && SemanticRecords(sem, rank, data)
    ensures SemanticRecords(sem, rank + 1, data[Fingerprint(sem[rank]) := sem[rank]])
  {
    var key := Fingerprint(sem[rank]);
    forall fp | fp != key ensures LastRank(sem, fp, rank + 1) == LastRank(sem, fp, rank) {
    }
  }

  lemma SemanticOrderStep(sem: seq<SearchHit>, rank: nat, f: Fusion)
    requires rank < |sem|
    requires f.data.Keys == f.scores.Keys
    requires forall fp :: fp in f.order <==> fp in f.scores
    requires f.order == KeyOrder(sem, rank)
    ensures var g := AddSemantic(f, sem[rank], rank);
      && g.data.Keys == g.scores.Keys
      && (forall fp :: fp in g.order <==> fp in g.scores)
      && g.order == KeyOrder(sem, rank + 1)
  {
  }

  lemma SemanticStep(sem: seq<SearchHit>, rank: nat, f: Fusion)
    requires rank < |sem| && SemanticAfter(sem, rank, f)
    ensures SemanticAfter(sem, rank + 1, AddSemantic(f, sem[rank], rank))
  {
    SemanticKeysStep(sem, rank, f.scores, RankShare(0.7, rank));
    SemanticSumsStep(sem, rank, f.scores);
    SemanticRecordsStep(sem, rank, f.data);
    SemanticOrderStep(sem, rank, f);
  }

  /** The semantic loop: every result adds `0.7 / (60 + rank)` to its fingerprint and becomes its record. */
  method FuseSemantic(sem: seq<SearchHit>) returns (f: Fusion)
    ensures SemanticAfter(sem, |sem|, f)
  {
    f := Fusion(map[], map[], []);
    var rank := 0;
    while rank < |sem|
      invariant rank <= |sem|
      invariant SemanticAfter(sem, rank, f)
    {
      SemanticStep(sem, rank, f);
      f := AddSemantic(f, sem[rank], rank);
      rank := rank + 1;
    }
  }

  /** The key order of a prefix does not depend on what follows it. */
  lemma {:induction false} KeyOrderPrefix(a: seq<SearchHit>, b: seq<SearchHit>, m: nat)
    requires m <= |a|
    ensures KeyOrder(a + b, m) == KeyOrder(a, m)
  {
    if m > 0 {
      KeyOrderPrefix(a, b, m - 1);
      assert (a + b)[m - 1] == a[m - 1];
    }
  }

  /** The keys of `combined_scores` after the first `j` keyword results: every fingerprint seen so far. */
  ghost predicate KeywordKeys(sem: seq<SearchHit>, kw: seq<SearchHit>, j: nat, scores: map<string, real>)
    requires j <= |kw|
  {
    forall fp :: fp in scores <==> LastRank(sem, fp, |sem|) >= 0 || FirstRank(kw, fp, j) >= 0
  }

  /** The running sums: all semantic shares plus the keyword shares so far. */
  ghost predicate KeywordSums(sem: seq<SearchHit>, kw: seq<SearchHit>, j: nat, scores: map<string, real>)
    requires j <= |kw|
  {
    forall fp :: (if fp in scores then scores[fp] else 0.0) == RrfSum(sem, fp, 0.7, |sem|) + RrfSum(kw, fp, 0.3, j)
  }

  /** The records: the last semantic occurrence, else the first keyword occurrence so far. */
  ghost predicate KeywordRecords(sem: seq<SearchHit>, kw: seq<SearchHit>, j: nat, data: map<string, SearchHit>)
    requires j <= |kw|
  {
    forall fp | fp in data ::
      if LastRank(sem, fp, |sem|) >= 0 then data[fp] == sem[LastRank(sem, fp, |sem|)]
      else FirstRank(kw, fp, j) >= 0 && data[fp] == kw[FirstRank(kw, fp, j)]
  }

  /** The state of the keyword loop after the first `j` keyword results. */
  ghost predicate KeywordAfter(sem: seq<SearchHit>, kw: seq<SearchHit>, j: nat, f: Fusion)
    requires j <= |kw|
  {
    && KeywordKeys(sem, kw, j, f.scores)
    && KeywordSums(sem, kw, j, f.scores)
    && f.data.Keys == f.scores.Keys
    && KeywordRecords(sem, kw, j, f.data)
    && (forall fp :: fp in f.order <==> fp in f.scores)
    && f.order == KeyOrder(sem + kw, |sem| + j)
  }

  /** One turn of `for rank, result in enumerate(keyword_results)`: the record is only set for a new fingerprint. */
  function AddKeyword(f: Fusion, r: SearchHit, rank: nat): Fusion {
    var key := Fingerprint(r);
    Fusion(
      f.scores[key := (if key in f.scores then f.scores[key] else 0.0) + RankShare(0.3, rank)],
      if key in f.data then f.data else f.data[key := r],
      if key in f.scores then f.order else f.order + [key])
  }

  /** The semantic loop's final state is the keyword loop's initial state. */
  lemma KeywordStart(sem: seq<SearchHit>, kw: seq<SearchHit>, f: Fusion)
    requires SemanticAfter(sem, |sem|, f)
    ensures KeywordAfter(sem, kw, 0, f)
  {
    assert KeywordKeys(sem, kw, 0, f.scores);
    assert KeywordSums(sem, kw, 0, f.scores);
    assert KeywordRecords(sem, kw, 0, f.data);
    KeyOrderPrefix(sem, kw, |sem|);
    assert |sem| + 0 == |sem|;
  }

  lemma KeysStep(sem: seq<SearchHit>, kw: seq<SearchHit>, j: nat, scores: map<string, real>, share: real)
    requires j < |kw| && KeywordKeys(sem, kw, j, scores)
    ensures var key := Fingerprint(kw[j]);
      KeywordKeys(sem, kw, j + 1, scores[key := (if key in scores then scores[key] else 0.0) + share])
  {
    var key := Fingerprint(kw[j]);
    forall fp | fp != key ensures FirstRank(kw, fp, j + 1) == FirstRank(kw, fp, j) {
    }
  }

  lemma SumsStep(sem: seq<SearchHit>, kw: seq<SearchHit>, j: nat, scores: map<string, real>)
    requires j < |kw| && KeywordSums(sem, kw, j, scores)
    ensures var key := Fingerprint(kw[j]);
      KeywordSums(sem, kw, j + 1, scores[key := (if key in scores then scores[key] else 0.0) + RankShare(0.3, j)])
  {
    var key := Fingerprint(kw[j]);
    forall fp | fp != key ensures RrfSum(kw, fp, 0.3, j + 1) == RrfSum(kw, fp, 0.3, j) {
    }
  }

  lemma RecordsStep(sem: seq<SearchHit>, kw: seq<SearchHit>, j: nat, data: map<string, SearchHit>)
    requires j < |kw| && KeywordRecords(sem, kw, j, data)
    requires forall fp :: fp in data <==> LastRank(sem, fp, |sem|) >= 0 || FirstRank(kw, fp, j) >= 0
    ensures var key := Fingerprint(kw[j]);
      KeywordRecords(sem, kw, j + 1, if key in data then data else data[key := kw[j]])
  {
    var key := Fingerprint(kw[j]);
    forall fp | fp != key ensures FirstRank(kw, fp, j + 1) == FirstRank(kw, fp, j) {
    }
    if key !in data {
      assert FirstRank(kw, key, j) == -1;
    }
  }

  lemma KeywordStep(sem: seq<SearchHit>, kw: seq<SearchHit>, j: nat, f: Fusion)
    requires j < |kw| && KeywordAfter(sem, kw, j, f)
    ensures KeywordAfter(sem, kw, j + 1, AddKeyword(f, kw[j], j))
  {
    KeysStep(sem, kw, j, f.scores, RankShare(0.3, j));
    SumsStep(sem, kw, j, f.scores);
    RecordsStep(sem, kw, j, f.data);
    assert (sem + kw)[|sem| + j] == kw[j];
    assert |sem| + (j + 1) == (|sem| + j) + 1;
  }

  /** The keyword loop: every result adds `0.3 / (60 + rank)`; it becomes the record only of a fingerprint not seen before. */
  method FuseKeyword(sem: seq<SearchHit>, kw: seq<SearchHit>, f0: Fusion) returns (f: Fusion)
    requires SemanticAfter(sem, |sem|, f0)
    ensures KeywordAfter(sem, kw, |kw|, f)
  {
    KeywordStart(sem, kw, f0);
    f := f0;
    var rank := 0;
    while rank < |kw|
      invariant rank <= |kw|
      invariant KeywordAfter(sem, kw, rank, f)
    {
      KeywordStep(sem, kw, rank, f);
      f := AddKeyword(f, kw[rank], rank);
      rank := rank + 1;
    }
  }

  /** A position holding `fp` bounds its last rank from below. */
  lemma {:induction false} LastRankFinds(list: seq<SearchHit>, fp: string, n: nat, k: nat)
    requires k < n <= |list| && Fingerprint(list[k]) == fp
    ensures LastRank(list, fp, n) >= k
  {
    if Fingerprint(list[n - 1]) != fp {
      LastRankFinds(list, fp, n - 1, k);
    }
  }

  /** A position holding `fp` bounds its first rank from above. */
  lemma {:induction false} FirstRankFinds(list: seq<SearchHit>, fp: string, n: nat, k: nat)
    requires k < n <= |list| && Fingerprint(list[k]) == fp
    ensures 0 <= FirstRank(list, fp, n) <= k
  {
    if k < n - 1 {
      FirstRankFinds(list, fp, n - 1, k);
    }
  }

  /** No position after the last rank, and none before the first rank, holds `fp`. */
  lemma {:induction false} RanksAreExtreme(list: seq<SearchHit>, fp: string, n: nat, k: nat)
    requires k < n <= |list| && Fingerprint(list[k]) == fp
    ensures k <= LastRank(list, fp, n) && FirstRank(list, fp, n) <= k
  {
    LastRankFinds(list, fp, n, k);
    FirstRankFinds(list, fp, n, k);
  }

  /** The fingerprint at every position below `m` is a key. */
  lemma {:induction false} KeyOrderHas(all: seq<SearchHit>, m: nat, k: nat)
    requires k < m <= |all|
    ensures Fingerprint(all[k]) in KeyOrder(all, m)
  {
    if k < m - 1 {
      KeyOrderHas(all, m - 1, k);
    }
  }

  /** Every key is the fingerprint of some position below `m`. */
  lemma {:induction false} KeyOrderWitness(all: seq<SearchHit>, m: nat, fp: string) returns (k: nat)
    requires m <= |all| && fp in KeyOrder(all, m)
    ensures k < m && Fingerprint(all[k]) == fp
  {
    if fp in KeyOrder(all, m - 1) {
      k := KeyOrderWitness(all, m - 1, fp);
    } else {
      k := m - 1;
    }
  }

  /** Each fingerprint is a key once. */
  lemma {:induction false} KeyOrderDistinct(all: seq<SearchHit>, m: nat)
    requires m <= |all|
    ensures Distinct(KeyOrder(all, m))
  {
    if m > 0 {
      KeyOrderDistinct(all, m - 1);
    }
  }

  /** The keys of the fused dict are exactly the fingerprints seen in either list. */
  lemma KeysAreSeen(sem: seq<SearchHit>, kw: seq<SearchHit>, fp: string)
    ensures fp in KeyOrder(sem + kw, |sem| + |kw|) <==> Seen(sem, kw, fp)
  {
    if fp in KeyOrder(sem + kw, |sem| + |kw|) {
      KeySeen(sem, kw, fp);
    }
    if Seen(sem, kw, fp) {
      SeenKey(sem, kw, fp);
    }
  }

  lemma KeySeen(sem: seq<SearchHit>, kw: seq<SearchHit>, fp: string)
    requires fp in KeyOrder(sem + kw, |sem| + |kw|)
    ensures Seen(sem, kw, fp)
  {
    var k := KeyOrderWitness(sem + kw, |sem| + |kw|, fp);
    SeenAt(sem, kw, k);
  }

  /** The fingerprint at any position of the two lists run together is seen. */
  lemma SeenAt(sem: seq<SearchHit>, kw: seq<SearchHit>, k: nat)
    requires k < |sem| + |kw|
    ensures Seen(sem, kw, Fingerprint((sem + kw)[k]))
  {
    var fp := Fingerprint((sem + kw)[k]);
    if k < |sem| {
      assert (sem + kw)[k] == sem[k];
      LastRankFinds(sem, fp, |sem|, k);
    } else {
      assert (sem + kw)[k] == kw[k - |sem|];
      FirstRankFinds(kw, fp, |kw|, k - |sem|);
    }
  }

  lemma SeenKey(sem: seq<SearchHit>, kw: seq<SearchHit>, fp: string)
    requires Seen(sem, kw, fp)
    ensures fp in KeyOrder(sem + kw, |sem| + |kw|)
  {
    var all := sem + kw;
    var k: nat;
    if LastRank(sem, fp, |sem|) >= 0 {
      k := LastRank(sem, fp, |sem|);
      assert all[k] == sem[k];
    } else {
      k := |sem| + FirstRank(kw, fp, |kw|);
      assert all[k] == kw[FirstRank(kw, fp, |kw|)];
    }
    KeyOrderHas(all, |sem| + |kw|, k);
  }

  /** The record kept for `fp` carries `fp`: the last semantic occurrence if there is one, else the first keyword occurrence. */
  lemma RecordChoice(sem: seq<SearchHit>, kw: seq<SearchHit>, fp: string, k: nat)
    requires Seen(sem, kw, fp)
    ensures Fingerprint(Record(sem, kw, fp)) == fp
    ensures k < |sem| && Fingerprint(sem[k]) == fp && (forall i | k < i < |sem| :: Fingerprint(sem[i]) != fp)
      ==> Record(sem, kw, fp) == sem[k]
    ensures (forall i | 0 <= i < |sem| :: Fingerprint(sem[i]) != fp) && k < |kw| && Fingerprint(kw[k]) == fp
      && (forall i | 0 <= i < k :: Fingerprint(kw[i]) != fp)
      ==> Record(sem, kw, fp) == kw[k]
  {
    if k < |sem| && Fingerprint(sem[k]) == fp {
      LastRankFinds(sem, fp, |sem|, k);
    }
    if k < |kw| && Fingerprint(kw[k]) == fp {
      FirstRankFinds(kw, fp, |kw|, k);
    }
  }

  /** A list's share of a fingerprint is never negative, and positive exactly when the fingerprint occurs in it. */
  lemma {:induction false} RrfSumPositive(list: seq<SearchHit>, fp: string, weight: real, n: nat)
    requires n <= |list| && weight > 0.0
    ensures RrfSum(list, fp, weight, n) >= 0.0
    ensures RrfSum(list, fp, weight, n) > 0.0 <==> exists k | 0 <= k < n :: Fingerprint(list[k]) == fp
  {
    if n > 0 {
      RrfSumPositive(list, fp, weight, n - 1);
      if exists k | 0 <= k < n :: Fingerprint(list[k]) == fp {
        var k :| 0 <= k < n && Fingerprint(list[k]) == fp;
        if k < n - 1 {
          assert exists k' | 0 <= k' < n - 1 :: Fingerprint(list[k']) == fp;
        }
      }
    }
  }

  /** Every fingerprint seen has a positive fused score, and an unseen one scores 0. */
  lemma FusedPositiveIffSeen(sem: seq<SearchHit>, kw: seq<SearchHit>, fp: string)
    ensures FusedScore(sem, kw, fp) >= 0.0
    ensures FusedScore(sem, kw, fp) > 0.0 <==> Seen(sem, kw, fp)
  {
    RrfSumPositive(sem, fp, 0.7, |sem|);
    RrfSumPositive(kw, fp, 0.3, |kw|);
    if LastRank(sem, fp, |sem|) < 0 && exists k | 0 <= k < |sem| :: Fingerprint(sem[k]) == fp {
      var k :| 0 <= k < |sem| && Fingerprint(sem[k]) == fp;
      LastRankFinds(sem, fp, |sem|, k);
    }
    if FirstRank(kw, fp, |kw|) < 0 && exists k | 0 <= k < |kw| :: Fingerprint(kw[k]) == fp {
      var k :| 0 <= k < |kw| && Fingerprint(kw[k]) == fp;
      FirstRankFinds(kw, fp, |kw|, k);
    }
  }

  /** The fused keys sorted by fused score carry only fingerprints that were seen. */
  lemma SortedKeysSeen(sem: seq<SearchHit>, kw: seq<SearchHit>)
    ensures forall fp | fp in SortDesc(KeyOrder(sem + kw, |sem| + |kw|), ScoreOf(sem, kw)) :: Seen(sem, kw, fp)
  {
    var keys := KeyOrder(sem + kw, |sem| + |kw|);
    SortDescMembers(keys, ScoreOf(sem, kw));
    forall fp | fp in SortDesc(keys, ScoreOf(sem, kw)) ensures Seen(sem, kw, fp) {
      KeysAreSeen(sem, kw, fp);
    }
  }

  /** `sorted(combined_scores.keys(), key=..., reverse=True)[:top_k * 2]`. */
  function HybridKeys(sem: seq<SearchHit>, kw: seq<SearchHit>, topK: int): (r: seq<string>)
    ensures forall fp | fp in r :: Seen(sem, kw, fp)
  {
    SortedKeysSeen(sem, kw);
    Prefix(SortDesc(KeyOrder(sem + kw, |sem| + |kw|), ScoreOf(sem, kw)), topK * 2)
  }

  /** The record of `fp` with `hybrid_score` set to its fused score. */
  function HybridEntry(sem: seq<SearchHit>, kw: seq<SearchHit>, fp: string): SearchHit
    requires Seen(sem, kw, fp)
  {
    Record(sem, kw, fp).(hybridScore := Some(FusedScore(sem, kw, fp)))
  }

  /** The list the hybrid branch builds. */
  function HybridList(sem: seq<SearchHit>, kw: seq<SearchHit>, topK: int): seq<SearchHit> {
    var keys := HybridKeys(sem, kw, topK);
    seq(|keys|, i requires 0 <= i < |keys| => HybridEntry(sem, kw, keys[i]))
  }

  /** The score a result is ranked by once fused: `hybrid_score` if written, else `score`. */
  function BaseScore(r: SearchHit): real {
    if r.hybridScore.Some? then r.hybridScore.value else r.score
  }

  /** The hybrid list is the cut key list, entry by entry. */
  lemma HybridFingerprints(sem: seq<SearchHit>, kw: seq<SearchHit>, topK: int)
    ensures |HybridList(sem, kw, topK)| == |HybridKeys(sem, kw, topK)|
    ensures forall i | 0 <= i < |HybridKeys(sem, kw, topK)| ::
      Fingerprint(HybridList(sem, kw, topK)[i]) == HybridKeys(sem, kw, topK)[i]
  {
    var top := HybridKeys(sem, kw, topK);
    forall i | 0 <= i < |top| ensures Fingerprint(HybridList(sem, kw, topK)[i]) == top[i] {
      RecordChoice(sem, kw, top[i], 0);
    }
  }

  /**
   * The hybrid list holds at most `2 * top_k` results, one per fingerprint, each the record kept
   * for its fingerprint with its fused score written in, in order of non-increasing fused score.
   */
  lemma HybridRanked(sem: seq<SearchHit>, kw: seq<SearchHit>, topK: int)
    ensures var r := HybridList(sem, kw, topK);
      && (topK >= 0 ==> |r| <= 2 * topK)
      && NonIncreasing(r, BaseScore)
      && (forall i, j | 0 <= i < j < |r| :: Fingerprint(r[i]) != Fingerprint(r[j]))
      && (forall h | h in r :: Seen(sem, kw, Fingerprint(h)) && h == HybridEntry(sem, kw, Fingerprint(h)))
      && (forall h | h in r :: h.hybridScore == Some(FusedScore(sem, kw, Fingerprint(h))))
  {
    var keys := KeyOrder(sem + kw, |sem| + |kw|);
    var sorted := SortDesc(keys, ScoreOf(sem, kw));
    var top := HybridKeys(sem, kw, topK);
    var r := HybridList(sem, kw, topK);
    HybridFingerprints(sem, kw, topK);
    KeyOrderDistinct(sem + kw, |sem| + |kw|);
    SortDescDistinct(keys, ScoreOf(sem, kw));
    PrefixOrdered(sorted, ScoreOf(sem, kw), topK * 2);
    forall i, j | 0 <= i < j < |r| ensures Fingerprint(r[i]) != Fingerprint(r[j]) && BaseScore(r[i]) >= BaseScore(r[j]) {
      assert top[i] == sorted[i] && top[j] == sorted[j];
    }
  }

  /** A seen fingerprint left out of the hybrid list means the list is full of results scoring at least as much. */
  lemma HybridKeepsBest(sem: seq<SearchHit>, kw: seq<SearchHit>, topK: nat, fp: string)
    requires Seen(sem, kw, fp)
    requires forall h | h in HybridList(sem, kw, topK) :: Fingerprint(h) != fp
    ensures |HybridList(sem, kw, topK)| == 2 * topK
    ensures forall h | h in HybridList(sem, kw, topK) :: BaseScore(h) >= FusedScore(sem, kw, fp)
  {
    var top := HybridKeys(sem, kw, topK);
    var r := HybridList(sem, kw, topK);
    HybridFingerprints(sem, kw, topK);
    assert fp !in top by {
      forall i | 0 <= i < |top| ensures top[i] != fp {
        assert r[i] in r;
      }
    }
    KeysAreSeen(sem, kw, fp);
    TopKeepsBest(KeyOrder(sem + kw, |sem| + |kw|), ScoreOf(sem, kw), 2 * topK, fp);
    forall h | h in r ensures BaseScore(h) >= FusedScore(sem, kw, fp) {
      var i :| 0 <= i < |r| && r[i] == h;
      assert top[i] in top;
    }
  }

  /** `combined_scores[k]` as a sort key (every key sorted is in the dict). */
  function ScoreIn(scores: map<string, real>): string -> real {
    k => if k in scores then scores[k] else 0.0
  }

  /** What the two loops leave in the dicts for one of their keys. */
  lemma FusionFinal(sem: seq<SearchHit>, kw: seq<SearchHit>, f: Fusion, key: string)
    requires KeywordAfter(sem, kw, |kw|, f) && key in f.order
    ensures Seen(sem, kw, key) && key in f.scores && key in f.data
    ensures f.scores[key] == FusedScore(sem, kw, key) && f.data[key] == Record(sem, kw, key)
  {
  }

  /** `for key in sorted_keys[:top_k * 2]`: each kept record with its fused score written in as `hybrid_score`. */
  method WriteHybridScores(sem: seq<SearchHit>, kw: seq<SearchHit>, f: Fusion, top: seq<string>) returns (results: seq<SearchHit>)
    requires KeywordAfter(sem, kw, |kw|, f)
    requires forall key | key in top :: key in f.order && Seen(sem, kw, key)
    ensures |results| == |top|
    ensures forall j | 0 <= j < |top| :: results[j] == HybridEntry(sem, kw, top[j])
  {
    results := [];
    for i := 0 to |top|
      invariant |results| == i
      invariant forall j | 0 <= j < i :: results[j] == HybridEntry(sem, kw, top[j])
    {
      var key := top[i];
      FusionFinal(sem, kw, f, key);
      results := results + [f.data[key].(hybridScore := Some(f.scores[key]))];
    }
  }

  /** The hybrid branch: both RRF loops, the sort of the fused keys, the cut to `2 * top_k`, and `hybrid_score` written in. */
  method HybridResults(sem: seq<SearchHit>, kw: seq<SearchHit>, topK: int) returns (results: seq<SearchHit>)
    ensures results == HybridList(sem, kw, topK)
  {
    var f := FuseSemantic(sem);
    f := FuseKeyword(sem, kw, f);
    var byScore := ScoreIn(f.scores);
    SortDescCongruent(f.order, byScore, ScoreOf(sem, kw));
    SortDescMembers(f.order, byScore);
    var top := Prefix(SortDesc(f.order, byScore), topK * 2);
    assert top == HybridKeys(sem, kw, topK);
    results := WriteHybridScores(sem, kw, f, top);
    assert |results| == |HybridList(sem, kw, topK)|;
    forall j | 0 <= j < |results| ensures results[j] == HybridList(sem, kw, topK)[j] {
    }
  }
}
