/**
 * The collection store of core/legal_rag.py (`VectorStore`) and the search over all collections
 * (`search_legal_context`). A store is an id -> {text, metadata} dict; the TF-IDF similarity of a
 * query against every stored document is supplied from outside as a function of the id.
 */
module Store {
  import opened Records
  import opened Ranking

  /** The value `{"text": ..., "metadata": ...}` stored under an id. */
  datatype Doc = Doc(text: string, metadata: Metadata)

  /** `order` lists the keys of `docs`, each once, as a Python dict remembers them. */
  ghost predicate KeysListed(docs: map<string, Doc>, order: seq<string>) {
    Distinct(order) && forall k :: k in docs <==> k in order
  }

  /** A list without repeats has as many elements as its set. */
  lemma {:induction false} DistinctCard(xs: seq<string>)
    requires Distinct(xs)
    ensures |set x | x in xs| == |xs|
  {
    if xs != [] {
      DistinctCard(xs[1..]);
      assert (set x | x in xs) == {xs[0]} + (set x | x in xs[1..]);
      assert xs[0] !in (set x | x in xs[1..]);
    }
  }

  /** How many triples `zip(ids, documents, metadatas)` yields. */
  function ZipLen(ids: seq<string>, texts: seq<string>, metas: seq<Metadata>): (n: nat)
    ensures n <= |ids| && n <= |texts| && n <= |metas|
    ensures n == |ids| || n == |texts| || n == |metas|
  {
    if |ids| <= |texts| && |ids| <= |metas| then |ids|
    else if |texts| <= |metas| then |texts|
    else |metas|
  }

  /** The dict after `for doc_id, text, meta in zip(...): docs[doc_id] = {...}`. */
  function Upserted(docs: map<string, Doc>, ids: seq<string>, texts: seq<string>, metas: seq<Metadata>): map<string, Doc>
    decreases |ids|
  {
    if ids == [] || texts == [] || metas == [] then docs
    else Upserted(docs[ids[0] := Doc(texts[0], metas[0])], ids[1..], texts[1..], metas[1..])
  }

  /** The key order after the same loop: a new id goes to the end, an old one keeps its place. */
  function Appended(order: seq<string>, ids: seq<string>): seq<string>
    decreases |ids|
  {
    if ids == [] then order
    else Appended(if ids[0] in order then order else order + [ids[0]], ids[1..])
  }

  /** An id the batch does not name keeps its entry, or its absence. */
  lemma {:induction false} UpsertKeepsOthers(docs: map<string, Doc>, ids: seq<string>, texts: seq<string>, metas: seq<Metadata>, id: string)
    requires forall j | 0 <= j < ZipLen(ids, texts, metas) :: ids[j] != id
    ensures id in Upserted(docs, ids, texts, metas) <==> id in docs
    ensures id in docs ==> Upserted(docs, ids, texts, metas)[id] == docs[id]
    decreases |ids|
  {
    if ids != [] && texts != [] && metas != [] {
      assert ids[0] != id;
      forall j | 0 <= j < ZipLen(ids[1..], texts[1..], metas[1..]) ensures ids[1..][j] != id {
        assert ids[1..][j] == ids[j + 1];
      }
      UpsertKeepsOthers(docs[ids[0] := Doc(texts[0], metas[0])], ids[1..], texts[1..], metas[1..], id);
    }
  }

  /** Each id of the zipped batch ends up holding the last text and metadata given for it. */
  lemma {:induction false} UpsertLastWins(docs: map<string, Doc>, ids: seq<string>, texts: seq<string>, metas: seq<Metadata>, j: nat)
    requires j < ZipLen(ids, texts, metas)
    requires forall k | j < k < ZipLen(ids, texts, metas) :: ids[k] != ids[j]
    ensures ids[j] in Upserted(docs, ids, texts, metas)
    ensures Upserted(docs, ids, texts, metas)[ids[j]] == Doc(texts[j], metas[j])
    decreases |ids|
  {
    var d := docs[ids[0] := Doc(texts[0], metas[0])];
    if j == 0 {
      forall k | 0 <= k < ZipLen(ids[1..], texts[1..], metas[1..]) ensures ids[1..][k] != ids[0] {
        assert ids[1..][k] == ids[k + 1];
      }
      UpsertKeepsOthers(d, ids[1..], texts[1..], metas[1..], ids[0]);
    } else {
      assert ids[1..][j - 1] == ids[j];
      forall k | j - 1 < k < ZipLen(ids[1..], texts[1..], metas[1..]) ensures ids[1..][k] != ids[1..][j - 1] {
        assert ids[1..][k] == ids[k + 1];
      }
      UpsertLastWins(d, ids[1..], texts[1..], metas[1..], j - 1);
    }
  }

  /** After the upsert the stored ids are the old ones plus the ids of the zipped batch. */
  lemma {:induction false} UpsertKeys(docs: map<string, Doc>, ids: seq<string>, texts: seq<string>, metas: seq<Metadata>)
    ensures Upserted(docs, ids, texts, metas).Keys == docs.Keys + set j | 0 <= j < ZipLen(ids, texts, metas) :: ids[j]
    decreases |ids|
  {
    if ids != [] && texts != [] && metas != [] {
      UpsertKeys(docs[ids[0] := Doc(texts[0], metas[0])], ids[1..], texts[1..], metas[1..]);
      var n := ZipLen(ids, texts, metas);
      assert ZipLen(ids[1..], texts[1..], metas[1..]) == n - 1;
      var tail := set j | 0 <= j < n - 1 :: ids[1..][j];
      assert (set j | 0 <= j < n :: ids[j]) == {ids[0]} + tail by {
        forall x | x in tail ensures x in set j | 0 <= j < n :: ids[j] {
          var j :| 0 <= j < n - 1 && ids[1..][j] == x;
          assert ids[j + 1] == x;
        }
        forall x | x in (set j | 0 <= j < n :: ids[j]) ensures x in {ids[0]} + tail {
          var j :| 0 <= j < n && ids[j] == x;
          if j > 0 {
            assert ids[1..][j - 1] == x;
          }
        }
      }
    }
  }

  /** Recording the key order keeps it a list of the keys without repeats. */
  lemma {:induction false} AppendedListsKeys(docs: map<string, Doc>, order: seq<string>, ids: seq<string>, texts: seq<string>, metas: seq<Metadata>)
    requires KeysListed(docs, order)
    ensures KeysListed(Upserted(docs, ids, texts, metas), Appended(order, ids[..ZipLen(ids, texts, metas)]))
    decreases |ids|
  {
    var n := ZipLen(ids, texts, metas);
    if n == 0 {
      assert ids[..n] == [];
    } else {
      var id := ids[0];
      var order' := if id in order then order else order + [id];
      assert Distinct(order') by {
        if id !in order {
          forall i | 0 <= i < |order| ensures order'[i] != order'[|order|] {
            assert order[i] in order;
          }
        }
      }
      assert KeysListed(docs[id := Doc(texts[0], metas[0])], order');
      AppendedListsKeys(docs[id := Doc(texts[0], metas[0])], order', ids[1..], texts[1..], metas[1..]);
      assert ZipLen(ids[1..], texts[1..], metas[1..]) == n - 1;
      assert ids[..n][1..] == ids[1..][..n - 1];
    }
  }

  /** The test `score > 0` of the query loop, on ids. */
  function PositiveUnder(score: string -> real): string -> bool {
    id => score(id) > 0.0
  }

  /** The test `hit["score"] >= score_threshold` of the search. */
  function Reaches(threshold: real): Hit -> bool {
    (h: Hit) => h.score >= threshold
  }

  /** The ids ranked by the query: `argsort(similarities)[::-1][:n_results]`, kept if the similarity is positive. */
  function QueryIds(order: seq<string>, score: string -> real, n: int): (r: seq<string>)
    ensures forall id | id in r :: id in order && score(id) > 0.0
  {
    var ranked := SortDesc(order, score);
    assert forall id | id in ranked :: id in order by {
      forall id | id in ranked ensures id in order {
        assert id in multiset(ranked);
      }
    }
    Filter(Prefix(ranked, n), PositiveUnder(score))
  }

  /** The hits for a list of stored ids. */
  function HitsOf(docs: map<string, Doc>, ids: seq<string>, score: string -> real): (r: seq<Hit>)
    requires forall id | id in ids :: id in docs
    ensures |r| == |ids|
    ensures forall i | 0 <= i < |ids| :: r[i] == Hit(docs[ids[i]].text, docs[ids[i]].metadata, score(ids[i]))
  {
    seq(|ids|, i requires 0 <= i < |ids| => Hit(docs[ids[i]].text, docs[ids[i]].metadata, score(ids[i])))
  }

  /** The hits of a list with one more id at the end. */
  lemma HitsOfSnoc(docs: map<string, Doc>, ids: seq<string>, id: string, score: string -> real)
    requires forall x | x in ids :: x in docs
    requires id in docs
    ensures HitsOf(docs, ids + [id], score) == HitsOf(docs, ids, score) + [Hit(docs[id].text, docs[id].metadata, score(id))]
  {
    assert forall i | 0 <= i < |ids| :: (ids + [id])[i] == ids[i];
  }

  /** What `query` returns for a store holding `docs`, listed in `order`, given the similarities `score`. */
  function QueryHits(docs: map<string, Doc>, order: seq<string>, score: string -> real, n: int): (r: seq<Hit>)
    requires KeysListed(docs, order)
  {
    if |docs| == 0 then [] else HitsOf(docs, QueryIds(order, score, n), score)
  }

  /**
   * `query` on an empty store returns nothing; otherwise at most `n_results` hits (for a
   * non-negative count), each with a positive similarity, by non-increasing similarity.
   */
  lemma QueryRanked(docs: map<string, Doc>, order: seq<string>, score: string -> real, n: int)
    requires KeysListed(docs, order)
    ensures |docs| == 0 ==> QueryHits(docs, order, score, n) == []
    ensures n >= 0 ==> |QueryHits(docs, order, score, n)| <= n
    ensures forall h | h in QueryHits(docs, order, score, n) :: h.score > 0.0
    ensures NonIncreasing(QueryHits(docs, order, score, n), HitScore)
  {
    if |docs| != 0 {
      var ranked := SortDesc(order, score);
      FilterKeepsOrder(Prefix(ranked, n), PositiveUnder(score), score);
      var ids := QueryIds(order, score, n);
      var r := QueryHits(docs, order, score, n);
      forall h | h in r ensures h.score > 0.0 {
        var i :| 0 <= i < |r| && r[i] == h;
        assert ids[i] in ids;
      }
      forall i, j | 0 <= i < j < |r| ensures HitScore(r[i]) >= HitScore(r[j]) {
        assert r[i].score == score(ids[i]) && r[j].score == score(ids[j]);
      }
    }
  }

  /**
   * A stored id with a positive similarity that `query` leaves out lost only to better hits:
   * `n_results` hits came back and every one of them scores at least as high.
   */
  lemma QueryKeepsBest(docs: map<string, Doc>, order: seq<string>, score: string -> real, n: nat, id: string)
    requires KeysListed(docs, order)
    requires id in docs && score(id) > 0.0
    requires id !in QueryIds(order, score, n)
    ensures |QueryHits(docs, order, score, n)| == n
    ensures forall h | h in QueryHits(docs, order, score, n) :: h.score >= score(id)
  {
    var ranked := SortDesc(order, score);
    var top := Prefix(ranked, n);
    var keep := PositiveUnder(score);
    assert keep(id);
    assert id !in top;
    TopKeepsBest(order, score, n, id);
    assert forall x | x in top :: keep(x);
    FilterAllKept(top, keep);
    var ids := QueryIds(order, score, n);
    assert ids == top;
    var r := QueryHits(docs, order, score, n);
    forall h | h in r ensures h.score >= score(id) {
      var i :| 0 <= i < |r| && r[i] == h;
      assert ids[i] in top;
    }
  }

  /** A `VectorStore`: the collection's documents by id, and the order the ids were first stored in. */
  class VectorStore {
    var name: string
    var docs: map<string, Doc>
    var order: seq<string>

    ghost predicate Valid()
      reads this
    {
      KeysListed(docs, order)
    }

    /** A new, empty collection. */
    constructor (name: string)
      ensures Valid() && this.name == name && docs == map[] && order == []
    {
      this.name := name;
      docs := map[];
      order := [];
    }

    /** `count()`: the number of stored ids, each counted once. */
    function Count(): (c: nat)
      reads this
      requires Valid()
      ensures c == |order|
    {
      DistinctCard(order);
      assert docs.Keys == set x | x in order;
      |docs|
    }

    /** `upsert`: stores each zipped (id, text, metadata) triple, a later triple overwriting an earlier one. */
    method Upsert(ids: seq<string>, documents: seq<string>, metadatas: seq<Metadata>)
      requires Valid()
      modifies this
      ensures Valid() && name == old(name)
      ensures docs == Upserted(old(docs), ids, documents, metadatas)
      ensures order == Appended(old(order), ids[..ZipLen(ids, documents, metadatas)])
    {
      AppendedListsKeys(docs, order, ids, documents, metadatas);
      var n := ZipLen(ids, documents, metadatas);
      var i := 0;
      while i < n
        invariant i <= n
        invariant Upserted(docs, ids[i..], documents[i..], metadatas[i..]) == Upserted(old(docs), ids, documents, metadatas)
        invariant Appended(order, ids[i..n]) == Appended(old(order), ids[..n])
        invariant name == old(name)
      {
        assert ids[i..][1..] == ids[i + 1..] && documents[i..][1..] == documents[i + 1..] && metadatas[i..][1..] == metadatas[i + 1..];
        assert ids[i..n][1..] == ids[i + 1..n];
        docs := docs[ids[i] := Doc(documents[i], metadatas[i])];
        if ids[i] !in order {
          order := order + [ids[i]];
        }
        i := i + 1;
      }
      assert ids[i..] == [] || documents[i..] == [] || metadatas[i..] == [];
      assert ids[i..n] == [];
    }

    /**
     * `query` for the similarities `score` of the stored documents: the ids ranked by
     * similarity, the first `n` kept, and those with a similarity of 0 or less skipped.
     */
    method Query(score: string -> real, n: int) returns (results: seq<Hit>)
      requires Valid()
      ensures results == QueryHits(docs, order, score, n)
    {
      if |docs| == 0 {
        return [];
      }
      var ranked := SortDesc(order, score);
      assert forall id | id in ranked :: id in docs by {
        forall id | id in ranked ensures id in docs {
          assert id in multiset(ranked);
        }
      }
      var top := Prefix(ranked, n);
      assert forall id | id in top :: id in ranked;
      results := PositiveHits(docs, top, score);
    }

    /** `clear()`: the collection is emptied. */
    method Clear()
      modifies this
      ensures Valid() && name == old(name) && docs == map[] && order == []
      ensures Count() == 0
    {
      docs := map[];
      order := [];
    }
  }

  /** The loop of `query` over the ranked ids: a hit for each id with a positive similarity, in order. */
  method PositiveHits(docs: map<string, Doc>, top: seq<string>, score: string -> real) returns (results: seq<Hit>)
    requires forall id | id in top :: id in docs
    ensures results == HitsOf(docs, Filter(top, PositiveUnder(score)), score)
  {
    ghost var keep := PositiveUnder(score);
    ghost var kept: seq<string> := [];
    results := [];
    var i := 0;
    while i < |top|
      invariant i <= |top|
      invariant kept == Filter(top[..i], keep)
      invariant forall id | id in kept :: id in docs
      invariant results == HitsOf(docs, kept, score)
    {
      FilterSnoc(top[..i], top[i], keep);
      assert top[..i + 1] == top[..i] + [top[i]];
      var s := score(top[i]);
      assert keep(top[i]) == (s > 0.0);
      if s > 0.0 {
        var d := docs[top[i]];
        HitsOfSnoc(docs, kept, top[i], score);
        results := results + [Hit(d.text, d.metadata, s)];
        kept := kept + [top[i]];
      }
      i := i + 1;
    }
    assert top[..i] == top;
  }

  /** Filtering a list with one more element at the end. */
  lemma {:induction false} FilterSnoc<T>(xs: seq<T>, x: T, keep: T -> bool)
    ensures Filter(xs + [x], keep) == Filter(xs, keep) + (if keep(x) then [x] else [])
  {
    if xs == [] {
      assert [x][1..] == [];
    } else {
      assert (xs + [x])[1..] == xs[1..] + [x];
      FilterSnoc(xs[1..], x, keep);
    }
  }

  /** One collection of `ALL_COLLECTIONS` as the search sees it: its store, its similarities, and whether its query raises. */
  datatype Probe = Probe(store: VectorStore, score: string -> real, raises: bool)

  ghost predicate ProbesValid(probes: seq<Probe>)
    reads set p | p in probes :: p.store
  {
    forall p | p in probes :: p.store.Valid()
  }

  /** What one collection adds before the threshold: nothing if it is empty or its query raises. */
  ghost function Contribution(p: Probe, topK: int): seq<Hit>
    reads p.store
    requires p.store.Valid()
  {
    if p.store.Count() == 0 || p.raises then [] else QueryHits(p.store.docs, p.store.order, p.score, topK)
  }

  /** The hits of the collections in order, each kept if it reaches the threshold. */
  ghost function Gathered(probes: seq<Probe>, topK: int, threshold: real): seq<Hit>
    reads set p | p in probes :: p.store
    requires ProbesValid(probes)
  {
    if probes == [] then []
    else
      var last := probes[|probes| - 1];
      Gathered(probes[..|probes| - 1], topK, threshold) + Filter(Contribution(last, topK), Reaches(threshold))
  }

  /** The merged list sorted by descending score and cut to `top_k`. */
  function Ranked(hits: seq<Hit>, topK: int): (r: seq<Hit>)
    ensures NonIncreasing(r, HitScore)
    ensures topK >= 0 ==> |r| <= topK
    ensures forall h | h in r :: h in hits
  {
    var s := SortDesc(hits, HitScore);
    assert forall h | h in s :: h in hits by {
      forall h | h in s ensures h in hits {
        assert h in multiset(s);
      }
    }
    Prefix(s, topK)
  }

  /** Every hit the search returns reaches the threshold, and each collection adds at most `top_k` hits. */
  lemma {:induction false} GatheredBounded(probes: seq<Probe>, topK: int, threshold: real)
    requires ProbesValid(probes)
    ensures forall h | h in Gathered(probes, topK, threshold) :: h.score >= threshold
    ensures topK >= 0 ==> forall p | p in probes :: |Contribution(p, topK)| <= topK
  {
    if probes != [] {
      var init := probes[..|probes| - 1];
      assert forall p | p in init :: p in probes;
      GatheredBounded(init, topK, threshold);
      var last := probes[|probes| - 1];
      if last.store.Count() != 0 && !last.raises {
        QueryRanked(last.store.docs, last.store.order, last.score, topK);
      }
      assert forall p | p in probes :: p in init || p == last;
    }
  }

  /** Gathering one more collection appends what it contributes. */
  lemma GatheredSnoc(probes: seq<Probe>, c: nat, topK: int, threshold: real)
    requires ProbesValid(probes) && c < |probes|
    ensures ProbesValid(probes[..c]) && ProbesValid(probes[..c + 1])
    ensures Gathered(probes[..c + 1], topK, threshold)
      == Gathered(probes[..c], topK, threshold) + Filter(Contribution(probes[c], topK), Reaches(threshold))
  {
    assert forall p | p in probes[..c + 1] :: p in probes;
    assert probes[..c + 1][..c] == probes[..c];
  }

  /**
   * `search_legal_context` over the collections `probes`: at most `top_k` results, each with a
   * score at least `score_threshold`, by non-increasing score.
   */
  method SearchLegalContext(probes: seq<Probe>, topK: int, threshold: real) returns (results: seq<Hit>)
    requires ProbesValid(probes)
    ensures results == Ranked(Gathered(probes, topK, threshold), topK)
    ensures forall h | h in results :: h.score >= threshold
  {
    var gathered: seq<Hit> := [];
    var c := 0;
    while c < |probes|
      invariant c <= |probes|
      invariant ProbesValid(probes[..c])
      invariant gathered == Gathered(probes[..c], topK, threshold)
    {
      GatheredSnoc(probes, c, topK, threshold);
      gathered := SearchCollection(gathered, probes[c], topK, threshold);
      c := c + 1;
    }
    assert probes[..c] == probes;
    GatheredBounded(probes, topK, threshold);
    results := Ranked(gathered, topK);
  }

  /** One turn of the loop over `ALL_COLLECTIONS`: skip an empty collection or one whose query raises, else add its hits that reach the threshold. */
  method SearchCollection(gathered: seq<Hit>, p: Probe, topK: int, threshold: real) returns (r: seq<Hit>)
    requires p.store.Valid()
    ensures r == gathered + Filter(Contribution(p, topK), Reaches(threshold))
  {
    if p.store.Count() != 0 && !p.raises {
      var hits := p.store.Query(p.score, topK);
      var added := FilterAtLeast(hits, threshold);
      r := gathered + added;
    } else {
      assert Filter(Contribution(p, topK), Reaches(threshold)) == [];
      r := gathered;
      assert gathered + [] == gathered;
    }
  }

  /** `for hit in hits: if hit["score"] >= score_threshold: results.append(hit)`. */
  method FilterAtLeast(hits: seq<Hit>, threshold: real) returns (added: seq<Hit>)
    ensures added == Filter(hits, Reaches(threshold))
  {
    added := [];
    var i := 0;
    while i < |hits|
      invariant i <= |hits|
      invariant added == Filter(hits[..i], Reaches(threshold))
    {
      FilterSnoc(hits[..i], hits[i], Reaches(threshold));
      assert hits[..i + 1] == hits[..i] + [hits[i]];
      if hits[i].score >= threshold {
        added := added + [hits[i]];
      }
      i := i + 1;
    }
    assert hits[..i] == hits;
  }
}
