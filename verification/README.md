# Legal-text retrieval core, modelled in Dafny

This project models the retrieval engine of a legal-risk triage service. The engine does six things:

- It filters scraped statute, case-law and app-store-policy text for markup noise.
- It cleans that text and cuts it into numbered chunks at article or section boundaries.
- It keeps the chunks in per-collection id → {text, metadata} stores.
- It ranks stored chunks against a query.
- It fuses a semantic and a keyword result list by reciprocal-rank fusion and weights each result by its source.
- It caches search results for five minutes.

The project also models the small rule engine that maps retrieved risk texts to suggested remedies.

The engine has two near-duplicate implementations:

- `core/legal_rag.py`: a TF-IDF store and a plain search over all collections.
- `core/langchain_rag.py`: a FAISS-backed hybrid search, with query expansion and a cache.

The parts they share are modelled once. The noise filter, the document validator and the HTML cleaner are identical in both files. The advanced chunkers clean and segment the text as the plain ones do. After that they differ:

- The plain chunkers pack segments into chunks of at most `chunk_size` and cut an oversized segment into overlapping windows.
- The advanced chunkers keep each segment as one chunk, and hand a segment longer than 800 (statutes) or 1200 (case law) characters to LangChain's splitter.

| file | module | models |
|---|---|---|
| `wrappers.dfy` | `Wrappers` | `Option` / `Result` for missing values and raised exceptions |
| `records.dfy` | `Records` | metadata dicts, chunk ids, chunks, query hits |
| `pytext.dfy` | `PyText` | Python `str` primitives: `strip`, `in`, `count`, ASCII `lower`, `" ".join` |
| `ranking.dfy` | `Ranking` | `xs[:k]` with Python's meaning for every `k`; stable descending sort; order-keeping filter |
| `quality_filter.dfy` | `QualityFilter` | `_is_noise_text` / `is_noise_text`, `validate_legal_document` (both files) |
| `html_cleaner.dfy` | `HtmlCleaner` | `_clean_html`: the four `re.sub` passes as left-to-right scans, then `strip` |
| `segmenter.dfy` | `Segmenter` | `re.split` on the article and section lookaheads; the header/content merge |
| `chunker.dfy` | `Chunker` | `_generate_chunk_id`, `_append_chunk`, `chunk_law_text`, `chunk_precedent_text` |
| `vector_store.dfy` | `Store` | `VectorStore` (`upsert`, `count`, ranking part of `query`, `clear`) and `search_legal_context` of `core/legal_rag.py` |
| `advanced_chunker.dfy` | `AdvancedChunker` | `chunk_law_text_advanced`, `chunk_precedent_text_advanced` (segmenting and numbering) |
| `query_expansion.dfy` | `QueryExpansion` | `LEGAL_SYNONYMS`, `expand_query` |
| `hybrid_ranker.dfy` | `HybridRanker` | the RRF loops, the sort of fused keys and the cut to `2 * top_k` |
| `hybrid_search.dfy` | `HybridSearch` | source weights, final sort/threshold/cut, the TTL cache, `search_store_policies`, `clear_cache` |
| `solution_engine.dfy` | `SolutionEngine` | `STRATEGY_MAP`, `suggest_solutions` |

The model follows the shape of the code:

- Code that mutates state is imperative Dafny:
  - `VectorStore` is a class whose methods reassign its `docs` map.
  - The result cache is a class holding the cache map.
  - The chunkers, the RRF loops, the weighting loop and the solution engine are methods with loops.
- Each method is proved equal to a specification function.
- The properties the source promises are lemmas about those functions.
- The pure predicates and the query expander are functions.

Where the design description of the engine and the code disagree, the code is followed:

- The source types are `"law"`, `"precedent"` and `"store_policy"`, not statute / case_law.
- An unknown source type gets weight 0.5, minimum length 50 and the statute keyword list.
- The packing test is `len(current) + len(segment) + 1 <= chunk_size` even when the buffer is empty.
- The case-law header merge repeats the header. Both precedent chunkers are modelled with the merge as written. The chunkers over the corrected sections are separate members (see Findings).

## Model

| member | source | states |
|---|---|---|
| `QualityFilter.NoiseRule` | core/legal_rag.py:240-252 | text is noise iff its stripped length is below 10, or there are at least 3 noise-pattern matches, or `20 * count('/') > max(len, 1)` |
| `QualityFilter.SlashRuleInIntegers` | core/legal_rag.py:249-251 | the exact-rational test `count('/') / max(len,1) > 0.05` equals the integer test `20 * slashes > max(len, 1)` |
| `QualityFilter.MinLength` | core/legal_rag.py:270-271 | per-type minimum: law 100, precedent 80, exactly 50 for every other type (store_policy and unknown ones) |
| `QualityFilter.NoisyTextRejected` | core/legal_rag.py:244-247 | three or more noise matches make validation fail for every source type |
| `QualityFilter.AcceptedDocument` | core/legal_rag.py:255-290 | an accepted text is not noise, has under 3 noise matches, meets the type's minimum stripped length, has at most 1 slash per 20 chars and has at least 2 keyword hits |
| `QualityFilter.ChecksSuffice` | core/legal_rag.py:255-290 | conversely, a text passing the noise, length and keyword rules is accepted |
| `QualityFilter.LawAcceptanceCarriesOver` | core/legal_rag.py:270-285 | an unknown source type uses the law keywords with a smaller minimum, so a text accepted as law is accepted under it |
| `QualityFilter.KeywordTablesAgree` | core/langchain_rag.py:100-107 | the `LEGAL_KEYWORDS` table with its law fallback picks the same list as the `keyword_map` of core/legal_rag.py for every type |
| `HtmlCleaner.RemoveTagsLeavesNoTag` | core/legal_rag.py:298 | after tag removal no `<[^>]+>` match remains, even where a removal joined two pieces |
| `HtmlCleaner.RemoveTags` | core/legal_rag.py:298 | tag removal never lengthens the text and keeps a leading non-`<` character |
| `HtmlCleaner.RemoveTagsKeepsPlain` | core/legal_rag.py:298 | a `<`-free prefix is kept unchanged in front of the rest's result |
| `HtmlCleaner.RemoveTagsDropsTag` | core/legal_rag.py:298 | a complete tag `<t>` (t non-empty, no `>`) is deleted and the scan resumes right after it |
| `HtmlCleaner.RemoveTagsKeepsLoneBracket` | core/legal_rag.py:298 | a `<` that opens no tag (at the end, before `>`, or with no `>` after it) is kept |
| `HtmlCleaner.CollapseSpaces` | core/legal_rag.py:300 | the result is single-spaced with only plain spaces, keeps the non-whitespace content, starts like its input, and is empty iff its input is |
| `HtmlCleaner.CollapseKeepsWord` | core/legal_rag.py:300 | a whitespace-free prefix is kept unchanged in front of the rest's result |
| `HtmlCleaner.CollapseRun` | core/legal_rag.py:300 | a maximal whitespace run of any length and kind becomes exactly one plain space |
| `HtmlCleaner.CleanHtmlShape` | core/legal_rag.py:293-301 | the cleaned text has no whitespace at either end and no two consecutive whitespace characters |
| `Segmenter.ArticleSplit` | core/legal_rag.py:331 | the pieces of the split at `제\d+조[\s(]` concatenate back to the cleaned text |
| `Segmenter.StripNonEmpty` | core/legal_rag.py:332 | `[s.strip() for s in pieces if s.strip()]` keeps only non-empty trimmed pieces |
| `Segmenter.LawSegments` | core/legal_rag.py:330-336 | the statute segments are never empty (the whole text when no piece survives), each trimmed |
| `Segmenter.MergeGluesHeader` | core/legal_rag.py:425-428 | a header token is glued to the next token as `"[" + h + "] " + strip(next)` |
| `Segmenter.MergeRepeatsHeader` | core/legal_rag.py:418-434 | as written, a text opening with section header `h` yields a first segment starting `[h] [h]` |
| `Segmenter.SectionPieces` | core/legal_rag.py:418-419 | the corrected section pieces concatenate back to the cleaned text |
| `Segmenter.SectionPiecesAligned` | core/legal_rag.py:418-438 | every corrected piece after the first starts with its own bracketed section header |
| `Segmenter.PrecedentSegments` | core/legal_rag.py:436-438 | the corrected case-law segments are never empty (the whole text when no piece survives), each trimmed |
| `Segmenter.MergedSegments` | core/legal_rag.py:418-438 | the case-law segments as written (split, merge, fallback to the whole text) are never empty, each trimmed |
| `Segmenter.SplitTokensNonBlank` | core/legal_rag.py:418-419 | every token of the section split after the first (a header name or a piece starting at `[`) strips to something non-empty |
| `Segmenter.MergeTrimmed` | core/legal_rag.py:420-434 | when every token after the first is non-blank, every merged segment, including `[h] next`, is trimmed |
| `Segmenter.MergedSegmentsRepeatHeader` | core/legal_rag.py:418-438 | as written, a text opening with header `h` gets a first segment starting `[h] [h]` |
| `Chunker.ChunkIdsDistinct` | core/legal_rag.py:304-307 | chunk ids of different `(source_id, chunk_index)` pairs differ |
| `Chunker.AppendChunk` | core/legal_rag.py:375-386 | the new chunk is appended with index `len(chunks)`, id `gen(source_id, idx)` and the parent metadata plus `chunk_index`; a well-indexed list stays well indexed |
| `Chunker.WindowsBounded` | core/legal_rag.py:357-361 | each window of an oversized segment is non-empty, trimmed and at most `chunk_size` long; a negative step yields no window |
| `Chunker.PackBounded` | core/legal_rag.py:342-370 | every chunk text the packing produces is non-empty and at most `chunk_size` long |
| `Chunker.PackFailsIff` | core/legal_rag.py:356-357 | packing raises exactly when `overlap == chunk_size` and some segment is longer than `chunk_size` |
| `Chunker.PackLossless` | core/legal_rag.py:342-370 | with no oversized segment, the chunks joined by spaces equal the segments joined by spaces |
| `Chunker.AppendWindows` | core/legal_rag.py:357-361 | the window loop appends exactly the non-empty stripped windows, in order, numbered on |
| `Chunker.PackSegments` | core/legal_rag.py:339-372 | the packing loop's chunks are the packing specification's texts, well indexed; it fails iff the specification raises |
| `Chunker.ChunkLawText` | core/legal_rag.py:310-372 | `[]` for empty cleaned text; raises iff overlap equals chunk size and an article is too long; chunks non-empty, at most `chunk_size`, i-th has index i and id `gen(source_id, i)`; lossless when no article is too long |
| `Chunker.ChunkPrecedentText` | core/legal_rag.py:389-468 | the same guarantees as `chunk_law_text` over the case-law segments as written (header merge included) |
| `Chunker.ChunkPrecedentTextCorrected` | core/legal_rag.py:389-468 | the same guarantees over the corrected case-law sections, each section once |
| `Store.VectorStore.constructor` | core/legal_rag.py:109-114 | a new collection is empty |
| `Store.UpsertLastWins` | core/legal_rag.py:131-140 | after `upsert`, each id of the zipped prefix maps to the last (text, metadata) given for it |
| `Store.UpsertKeepsOthers` | core/legal_rag.py:131-140 | ids outside the zipped batch keep their entry or their absence |
| `Store.UpsertKeys` | core/legal_rag.py:131-140 | the stored ids afterwards are the old ids plus the batch's zipped ids |
| `Store.AppendedListsKeys` | core/legal_rag.py:131-140 | the dict's key order stays a duplicate-free list of exactly the stored ids |
| `Store.VectorStore.Upsert` | core/legal_rag.py:131-140 | the loop leaves the upserted map and key order |
| `Store.VectorStore.Count` | core/legal_rag.py:142-143 | `count()` is the number of distinct stored ids |
| `Store.VectorStore.Clear` | core/legal_rag.py:218-222 | after `clear()` the store is empty and `count()` is 0 |
| `Store.VectorStore.Query` | core/legal_rag.py:145-216 | `query` returns the query-ranking specification's hits for the given similarities |
| `Store.PositiveHits` | core/legal_rag.py:201-214 | the result loop keeps, in order, a hit for each ranked id with positive similarity |
| `Store.QueryRanked` | core/legal_rag.py:160-216 | empty store gives `[]`; at most `n_results` hits; all positive; non-increasing scores |
| `Store.QueryKeepsBest` | core/legal_rag.py:199-216 | a positive-scoring id left out means `n_results` hits came back, all scoring at least as much |
| `Store.FilterAtLeast` | core/legal_rag.py:958-961 | the hits kept are exactly those scoring at least the threshold, in order |
| `Store.SearchCollection` | core/legal_rag.py:950-962 | an empty collection or one whose query raises adds nothing; otherwise its thresholded hits are appended |
| `Store.GatheredBounded` | core/legal_rag.py:950-962 | every gathered hit reaches the threshold and each collection contributes at most `top_k` hits |
| `Store.Ranked` | core/legal_rag.py:967-968 | the merged list sorted descending and cut: non-increasing, at most `top_k`, drawn from the input |
| `Store.SearchLegalContext` | core/legal_rag.py:925-969 | the search returns the gathered, thresholded, sorted and truncated hits; every result reaches the threshold |
| `AdvancedChunker.ChunkMetadata` | core/langchain_rag.py:362-366 | chunk metadata is the parent's with `chunk_index` and `source_type` overwritten and every other key unchanged |
| `AdvancedChunker.ShortSegmentKept` | core/langchain_rag.py:355-359 | a segment of at most the splitter size is emitted as exactly one unchanged chunk in its place |
| `AdvancedChunker.AllShortKept` | core/langchain_rag.py:355-359 | with no long segment the chunks are exactly the segments |
| `AdvancedChunker.AppendDocuments` | core/langchain_rag.py:361-368 | documents are appended in order, each numbered `len(documents)` |
| `AdvancedChunker.EmitSegments` | core/langchain_rag.py:355-368 | the emitted contents are the segments with long ones split; indices are 0..n-1 |
| `AdvancedChunker.ChunkLawTextAdvanced` | core/langchain_rag.py:335-370 | `[]` for empty cleaned text; contents are the statute segments (over 800 split); `source_type` "law", `chunk_index` 0..n-1 |
| `AdvancedChunker.ChunkPrecedentTextAdvanced` | core/langchain_rag.py:373-422 | `[]` for empty cleaned text; contents are the case-law segments as written (header merge included, over 1200 split); `source_type` "precedent", `chunk_index` 0..n-1 |
| `AdvancedChunker.ChunkPrecedentTextAdvancedCorrected` | core/langchain_rag.py:373-422 | the same over the corrected case-law sections, each section once |
| `QueryExpansion.AddedTermsIff` | core/langchain_rag.py:183-186 | a term is added iff it is among the first two synonyms of a table entry whose key occurs in the query |
| `QueryExpansion.TwoPerMatch` | core/langchain_rag.py:183-186 | with at least two synonyms per entry, each matching entry adds exactly two terms |
| `QueryExpansion.ExpandShape` | core/langchain_rag.py:179-188 | the expansion is the query then, space-separated, the added terms in table order, two per matching key |
| `QueryExpansion.NoMatchUnchanged` | core/langchain_rag.py:179-188 | with no key occurring in the query, the query comes back unchanged |
| `QueryExpansion.ChildQueryKeepsDuplicates` | core/langchain_rag.py:165-188 | for "어린이 아동" both entries match and "미성년자" is added twice: duplicates are not removed |
| `HybridRanker.FuseSemantic` | core/langchain_rag.py:759-766 | after the semantic loop each fingerprint's sum is Σ 0.7/(60+rank) and its record is its last semantic occurrence |
| `HybridRanker.FuseKeyword` | core/langchain_rag.py:768-773 | after the keyword loop sums add Σ 0.3/(60+rank); the record is the last semantic occurrence, else the first keyword one |
| `HybridRanker.KeysAreSeen` | core/langchain_rag.py:759-773 | the fused keys are exactly the fingerprints occurring in either list |
| `HybridRanker.RecordChoice` | core/langchain_rag.py:762-773 | the record kept for a fingerprint carries it: the last semantic occurrence, else the first keyword occurrence |
| `HybridRanker.FusedPositiveIffSeen` | core/langchain_rag.py:759-773 | a fused score is non-negative, and positive iff the fingerprint occurs in some list |
| `HybridRanker.HybridKeys` | core/langchain_rag.py:776-777 | every sorted, cut key was seen in the two lists |
| `HybridRanker.WriteHybridScores` | core/langchain_rag.py:777-780 | each kept record gets its fused score written in as `hybrid_score` |
| `HybridRanker.HybridResults` | core/langchain_rag.py:759-780 | the hybrid branch returns the hybrid-list specification |
| `HybridRanker.HybridRanked` | core/langchain_rag.py:776-780 | at most `2*top_k` entries, one per fingerprint, by non-increasing fused score, each with its fused score |
| `HybridRanker.HybridKeepsBest` | core/langchain_rag.py:776-780 | a seen fingerprint left out means `2*top_k` entries with fused score at least its own were kept |
| `HybridSearch.SourceWeightTable` | core/langchain_rag.py:65-69 | weight 1.0 for law, 0.9 for precedent, 0.8 for store_policy, 0.5 otherwise |
| `HybridSearch.ApplyWeights` | core/langchain_rag.py:786-790 | the weighting loop writes `weighted_score` into every result |
| `HybridSearch.WeightingScales` | core/langchain_rag.py:786-790 | only `weighted_score` changes; it is base score × source weight, between half the base and the base for non-negative bases |
| `HybridSearch.FinalRanked` | core/langchain_rag.py:793-794 | the final list has at most `top_k` items, non-increasing weighted score, each an input whose original `score` reaches the threshold |
| `HybridSearch.FinalKeepsBest` | core/langchain_rag.py:793-794 | a passing result left out means `top_k` results with weighted score at least its own were kept |
| `HybridSearch.RunPipeline` | core/langchain_rag.py:741-794 | the uncached search is the expansion / fusion / weighting / ranking specification |
| `HybridSearch.PipelineRanked` | core/langchain_rag.py:741-794 | the uncached search returns at most `top_k` weighted results, non-increasing, all at or above the threshold |
| `HybridSearch.WeightedHybridList` | core/langchain_rag.py:776-790 | every weighted hybrid entry carries its fused score and that score times its source weight |
| `HybridSearch.PipelineHybridScores` | core/langchain_rag.py:750-794 | in hybrid mode each result's `weighted_score` is its fused score × source weight |
| `HybridSearch.FreshHitIgnoresSettings` | core/langchain_rag.py:732-738 | a fresh entry for (query, top_k, collections) is returned unchanged; threshold, flags and retrievers do not matter |
| `HybridSearch.MissRecomputes` | core/langchain_rag.py:800-802 | a stale or missing entry is recomputed and stored under its key; other keys unchanged |
| `HybridSearch.RepeatWithinTtl` | core/langchain_rag.py:732-802 | repeating a cached call within 300 s returns the stored list and leaves the cache as it was |
| `HybridSearch.StorePoliciesFiltered` | core/langchain_rag.py:822-843 | `search_store_policies` raises iff a filter is on and a store name is not a string; otherwise it returns at most `top_k` searched results; with a filter, exactly the first `top_k` results of the filtered store in search order, so a matching result is dropped only when `top_k` were returned |
| `HybridSearch.SearchCache.constructor` | core/langchain_rag.py:62 | the cache starts empty |
| `HybridSearch.SearchCache.SearchLegalContext` | core/langchain_rag.py:706-804 | the cached search's results and new cache are the cached-search specification |
| `HybridSearch.SearchCache.SearchStorePolicies` | core/langchain_rag.py:822-843 | the policy search's outcome and new cache are the store-policy specification |
| `HybridSearch.SearchCache.ClearCache` | core/langchain_rag.py:868-872 | the cache is empty and no key has a fresh entry |
| `SolutionEngine.SuggestSolutions` | startup-legal-helper-main/core/solution_engine.py:44-63 | the nested loops and the fallback give the suggestion specification |
| `SolutionEngine.ScanResult` | startup-legal-helper-main/core/solution_engine.py:53-57 | the inner loop appends, in map order, the solutions of not-yet-found matching categories |
| `SolutionEngine.SelectedIff` | startup-legal-helper-main/core/solution_engine.py:51-54 | a category is selected iff some result's text (missing = "") contains one of its patterns |
| `SolutionEngine.FoundOnce` | startup-legal-helper-main/core/solution_engine.py:55-57 | each category is added at most once however many results match it |
| `SolutionEngine.FoundOrdered` | startup-legal-helper-main/core/solution_engine.py:51-57 | categories appear by first matching result, and in map order within one result |
| `SolutionEngine.SolutionsLength` | startup-legal-helper-main/core/solution_engine.py:56 | k categories of three solutions give 3k lines |
| `SolutionEngine.Fallback` | startup-legal-helper-main/core/solution_engine.py:60-61 | the output is the single generic line iff nothing matches (empty input included), else 3 × categories found |
| `SolutionEngine.StrategyMapDistinct` | startup-legal-helper-main/core/solution_engine.py:17-42 | `STRATEGY_MAP` has three distinctly named categories |
| `SolutionEngine.StrategyMapThreeEach` | startup-legal-helper-main/core/solution_engine.py:17-42 | every category of `STRATEGY_MAP` has three solutions |
| `SolutionEngine.StrategyMapFallback` | startup-legal-helper-main/core/solution_engine.py:17-61 | with `STRATEGY_MAP`: the generic line iff no pattern occurs, else 3 × categories found |
| `SolutionEngine.DemoSuggestsCopyright` | startup-legal-helper-main/core/solution_engine.py:66-71 | the demo text containing "무단 수집" yields exactly the three 저작권 solutions |

## Left out

- The regular expression `NOISE_PATTERNS`: the number of its matches in a text is an input (`noiseMatches`) to the filter, since the regex engine is not modelled.
- The TF-IDF vectorisers and cosine similarity of `VectorStore.query`: the combined similarity of each stored document is an input function `score` of the id. Both use floating point and scikit-learn.
- `Store.VectorStore.Query`: ties in similarity are ordered by the stable sort over insertion order. The source uses `np.argsort(...)[::-1]`, whose default sort is not stable, so the order among equal scores is not modelled.
- `round(..., 4)` on every score: floating-point rounding. Scores are exact reals.
- MD5 digests:
  - Chunk ids are the `(source_id, chunk_index)` pair.
  - Fingerprints are the 100-character text prefix.
  - Cache keys are the `(query, top_k, collections)` triple.
  - All three stand in for injective functions. Collisions of MD5 or of the `f"{query}:{top_k}:{collections}"` format are not modelled.
- `RecursiveCharacterTextSplitter`: its `split_text` is a parameter `split` of the advanced chunkers.
- The FAISS semantic search and the SQLite FTS keyword search (`_semantic_search`, `_keyword_search`) are input functions (`Backends`). Their exception handling and distance-to-score conversion are not modelled.
- The clock: each cached search takes the time it starts at (`now`) and the time it stores its result at (`finishedAt`).
- JSON load/save of collections, `os.remove` in `clear`, and the atomicity of the file rewrite: file I/O. A failed save is not modelled.
- `get_or_create_collection` and the module-level `_stores` / `_search_cache` singletons: the model passes the store and the cache explicitly. Unsynchronised sharing across threads is not modelled.
- Logging, timing and `_db.log_search`: side effects with no effect on results.
- Ingestion (`ingest_*`, `sync_legal_data`, `_extract_*`) and the FAISS/OpenAI index building: network and file I/O.
- `Chunker.ChunkLawText`: `chunk_size` is a natural number. A negative `chunk_size`, where Python slicing with negative bounds applies, is not modelled. The same holds for `Chunker.ChunkPrecedentText` and `Chunker.ChunkPrecedentTextCorrected`.
- Metadata values are strings or integers. Other JSON values (floats, lists, nested dicts) are not modelled.
- `HybridRanker.HybridResults`: the source writes `hybrid_score` and `weighted_score` into the result dicts in place. The model builds new values, so aliasing of those dicts is not captured. Each dict is written at most once per search.
- `Segmenter.ArticleSplit`: `\d` in `제\d+조[\s(]` is taken as the ASCII digits 0-9. Python's `\d` on a `str` pattern also matches every other Unicode decimal digit, such as the full-width `１`. A cut before such an article (`제１조 `) is not modelled. The same holds for `Segmenter.LawSegments`, `Chunker.ChunkLawText` and `AdvancedChunker.ChunkLawTextAdvanced`, which use it.
- `HybridSearch.StorePoliciesFiltered`: the store name and the filter are lowered by `LowerAscii`, which maps only A-Z. Python's `str.lower()` lowers every Unicode letter, so a store name differing from the filter in non-ASCII letter case is not modelled.
- `HybridSearch.SearchCache.SearchStorePolicies`: uses the same ASCII-only lowering as `HybridSearch.StorePoliciesFiltered`, with the same gap.
- Python strings are modelled as sequences of code points. Case-insensitive matching in `_clean_html` covers ASCII and the four non-ASCII characters Python folds to ASCII letters.

## Findings

| source | as written | input that shows it | evidently intended | confidence | as-written member | corrected member |
|---|---|---|---|---|---|---|
| core/legal_rag.py:418-434 (repeated at core/langchain_rag.py:382-400) | `re.split` with the lookahead `(?=\[(header)\])` keeps `[header]` at the start of the piece after each cut. The merge then puts another `[header] ` in front of that piece. | a cleaned precedent text starting `[판시사항] 내용` gives the first segment `[판시사항] [판시사항] 내용` | each section once, starting with its own `[header]`, with the pieces concatenating back to the text | high (not executed) | `Segmenter.MergeRepeatsHeader` | `Segmenter.SectionPiecesAligned` |

The chunkers `Chunker.ChunkPrecedentText` and `AdvancedChunker.ChunkPrecedentTextAdvanced` model the merge as written (`Segmenter.MergedSegmentsRepeatHeader` shows the repeated header in their segments). `Chunker.ChunkPrecedentTextCorrected` and `AdvancedChunker.ChunkPrecedentTextAdvancedCorrected` are the same chunkers over the corrected sections.
