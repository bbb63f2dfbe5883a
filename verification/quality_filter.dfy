/**
 * The noise/quality filter of core/legal_rag.py (`_is_noise_text`, `validate_legal_document`),
 * which core/langchain_rag.py repeats as `is_noise_text` / `validate_legal_document` with its
 * keyword lists gathered in one table.
 *
 * The count of noise-pattern matches (`NOISE_PATTERNS.findall(text)`, a case-insensitive
 * regular expression over CSS/JS/HTML debris) is an input: the regex engine is not modelled.
 */
module QualityFilter {
  import opened PyText

  /** Per-type minimum stripped length; any other type gets 50. */
  function MinLength(sourceType: string): (n: nat)
    ensures n >= 50
    ensures sourceType == "law" ==> n == 100
    ensures sourceType == "precedent" ==> n == 80
    ensures sourceType != "law" && sourceType != "precedent" ==> n == 50
  {
    var table := map["law" := 100, "precedent" := 80, "store_policy" := 50];
    if sourceType in table then table[sourceType] else 50
  }

  const LawKeywords: seq<string> := ["제", "조", "항", "호", "법", "규정", "시행"]
  const PrecedentKeywords: seq<string> := [
    "판시사항", "판결요지", "판례", "원고", "피고", "법원", "선고",
    "판결", "사건", "청구", "항소", "상고", "위반", "침해"
  ]
  const PolicyKeywords: seq<string> := ["앱", "정책", "가이드", "심사", "콘텐츠", "데이터", "사용자"]

  /** `keyword_map.get(source_type, LEGAL_KEYWORDS_LAW)` of core/legal_rag.py. */
  function KeywordsFor(sourceType: string): seq<string> {
    if sourceType == "law" then LawKeywords
    else if sourceType == "precedent" then PrecedentKeywords
    else if sourceType == "store_policy" then PolicyKeywords
    else LawKeywords
  }

  /** `LEGAL_KEYWORDS` of core/langchain_rag.py. */
  const LegalKeywordTable: map<string, seq<string>> :=
    map["law" := LawKeywords, "precedent" := PrecedentKeywords, "store_policy" := PolicyKeywords]

  /** `LEGAL_KEYWORDS.get(source_type, LEGAL_KEYWORDS["law"])`. */
  function TableKeywordsFor(sourceType: string): seq<string> {
    if sourceType in LegalKeywordTable then LegalKeywordTable[sourceType] else LegalKeywordTable["law"]
  }

  /** The two modules pick the same keyword list for every source type. */
  lemma KeywordTablesAgree(sourceType: string)
    ensures TableKeywordsFor(sourceType) == KeywordsFor(sourceType)
  {
  }

  /** `sum(1 for kw in keywords if kw in text)`. */
  function KeywordHits(keywords: seq<string>, text: string): (n: nat)
    ensures n <= |keywords|
  {
    if keywords == [] then 0
    else (if Contains(text, keywords[0]) then 1 else 0) + KeywordHits(keywords[1..], text)
  }

  /** `count('/') / max(len(text), 1)`, exactly. */
  function SlashRatio(text: string): real {
    CountChar(text, '/') as real / (if |text| > 1 then |text| else 1) as real
  }

  /** `_is_noise_text(text)`, given the number of noise-pattern matches in `text`. */
  predicate IsNoiseText(text: string, noiseMatches: nat) {
    if text == [] || |Strip(text)| < 10 then true
    else if noiseMatches >= 3 then true
    else SlashRatio(text) > 0.05
  }

  /** `validate_legal_document(text, source_type)`, given the number of noise-pattern matches in `text`. */
  predicate ValidateLegalDocument(text: string, sourceType: string, noiseMatches: nat) {
    if text == [] || Strip(text) == [] then false
    else if IsNoiseText(text, noiseMatches) then false
    else if |Strip(text)| < MinLength(sourceType) then false
    else KeywordHits(KeywordsFor(sourceType), text) >= 2
  }

  /** The slash rule in integers: the ratio exceeds 0.05 exactly when `20 * slashes > max(len, 1)`. */
  lemma SlashRuleInIntegers(text: string)
    ensures SlashRatio(text) > 0.05 <==> 20 * CountChar(text, '/') > (if |text| > 1 then |text| else 1)
  {
    var d := if |text| > 1 then |text| else 1;
    RatioAboveTwentieth(CountChar(text, '/') as real, d as real);
  }

  lemma RatioAboveTwentieth(c: real, d: real)
    requires d > 0.0
    ensures c / d > 0.05 <==> 20.0 * c > d
  {
    var q := c / d;
    assert q * d == c;
    if q > 0.05 {
      assert (q - 0.05) * d > 0.0;
    } else {
      assert (0.05 - q) * d >= 0.0;
    }
  }

  /** Noise is exactly one of the three signals: too short once stripped, three pattern hits, too many slashes. */
  lemma NoiseRule(text: string, noiseMatches: nat)
    ensures IsNoiseText(text, noiseMatches) <==>
      |Strip(text)| < 10 || noiseMatches >= 3 || 20 * CountChar(text, '/') > (if |text| > 1 then |text| else 1)
  {
    SlashRuleInIntegers(text);
  }

  /** A text with three or more noise-pattern matches is refused whatever its source type. */
  lemma NoisyTextRejected(text: string, sourceType: string, noiseMatches: nat)
    requires noiseMatches >= 3
    ensures !ValidateLegalDocument(text, sourceType, noiseMatches)
  {
  }

  /** What an accepted document has: not noise, at least the type's minimum length (so at least 50) and two keywords. */
  lemma AcceptedDocument(text: string, sourceType: string, noiseMatches: nat)
    requires ValidateLegalDocument(text, sourceType, noiseMatches)
    ensures !IsNoiseText(text, noiseMatches) && noiseMatches < 3
    ensures |text| >= |Strip(text)| >= MinLength(sourceType) >= 50
    ensures 20 * CountChar(text, '/') <= |text|
    ensures KeywordHits(KeywordsFor(sourceType), text) >= 2
  {
    NoiseRule(text, noiseMatches);
  }

  /** The four rejection rules are also sufficient: a text passing all of them is accepted. */
  lemma ChecksSuffice(text: string, sourceType: string, noiseMatches: nat)
    requires |Strip(text)| >= 10 && noiseMatches < 3 && 20 * CountChar(text, '/') <= |text|
    requires |Strip(text)| >= MinLength(sourceType)
    requires KeywordHits(KeywordsFor(sourceType), text) >= 2
    ensures ValidateLegalDocument(text, sourceType, noiseMatches)
  {
    NoiseRule(text, noiseMatches);
  }

  /** A statute text that passes also passes under a source type the tables do not know (law keywords, smaller minimum). */
  lemma LawAcceptanceCarriesOver(text: string, sourceType: string, noiseMatches: nat)
    requires sourceType != "law" && sourceType != "precedent" && sourceType != "store_policy"
    requires ValidateLegalDocument(text, "law", noiseMatches)
    ensures ValidateLegalDocument(text, sourceType, noiseMatches)
  {
  }
}
