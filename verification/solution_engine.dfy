/**
 * `SolutionEngine.suggest_solutions` of startup-legal-helper-main/core/solution_engine.py: for
 * every analysis result and every risk category of `STRATEGY_MAP`, in that order, a category
 * whose patterns occur in the result's text contributes its solutions unless a category of the
 * same name was already found; with no match at all the answer is the single generic line.
 *
 * The engine is written over any strategy table; `StrategyMap` is the one the class carries.
 */
module SolutionEngine {
  import opened PyText
  import opened Wrappers
  import opened Ranking

  /** One entry `category: {"patterns": [...], "solutions": [...]}` of `STRATEGY_MAP`. */
  datatype Strategy = Strategy(category: string, patterns: seq<string>, solutions: seq<string>)

  /** `SolutionEngine.STRATEGY_MAP`, in the dict's order. */
  const StrategyMap: seq<Strategy> := [
    Strategy("저작권", ["무단 수집", "복제", "2차 저작물", "크롤링"], [
      "1. 공정 이용(Fair Use) 가이드라인 준수: 영리적 목적 외에 교육/연구/비평 목적으로 변형적 활용(Transformative Use) 강조.",
      "2. 데이터 원천 차별화: 자체 생성 데이터(LLM Synthetic Data) 비율 확대 및 출처 명기(Attribution) 강화.",
      "3. API 약관 우회: 재배포 금지 시, 원본 데이터가 아닌 '가공된 통계/추상화된 데이터'만 노출하도록 아키텍처 변경."
    ]),
    Strategy("개인정보", ["제3자 제공", "수집 동의", "위치정보", "민감데이터"], [
      "1. 로컬 처리 전환: 서버 수집 없이 사용자 기기 내(Edger AI/Local Storage)에서만 처리하도록 변경.",
      "2. 익명화/가명화 강화: 개인 식별 정보(PII)를 비가역적으로 암호화하거나 합성 데이터로 대체.",
      "3. 동의 UI 고도화: '포괄적 동의'가 아닌 '기능별 선택 동의'로 UI/UX 세분화하여 리젝 위험 방해."
    ]),
    Strategy("특허", ["기능 유사", "UI 카피", "동일 로직"], [
      "1. 기술적 우회 설계(Design Around): 핵심 구성 요소 중 하나를 완전히 다른 메커니즘으로 교체하여 특허의 '모든 구성 요소 불침해' 원칙 적용.",
      "2. 선행기술 조사 기반 차별화: 기존 특허의 공백 영역을 찾아내어 해당 영역으로 서비스 로직 집중.",
      "3. 오픈소스 대안: 특허가 걸린 상용 라이브러리 대신, 권리 관계가 깨끗한 Permissive License(MIT/Apache) 기반으로 재구현."
    ])
  ]

  /** The line returned when no category matches. */
  const GenericSolution: string :=
    "범용 솔루션: 서비스 설명의 독창성(Originality)을 강화하고, 서비스 이용 약관에 법적 면책 조항을 명확히 명시하십시오."

  /** An analysis result; only its `text` (possibly missing) is read. */
  datatype AnalysisResult = AnalysisResult(text: Option<string>)

  /** `result.get("text", "")`. */
  function TextOf(r: AnalysisResult): string {
    if r.text.Some? then r.text.value else ""
  }

  /** `any(p in text for p in data["patterns"])`. */
  predicate Matches(patterns: seq<string>, text: string) {
    exists p | p in patterns :: Contains(text, p)
  }

  /** Every entry is a position in the table. */
  predicate Positions(table: seq<Strategy>, cats: seq<nat>) {
    forall i | 0 <= i < |cats| :: cats[i] < |table|
  }

  /** The category names of the entries at the given positions: `found_categories`. */
  function Names(table: seq<Strategy>, cats: seq<nat>): set<string> {
    set c | c in cats && c < |table| :: table[c].category
  }

  /** The keys of a dict differ. */
  predicate DistinctCategories(table: seq<Strategy>) {
    forall i, j | 0 <= i < j < |table| :: table[i].category != table[j].category
  }

  /** Every category offers three solutions, as every entry of `STRATEGY_MAP` does. */
  predicate ThreeEach(table: seq<Strategy>) {
    forall s | s in table :: |s.solutions| == 3
  }

  /** The positions found after the inner loop has looked at the first `k` categories for `text`. */
  function Scan(table: seq<Strategy>, text: string, found: seq<nat>, k: nat): (r: seq<nat>)
    requires k <= |table| && Positions(table, found)
    ensures Positions(table, r)
  {
    if k == 0 then found
    else
      var f := Scan(table, text, found, k - 1);
      if Matches(table[k - 1].patterns, text) && table[k - 1].category !in Names(table, f) then f + [k - 1] else f
  }

  /** The positions found, in the order found, after the first `n` results. */
  function Found(table: seq<Strategy>, results: seq<AnalysisResult>, n: nat): (r: seq<nat>)
    requires n <= |results|
    ensures Positions(table, r)
  {
    if n == 0 then [] else Scan(table, TextOf(results[n - 1]), Found(table, results, n - 1), |table|)
  }

  /** The solution lists of the categories at the given positions, run together. */
  function Solutions(table: seq<Strategy>, cats: seq<nat>): seq<string>
    requires Positions(table, cats)
  {
    if cats == [] then [] else Solutions(table, cats[..|cats| - 1]) + table[cats[|cats| - 1]].solutions
  }

  /** `suggest_solutions(analysis_results)` with `table` as `STRATEGY_MAP`. */
  function Suggestions(table: seq<Strategy>, results: seq<AnalysisResult>): seq<string> {
    var s := Solutions(table, Found(table, results, |results|));
    if s == [] then [GenericSolution] else s
  }

  /** The nested loops of `suggest_solutions` and the fallback after them. */
  method SuggestSolutions(table: seq<Strategy>, results: seq<AnalysisResult>) returns (suggested: seq<string>)
    ensures suggested == Suggestions(table, results)
  {
    suggested := [];
    var foundCategories: set<string> := {};
    ghost var cats: seq<nat> := [];
    for i := 0 to |results|
      invariant cats == Found(table, results, i)
      invariant suggested == Solutions(table, cats)
      invariant foundCategories == Names(table, cats)
    {
      suggested, foundCategories, cats := ScanResult(table, TextOf(results[i]), suggested, foundCategories, cats);
    }
    if suggested == [] {
      suggested := [GenericSolution];
    }
  }

  /** The inner loop `for category, data in self.STRATEGY_MAP.items()` for one result's text. */
  method ScanResult(table: seq<Strategy>, text: string, suggested0: seq<string>, names0: set<string>, ghost cats0: seq<nat>)
    returns (suggested: seq<string>, names: set<string>, ghost cats: seq<nat>)
    requires Positions(table, cats0)
    requires suggested0 == Solutions(table, cats0) && names0 == Names(table, cats0)
    ensures Positions(table, cats) && cats == Scan(table, text, cats0, |table|)
    ensures suggested == Solutions(table, cats) && names == Names(table, cats)
  {
    suggested, names, cats := suggested0, names0, cats0;
    for c := 0 to |table|
      invariant cats == Scan(table, text, cats0, c)
      invariant suggested == Solutions(table, cats) && names == Names(table, cats)
    {
      var data := table[c];
      if Matches(data.patterns, text) {
        if data.category !in names {
          SolutionsSnoc(table, cats, c);
          NamesSnoc(table, cats, c);
          suggested := suggested + data.solutions;
          names := names + {data.category};
          cats := cats + [c];
        }
      }
    }
  }

  /** Appending a position adds its category's name. */
  lemma NamesSnoc(table: seq<Strategy>, cats: seq<nat>, c: nat)
    requires c < |table|
    ensures Names(table, cats + [c]) == Names(table, cats) + {table[c].category}
  {
    assert c in cats + [c];
    forall n | n in Names(table, cats + [c]) ensures n in Names(table, cats) + {table[c].category} {
      var d :| d in cats + [c] && d < |table| && table[d].category == n;
      if d != c {
        assert d in cats;
      }
    }
  }

  /** With distinct names, a category's name has been recorded exactly when its position was found. */
  lemma NameRecorded(table: seq<Strategy>, cats: seq<nat>, c: nat)
    requires DistinctCategories(table) && c < |table|
    ensures table[c].category in Names(table, cats) <==> c in cats
  {
    if table[c].category in Names(table, cats) {
      var d :| d in cats && d < |table| && table[d].category == table[c].category;
      assert d == c;
    }
  }

  lemma SolutionsSnoc(table: seq<Strategy>, cats: seq<nat>, c: nat)
    requires Positions(table, cats) && c < |table|
    ensures Solutions(table, cats + [c]) == Solutions(table, cats) + table[c].solutions
  {
    assert (cats + [c])[..|cats|] == cats;
  }

  /**
   * With distinct category names, a position is in the inner scan's output exactly when it was
   * found before or is among the first `k` and its category matches the text.
   */
  lemma {:induction false} ScanMembers(table: seq<Strategy>, text: string, found: seq<nat>, k: nat, c: nat)
    requires k <= |table| && Positions(table, found) && DistinctCategories(table) && c < |table|
    ensures c in Scan(table, text, found, k) <==> c in found || (c < k && Matches(table[c].patterns, text))
  {
    if k > 0 {
      ScanMembers(table, text, found, k - 1, c);
      NameRecorded(table, Scan(table, text, found, k - 1), k - 1);
    }
  }

  /** A result among the first `n` that matches category `c` makes `c` found. */
  lemma {:induction false} MatchSelected(table: seq<Strategy>, results: seq<AnalysisResult>, n: nat, i: nat, c: nat)
    requires DistinctCategories(table) && c < |table|
    requires i < n <= |results| && Matches(table[c].patterns, TextOf(results[i]))
    ensures c in Found(table, results, n)
  {
    ScanMembers(table, TextOf(results[n - 1]), Found(table, results, n - 1), |table|, c);
    if i < n - 1 {
      MatchSelected(table, results, n - 1, i, c);
    }
  }

  /** A found category has a result among the first `n` that matches it. */
  lemma {:induction false} SelectedWitness(table: seq<Strategy>, results: seq<AnalysisResult>, n: nat, c: nat) returns (i: nat)
    requires DistinctCategories(table) && c < |table|
    requires n <= |results| && c in Found(table, results, n)
    ensures i < n && Matches(table[c].patterns, TextOf(results[i]))
  {
    ScanMembers(table, TextOf(results[n - 1]), Found(table, results, n - 1), |table|, c);
    if c in Found(table, results, n - 1) {
      i := SelectedWitness(table, results, n - 1, c);
    } else {
      i := n - 1;
    }
  }

  /**
   * A category is selected exactly when the text of some result (a missing text counting as
   * empty) contains one of its patterns.
   */
  lemma SelectedIff(table: seq<Strategy>, results: seq<AnalysisResult>, c: nat)
    requires DistinctCategories(table) && c < |table|
    ensures c in Found(table, results, |results|) <==> exists i | 0 <= i < |results| :: Matches(table[c].patterns, TextOf(results[i]))
  {
    if c in Found(table, results, |results|) {
      var i := SelectedWitness(table, results, |results|, c);
    }
    if exists i | 0 <= i < |results| :: Matches(table[c].patterns, TextOf(results[i])) {
      var i :| 0 <= i < |results| && Matches(table[c].patterns, TextOf(results[i]));
      MatchSelected(table, results, |results|, i, c);
    }
  }

  /** The scan adds a category only if no category of that name is there already. */
  lemma {:induction false} ScanDistinct(table: seq<Strategy>, text: string, found: seq<nat>, k: nat)
    requires k <= |table| && Positions(table, found) && Distinct(found)
    ensures Distinct(Scan(table, text, found, k))
  {
    if k > 0 {
      var f := Scan(table, text, found, k - 1);
      ScanDistinct(table, text, found, k - 1);
      if table[k - 1].category !in Names(table, f) {
        assert (k - 1) !in f;
      }
    }
  }

  /** Each category's solutions are appended at most once, however many results match it. */
  lemma {:induction false} FoundOnce(table: seq<Strategy>, results: seq<AnalysisResult>, n: nat)
    requires n <= |results|
    ensures Distinct(Found(table, results, n))
  {
    if n > 0 {
      FoundOnce(table, results, n - 1);
      ScanDistinct(table, TextOf(results[n - 1]), Found(table, results, n - 1), |table|);
    }
  }

  /** The index of the first of the first `n` results that matches category `s`, or `n` if none does. */
  function FirstMatch(s: Strategy, results: seq<AnalysisResult>, n: nat): (r: nat)
    requires n <= |results|
    ensures r <= n
    ensures r < n ==> Matches(s.patterns, TextOf(results[r]))
  {
    if n == 0 then 0
    else
      var f := FirstMatch(s, results, n - 1);
      if f < n - 1 then f else if Matches(s.patterns, TextOf(results[n - 1])) then n - 1 else n
  }

  /** Position `a` comes before position `b` by first matching result, and by map order within one result. */
  predicate Before(table: seq<Strategy>, results: seq<AnalysisResult>, n: nat, a: nat, b: nat)
    requires n <= |results| && a < |table| && b < |table|
  {
    FirstMatch(table[a], results, n) < FirstMatch(table[b], results, n)
    || (FirstMatch(table[a], results, n) == FirstMatch(table[b], results, n) && a < b)
  }

  lemma {:induction false} FirstMatchFound(table: seq<Strategy>, results: seq<AnalysisResult>, n: nat, c: nat)
    requires DistinctCategories(table) && c < |table| && n <= |results|
    ensures c in Found(table, results, n) <==> FirstMatch(table[c], results, n) < n
  {
    if n > 0 {
      FirstMatchFound(table, results, n - 1, c);
      ScanMembers(table, TextOf(results[n - 1]), Found(table, results, n - 1), |table|, c);
    }
  }

  /** The scan appends, in map order, categories not found before. */
  lemma {:induction false} ScanAppends(table: seq<Strategy>, text: string, found: seq<nat>, k: nat)
    requires k <= |table| && Positions(table, found) && DistinctCategories(table)
    ensures |found| <= |Scan(table, text, found, k)| && Scan(table, text, found, k)[..|found|] == found
    ensures forall j | |found| <= j < |Scan(table, text, found, k)| ::
      Scan(table, text, found, k)[j] !in found && Scan(table, text, found, k)[j] < k
    ensures forall i, j | |found| <= i < j < |Scan(table, text, found, k)| ::
      Scan(table, text, found, k)[i] < Scan(table, text, found, k)[j]
  {
    if k > 0 {
      ScanAppends(table, text, found, k - 1);
    }
  }

  /**
   * Categories appear in order of their first matching result, and in `STRATEGY_MAP` order
   * among those first matched by the same result.
   */
  lemma {:induction false} FoundOrdered(table: seq<Strategy>, results: seq<AnalysisResult>, n: nat)
    requires DistinctCategories(table) && n <= |results|
    ensures forall i, j | 0 <= i < j < |Found(table, results, n)| ::
      Before(table, results, n, Found(table, results, n)[i], Found(table, results, n)[j])
  {
    if n > 0 {
      var old_ := Found(table, results, n - 1);
      var cur := Found(table, results, n);
      var text := TextOf(results[n - 1]);
      FoundOrdered(table, results, n - 1);
      ScanAppends(table, text, old_, |table|);
      forall c | c in old_ ensures FirstMatch(table[c], results, n) == FirstMatch(table[c], results, n - 1) < n - 1 {
        FirstMatchFound(table, results, n - 1, c);
      }
      forall j | |old_| <= j < |cur| ensures FirstMatch(table[cur[j]], results, n) == n - 1 {
        FirstMatchFound(table, results, n - 1, cur[j]);
        FirstMatchFound(table, results, n, cur[j]);
        assert cur[j] in cur;
      }
      forall i, j | 0 <= i < j < |cur| ensures Before(table, results, n, cur[i], cur[j]) {
        if j < |old_| {
          assert cur[i] == old_[i] && cur[j] == old_[j];
          assert Before(table, results, n - 1, old_[i], old_[j]);
        } else if i < |old_| {
          assert cur[i] == old_[i];
        }
      }
    }
  }

  /** The solutions of `k` categories of three solutions each number `3 * k`. */
  lemma {:induction false} SolutionsLength(table: seq<Strategy>, cats: seq<nat>)
    requires Positions(table, cats) && ThreeEach(table)
    ensures |Solutions(table, cats)| == 3 * |cats|
  {
    if cats != [] {
      assert table[cats[|cats| - 1]] in table;
      SolutionsLength(table, cats[..|cats| - 1]);
    }
  }

  /**
   * The generic line is the whole answer exactly when no result matches any category (the empty
   * input included); otherwise the answer holds three solutions per category matched.
   */
  lemma Fallback(table: seq<Strategy>, results: seq<AnalysisResult>)
    requires DistinctCategories(table) && ThreeEach(table)
    ensures Suggestions(table, results) == [GenericSolution] <==>
      forall i, c | 0 <= i < |results| && 0 <= c < |table| :: !Matches(table[c].patterns, TextOf(results[i]))
    ensures |Suggestions(table, results)| ==
      if Found(table, results, |results|) == [] then 1 else 3 * |Found(table, results, |results|)|
  {
    var cats := Found(table, results, |results|);
    SolutionsLength(table, cats);
    if cats != [] {
      var i := SelectedWitness(table, results, |results|, cats[0]);
      assert |Suggestions(table, results)| >= 3;
    } else {
      forall i, c | 0 <= i < |results| && 0 <= c < |table| ensures !Matches(table[c].patterns, TextOf(results[i])) {
        if Matches(table[c].patterns, TextOf(results[i])) {
          MatchSelected(table, results, |results|, i, c);
        }
      }
    }
  }

  /** `STRATEGY_MAP` has three categories with distinct names (of lengths 3, 4 and 2). */
  lemma StrategyMapDistinct()
    ensures |StrategyMap| == 3 && DistinctCategories(StrategyMap)
  {
    assert |StrategyMap[0].category| == 3 && |StrategyMap[1].category| == 4 && |StrategyMap[2].category| == 2;
  }

  /** Every category of `STRATEGY_MAP` offers three solutions. */
  lemma StrategyMapThreeEach()
    ensures ThreeEach(StrategyMap)
  {
    assert |StrategyMap[0].solutions| == 3 && |StrategyMap[1].solutions| == 3 && |StrategyMap[2].solutions| == 3;
  }

  /**
   * With `STRATEGY_MAP`: the generic line exactly when no pattern of any category occurs in any
   * result, and otherwise three solutions per category found.
   */
  lemma StrategyMapFallback(results: seq<AnalysisResult>)
    ensures Suggestions(StrategyMap, results) == [GenericSolution] <==>
      forall i, c | 0 <= i < |results| && 0 <= c < |StrategyMap| :: !Matches(StrategyMap[c].patterns, TextOf(results[i]))
    ensures |Suggestions(StrategyMap, results)| ==
      if Found(StrategyMap, results, |results|) == [] then 1 else 3 * |Found(StrategyMap, results, |results|)|
  {
    StrategyMapDistinct();
    StrategyMapThreeEach();
    Fallback(StrategyMap, results);
  }

  /** A one-result input whose text matches only the first of three categories gets that category's solutions. */
  lemma OnlyFirstMatches(table: seq<Strategy>, t: string)
    requires |table| == 3 && table[0].solutions != []
    requires Matches(table[0].patterns, t) && !Matches(table[1].patterns, t) && !Matches(table[2].patterns, t)
    ensures Suggestions(table, [AnalysisResult(Some(t))]) == table[0].solutions
  {
    var results := [AnalysisResult(Some(t))];
    assert TextOf(results[0]) == t;
    assert Scan(table, t, [], 1) == [0];
    assert Scan(table, t, [], 2) == [0];
    assert Found(table, results, 1) == Scan(table, t, [], 3) == [0];
    assert Solutions(table, [0]) == Solutions(table, []) + table[0].solutions;
  }

  /** A list of patterns none of which occurs: each holds a character (at `ks[i]`) the text lacks. */
  lemma NoPatternMatches(patterns: seq<string>, t: string, ks: seq<nat>)
    requires |ks| == |patterns|
    requires forall i | 0 <= i < |ks| :: ks[i] < |patterns[i]| && patterns[i][ks[i]] !in t
    ensures !Matches(patterns, t)
  {
    forall p | p in patterns ensures !Contains(t, p) {
      var i :| 0 <= i < |patterns| && patterns[i] == p;
      MissingCharNotContained(t, p, ks[i]);
    }
  }

  /** The demo text contains "무단 수집", a pattern of 저작권. */
  lemma DemoCopyright(t: string)
    requires t == "저작권법 제103조에 따른 무단 수집 리스크가 발견되었습니다."
    ensures Matches(["무단 수집", "복제", "2차 저작물", "크롤링"], t)
  {
    ContainsAt(t, "무단 수집", 15);
  }

  /** The demo text contains none of the patterns of 개인정보. */
  lemma DemoNotPrivacy(t: string)
    requires t == "저작권법 제103조에 따른 무단 수집 리스크가 발견되었습니다."
    ensures !Matches(["제3자 제공", "수집 동의", "위치정보", "민감데이터"], t)
  {
    NoPatternMatches(["제3자 제공", "수집 동의", "위치정보", "민감데이터"], t, [5, 3, 0, 0]);
  }

  /** The demo text contains none of the patterns of 특허. */
  lemma DemoNotPatent(t: string)
    requires t == "저작권법 제103조에 따른 무단 수집 리스크가 발견되었습니다."
    ensures !Matches(["기능 유사", "UI 카피", "동일 로직"], t)
  {
    NoPatternMatches(["기능 유사", "UI 카피", "동일 로직"], t, [0, 0, 0]);
  }

  /** The demo input (one result citing "무단 수집") gets exactly the three 저작권 solutions. */
  lemma DemoSuggestsCopyright(t: string)
    requires t == "저작권법 제103조에 따른 무단 수집 리스크가 발견되었습니다."
    ensures Suggestions(StrategyMap, [AnalysisResult(Some(t))]) == StrategyMap[0].solutions
  {
    DemoCopyright(t);
    DemoNotPrivacy(t);
    DemoNotPatent(t);
    var m := StrategyMap;
    assert m[0].patterns == ["무단 수집", "복제", "2차 저작물", "크롤링"];
    assert m[1].patterns == ["제3자 제공", "수집 동의", "위치정보", "민감데이터"];
    assert m[2].patterns == ["기능 유사", "UI 카피", "동일 로직"];
    OnlyFirstMatches(m, t);
  }
}
