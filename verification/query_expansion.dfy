/**
 * `expand_query` of core/langchain_rag.py: the query followed by the first two synonyms of every
 * entry of the static synonym table whose term occurs in the query, in table order, joined by
 * single spaces.
 */
module QueryExpansion {
  import opened PyText
  import opened Ranking

  /** One entry `term: [synonyms...]` of `LEGAL_SYNONYMS`. */
  datatype Entry = Entry(term: string, synonyms: seq<string>)

  /** `LEGAL_SYNONYMS`, in the dict's order. */
  const LegalSynonyms: seq<Entry> := [
    Entry("인앱결제", ["앱 내 구매", "인앱 구매", "IAP"]),
    Entry("인앱 결제", ["앱 내 구매", "인앱 구매", "IAP"]),
    Entry("개인정보", ["개인 정보", "사용자 데이터", "프라이버시"]),
    Entry("저작권", ["저작물", "지적재산권", "IP", "copyright"]),
    Entry("어린이", ["아동", "미성년자", "키즈", "kids"]),
    Entry("아동", ["어린이", "미성년자", "키즈"]),
    Entry("구독", ["자동 갱신", "정기 결제", "subscription"]),
    Entry("환불", ["취소", "반품", "refund"]),
    Entry("광고", ["애드", "ad", "advertisement"]),
    Entry("결제", ["구매", "purchase", "payment"])
  ]

  /** The terms the loop adds: `synonyms[:2]` of each entry whose term is in the query, in table order. */
  function AddedTerms(table: seq<Entry>, query: string): seq<string> {
    if table == [] then []
    else (if Contains(query, table[0].term) then Prefix(table[0].synonyms, 2) else []) + AddedTerms(table[1..], query)
  }

  /** `expand_query(query)`. */
  function ExpandQuery(query: string): string {
    JoinSpace([query] + AddedTerms(LegalSynonyms, query))
  }

  /** Each string preceded by a space, all run together. */
  function SpaceEach(xs: seq<string>): string {
    if xs == [] then "" else " " + xs[0] + SpaceEach(xs[1..])
  }

  lemma {:induction false} JoinAfterFirst(q: string, xs: seq<string>)
    ensures JoinSpace([q] + xs) == q + SpaceEach(xs)
    decreases |xs|
  {
    if xs != [] {
      JoinAfterFirst(xs[0], xs[1..]);
      assert ([q] + xs)[1..] == [xs[0]] + xs[1..];
    }
  }

  /** The number of table entries whose term occurs in the query. */
  function MatchCount(table: seq<Entry>, query: string): (n: nat)
    ensures n <= |table|
  {
    if table == [] then 0
    else (if Contains(query, table[0].term) then 1 else 0) + MatchCount(table[1..], query)
  }

  /** A term is added exactly when it is one of the first two synonyms of an entry that matches. */
  lemma {:induction false} AddedTermsIff(table: seq<Entry>, query: string, t: string)
    ensures t in AddedTerms(table, query) <==>
      exists k | 0 <= k < |table| :: Contains(query, table[k].term) && t in Prefix(table[k].synonyms, 2)
  {
    if table != [] {
      AddedTermsIff(table[1..], query, t);
      if t in AddedTerms(table[1..], query) {
        var k :| 0 <= k < |table[1..]| && Contains(query, table[1..][k].term) && t in Prefix(table[1..][k].synonyms, 2);
        assert table[k + 1] == table[1..][k];
      }
      if exists k | 0 <= k < |table| :: Contains(query, table[k].term) && t in Prefix(table[k].synonyms, 2) {
        var k :| 0 <= k < |table| && Contains(query, table[k].term) && t in Prefix(table[k].synonyms, 2);
        if k > 0 {
          assert table[1..][k - 1] == table[k];
        }
      }
    }
  }

  /** With every entry holding at least two synonyms, each match adds exactly two terms. */
  lemma {:induction false} TwoPerMatch(table: seq<Entry>, query: string)
    requires forall e | e in table :: |e.synonyms| >= 2
    ensures |AddedTerms(table, query)| == 2 * MatchCount(table, query)
  {
    if table != [] {
      assert table[0] in table;
      assert forall e | e in table[1..] :: e in table;
      TwoPerMatch(table[1..], query);
    }
  }

  /**
   * The expanded query is the query, then a space and a synonym for each added term, in order;
   * there are two per matching table entry, duplicates included.
   */
  lemma ExpandShape(query: string)
    ensures ExpandQuery(query) == query + SpaceEach(AddedTerms(LegalSynonyms, query))
    ensures |AddedTerms(LegalSynonyms, query)| == 2 * MatchCount(LegalSynonyms, query)
  {
    JoinAfterFirst(query, AddedTerms(LegalSynonyms, query));
    TwoPerMatch(LegalSynonyms, query);
  }

  /** When no term of the table occurs in the query, the query comes back unchanged. */
  lemma NoMatchUnchanged(query: string)
    requires forall e | e in LegalSynonyms :: !Contains(query, e.term)
    ensures ExpandQuery(query) == query
  {
    NothingAdded(LegalSynonyms, query);
    assert [query] + [] == [query];
  }

  lemma {:induction false} NothingAdded(table: seq<Entry>, query: string)
    requires forall e | e in table :: !Contains(query, e.term)
    ensures AddedTerms(table, query) == []
  {
    if table != [] {
      assert table[0] in table;
      assert forall e | e in table[1..] :: e in table;
      NothingAdded(table[1..], query);
    }
  }

  /** The last six entries add the synonyms of "어린이" and "아동" only. */
  lemma AddedFromFifth(q: string)
    requires Contains(q, "어린이") && Contains(q, "아동")
    requires !Contains(q, "구독") && !Contains(q, "환불") && !Contains(q, "광고") && !Contains(q, "결제")
    ensures AddedTerms(LegalSynonyms[4..], q) == ["아동", "미성년자", "어린이", "미성년자"]
  {
    var t := LegalSynonyms;
    assert AddedTerms(t[10..], q) == [];
    assert t[9..][1..] == t[10..] && t[9..][0] == t[9];
    assert AddedTerms(t[9..], q) == [];
    assert t[8..][1..] == t[9..] && t[8..][0] == t[8];
    assert AddedTerms(t[8..], q) == [];
    assert t[7..][1..] == t[8..] && t[7..][0] == t[7];
    assert AddedTerms(t[7..], q) == [];
    assert t[6..][1..] == t[7..] && t[6..][0] == t[6];
    assert AddedTerms(t[6..], q) == [];
    assert t[5..][1..] == t[6..] && t[5..][0] == t[5];
    assert Prefix(t[5].synonyms, 2) == ["어린이", "미성년자"];
    assert AddedTerms(t[5..], q) == ["어린이", "미성년자"] + [];
    assert t[4..][1..] == t[5..] && t[4..][0] == t[4];
    assert Prefix(t[4].synonyms, 2) == ["아동", "미성년자"];
  }

  /** The terms added for a query that names exactly the fifth and sixth entries. */
  lemma AddedForChildTerms(q: string)
    requires Contains(q, "어린이") && Contains(q, "아동")
    requires !Contains(q, "인앱결제") && !Contains(q, "인앱 결제") && !Contains(q, "개인정보") && !Contains(q, "저작권")
    requires !Contains(q, "구독") && !Contains(q, "환불") && !Contains(q, "광고") && !Contains(q, "결제")
    ensures AddedTerms(LegalSynonyms, q) == ["아동", "미성년자", "어린이", "미성년자"]
  {
    var t := LegalSynonyms;
    AddedFromFifth(q);
    assert t[3..][1..] == t[4..] && t[3..][0] == t[3];
    assert AddedTerms(t[3..], q) == AddedTerms(t[4..], q);
    assert t[2..][1..] == t[3..] && t[2..][0] == t[2];
    assert AddedTerms(t[2..], q) == AddedTerms(t[3..], q);
    assert t[1..][1..] == t[2..] && t[1..][0] == t[1];
    assert AddedTerms(t[1..], q) == AddedTerms(t[2..], q);
    assert AddedTerms(t, q) == AddedTerms(t[1..], q);
  }

  /** Which table terms occur in "어린이 아동". */
  lemma ChildQueryMatches(q: string)
    requires q == "어린이 아동"
    ensures Contains(q, "어린이") && Contains(q, "아동")
    ensures !Contains(q, "인앱결제") && !Contains(q, "인앱 결제") && !Contains(q, "개인정보") && !Contains(q, "저작권")
    ensures !Contains(q, "구독") && !Contains(q, "환불") && !Contains(q, "광고") && !Contains(q, "결제")
  {
    ContainsAt(q, "어린이", 0);
    ContainsAt(q, "아동", 4);
    MissingCharNotContained(q, "인앱결제", 0);
    MissingCharNotContained(q, "인앱 결제", 0);
    MissingCharNotContained(q, "개인정보", 0);
    MissingCharNotContained(q, "저작권", 0);
    MissingCharNotContained(q, "구독", 0);
    MissingCharNotContained(q, "환불", 0);
    MissingCharNotContained(q, "광고", 0);
    MissingCharNotContained(q, "결제", 0);
  }

  /** Duplicates are kept: "어린이" and "아동" name each other, so both come back, and "미성년자" twice. */
  lemma ChildQueryKeepsDuplicates(q: string)
    requires q == "어린이 아동"
    ensures ExpandQuery(q) == q + SpaceEach(["아동", "미성년자", "어린이", "미성년자"])
    ensures SpaceEach(["아동", "미성년자", "어린이", "미성년자"]) == " " + "아동" + " " + "미성년자" + " " + "어린이" + " " + "미성년자"
  {
    ChildQueryMatches(q);
    AddedForChildTerms(q);
    var added := ["아동", "미성년자", "어린이", "미성년자"];
    JoinAfterFirst(q, added);
    SpaceEachFour("아동", "미성년자", "어린이", "미성년자");
    assert ExpandQuery(q) == JoinSpace([q] + added);
    assert JoinSpace([q] + added) == q + SpaceEach(added);
  }

  lemma SpaceEachFour(a: string, b: string, c: string, d: string)
    ensures SpaceEach([a, b, c, d]) == " " + a + " " + b + " " + c + " " + d
  {
    assert [a, b, c, d][1..] == [b, c, d];
    assert [b, c, d][1..] == [c, d];
    assert [c, d][1..] == [d];
    assert [d][1..] == [];
    assert SpaceEach([d]) == " " + d;
    assert SpaceEach([c, d]) == " " + c + " " + d;
    assert SpaceEach([b, c, d]) == " " + b + " " + c + " " + d;
  }
}
