/**
 * Boundary splitting used by the chunkers: `re.split(r"(?=제\d+조[\s(])", cleaned)` for statutes and
 * `re.split(r"(?=\[(판시사항|...|청구취지)\])", cleaned)` for case law, followed by the clean-up
 * of the pieces. `re.split` on a zero-width lookahead cuts the text in front of every position
 * where the lookahead matches (a match at position 0 yields a leading empty piece); when the
 * pattern has a capture group, the captured header name is inserted after each cut.
 */
module Segmenter {
  import opened PyText
  import opened Wrappers

  /** Concatenation of a list of strings. */
  function Concat(ss: seq<string>): string {
    if ss == [] then [] else ss[0] + Concat(ss[1..])
  }

  lemma {:induction false} ConcatAppend(a: seq<string>, b: seq<string>)
    ensures Concat(a + b) == Concat(a) + Concat(b)
  {
    if a == [] {
      assert a + b == b;
    } else {
      assert (a + b)[1..] == a[1..] + b;
      ConcatAppend(a[1..], b);
    }
  }

  // ---------------------------------------------------------------- statutes

  predicate IsDigit(c: char) { '0' <= c <= '9' }

  /** Index just past the run of digits starting at `from`. */
  function DigitRunEnd(s: string, from: nat): (j: nat)
    requires from <= |s|
    ensures from <= j <= |s|
    ensures forall k | from <= k < j :: IsDigit(s[k])
    ensures j < |s| ==> !IsDigit(s[j])
    decreases |s| - from
  {
    if from < |s| && IsDigit(s[from]) then DigitRunEnd(s, from + 1) else from
  }

  /** The lookahead `제\d+조[\s(]` matches at position `p`. */
  predicate ArticleStartAt(s: string, p: nat)
    requires p < |s|
  {
    var q := DigitRunEnd(s, p + 1);
    s[p] == '제' && q > p + 1 && q + 1 < |s| && s[q] == '조' && (IsSpace(s[q + 1]) || s[q + 1] == '(')
  }

  /** The pieces of `re.split` on the article lookahead, for `s[cut..]` with the scan at `from`. */
  function ArticleSplit(s: string, cut: nat, from: nat): (r: seq<string>)
    requires cut <= from <= |s|
    ensures r != []
    ensures Concat(r) == s[cut..]
    decreases |s| - from
  {
    if from == |s| then
      assert Concat([s[cut..]]) == s[cut..] + [];
      [s[cut..]]
    else if ArticleStartAt(s, from) then
      var rest := ArticleSplit(s, from, from + 1);
      assert s[cut..] == s[cut..from] + s[from..];
      [s[cut..from]] + rest
    else ArticleSplit(s, cut, from + 1)
  }

  /** `[s.strip() for s in pieces if s.strip()]`. */
  function StripNonEmpty(pieces: seq<string>): (r: seq<string>)
    ensures |r| <= |pieces|
    ensures forall t | t in r :: t != [] && !IsSpace(t[0]) && !IsSpace(t[|t| - 1])
  {
    if pieces == [] then []
    else
      var t := Strip(pieces[0]);
      var rest := StripNonEmpty(pieces[1..]);
      if t != [] then [t] + rest else rest
  }

  /** The statute segments: the stripped non-empty article pieces, or the whole text when there are none. */
  function LawSegments(cleaned: string): (r: seq<string>)
    ensures r != []
    ensures Trimmed(cleaned) ==> forall t | t in r :: Trimmed(t)
  {
    var segments := StripNonEmpty(ArticleSplit(cleaned, 0, 0));
    if segments == [] then [cleaned] else segments
  }

  // ---------------------------------------------------------------- case law

  /** The header names of the section lookahead, in the alternation's order. */
  const SectionHeaders: seq<string> := ["판시사항", "판결요지", "참조조문", "참조판례", "판례내용", "이유", "주문", "청구취지"]

  /** The first header `h` (in alternation order) with `[h]` at position `p`. */
  function HeaderAmong(s: string, p: nat, headers: seq<string>): (r: Option<string>)
    requires p <= |s|
    ensures r.Some? ==> r.value in headers && StartsWith(s[p..], "[" + r.value + "]")
    ensures r.None? ==> forall h | h in headers :: !StartsWith(s[p..], "[" + h + "]")
  {
    if headers == [] then None
    else if StartsWith(s[p..], "[" + headers[0] + "]") then Some(headers[0])
    else HeaderAmong(s, p, headers[1..])
  }

  /** No header starts where there is no `[`. */
  lemma {:induction false} NoHeaderWithoutBracket(s: string, p: nat, headers: seq<string>)
    requires p < |s| && s[p] != '['
    ensures HeaderAmong(s, p, headers).None?
  {
    if headers != [] {
      assert s[p..][0] == s[p];
      NoHeaderWithoutBracket(s, p, headers[1..]);
    }
  }

  function SectionHeaderAt(s: string, p: nat): Option<string>
    requires p <= |s|
  {
    HeaderAmong(s, p, SectionHeaders)
  }

  /**
   * The list `re.split` returns for the section pattern, which has one capture group: each cut
   * contributes the piece before it and then the captured header name.
   */
  function SectionSplit(s: string, cut: nat, from: nat): (r: seq<string>)
    requires cut <= from <= |s|
    ensures r != []
    decreases |s| - from
  {
    if from == |s| then [s[cut..]]
    else match SectionHeaderAt(s, from)
      case Some(h) => [s[cut..from], h] + SectionSplit(s, from, from + 1)
      case None => SectionSplit(s, cut, from + 1)
  }

  /**
   * The header/content merge loop of `chunk_precedent_text` as written: a token equal (after
   * stripping) to a header name is glued in front of the next token as `"[" + h + "] " + next`.
   */
  function MergeSectionTokens(tokens: seq<string>, headers: seq<string>): seq<string>
    decreases |tokens|
  {
    if tokens == [] then []
    else
      var seg := Strip(tokens[0]);
      if seg in headers then
        if |tokens| > 1 then ["[" + seg + "] " + Strip(tokens[1])] + MergeSectionTokens(tokens[2..], headers)
        else ["[" + seg + "]"]
      else (if seg != [] then [seg] else []) + MergeSectionTokens(tokens[1..], headers)
  }

  /**
   * The case-law segments as `chunk_precedent_text` computes them: the merged tokens of the
   * section split, or the whole text when the merge leaves none. Every segment is non-empty and
   * stripped, because every token after the first strips to something non-empty.
   */
  function MergedSegments(cleaned: string): (r: seq<string>)
    ensures r != []
    ensures Trimmed(cleaned) ==> forall t | t in r :: Trimmed(t)
  {
    var tokens := SectionSplit(cleaned, 0, 0);
    SplitTokensNonBlank(cleaned, 0, 0);
    MergeTrimmed(tokens, SectionHeaders);
    var merged := MergeSectionTokens(tokens, SectionHeaders);
    if merged == [] then [cleaned] else merged
  }

  /** A text that starts with a non-whitespace character does not strip to nothing. */
  lemma StripNonBlank(t: string)
    requires t != [] && !IsSpace(t[0])
    ensures Strip(t) != []
  {
    StripBlankIff(t);
  }

  /** Every token after the first strips to something non-empty. */
  ghost predicate TailNonBlank(tokens: seq<string>) {
    forall k | 1 <= k < |tokens| :: Strip(tokens[k]) != []
  }

  /**
   * Every token of a section split after the first is a captured header name or a piece that
   * starts at a header's `[`, so none of them strips to nothing.
   */
  lemma {:induction false} SplitTokensNonBlank(s: string, cut: nat, from: nat)
    requires cut <= from <= |s|
    ensures TailNonBlank(SectionSplit(s, cut, from))
    decreases |s| - from
  {
    if from < |s| {
      match SectionHeaderAt(s, from)
      case Some(h) =>
        var rest := SectionSplit(s, from, from + 1);
        SplitTokensNonBlank(s, from, from + 1);
        HeaderNameShape(h);
        assert s[from..][0] == ("[" + h + "]")[0];
        SplitStartsAtCut(s, from, from + 1);
        assert rest[0][0] == s[from..from + 1][0] == '[';
        StripNonBlank(rest[0]);
        var t := SectionSplit(s, cut, from);
        assert t == [s[cut..from], h] + rest;
        forall k | 1 <= k < |t| ensures Strip(t[k]) != [] {
          if k == 1 {
            assert t[1] == h;
          } else {
            assert t[k] == rest[k - 2];
          }
        }
      case None =>
        SplitTokensNonBlank(s, cut, from + 1);
        assert SectionSplit(s, cut, from) == SectionSplit(s, cut, from + 1);
    }
  }

  /** A header glued in front of a non-empty stripped text is stripped and non-empty. */
  lemma GluedTrimmed(h: string, x: string)
    requires x != [] && Strip(x) == x
    ensures Trimmed("[" + h + "] " + x)
  {
    var glued := "[" + h + "] " + x;
    assert glued[0] == '[';
    assert glued[|glued| - 1] == x[|x| - 1];
  }

  /** When every token after the first strips to something non-empty, every merged segment is stripped and non-empty. */
  lemma {:induction false} MergeTrimmed(tokens: seq<string>, headers: seq<string>)
    requires TailNonBlank(tokens)
    ensures forall t | t in MergeSectionTokens(tokens, headers) :: Trimmed(t)
    decreases |tokens|
  {
    if tokens != [] {
      var seg := Strip(tokens[0]);
      if seg in headers {
        if |tokens| > 1 {
          var x := Strip(tokens[1]);
          StripTwice(tokens[1]);
          GluedTrimmed(seg, x);
          var rest := tokens[2..];
          assert TailNonBlank(rest) by {
            forall k | 1 <= k < |rest| ensures Strip(rest[k]) != [] {
              assert rest[k] == tokens[k + 2];
            }
          }
          MergeTrimmed(rest, headers);
        } else {
          var closed := "[" + seg + "]";
          assert closed[0] == '[' && closed[|closed| - 1] == ']';
        }
      } else {
        var rest := tokens[1..];
        assert TailNonBlank(rest) by {
          forall k | 1 <= k < |rest| ensures Strip(rest[k]) != [] {
            assert rest[k] == tokens[k + 1];
          }
        }
        MergeTrimmed(rest, headers);
      }
    }
  }

  /** Stripping twice is stripping once. */
  lemma StripTwice(t: string)
    ensures Strip(Strip(t)) == Strip(t)
  {
    if Strip(t) != [] {
      StripTrimmed(Strip(t));
    }
  }

  /** As written, a text that opens with a section header gets a first segment starting `[h] [h]`. */
  lemma MergedSegmentsRepeatHeader(cleaned: string, h: string)
    requires SectionHeaderAt(cleaned, 0) == Some(h)
    ensures StartsWith(MergedSegments(cleaned)[0], "[" + h + "] [" + h + "]")
  {
    MergeRepeatsHeader(cleaned, h);
  }

  /** Each header name is free of brackets and whitespace at its ends, so `strip` keeps it. */
  lemma HeaderNameShape(h: string)
    requires h in SectionHeaders
    ensures h != [] && '[' !in h && Strip(h) == h
  {
    assert !IsSpace(h[0]) && !IsSpace(h[|h| - 1]);
    assert StripLeft(h) == h;
    StripRightKeeps(h, |h| - 1);
  }

  /** `open` starts with its only `[`, as every bracketed header does. */
  predicate BracketOpener(open: string) {
    |open| > 0 && open[0] == '[' && '[' !in open[1..]
  }

  lemma HeaderOpener(h: string)
    requires h in SectionHeaders
    ensures BracketOpener("[" + h + "]")
  {
    HeaderNameShape(h);
    BracketedOpener(h);
  }

  lemma BracketedOpener(h: string)
    requires '[' !in h
    ensures BracketOpener("[" + h + "]")
  {
    var open := "[" + h + "]";
    assert open[1..] == h + "]";
    forall i | 0 <= i < |h| + 1 ensures (h + "]")[i] != '[' {
      if i < |h| {
        assert (h + "]")[i] == h[i];
      }
    }
  }

  /** The header names are non-empty. */
  lemma NoEmptyHeader()
    ensures "" !in SectionHeaders
  {
  }

  /** An empty leading token contributes nothing to the merge. */
  lemma {:induction false} MergeSkipsEmpty(tokens: seq<string>, headers: seq<string>)
    requires tokens != [] && tokens[0] == "" && "" !in headers
    ensures MergeSectionTokens(tokens, headers) == MergeSectionTokens(tokens[1..], headers)
  {
    assert Strip(tokens[0]) == "";
  }

  /** A header token is glued in front of the token after it. */
  lemma {:induction false} MergeGluesHeader(tokens: seq<string>, headers: seq<string>)
    requires |tokens| > 1 && Strip(tokens[0]) in headers
    ensures MergeSectionTokens(tokens, headers) != []
    ensures MergeSectionTokens(tokens, headers)[0] == "[" + Strip(tokens[0]) + "] " + Strip(tokens[1])
  {
  }

  /**
   * The as-written merge repeats the header: the lookahead leaves `[h]` at the start of the piece
   * after the cut, and the merge puts another `[h] ` in front of it. A text that opens with a
   * section header comes out with its first segment starting `[h] [h]`.
   */
  lemma MergeRepeatsHeader(s: string, h: string)
    requires SectionHeaderAt(s, 0) == Some(h)
    ensures var merged := MergeSectionTokens(SectionSplit(s, 0, 0), SectionHeaders);
      merged != [] && StartsWith(merged[0], "[" + h + "] [" + h + "]")
  {
    var rest := SectionSplit(s, 0, 1);
    var tokens := SectionSplit(s, 0, 0);
    assert tokens == ["", h] + rest;
    assert tokens[1] == h && tokens[2] == rest[0];
    HeaderNameShape(h);
    HeaderOpener(h);
    NoEmptyHeader();
    OpenerStartsRest(s, h, rest);
    MergeHeaderTokens(tokens, SectionHeaders);
    HeaderTwice(h, Strip(rest[0]));
  }

  /** After an empty first token, a header token is glued in front of the token after it. */
  lemma {:induction false} MergeHeaderTokens(tokens: seq<string>, headers: seq<string>)
    requires |tokens| > 2 && tokens[0] == "" && Strip(tokens[1]) in headers && "" !in headers
    ensures var merged := MergeSectionTokens(tokens, headers);
      merged != [] && merged[0] == "[" + Strip(tokens[1]) + "] " + Strip(tokens[2])
  {
    MergeSkipsEmpty(tokens, headers);
    var t1 := tokens[1..];
    assert t1[0] == tokens[1] && t1[1] == tokens[2];
    MergeGluesHeader(t1, headers);
  }

  /** Putting `[h] ` in front of a text that opens with `[h]` repeats the header. */
  lemma HeaderTwice(h: string, x: string)
    requires StartsWith(x, "[" + h + "]")
    ensures StartsWith("[" + h + "] " + x, "[" + h + "] [" + h + "]")
  {
    assert "[" + h + "] [" + h + "]" == ("[" + h + "] ") + ("[" + h + "]");
    assert "[" + h + "] " + x == ("[" + h + "] ") + x;
    StartsWithPrepend("[" + h + "] ", x, "[" + h + "]");
  }

  /** The piece after the cut keeps the opener `[h]` after stripping. */
  lemma OpenerStartsRest(s: string, h: string, rest: seq<string>)
    requires SectionHeaderAt(s, 0) == Some(h) && BracketOpener("[" + h + "]")
    requires rest == SectionSplit(s, 0, 1)
    ensures StartsWith(Strip(rest[0]), "[" + h + "]")
  {
    var open := "[" + h + "]";
    assert StartsWith(s[0..], open);
    SplitReaches(s, 0, 1, open);
    assert s[0..|open|] == open;
    assert open[|open| - 1] == ']';
    StripKeepsPrefix(rest[0], open);
  }

  lemma StartsWithPrepend(a: string, x: string, p: string)
    requires StartsWith(x, p)
    ensures StartsWith(a + x, a + p)
  {
    assert (a + x)[..|a + p|] == a + x[..|p|];
  }

  /** No cut falls inside an opener, so the first split piece runs at least through it. */
  lemma {:induction false} SplitReaches(s: string, cut: nat, from: nat, open: string)
    requires BracketOpener(open) && cut < from <= cut + |open| <= |s| && StartsWith(s[cut..], open)
    ensures StartsWith(SectionSplit(s, cut, from)[0], s[cut..cut + |open|])
    decreases cut + |open| - from
  {
    if from == cut + |open| {
      SplitStartsAtCut(s, cut, from);
    } else {
      assert s[from] == s[cut..][from - cut] == open[1..][from - cut - 1];
      NoHeaderWithoutBracket(s, from, SectionHeaders);
      SplitReaches(s, cut, from + 1, open);
    }
  }

  /** The first piece of a section split starts at the cut and runs past `from`. */
  lemma {:induction false} SplitStartsAtCut(s: string, cut: nat, from: nat)
    requires cut < from <= |s|
    ensures StartsWith(SectionSplit(s, cut, from)[0], s[cut..from])
    decreases |s| - from
  {
    if from < |s| && SectionHeaderAt(s, from).None? {
      SplitStartsAtCut(s, cut, from + 1);
      assert s[cut..from + 1][..from - cut] == s[cut..from];
    }
  }

  /** The section pieces without the captured names: what the merge evidently means to produce. */
  function SectionPieces(s: string, cut: nat, from: nat): (r: seq<string>)
    requires cut <= from <= |s|
    ensures r != []
    ensures Concat(r) == s[cut..]
    decreases |s| - from
  {
    if from == |s| then
      assert Concat([s[cut..]]) == s[cut..] + [];
      [s[cut..]]
    else if SectionHeaderAt(s, from).Some? then
      var rest := SectionPieces(s, from, from + 1);
      assert s[cut..] == s[cut..from] + s[from..];
      [s[cut..from]] + rest
    else SectionPieces(s, cut, from + 1)
  }

  /**
   * Corrected case-law segments: each section once, starting with its own `[header]`; the
   * stripped non-empty pieces, or the whole text when there are none.
   */
  function PrecedentSegments(cleaned: string): (r: seq<string>)
    ensures r != []
    ensures Trimmed(cleaned) ==> forall t | t in r :: Trimmed(t)
  {
    var segments := StripNonEmpty(SectionPieces(cleaned, 0, 0));
    if segments == [] then [cleaned] else segments
  }

  /** `t` opens with one of the bracketed section headers. */
  ghost predicate OpensWithHeader(t: string) {
    exists h | h in SectionHeaders :: StartsWith(t, "[" + h + "]")
  }

  /** Every corrected piece after the first opens with its bracketed section header (and, by `SectionPieces`, they concatenate back to the text). */
  lemma {:induction false} SectionPiecesAligned(s: string, cut: nat, from: nat)
    requires cut <= from <= |s|
    ensures forall k | 0 < k < |SectionPieces(s, cut, from)| :: OpensWithHeader(SectionPieces(s, cut, from)[k])
    decreases |s| - from
  {
    var r := SectionPieces(s, cut, from);
    if from < |s| {
      match SectionHeaderAt(s, from)
      case Some(h) =>
        SectionPiecesAligned(s, from, from + 1);
        var rest := SectionPieces(s, from, from + 1);
        var open := "[" + h + "]";
        HeaderOpener(h);
        PiecesReach(s, from, from + 1, open);
        assert s[from..from + |open|] == open;
        assert r == [s[cut..from]] + rest;
        forall k | 0 < k < |r| ensures OpensWithHeader(r[k]) {
          if k == 1 {
            assert h in SectionHeaders && StartsWith(r[1], "[" + h + "]");
          } else {
            assert r[k] == rest[k - 1];
          }
        }
      case None =>
        SectionPiecesAligned(s, cut, from + 1);
        var r' := SectionPieces(s, cut, from + 1);
        assert r == r';
        forall k | 0 < k < |r| ensures OpensWithHeader(r[k]) {
          assert OpensWithHeader(r'[k]);
        }
    }
  }

  /** The corrected counterpart of `SplitReaches`. */
  lemma {:induction false} PiecesReach(s: string, cut: nat, from: nat, open: string)
    requires BracketOpener(open) && cut < from <= cut + |open| <= |s| && StartsWith(s[cut..], open)
    ensures StartsWith(SectionPieces(s, cut, from)[0], s[cut..cut + |open|])
    decreases cut + |open| - from
  {
    if from == cut + |open| {
      PiecesStartAtCut(s, cut, from);
    } else {
      assert s[from] == s[cut..][from - cut] == open[1..][from - cut - 1];
      NoHeaderWithoutBracket(s, from, SectionHeaders);
      PiecesReach(s, cut, from + 1, open);
    }
  }

  lemma {:induction false} PiecesStartAtCut(s: string, cut: nat, from: nat)
    requires cut < from <= |s|
    ensures StartsWith(SectionPieces(s, cut, from)[0], s[cut..from])
    decreases |s| - from
  {
    if from < |s| && SectionHeaderAt(s, from).None? {
      PiecesStartAtCut(s, cut, from + 1);
      assert s[cut..from + 1][..from - cut] == s[cut..from];
    }
  }
}
