/**
 * `_clean_html` of core/legal_rag.py (repeated verbatim in core/langchain_rag.py): four
 * regular-expression substitutions followed by `strip()`. Each substitution is modelled as the
 * left-to-right scan `re.sub` performs: try to match at the current position, replace and jump
 * past the match, otherwise keep one character and move on.
 */
module HtmlCleaner {
  import opened PyText
  import opened Wrappers

  /** Index of the first `c` at or after `from`, or `|s|` when there is none. */
  function FindChar(s: string, c: char, from: nat): (j: nat)
    requires from <= |s|
    ensures from <= j <= |s|
    ensures j < |s| ==> s[j] == c
    ensures forall k | from <= k < j :: s[k] != c
    decreases |s| - from
  {
    if from == |s| || s[from] == c then from else FindChar(s, c, from + 1)
  }

  /**
   * A character matched against a pattern character under `re.IGNORECASE`: ASCII letters match
   * either case, and Python also lets `i` match U+0130 and U+0131, `s` match U+017F and `k`
   * match U+212A.
   */
  predicate FoldMatches(c: char, p: char) {
    c == p ||
    ('a' <= p <= 'z' && c as int == p as int - 32) ||
    (p == 'i' && (c as int == 0x130 || c as int == 0x131)) ||
    (p == 's' && c as int == 0x17F) ||
    (p == 'k' && c as int == 0x212A)
  }

  /** `s[at:]` begins with `p`, case-insensitively. */
  predicate StartsWithFold(s: string, at: nat, p: string) {
    at + |p| <= |s| && forall k | 0 <= k < |p| :: FoldMatches(s[at + k], p[k])
  }

  /** Position of the first case-insensitive occurrence of `p` at or after `from`. */
  function FindFold(s: string, p: string, from: nat): (r: Option<nat>)
    requires from <= |s|
    ensures r.Some? ==> from <= r.value && StartsWithFold(s, r.value, p)
    ensures r.Some? ==> forall k | from <= k < r.value :: !StartsWithFold(s, k, p)
    ensures r.None? ==> forall k | from <= k <= |s| :: !StartsWithFold(s, k, p)
    decreases |s| - from
  {
    if StartsWithFold(s, from, p) then Some(from)
    else if from == |s| then None
    else FindFold(s, p, from + 1)
  }

  /**
   * End of a match of `<tag[^>]*>.*?</tag>` (DOTALL, IGNORECASE) at the start of `s`: the opening
   * tag runs to the first `>`, and the lazy body stops at the first closing tag after it.
   */
  function BlockMatchEnd(s: string, tag: string): (r: Option<nat>)
    ensures r.Some? ==> 0 < r.value <= |s|
  {
    var open := "<" + tag;
    var close := "</" + tag + ">";
    if !StartsWithFold(s, 0, open) then None
    else
      var g := FindChar(s, '>', |open|);
      if g == |s| then None
      else match FindFold(s, close, g + 1)
        case None => None
        case Some(c) => Some(c + |close|)
  }

  /** `re.sub(r"<tag[^>]*>.*?</tag>", "", s, flags=re.DOTALL | re.IGNORECASE)`. */
  function RemoveBlocks(s: string, tag: string): (r: string)
    ensures |r| <= |s|
    decreases |s|
  {
    if s == [] then []
    else match BlockMatchEnd(s, tag)
      case Some(e) => RemoveBlocks(s[e..], tag)
      case None => [s[0]] + RemoveBlocks(s[1..], tag)
  }

  /** `re.sub(r"<[^>]+>", "", s)`. */
  function RemoveTags(s: string): (r: string)
    ensures |r| <= |s|
    ensures forall c | c in r :: c in s
    ensures |s| > 0 && s[0] != '<' ==> |r| > 0 && r[0] == s[0]
    decreases |s|
  {
    if s == [] then []
    else if s[0] == '<' && 1 < FindChar(s, '>', 1) < |s| then RemoveTags(s[FindChar(s, '>', 1) + 1..])
    else
      var rest := RemoveTags(s[1..]);
      assert forall c | c in rest :: c in s by {
        forall c | c in rest ensures c in s {
          var j :| 0 <= j < |s[1..]| && s[1..][j] == c;
          assert s[j + 1] == c;
        }
      }
      [s[0]] + rest
  }

  /** A prefix without `<` holds no tag and is kept as it is. */
  lemma {:induction false} RemoveTagsKeepsPlain(a: string, b: string)
    requires '<' !in a
    ensures RemoveTags(a + b) == a + RemoveTags(b)
    decreases |a|
  {
    if a != [] {
      assert (a + b)[0] == a[0] && (a + b)[1..] == a[1..] + b;
      RemoveTagsKeepsPlain(a[1..], b);
      assert a == [a[0]] + a[1..];
    } else {
      assert a + b == b;
    }
  }

  /** A complete tag `<t>`, with `t` non-empty and free of `>`, is deleted and the scan goes on after it. */
  lemma RemoveTagsDropsTag(t: string, b: string)
    requires t != [] && '>' !in t
    ensures RemoveTags("<" + t + ">" + b) == RemoveTags(b)
  {
    var s := "<" + t + ">" + b;
    var j := FindChar(s, '>', 1);
    assert s[|t| + 1] == '>';
    forall k | 1 <= k <= |t| ensures s[k] != '>' {
      assert s[k] == t[k - 1];
    }
    assert j == |t| + 1;
    assert s[j + 1..] == b;
  }

  /** A `<` that opens no tag (nothing after it, `>` right after it, or no `>` anywhere after it) is kept. */
  lemma RemoveTagsKeepsLoneBracket(b: string)
    requires b == [] || b[0] == '>' || '>' !in b
    ensures RemoveTags("<" + b) == "<" + RemoveTags(b)
  {
    var s := "<" + b;
    assert s[1..] == b;
    if b != [] && b[0] == '>' {
      assert FindChar(s, '>', 1) == 1;
    } else if b != [] {
      assert forall k | 1 <= k < |s| :: s[k] == b[k - 1];
      assert FindChar(s, '>', 1) == |s|;
    }
  }

  /** No `<[^>]+>` match is left: a `<` followed by something other than `>` has no `>` after it. */
  ghost predicate TagFree(r: string) {
    forall i | 0 <= i < |r| - 1 && r[i] == '<' && r[i + 1] != '>' :: '>' !in r[i + 1..]
  }

  /** Tag removal is complete: what it returns holds no tag, even where a removal joined two pieces. */
  lemma {:induction false} RemoveTagsLeavesNoTag(s: string)
    ensures TagFree(RemoveTags(s))
    decreases |s|
  {
    if s == [] {
    } else if s[0] == '<' && 1 < FindChar(s, '>', 1) < |s| {
      RemoveTagsLeavesNoTag(s[FindChar(s, '>', 1) + 1..]);
    } else {
      var rest := RemoveTags(s[1..]);
      RemoveTagsLeavesNoTag(s[1..]);
      var r := RemoveTags(s);
      assert r == [s[0]] + rest;
      forall i | 0 <= i < |r| - 1 && r[i] == '<' && r[i + 1] != '>' ensures '>' !in r[i + 1..] {
        if i == 0 {
          assert r[1..] == rest;
          assert s[1..][0] == s[1];
          assert FindChar(s, '>', 1) == |s|;
          assert '>' !in s[1..];
        } else {
          assert r[i + 1..] == rest[i..];
          assert rest[i - 1] == '<' && rest[i] != '>';
        }
      }
    }
  }

  /** Index just past the run of ASCII letters starting at `from`. */
  function LetterRunEnd(s: string, from: nat): (j: nat)
    requires from <= |s|
    ensures from <= j <= |s|
    ensures forall k | from <= k < j :: 'a' <= s[k] <= 'z' || 'A' <= s[k] <= 'Z'
    ensures j < |s| ==> !('a' <= s[j] <= 'z' || 'A' <= s[j] <= 'Z')
    decreases |s| - from
  {
    if from < |s| && ('a' <= s[from] <= 'z' || 'A' <= s[from] <= 'Z') then LetterRunEnd(s, from + 1) else from
  }

  /** `re.sub(r"&[a-zA-Z]+;", " ", s)`. */
  function ReplaceEntities(s: string): (r: string)
    decreases |s|
  {
    if s == [] then []
    else if s[0] == '&' && 1 < LetterRunEnd(s, 1) < |s| && s[LetterRunEnd(s, 1)] == ';' then
      " " + ReplaceEntities(s[LetterRunEnd(s, 1) + 1..])
    else [s[0]] + ReplaceEntities(s[1..])
  }

  /** Index just past the run of whitespace starting at `from`. */
  function SpaceRunEnd(s: string, from: nat): (j: nat)
    requires from <= |s|
    ensures from <= j <= |s|
    ensures forall k | from <= k < j :: IsSpace(s[k])
    ensures j < |s| ==> !IsSpace(s[j])
    decreases |s| - from
  {
    if from < |s| && IsSpace(s[from]) then SpaceRunEnd(s, from + 1) else from
  }

  /** The only whitespace is the plain space, and never two in a row. */
  ghost predicate SingleSpaced(r: string) {
    (forall i | 0 <= i < |r| :: IsSpace(r[i]) ==> r[i] == ' ') &&
    (forall i | 0 <= i < |r| - 1 :: !(IsSpace(r[i]) && IsSpace(r[i + 1])))
  }

  /** `s` without its whitespace. */
  function NonSpace(s: string): string {
    if s == [] then [] else (if IsSpace(s[0]) then [] else [s[0]]) + NonSpace(s[1..])
  }

  /** `re.sub(r"\s+", " ", s)`: each run of whitespace becomes one space, and nothing else changes. */
  function CollapseSpaces(s: string): (r: string)
    ensures r == [] <==> s == []
    ensures |s| > 0 ==> |r| > 0 && (if IsSpace(s[0]) then r[0] == ' ' else r[0] == s[0])
    ensures SingleSpaced(r)
    ensures NonSpace(r) == NonSpace(s)
    decreases |s|
  {
    if s == [] then []
    else if IsSpace(s[0]) then
      var e := SpaceRunEnd(s, 0);
      var rest := CollapseSpaces(s[e..]);
      NonSpaceSkipsRun(s, e);
      var r := " " + rest;
      assert NonSpace(r) == NonSpace(rest) by { assert r[1..] == rest; }
      r
    else
      var rest := CollapseSpaces(s[1..]);
      var r := [s[0]] + rest;
      assert NonSpace(r) == [s[0]] + NonSpace(rest) by { assert r[1..] == rest; }
      r
  }

  /** A prefix without whitespace is kept as it is. */
  lemma {:induction false} CollapseKeepsWord(a: string, b: string)
    requires forall k | 0 <= k < |a| :: !IsSpace(a[k])
    ensures CollapseSpaces(a + b) == a + CollapseSpaces(b)
    decreases |a|
  {
    if a != [] {
      var tail := a[1..];
      assert forall k | 0 <= k < |tail| :: !IsSpace(tail[k]) by {
        forall k | 0 <= k < |tail| ensures !IsSpace(tail[k]) {
          assert tail[k] == a[k + 1];
        }
      }
      calc {
        CollapseSpaces(a + b);
        { assert a + b == [a[0]] + (tail + b); }
        CollapseSpaces([a[0]] + (tail + b));
        { CollapseKeepsChar(a[0], tail + b); }
        [a[0]] + CollapseSpaces(tail + b);
        { CollapseKeepsWord(tail, b); }
        [a[0]] + (tail + CollapseSpaces(b));
        { assert a == [a[0]] + tail; }
        a + CollapseSpaces(b);
      }
    } else {
      assert a + b == b;
    }
  }

  lemma CollapseKeepsChar(c: char, b: string)
    requires !IsSpace(c)
    ensures CollapseSpaces([c] + b) == [c] + CollapseSpaces(b)
  {
    assert ([c] + b)[1..] == b;
  }

  /** A maximal run of whitespace, of any length and kind, becomes a single plain space. */
  lemma CollapseRun(w: string, b: string)
    requires w != [] && AllSpace(w)
    requires b == [] || !IsSpace(b[0])
    ensures CollapseSpaces(w + b) == " " + CollapseSpaces(b)
  {
    var s := w + b;
    assert IsSpace(s[0]);
    RunEndsAt(s, 0, |w|);
    assert s[|w|..] == b;
  }

  /** The whitespace run of `s` that starts at `from` ends at `e` when `s[from..e]` is all whitespace and `s[e]` is not. */
  lemma {:induction false} RunEndsAt(s: string, from: nat, e: nat)
    requires from <= e <= |s|
    requires forall k | from <= k < e :: IsSpace(s[k])
    requires e == |s| || !IsSpace(s[e])
    ensures SpaceRunEnd(s, from) == e
    decreases e - from
  {
    if from < e {
      RunEndsAt(s, from + 1, e);
    }
  }

  /** Dropping a leading whitespace run does not change the non-whitespace content. */
  lemma {:induction false} NonSpaceSkipsRun(s: string, e: nat)
    requires e <= |s| && forall k | 0 <= k < e :: IsSpace(s[k])
    ensures NonSpace(s) == NonSpace(s[e..])
    decreases e
  {
    if e > 0 {
      assert s[1..][e - 1..] == s[e..];
      NonSpaceSkipsRun(s[1..], e - 1);
    }
  }

  /** `_clean_html(text)`. */
  function CleanHtml(text: string): string {
    var noScript := RemoveBlocks(text, "script");
    var noStyle := RemoveBlocks(noScript, "style");
    var noTags := RemoveTags(noStyle);
    var noEntities := ReplaceEntities(noTags);
    Strip(CollapseSpaces(noEntities))
  }

  /** Stripping a single-spaced text keeps it single-spaced. */
  lemma StripSingleSpaced(c: string)
    requires SingleSpaced(c)
    ensures SingleSpaced(Strip(c))
  {
    var i := StripIsSlice(c);
    var r := Strip(c);
    forall k | 0 <= k < |r| ensures r[k] == c[i + k] {
    }
    forall k | 0 <= k < |r| - 1 ensures !(IsSpace(r[k]) && IsSpace(r[k + 1])) {
      assert r[k] == c[i + k] && r[k + 1] == c[i + k + 1];
    }
  }

  /** The cleaned text has no whitespace at either end, and inside it only single plain spaces. */
  lemma CleanHtmlShape(text: string)
    ensures var r := CleanHtml(text);
      (r == [] || (!IsSpace(r[0]) && !IsSpace(r[|r| - 1]))) && SingleSpaced(r)
  {
    var c := CollapseSpaces(ReplaceEntities(RemoveTags(RemoveBlocks(RemoveBlocks(text, "script"), "style"))));
    assert CleanHtml(text) == Strip(c);
    StripSingleSpaced(c);
  }
}
