/**
 * `extract_json_from_text`: the search of the regular expression `\{[\s\S]*\}`
 * in a model reply. `[\s\S]` matches every character, newlines included, and
 * `*` is greedy, so a match starts at the first `{` of the text and runs to
 * the last `}` of the text; there is a match exactly when some `}` follows
 * that first `{`.
 */
module JsonExtract {
  import opened Wrappers

  /** Index of the first occurrence of `c` in `s`, if any. */
  function IndexOf(s: string, c: char): (r: Option<nat>)
    ensures r.None? <==> c !in s
    ensures r.Some? ==> r.value < |s| && s[r.value] == c
    ensures r.Some? ==> forall k :: 0 <= k < r.value ==> s[k] != c
  {
    if |s| == 0 then None
    else if s[0] == c then Some(0)
    else match IndexOf(s[1..], c)
      case None => None
      case Some(k) => Some(k + 1)
  }

  /** Index of the last occurrence of `c` in `s`, if any. */
  function LastIndexOf(s: string, c: char): (r: Option<nat>)
    ensures r.None? <==> c !in s
    ensures r.Some? ==> r.value < |s| && s[r.value] == c
    ensures r.Some? ==> forall k :: r.value < k < |s| ==> s[k] != c
  {
    if |s| == 0 then None
    else if s[|s| - 1] == c then Some(|s| - 1)
    else
      assert s == s[..|s| - 1] + [s[|s| - 1]];
      LastIndexOf(s[..|s| - 1], c)
  }

  /**
   * The model of `extract_json_from_text`: the text from the first `{` up to
   * and including the last `}`, or `None` when no `}` follows the first `{`.
   * The result opens with `{` and closes with `}`; `ExtractIsSlice` says
   * where in the text it lies.
   */
  function ExtractJson(text: string): (r: Option<string>)
    ensures r.Some? ==> |r.value| >= 2 && r.value[0] == '{' && r.value[|r.value| - 1] == '}'
  {
    match IndexOf(text, '{')
    case None => None
    case Some(i) =>
      match LastIndexOf(text, '}')
      case None => None
      case Some(j) =>
        if i < j then
          Some(text[i..j + 1])
        else None
  }

  /**
   * A successful extraction is a contiguous piece of the text: before it there
   * is no `{` (it starts at the first one) and after it there is no `}` (it
   * ends at the last one, so braces in trailing prose are swallowed).
   */
  lemma ExtractIsSlice(text: string)
    requires ExtractJson(text).Some?
    ensures exists pre, post ::
      text == pre + ExtractJson(text).value + post && '{' !in pre && '}' !in post
  {
    var i, j := IndexOf(text, '{').value, LastIndexOf(text, '}').value;
    var obj := ExtractJson(text).value;
    assert obj == text[i..j + 1];
    CutInThree(text, i, j + 1);
    NoneBefore(text, '{', i);
    NoneAfter(text, '}', j + 1);
    SurroundedBy(text, text[..i], obj, text[j + 1..]);
  }

  /** A text split as `pre + obj + post` with no `{` in `pre` and no `}` in `post`. */
  lemma SurroundedBy(text: string, pre: string, obj: string, post: string)
    requires text == pre + obj + post && '{' !in pre && '}' !in post
    ensures exists pre', post' :: text == pre' + obj + post' && '{' !in pre' && '}' !in post'
  {
  }

  /** Cutting a text at two positions gives three consecutive pieces. */
  lemma CutInThree(text: string, i: nat, j: nat)
    requires i <= j <= |text|
    ensures text == text[..i] + text[i..j] + text[j..]
  {
    assert text == text[..i] + text[i..];
    assert text[i..] == text[i..j] + text[j..];
  }

  /** When no position before `i` holds `c`, the prefix up to `i` does not contain `c`. */
  lemma NoneBefore(text: string, c: char, i: nat)
    requires i <= |text| && forall k :: 0 <= k < i ==> text[k] != c
    ensures c !in text[..i]
  {
    assert forall k :: 0 <= k < i ==> text[..i][k] == text[k];
  }

  /** When no position from `j` on holds `c`, the suffix from `j` does not contain `c`. */
  lemma NoneAfter(text: string, c: char, j: nat)
    requires j <= |text| && forall k :: j <= k < |text| ==> text[k] != c
    ensures c !in text[j..]
  {
    assert forall k :: 0 <= k < |text| - j ==> text[j..][k] == text[j + k];
  }

  /**
   * `text[i..j]` is a match of `\{[\s\S]*\}`: it opens with `{`, closes with
   * `}`, and has anything (possibly nothing, possibly line breaks) between.
   */
  ghost predicate IsMatch(text: string, i: int, j: int)
  {
    0 <= i && i + 2 <= j <= |text| && text[i] == '{' && text[j - 1] == '}'
  }

  /**
   * The match that `re.search` reports. Python's engine backtracks and takes
   * the first success, not in general the longest; for this pattern the two
   * coincide, because the greedy `[\s\S]*` is followed by a single `\}`, so
   * the first success ends at the last `}`. Hence: no match starts further
   * left, and among those starting at `i` none ends further right.
   */
  ghost predicate IsLeftmostLongest(text: string, i: int, j: int)
  {
    IsMatch(text, i, j) &&
    forall i', j' :: IsMatch(text, i', j') ==> i < i' || (i == i' && j' <= j)
  }

  /** There are positions i < j holding `{` and `}` respectively: the pattern matches somewhere. */
  ghost predicate HasBracePair(text: string)
  {
    exists i, j :: IsMatch(text, i, j)
  }

  /** `HasBracePair` spelled out by positions. */
  lemma HasBracePairIff(text: string)
    ensures HasBracePair(text) <==>
      exists i, j :: 0 <= i < j < |text| && text[i] == '{' && text[j] == '}'
  {
    if exists i, j :: 0 <= i < j < |text| && text[i] == '{' && text[j] == '}' {
      var i, j :| 0 <= i < j < |text| && text[i] == '{' && text[j] == '}';
      assert IsMatch(text, i, j + 1);
    }
    if HasBracePair(text) {
      var i, j :| IsMatch(text, i, j);
      assert 0 <= i < j - 1 < |text| && text[i] == '{' && text[j - 1] == '}';
    }
  }

  /** Extraction fails exactly when no `}` comes after some `{`. */
  lemma ExtractNoneIff(text: string)
    ensures ExtractJson(text).None? <==> !HasBracePair(text)
  {
    HasBracePairIff(text);
    var f := IndexOf(text, '{');
    var l := LastIndexOf(text, '}');
    if f.Some? && l.Some? && f.value < l.value {
      assert text[f.value] == '{' && text[l.value] == '}';
    }
  }

  /** A successful extraction is the leftmost-longest match of the pattern. */
  lemma ExtractIsLeftmostLongest(text: string)
    requires ExtractJson(text).Some?
    ensures exists i, j :: IsLeftmostLongest(text, i, j) && ExtractJson(text).value == text[i..j]
  {
    var i := IndexOf(text, '{').value;
    var j := LastIndexOf(text, '}').value;
    assert IsLeftmostLongest(text, i, j + 1);
  }

  /** Conversely, whenever the text has a leftmost-longest match, that match is extracted. */
  lemma LeftmostLongestIsExtracted(text: string, i: int, j: int)
    requires IsLeftmostLongest(text, i, j)
    ensures ExtractJson(text) == Some(text[i..j])
  {
    forall k | 0 <= k < i
      ensures text[k] != '{'
    {
      assert !IsMatch(text, k, j);
    }
    forall k | j <= k < |text|
      ensures text[k] != '}'
    {
      assert !IsMatch(text, i, k + 1);
    }
  }

  /** A text that opens with `{` and closes with `}` is extracted whole. */
  lemma ExtractWhole(s: string)
    requires |s| >= 2 && s[0] == '{' && s[|s| - 1] == '}'
    ensures ExtractJson(s) == Some(s)
  {
    assert IsLeftmostLongest(s, 0, |s|);
    LeftmostLongestIsExtracted(s, 0, |s|);
    assert s[0..|s|] == s;
  }

  /** Extracting from an extracted object gives the object back unchanged. */
  lemma ExtractIdempotent(text: string)
    requires ExtractJson(text).Some?
    ensures ExtractJson(ExtractJson(text).value) == ExtractJson(text)
  {
    ExtractWhole(ExtractJson(text).value);
  }

  /**
   * Text in front without a `{` and text behind without a `}` do not change
   * what is extracted: only the span from the first `{` to the last `}` counts.
   */
  lemma ExtractIgnoresBraceFreeContext(pre: string, mid: string, post: string)
    requires '{' !in pre && '}' !in post
    ensures ExtractJson(pre + mid + post) == ExtractJson(mid)
  {
    var text := pre + mid + post;
    var n := |pre|;
    assert text[n..n + |mid|] == mid;
    forall k | 0 <= k < n
      ensures text[k] != '{'
    {
      assert text[k] == pre[k];
    }
    forall k | n + |mid| <= k < |text|
      ensures text[k] != '}'
    {
      assert text[k] == post[k - n - |mid|];
    }
    ExtractFromBraceFreeSurroundings(text, mid, n);
  }

  /**
   * `mid` starts at position `n` of `text`; there is no `{` in front of it and
   * no `}` behind it.
   */
  ghost predicate BraceFreeAround(text: string, mid: string, n: nat)
  {
    n + |mid| <= |text| && text[n..n + |mid|] == mid &&
    (forall k :: 0 <= k < n ==> text[k] != '{') &&
    (forall k :: n + |mid| <= k < |text| ==> text[k] != '}')
  }

  /** `ExtractIgnoresBraceFreeContext`, with the context given by position. */
  lemma ExtractFromBraceFreeSurroundings(text: string, mid: string, n: nat)
    requires BraceFreeAround(text, mid, n)
    ensures ExtractJson(text) == ExtractJson(mid)
  {
    if ExtractJson(mid).Some? {
      ExtractIsLeftmostLongest(mid);
      var i, j :| IsLeftmostLongest(mid, i, j) && ExtractJson(mid).value == mid[i..j];
      ShiftLeftmostLongest(text, mid, n, i, j);
    } else {
      ExtractNoneIff(mid);
      forall i, j | 0 <= i < j < |text|
        ensures text[i] == '{' ==> text[j] != '}'
      {
        assert n <= i < n + |mid| ==> text[i] == mid[i - n];
        assert n <= j < n + |mid| ==> text[j] == mid[j - n];
      }
      ExtractNoneIff(text);
    }
  }

  /** Every match in `text` lies inside `mid` when the surroundings hold no brace. */
  lemma MatchInside(text: string, mid: string, n: nat, i: int, j: int)
    requires BraceFreeAround(text, mid, n) && IsMatch(text, i, j)
    ensures IsMatch(mid, i - n, j - n)
  {
    assert n <= i < n + |mid| && n < j <= n + |mid|;
    assert mid[i - n] == text[i] && mid[j - n - 1] == text[j - 1];
  }

  /** The leftmost-longest match of `mid`, shifted by `n`, is that of `text`. */
  lemma ShiftLeftmostLongest(text: string, mid: string, n: nat, i: int, j: int)
    requires BraceFreeAround(text, mid, n) && IsLeftmostLongest(mid, i, j)
    ensures ExtractJson(text) == Some(mid[i..j])
  {
    assert mid[i] == text[n + i] && mid[j - 1] == text[n + j - 1];
    assert IsMatch(text, n + i, n + j);
    forall i', j' | IsMatch(text, i', j')
      ensures n + i < i' || (n + i == i' && j' <= n + j)
    {
      MatchInside(text, mid, n, i', j');
    }
    LeftmostLongestIsExtracted(text, n + i, n + j);
    forall k | 0 <= k < j - i
      ensures text[n + i..n + j][k] == mid[i..j][k]
    {
      assert mid[i + k] == text[n..n + |mid|][i + k];
    }
    assert text[n + i..n + j] == mid[i..j];
  }

  /**
   * The pattern is greedy: trailing prose that contains braces is swallowed
   * together with the object, rather than cut at the end of the first
   * balanced object.
   */
  lemma GreedyExample()
    ensures ExtractJson("ok {\"a\":1} see {x}.") == Some("{\"a\":1} see {x}")
  {
    var lead, obj, tail := "ok ", "{\"a\":1} see {x}", ".";
    assert lead + obj + tail == "ok {\"a\":1} see {x}.";
    assert obj[0] == '{' && obj[|obj| - 1] == '}';
    assert '{' !in lead && '}' !in lead && '{' !in tail && '}' !in tail;
    ExtractIgnoresBraceFreeContext(lead, obj, tail);
    ExtractWhole(obj);
  }

  /** `[\s\S]` also matches line breaks, so the object may span several lines. */
  lemma MultiLineExample()
    ensures ExtractJson("```json\n{\n\"a\": 1\n}\n```") == Some("{\n\"a\": 1\n}")
  {
    var fence, obj, close := "```json\n", "{\n\"a\": 1\n}", "\n```";
    assert fence + obj + close == "```json\n{\n\"a\": 1\n}\n```";
    assert obj[0] == '{' && obj[|obj| - 1] == '}';
    assert '{' !in fence && '}' !in fence && '{' !in close && '}' !in close;
    ExtractIgnoresBraceFreeContext(fence, obj, close);
    ExtractWhole(obj);
  }
}
