/** String helpers shared by the scripts: Python's `str.lower`, `str.strip`,
    `str.startswith`, `in` on strings, `str.split(sep)[k]`, and the two
    regular-expression scans the scripts use (a literal `re.sub` and
    `re.findall(r'#\w+', ...)`).

    Character classes are ASCII: `lower()` maps only `A`-`Z`, whitespace is
    the ASCII set that `str.isspace` accepts, and a word character (`\w`) is
    an ASCII letter, digit or `_`, or a precomposed Hangul syllable. */
module Text {
  import opened Common

  predicate IsAsciiLower(c: char) { 'a' <= c <= 'z' }
  predicate IsAsciiUpper(c: char) { 'A' <= c <= 'Z' }
  predicate IsDigit(c: char) { '0' <= c <= '9' }

  /** `\w` in the model. */
  predicate IsWordChar(c: char)
  {
    IsAsciiLower(c) || IsAsciiUpper(c) || IsDigit(c) || c == '_' || '\U{AC00}' <= c <= '\U{D7A3}'
  }

  /** The characters `str.isspace` accepts among the first 128. */
  predicate IsSpace(c: char)
  {
    c == ' ' || c == '\t' || c == '\n' || c == '\r' || c == '\U{B}' || c == '\U{C}'
    || '\U{1C}' <= c <= '\U{1F}'
  }

  function LowerChar(c: char): (r: char)
    ensures !IsAsciiUpper(r)
    ensures IsAsciiUpper(c) ==> r as int == c as int + 32
    ensures !IsAsciiUpper(c) ==> r == c
  {
    if IsAsciiUpper(c) then (c as int + 32) as char else c
  }

  /** `s.lower()`. */
  function Lower(s: string): (r: string)
    ensures |r| == |s|
  {
    if s == [] then [] else [LowerChar(s[0])] + Lower(s[1..])
  }

  /** `Lower` maps each character on its own. */
  lemma {:induction false} LowerPointwise(s: string)
    ensures forall i :: 0 <= i < |s| ==> Lower(s)[i] == LowerChar(s[i])
  {
    if s != [] {
      LowerPointwise(s[1..]);
    }
  }

  lemma {:induction false} LowerIdempotent(s: string)
    ensures Lower(Lower(s)) == Lower(s)
  {
    LowerPointwise(s);
    LowerPointwise(Lower(s));
    assert forall i :: 0 <= i < |s| ==> LowerChar(LowerChar(s[i])) == LowerChar(s[i]);
  }

  /** `not s or not s.strip()`: the string is empty or only whitespace. */
  predicate IsBlank(s: string)
  {
    forall i :: 0 <= i < |s| ==> IsSpace(s[i])
  }

  predicate StartsWith(s: string, prefix: string)
  {
    |prefix| <= |s| && s[..|prefix|] == prefix
  }

  predicate OccursAt(s: string, sub: string, k: int)
  {
    0 <= k && k + |sub| <= |s| && s[k..k + |sub|] == sub
  }

  /** The first occurrence of `sub` in `s` at or after `from` (`str.find`). */
  function IndexFrom(s: string, sub: string, from: nat): (r: Option<nat>)
    requires from <= |s|
    ensures r.Some? ==> from <= r.value && OccursAt(s, sub, r.value)
    ensures r.Some? ==> forall k :: from <= k < r.value ==> !OccursAt(s, sub, k)
    ensures r.None? ==> forall k :: from <= k <= |s| ==> !OccursAt(s, sub, k)
    decreases |s| - from
  {
    if from + |sub| > |s| then None
    else if s[from..from + |sub|] == sub then Some(from)
    else IndexFrom(s, sub, from + 1)
  }

  function IndexOf(s: string, sub: string): (r: Option<nat>)
    ensures r.Some? ==> OccursAt(s, sub, r.value)
    ensures r.Some? ==> forall k :: 0 <= k < r.value ==> !OccursAt(s, sub, k)
    ensures r.None? ==> forall k :: 0 <= k <= |s| ==> !OccursAt(s, sub, k)
  {
    IndexFrom(s, sub, 0)
  }

  /** Python's `sub in s`. */
  predicate Contains(s: string, sub: string)
  {
    IndexOf(s, sub).Some?
  }

  /** `s.split(c)[0]`: the text before the first `c`, or all of `s`. */
  function TakeUntil(s: string, c: char): (r: string)
    ensures |r| <= |s| && r == s[..|r|]
    ensures c !in r
    ensures |r| < |s| ==> s[|r|] == c
  {
    if s == [] || s[0] == c then [] else [s[0]] + TakeUntil(s[1..], c)
  }

  /** The text after the first occurrence of `sep`; `s` itself if there is none. */
  function AfterFirst(s: string, sep: string): (r: string)
    ensures IndexOf(s, sep).Some? ==> r == s[IndexOf(s, sep).value + |sep|..]
  {
    match IndexOf(s, sep)
    case Some(i) => s[i + |sep|..]
    case None => s
  }

  /** The number of leading characters equal to `c`. */
  function LeadingCount(s: string, c: char): (n: nat)
    ensures n <= |s|
  {
    if s == [] || s[0] != c then 0 else 1 + LeadingCount(s[1..], c)
  }

  /** `LeadingCount` counts exactly the run of `c` at the start. */
  lemma {:induction false} LeadingCountRun(s: string, c: char)
    ensures forall k :: 0 <= k < LeadingCount(s, c) ==> s[k] == c
    ensures LeadingCount(s, c) < |s| ==> s[LeadingCount(s, c)] != c
  {
    if s != [] && s[0] == c {
      LeadingCountRun(s[1..], c);
    }
  }

  /** The number of trailing characters equal to `c`. */
  function TrailingCount(s: string, c: char): (n: nat)
    ensures n <= |s|
  {
    if s == [] || s[|s| - 1] != c then 0 else 1 + TrailingCount(s[..|s| - 1], c)
  }

  /** `TrailingCount` counts exactly the run of `c` at the end. */
  lemma {:induction false} TrailingCountRun(s: string, c: char)
    ensures forall k :: |s| - TrailingCount(s, c) <= k < |s| ==> s[k] == c
    ensures TrailingCount(s, c) < |s| ==> s[|s| - 1 - TrailingCount(s, c)] != c
  {
    if s != [] && s[|s| - 1] == c {
      TrailingCountRun(s[..|s| - 1], c);
    }
  }

  /** `s.strip(c)`: every leading and every trailing `c` removed. */
  function Strip(s: string, c: char): string
  {
    var t := s[LeadingCount(s, c)..];
    t[..|t| - TrailingCount(t, c)]
  }

  /** What `Strip` leaves is a slice of the input with only `c` cut off at
      either end, and it neither begins nor ends with `c`. */
  lemma StripShape(s: string, c: char)
    ensures exists i, j :: (0 <= i <= j <= |s| && Strip(s, c) == s[i..j]
      && (forall k :: 0 <= k < i ==> s[k] == c) && (forall k :: j <= k < |s| ==> s[k] == c))
    ensures Strip(s, c) != [] ==> Strip(s, c)[0] != c && Strip(s, c)[|Strip(s, c)| - 1] != c
  {
    var t := s[LeadingCount(s, c)..];
    LeadingCountRun(s, c);
    TrailingCountRun(t, c);
    assert Strip(s, c) == s[LeadingCount(s, c)..|s| - TrailingCount(t, c)];
  }

  lemma StripNoop(s: string, c: char)
    requires s == [] || (s[0] != c && s[|s| - 1] != c)
    ensures Strip(s, c) == s
  {
    assert s[0..] == s;
  }

  /** Python's `re.sub(pattern, replacement, s)` for a pattern without special
      characters: every non-overlapping occurrence, scanning left to right. */
  function ReplaceAll(s: string, pattern: string, replacement: string): (r: string)
    requires pattern != []
    decreases |s|
  {
    if |s| < |pattern| then s
    else if s[..|pattern|] == pattern then replacement + ReplaceAll(s[|pattern|..], pattern, replacement)
    else [s[0]] + ReplaceAll(s[1..], pattern, replacement)
  }

  /** A rewrite whose replacement is at least as long as its pattern never
      shortens the text. */
  lemma {:induction false} ReplaceAllNotShorter(s: string, pattern: string, replacement: string)
    requires pattern != [] && |replacement| >= |pattern|
    ensures |ReplaceAll(s, pattern, replacement)| >= |s|
    decreases |s|
  {
    if |s| < |pattern| {
    } else if s[..|pattern|] == pattern {
      ReplaceAllNotShorter(s[|pattern|..], pattern, replacement);
    } else {
      ReplaceAllNotShorter(s[1..], pattern, replacement);
    }
  }

  /** A text in which the pattern does not occur is left unchanged. */
  lemma {:induction false} ReplaceAllAbsent(s: string, pattern: string, replacement: string)
    requires pattern != []
    requires forall k :: 0 <= k <= |s| ==> !OccursAt(s, pattern, k)
    ensures ReplaceAll(s, pattern, replacement) == s
    decreases |s|
  {
    if |s| >= |pattern| {
      assert !OccursAt(s, pattern, 0);
      forall k | 0 <= k <= |s[1..]| ensures !OccursAt(s[1..], pattern, k) {
        assert !OccursAt(s, pattern, k + 1);
        assert k + 1 + |pattern| <= |s| ==> s[1..][k..k + |pattern|] == s[k + 1..k + 1 + |pattern|];
      }
      ReplaceAllAbsent(s[1..], pattern, replacement);
    }
  }

  /** Rewriting a pattern to itself is the identity. */
  lemma {:induction false} ReplaceAllIdentity(s: string, pattern: string)
    requires pattern != []
    ensures ReplaceAll(s, pattern, pattern) == s
    decreases |s|
  {
    if |s| < |pattern| {
    } else if s[..|pattern|] == pattern {
      ReplaceAllIdentity(s[|pattern|..], pattern);
      assert s == s[..|pattern|] + s[|pattern|..];
    } else {
      ReplaceAllIdentity(s[1..], pattern);
      assert s == [s[0]] + s[1..];
    }
  }

  // ---- `re.findall(r'#\w+', s)` ----

  /** A match of `#\w+` that is maximal: it starts at `start`, ends at `end`
      and cannot be extended. */
  predicate IsHashtagAt(s: string, start: int, end: int)
  {
    0 <= start && start + 2 <= end <= |s| && s[start] == '#'
    && (forall k :: start < k < end ==> IsWordChar(s[k]))
    && (end == |s| || !IsWordChar(s[end]))
  }

  /** Where a `#\w+` match could start. */
  predicate CanStartHashtag(s: string, k: int)
  {
    0 <= k && k + 1 < |s| && s[k] == '#' && IsWordChar(s[k + 1])
  }

  /** The end of the run of word characters starting at `k`. */
  function WordEnd(s: string, k: nat): (e: nat)
    requires k <= |s|
    ensures k <= e <= |s|
    decreases |s| - k
  {
    if k < |s| && IsWordChar(s[k]) then WordEnd(s, k + 1) else k
  }

  /** `WordEnd` stops exactly at the first non-word character. */
  lemma {:induction false} WordEndRun(s: string, k: nat)
    requires k <= |s|
    ensures forall j :: k <= j < WordEnd(s, k) ==> IsWordChar(s[j])
    ensures WordEnd(s, k) == |s| || !IsWordChar(s[WordEnd(s, k)])
    decreases |s| - k
  {
    if k < |s| && IsWordChar(s[k]) {
      WordEndRun(s, k + 1);
    }
  }

  /** The spans `[start, end)` of the matches at or after `from`, in the order
      `re.findall` reports them. */
  function HashtagSpans(s: string, from: nat): (spans: seq<(nat, nat)>)
    requires from <= |s|
    ensures forall m :: 0 <= m < |spans| ==> from <= spans[m].0 && IsHashtagAt(s, spans[m].0, spans[m].1)
    ensures forall m :: 0 <= m < |spans| - 1 ==> spans[m].1 <= spans[m + 1].0
    decreases |s| - from
  {
    if from + 1 >= |s| then []
    else if CanStartHashtag(s, from) then
      var e := WordEnd(s, from + 1);
      WordEndRun(s, from + 1);
      [(from, e)] + HashtagSpans(s, e)
    else HashtagSpans(s, from + 1)
  }

  /** Every position at which a match could start lies inside a reported span:
      the scan misses no hashtag. */
  lemma {:induction false} HashtagSpansComplete(s: string, from: nat, k: int)
    requires from <= k && CanStartHashtag(s, k)
    ensures exists m :: 0 <= m < |HashtagSpans(s, from)| && HashtagSpans(s, from)[m].0 <= k < HashtagSpans(s, from)[m].1
    decreases |s| - from
  {
    var spans := HashtagSpans(s, from);
    if from + 1 >= |s| {
    } else if CanStartHashtag(s, from) {
      var e := WordEnd(s, from + 1);
      if k < e {
        assert spans[0] == (from, e);
      } else {
        HashtagSpansComplete(s, e, k);
        var m :| 0 <= m < |HashtagSpans(s, e)| && HashtagSpans(s, e)[m].0 <= k < HashtagSpans(s, e)[m].1;
        assert spans[m + 1] == HashtagSpans(s, e)[m];
      }
    } else {
      assert k != from;
      HashtagSpansComplete(s, from + 1, k);
    }
  }

  /** The matched text of the matches at or after `from`. */
  function HashtagsFrom(s: string, from: nat): seq<string>
    requires from <= |s|
    decreases |s| - from
  {
    if from + 1 >= |s| then []
    else if CanStartHashtag(s, from) then
      var e := WordEnd(s, from + 1);
      [s[from..e]] + HashtagsFrom(s, e)
    else HashtagsFrom(s, from + 1)
  }

  /** `re.findall(r'#\w+', s)`. */
  function FindHashtags(s: string): seq<string>
  {
    HashtagsFrom(s, 0)
  }

  /** The matched texts are the texts of the spans. */
  lemma {:induction false} HashtagsFromSpans(s: string, from: nat)
    requires from <= |s|
    ensures var spans, tags := HashtagSpans(s, from), HashtagsFrom(s, from);
      && |tags| == |spans|
      && forall m :: 0 <= m < |spans| ==> spans[m].0 <= spans[m].1 <= |s| && tags[m] == s[spans[m].0..spans[m].1]
    decreases |s| - from
  {
    if from + 1 >= |s| {
    } else if CanStartHashtag(s, from) {
      var e := WordEnd(s, from + 1);
      HashtagsFromSpans(s, e);
      var spans, tags := HashtagSpans(s, from), HashtagsFrom(s, from);
      assert spans == [(from, e)] + HashtagSpans(s, e);
      assert tags == [s[from..e]] + HashtagsFrom(s, e);
      forall m | 1 <= m < |spans| ensures spans[m].0 <= spans[m].1 <= |s| && tags[m] == s[spans[m].0..spans[m].1] {
        assert spans[m] == HashtagSpans(s, e)[m - 1] && tags[m] == HashtagsFrom(s, e)[m - 1];
      }
    } else {
      HashtagsFromSpans(s, from + 1);
    }
  }

  /** A `#\w+` tag: `#` followed by one or more word characters. */
  predicate IsHashtag(t: string)
  {
    |t| >= 2 && t[0] == '#' && forall j :: 1 <= j < |t| ==> IsWordChar(t[j])
  }

  /** Every extracted tag is `#` followed by one or more word characters, and
      occurs in the text. */
  lemma FindHashtagsSound(s: string)
    ensures forall m :: 0 <= m < |FindHashtags(s)| ==> IsHashtag(FindHashtags(s)[m]) && Contains(s, FindHashtags(s)[m])
  {
    var tags := FindHashtags(s);
    HashtagsFromSpans(s, 0);
    forall m | 0 <= m < |tags| ensures IsHashtag(tags[m]) && Contains(s, tags[m]) {
      var sp := HashtagSpans(s, 0)[m];
      assert IsHashtagAt(s, sp.0, sp.1);
      forall j | 1 <= j < |tags[m]| ensures IsWordChar(tags[m][j]) {
        assert tags[m][j] == s[sp.0 + j];
      }
      assert OccursAt(s, tags[m], sp.0);
    }
  }
}
