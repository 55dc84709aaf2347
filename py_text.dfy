/** The Python string operations the core relies on: `str.strip()`,
    `str.capitalize()`, `str.startswith()` and an ignore-case substring
    search (`re.search(..., re.IGNORECASE)` with a literal pattern).
    Case mapping is modelled for ASCII letters only. */
module PyText {

  /** The characters `str.isspace()` accepts, which `str.strip()` removes. */
  predicate IsSpace(c: char) {
    ('\t' <= c <= '\r') || ('\U{1C}' <= c <= ' ') || c == '\U{85}' || c == '\U{A0}'
    || c == '\U{1680}' || ('\U{2000}' <= c <= '\U{200A}') || c == '\U{2028}' || c == '\U{2029}'
    || c == '\U{202F}' || c == '\U{205F}' || c == '\U{3000}'
  }

  predicate AllSpace(s: string) {
    forall k :: 0 <= k < |s| ==> IsSpace(s[k])
  }

  /** `s.lstrip()`: drops the leading whitespace. */
  function StripLeft(s: string): string
    decreases |s|
  {
    if s != [] && IsSpace(s[0]) then StripLeft(s[1..]) else s
  }

  /** `s.rstrip()`: drops the trailing whitespace. */
  function StripRight(s: string): string
    decreases |s|
  {
    if s != [] && IsSpace(s[|s| - 1]) then StripRight(s[..|s| - 1]) else s
  }

  /** `s.strip()`: `s` without its leading and trailing whitespace. */
  function Strip(s: string): string {
    StripRight(StripLeft(s))
  }

  /** `lstrip` removes the longest all-whitespace prefix. */
  lemma {:induction false} StripLeftSpec(s: string)
    ensures var r := StripLeft(s);
            |r| <= |s| && r == s[|s| - |r|..] && AllSpace(s[..|s| - |r|]) &&
            (r == [] || !IsSpace(r[0]))
    decreases |s|
  {
    if s != [] && IsSpace(s[0]) {
      StripLeftSpec(s[1..]);
      var r := StripLeft(s[1..]);
      assert s[..|s| - |r|] == [s[0]] + s[1..][..|s| - 1 - |r|];
    }
  }

  /** `rstrip` removes the longest all-whitespace suffix. */
  lemma {:induction false} StripRightSpec(s: string)
    ensures var r := StripRight(s);
            |r| <= |s| && r == s[..|r|] && AllSpace(s[|r|..]) &&
            (r == [] || !IsSpace(r[|r| - 1]))
    decreases |s|
  {
    if s != [] && IsSpace(s[|s| - 1]) {
      StripRightSpec(s[..|s| - 1]);
      var r := StripRight(s[..|s| - 1]);
      assert s[|r|..] == s[..|s| - 1][|r|..] + [s[|s| - 1]];
    }
  }

  /** `strip()` returns a slice of its input, cut only where the input is
      whitespace, that neither starts nor ends with whitespace. */
  lemma StripSpec(s: string)
    ensures var r := Strip(s);
            (exists i, j :: 0 <= i <= j <= |s| && r == s[i..j] && AllSpace(s[..i]) && AllSpace(s[j..])) &&
            (r == [] || (!IsSpace(r[0]) && !IsSpace(r[|r| - 1])))
  {
    var l := StripLeft(s);
    var r := StripRight(l);
    StripLeftSpec(s);
    StripRightSpec(l);
    var i, j := |s| - |l|, |s| - |l| + |r|;
    assert r == s[i..j];
    assert s[j..] == l[|r|..];
  }

  /** Stripping leaves a word with no surrounding whitespace unchanged, and
      a word padded with whitespace becomes the bare word. */
  lemma {:induction false} StripPadded(pre: string, w: string, post: string)
    requires AllSpace(pre) && AllSpace(post)
    requires w != [] && !IsSpace(w[0]) && !IsSpace(w[|w| - 1])
    ensures Strip(pre + w + post) == w
  {
    var s := pre + w + post;
    StripLeftPadded(pre, w + post);
    assert StripLeft(s) == w + post by { assert s == pre + (w + post); }
    StripRightPadded(w, post);
  }

  lemma {:induction false} StripLeftPadded(pre: string, t: string)
    requires AllSpace(pre)
    requires t != [] && !IsSpace(t[0])
    ensures StripLeft(pre + t) == t
    decreases |pre|
  {
    if pre != [] {
      assert (pre + t)[1..] == pre[1..] + t;
      StripLeftPadded(pre[1..], t);
    }
  }

  lemma {:induction false} StripRightPadded(t: string, post: string)
    requires AllSpace(post)
    requires t != [] && !IsSpace(t[|t| - 1])
    ensures StripRight(t + post) == t
    decreases |post|
  {
    if post != [] {
      assert (t + post)[..|t + post| - 1] == t + post[..|post| - 1];
      StripRightPadded(t, post[..|post| - 1]);
    } else {
      assert t + post == t;
    }
  }

  /** Upper-casing one ASCII letter: no lower-case letter is left, and
      nothing but a lower-case letter changes. */
  function UpperChar(c: char): (r: char)
    ensures !('a' <= r <= 'z')
    ensures 'a' <= c <= 'z' || r == c
  {
    if 'a' <= c <= 'z' then (c as int - 32) as char else c
  }

  /** Lower-casing one ASCII letter: no capital is left, nothing but a
      capital changes, and a capital comes back when upper-cased again. */
  function LowerChar(c: char): (r: char)
    ensures !('A' <= r <= 'Z')
    ensures 'A' <= c <= 'Z' || r == c
    ensures 'A' <= c <= 'Z' ==> UpperChar(r) == c
  {
    if 'A' <= c <= 'Z' then (c as int + 32) as char else c
  }

  /** `s.lower()`, for ASCII letters. */
  function Lower(s: string): string {
    seq(|s|, k requires 0 <= k < |s| => LowerChar(s[k]))
  }

  /** Lower-casing keeps the length, leaves no capital, changes only
      capitals, and a second pass changes nothing. */
  lemma LowerSpec(s: string)
    ensures |Lower(s)| == |s|
    ensures forall k :: 0 <= k < |s| ==> !('A' <= Lower(s)[k] <= 'Z')
    ensures forall k :: 0 <= k < |s| ==> Lower(s)[k] == s[k] || 'A' <= s[k] <= 'Z'
    ensures Lower(Lower(s)) == Lower(s)
  {
  }

  /** `s.capitalize()`: the first character upper-cased, the rest lower-cased. */
  function Capitalize(s: string): (r: string)
    ensures |r| == |s|
    ensures |s| > 0 ==> r[0] == UpperChar(s[0])
    ensures forall k :: 0 < k < |s| ==> r[k] == LowerChar(s[k])
  {
    if s == [] then [] else [UpperChar(s[0])] + Lower(s[1..])
  }

  /** Capitalising twice is capitalising once. */
  lemma CapitalizeIdempotent(s: string)
    ensures Capitalize(Capitalize(s)) == Capitalize(s)
  {
    var c := Capitalize(s);
    if s != [] {
      assert UpperChar(UpperChar(s[0])) == UpperChar(s[0]);
      forall k | 0 < k < |s| ensures Capitalize(c)[k] == c[k] {
        assert LowerChar(LowerChar(s[k])) == LowerChar(s[k]);
      }
    }
  }

  /** `s.startswith(p)`. */
  predicate StartsWith(s: string, p: string) {
    |p| <= |s| && s[..|p|] == p
  }

  /** `needle` occurs in `text` at position `i`, ignoring ASCII letter case.
      `needle` is the pattern as written, in lower case. */
  predicate MatchesAt(text: string, needle: string, i: nat) {
    i + |needle| <= |text| && Lower(text[i..i + |needle|]) == needle
  }

  /** `re.search(needle, text, re.IGNORECASE) is not None` for a literal,
      lower-case `needle`: scans the start positions from the left. */
  function ContainsIgnoreCase(text: string, needle: string, from: nat := 0): bool
    requires from <= |text|
    decreases |text| - from
  {
    if |needle| + from > |text| then false
    else if MatchesAt(text, needle, from) then true
    else ContainsIgnoreCase(text, needle, from + 1)
  }

  /** The scan finds a match exactly when the needle occurs at some position
      from `from` on. */
  lemma {:induction false} ContainsIgnoreCaseSpec(text: string, needle: string, from: nat)
    requires from <= |text|
    ensures ContainsIgnoreCase(text, needle, from) <==>
            exists i :: from <= i <= |text| - |needle| && MatchesAt(text, needle, i)
    decreases |text| - from
  {
    if |needle| + from <= |text| && !MatchesAt(text, needle, from) {
      ContainsIgnoreCaseSpec(text, needle, from + 1);
    }
  }
}
