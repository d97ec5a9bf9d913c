/** Character-sequence helpers shared by the JSON-repair and bullet-fixing
    transforms: Python's notion of whitespace, character counting,
    `str.strip` and `str.replace`. */
module Text {

  /** The characters for which Python's `str.isspace()` holds; the regular
      expression class `\s` on `str` patterns matches exactly these. */
  predicate IsSpace(c: char) {
    || c == ' ' || c == '\t' || c == '\n' || c == '\r'
    || c == '\U{0B}' || c == '\U{0C}'
    || ('\U{1C}' <= c <= '\U{1F}')
    || c == '\U{85}' || c == '\U{A0}' || c == '\U{1680}'
    || ('\U{2000}' <= c <= '\U{200A}')
    || c == '\U{2028}' || c == '\U{2029}' || c == '\U{202F}'
    || c == '\U{205F}' || c == '\U{3000}'
  }

  predicate AllSpace(s: string) {
    forall i :: 0 <= i < |s| ==> IsSpace(s[i])
  }

  /** Python's `s.count(c)` for a one-character needle. */
  function Count(s: string, c: char): nat {
    if s == [] then 0 else (if s[0] == c then 1 else 0) + Count(s[1..], c)
  }

  /** `c * n` in Python. */
  function Repeat(c: char, n: nat): (r: string)
    ensures |r| == n
    ensures forall i :: 0 <= i < |r| ==> r[i] == c
  {
    if n == 0 then [] else [c] + Repeat(c, n - 1)
  }

  predicate StartsWith(s: string, prefix: string) {
    |prefix| <= |s| && s[..|prefix|] == prefix
  }

  lemma {:induction false} CountConcat(a: string, b: string, c: char)
    ensures Count(a + b, c) == Count(a, c) + Count(b, c)
  {
    if a == [] {
      assert a + b == b;
    } else {
      assert (a + b)[1..] == a[1..] + b;
      CountConcat(a[1..], b, c);
    }
  }

  lemma {:induction false} CountRepeat(c: char, n: nat, d: char)
    ensures Count(Repeat(c, n), d) == (if c == d then n else 0)
  {
    if n > 0 {
      assert Repeat(c, n)[1..] == Repeat(c, n - 1);
      CountRepeat(c, n - 1, d);
    }
  }

  /** A character that does not occur in `s` is counted zero times. */
  lemma {:induction false} CountAbsent(s: string, c: char)
    requires forall i :: 0 <= i < |s| ==> s[i] != c
    ensures Count(s, c) == 0
  {
    if s != [] {
      CountAbsent(s[1..], c);
    }
  }

  /** `s.lstrip()`: the longest all-whitespace prefix is removed. */
  function TrimLeft(s: string): (r: string)
    ensures |r| <= |s| && r == s[|s| - |r|..]
    ensures AllSpace(s[..|s| - |r|])
    ensures r == [] || !IsSpace(r[0])
  {
    if s != [] && IsSpace(s[0]) then TrimLeft(s[1..]) else s
  }

  /** `s.rstrip()`: the longest all-whitespace suffix is removed. */
  function TrimRight(s: string): (r: string)
    ensures |r| <= |s| && r == s[..|r|]
    ensures AllSpace(s[|r|..])
    ensures r == [] || !IsSpace(r[|r| - 1])
  {
    if s != [] && IsSpace(s[|s| - 1]) then TrimRight(s[..|s| - 1]) else s
  }

  /** How many characters `s.strip()` removes from the front. */
  function StripOffset(s: string): nat {
    |s| - |TrimLeft(s)|
  }

  /** `s.strip()`: the result is the slice of `s` after the leading
      whitespace that neither starts nor ends with whitespace, and
      everything cut away is whitespace. */
  function Strip(s: string): (r: string)
    ensures StripOffset(s) + |r| <= |s|
    ensures s[StripOffset(s)..StripOffset(s) + |r|] == r
    ensures AllSpace(s[..StripOffset(s)]) && AllSpace(s[StripOffset(s) + |r|..])
    ensures r == [] || (!IsSpace(r[0]) && !IsSpace(r[|r| - 1]))
  {
    var left := TrimLeft(s);
    var r := TrimRight(left);
    StripSlices(s, left, r);
    assert StripOffset(s) == |s| - |left|;
    r
  }

  /** How the two trims' slices sit inside the original text. */
  lemma StripSlices(s: string, left: string, r: string)
    requires |left| <= |s| && left == s[|s| - |left|..]
    requires |r| <= |left| && r == left[..|r|]
    ensures var i := |s| - |left|;
            && s[i..i + |r|] == r
            && s[i + |r|..] == left[|r|..]
            && (|r| > 0 ==> r[0] == left[0])
  {
  }

  /** A text is its prefix followed by its suffix, and a suffix is a slice
      followed by what is after it. */
  lemma SplitAt(s: string, a: nat, b: nat)
    requires a <= b <= |s|
    ensures s == s[..a] + s[a..]
    ensures s[a..] == s[a..b] + s[b..]
  {
  }

  /** Leading whitespace in front of a text that starts with a
      non-whitespace character is exactly what `lstrip` removes. */
  lemma {:induction false} TrimLeftPadded(pre: string, x: string)
    requires AllSpace(pre) && |x| > 0 && !IsSpace(x[0])
    ensures TrimLeft(pre + x) == x
  {
    if pre == [] {
      assert pre + x == x;
    } else {
      assert (pre + x)[1..] == pre[1..] + x;
      TrimLeftPadded(pre[1..], x);
    }
  }

  /** Trailing whitespace after a text that ends with a non-whitespace
      character is exactly what `rstrip` removes. */
  lemma {:induction false} TrimRightPadded(x: string, post: string)
    requires AllSpace(post) && |x| > 0 && !IsSpace(x[|x| - 1])
    ensures TrimRight(x + post) == x
    decreases |post|
  {
    if post == [] {
      assert x + post == x;
    } else {
      var n := |post| - 1;
      assert (x + post)[..|x + post| - 1] == x + post[..n];
      TrimRightPadded(x, post[..n]);
    }
  }

  /** `strip` of a text padded with whitespace on both sides gives back
      the text, when its own ends are not whitespace. */
  lemma StripPadded(pre: string, x: string, post: string)
    requires AllSpace(pre) && AllSpace(post)
    requires |x| > 0 && !IsSpace(x[0]) && !IsSpace(x[|x| - 1])
    ensures Strip(pre + x + post) == x
  {
    assert pre + x + post == pre + (x + post);
    TrimLeftPadded(pre, x + post);
    TrimRightPadded(x, post);
  }

  /** Python's `s.replace(pattern, replacement)`: occurrences are found left
      to right and do not overlap. Every call site uses a non-empty literal
      pattern. */
  function ReplaceAll(s: string, pattern: string, replacement: string): string
    requires |pattern| > 0
    decreases |s|
  {
    if |s| < |pattern| then s
    else if s[..|pattern|] == pattern
    then replacement + ReplaceAll(s[|pattern|..], pattern, replacement)
    else [s[0]] + ReplaceAll(s[1..], pattern, replacement)
  }

  /** A replacement that trades a pattern for text with the same number of
      `c` characters leaves the number of `c` characters in the string
      unchanged. */
  lemma {:induction false} ReplaceAllKeepsCount(s: string, pattern: string, replacement: string, c: char)
    requires |pattern| > 0
    requires Count(pattern, c) == Count(replacement, c)
    ensures Count(ReplaceAll(s, pattern, replacement), c) == Count(s, c)
    decreases |s|
  {
    if |s| < |pattern| {
    } else if s[..|pattern|] == pattern {
      ReplaceAllKeepsCount(s[|pattern|..], pattern, replacement, c);
      CountConcat(replacement, ReplaceAll(s[|pattern|..], pattern, replacement), c);
      assert s == pattern + s[|pattern|..];
      CountConcat(pattern, s[|pattern|..], c);
    } else {
      ReplaceAllKeepsCount(s[1..], pattern, replacement, c);
      CountConcat([s[0]], ReplaceAll(s[1..], pattern, replacement), c);
    }
  }
  /** Text in which the pattern's first character does not occur is copied
      as it is, and the replacement goes on after it. */
  lemma {:induction false} ReplaceSkipsPlain(u: string, v: string, pattern: string, replacement: string)
    requires |pattern| > 0
    requires forall i :: 0 <= i < |u| ==> u[i] != pattern[0]
    ensures ReplaceAll(u + v, pattern, replacement) == u + ReplaceAll(v, pattern, replacement)
  {
    if u == [] {
      assert u + v == v;
    } else {
      var s := u + v;
      assert s[0] == u[0] && s[1..] == u[1..] + v;
      assert |s| >= |pattern| ==> s[..|pattern|][0] != pattern[0];
      ReplaceSkipsHead(s, pattern, replacement);
      ReplaceSkipsPlain(u[1..], v, pattern, replacement);
      assert u == [u[0]] + u[1..];
    }
  }

  /** Where the pattern does not start, the replacement copies the first
      character and goes on. */
  lemma ReplaceSkipsHead(t: string, pattern: string, replacement: string)
    requires |t| > 0 && |pattern| > 0
    requires |t| >= |pattern| ==> t[..|pattern|] != pattern
    ensures ReplaceAll(t, pattern, replacement) == [t[0]] + ReplaceAll(t[1..], pattern, replacement)
  {
    if |t| < |pattern| {
      assert ReplaceAll(t[1..], pattern, replacement) == t[1..];
      assert t == [t[0]] + t[1..];
    } else {
      assert ReplaceAll(t, pattern, replacement) == [t[0]] + ReplaceAll(t[1..], pattern, replacement);
    }
  }
}
