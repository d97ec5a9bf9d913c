/** `fix_unquoted_bullets`: rewrites bullet lines that a language model put
    inside a JSON array into quoted array entries. It is the substitution
    `re.sub(r'[\n\r]\s*[•\-]\s*(.+)', ..., text)`, where each match becomes
    a newline, four spaces, a quote, the captured rest of the line with
    every `"` escaped, and a closing `",`. */
module Bullets {
  import opened Wrappers
  import opened Text

  predicate IsLineBreak(c: char) {
    c == '\n' || c == '\r'
  }

  /** The class `[•\-]`. */
  predicate IsBullet(c: char) {
    c == '\U{2022}' || c == '-'
  }

  predicate SpaceBetween(s: string, lo: nat, hi: nat)
    requires lo <= hi <= |s|
  {
    forall x :: lo <= x < hi ==> IsSpace(s[x])
  }

  predicate NoNewline(s: string) {
    forall x :: 0 <= x < |s| ==> s[x] != '\n'
  }

  /** `s[1..m]` is `\s*[•\-]\s*`: whitespace, one bullet, whitespace. */
  predicate BulletShape(s: string, m: nat)
    requires m <= |s|
  {
    exists b :: 1 <= b < m && IsBullet(s[b]) && SpaceBetween(s, 1, b) && SpaceBetween(s, b + 1, m)
  }

  /** A match at the start of the text: it ends before index `end`, and
      `content` is what the group `(.+)` captured. */
  datatype BulletMatch = BulletMatch(end: nat, content: string)

  /** End of the greedy whitespace run that starts at `i`. */
  function SpaceEnd(s: string, i: nat): (r: nat)
    requires i <= |s|
    ensures i <= r <= |s| && SpaceBetween(s, i, r)
    ensures r == |s| || !IsSpace(s[r])
    decreases |s| - i
  {
    if i < |s| && IsSpace(s[i]) then SpaceEnd(s, i + 1) else i
  }

  /** End of the greedy `.+` that starts at `i`: `.` is every character but
      `\n`. */
  function LineEnd(s: string, i: nat): (r: nat)
    requires i <= |s|
    ensures i <= r <= |s|
    ensures forall x :: i <= x < r ==> s[x] != '\n'
    ensures r == |s| || s[r] == '\n'
    decreases |s| - i
  {
    if i < |s| && s[i] != '\n' then LineEnd(s, i + 1) else i
  }

  /** The last character in `s[lo..hi]` that `.` can match: where the
      engine's backtracking into the second `\s*` lets `(.+)` start when
      that whitespace ran to the end of the text. */
  function LastNonNewline(s: string, lo: nat, hi: nat): (r: Option<nat>)
    requires lo <= hi <= |s|
    ensures r.Some? ==> lo <= r.value < hi && s[r.value] != '\n'
                        && forall x :: r.value < x < hi ==> s[x] == '\n'
    ensures r.None? ==> forall x :: lo <= x < hi ==> s[x] == '\n'
    decreases hi
  {
    if hi <= lo then None
    else if s[hi - 1] != '\n' then Some(hi - 1)
    else LastNonNewline(s, lo, hi - 1)
  }

  /** Any bullet prefix must use the first non-whitespace character after
      the line break as its bullet, and cannot reach past the whitespace
      that follows it. */
  lemma ShapeIsForced(s: string, m: nat)
    requires 1 <= m <= |s|
    requires BulletShape(s, m)
    ensures var b := SpaceEnd(s, 1);
            b < m && IsBullet(s[b]) && m <= SpaceEnd(s, b + 1)
  {
    var w :| 1 <= w < m && IsBullet(s[w]) && SpaceBetween(s, 1, w) && SpaceBetween(s, w + 1, m);
    SpaceEndStopsAt(s, 1, w);
    SpaceEndReaches(s, w + 1, m);
  }

  /** The whitespace run from `i` stops at the first non-whitespace. */
  lemma {:induction false} SpaceEndStopsAt(s: string, i: nat, w: nat)
    requires i <= w < |s| && SpaceBetween(s, i, w) && !IsSpace(s[w])
    ensures SpaceEnd(s, i) == w
    decreases w - i
  {
    if i < w {
      assert IsSpace(s[i]);
      SpaceEndStopsAt(s, i + 1, w);
    }
  }

  /** The whitespace run from `i` covers every all-whitespace stretch. */
  lemma {:induction false} SpaceEndReaches(s: string, i: nat, m: nat)
    requires i <= m <= |s| && SpaceBetween(s, i, m)
    ensures m <= SpaceEnd(s, i)
    decreases m - i
  {
    if i < m {
      assert IsSpace(s[i]);
      SpaceEndReaches(s, i + 1, m);
    }
  }

  /** `m` is the match of the expression at the start of `s`: the text
      opens with a line break and a bullet prefix, the group is a
      non-empty run without `\n` that ends the line (or the text), and no
      longer bullet prefix reaches a character the group could start at. */
  predicate IsMatch(s: string, m: BulletMatch) {
    var n, g := m.end, m.content;
    && 0 < |g| < n <= |s|
    && IsLineBreak(s[0])
    && BulletShape(s, n - |g|)
    && s[n - |g|..n] == g
    && NoNewline(g)
    && (n == |s| || s[n] == '\n')
    && (forall x :: n - |g| < x < |s| && BulletShape(s, x) ==> s[x] == '\n')
  }

  /** No bullet prefix after the opening line break reaches a character
      the group could start at. */
  predicate NoMatchAfterBreak(s: string) {
    forall x :: 1 <= x < |s| && BulletShape(s, x) ==> s[x] == '\n'
  }

  /** Without a bullet where the first whitespace run ends, no bullet
      prefix exists at all. */
  lemma NoBulletNoShape(s: string)
    requires |s| > 0
    requires SpaceEnd(s, 1) == |s| || !IsBullet(s[SpaceEnd(s, 1)])
    ensures NoMatchAfterBreak(s)
  {
    forall x | 1 <= x < |s| && BulletShape(s, x)
      ensures false
    {
      ShapeIsForced(s, x);
    }
  }

  /** The facts that make up a match whose group is `s[k..e]`. */
  lemma MatchIntro(s: string, k: nat, e: nat)
    requires 1 <= k < e <= |s| && IsLineBreak(s[0]) && BulletShape(s, k)
    requires forall x :: k <= x < e ==> s[x] != '\n'
    requires e == |s| || s[e] == '\n'
    requires forall x :: k < x < |s| && BulletShape(s, x) ==> s[x] == '\n'
    ensures IsMatch(s, BulletMatch(e, s[k..e]))
  {
    var g := s[k..e];
    assert NoNewline(g) by {
      forall x | 0 <= x < |g|
        ensures g[x] != '\n'
      {
        assert g[x] == s[k + x];
      }
    }
  }

  /** No bullet prefix reaches past the whitespace that follows the
      bullet. */
  lemma ShapesEndAfterBullet(s: string)
    requires |s| > 0
    ensures forall x :: 1 <= x <= |s| && BulletShape(s, x) ==> x <= SpaceEnd(s, SpaceEnd(s, 1) + 1)
  {
    forall x | 1 <= x <= |s| && BulletShape(s, x)
      ensures x <= SpaceEnd(s, SpaceEnd(s, 1) + 1)
    {
      ShapeIsForced(s, x);
    }
  }

  /** The group starts after the whitespace that follows the bullet and
      runs to the end of the line. */
  function InLineMatch(s: string): BulletMatch
    requires |s| > 0 && SpaceEnd(s, 1) < |s|
    requires SpaceEnd(s, SpaceEnd(s, 1) + 1) < |s|
  {
    var k := SpaceEnd(s, SpaceEnd(s, 1) + 1);
    BulletMatch(LineEnd(s, k), s[k..LineEnd(s, k)])
  }

  /** When the whitespace after the bullet stops before the end of the
      text, the group starts there and runs to the end of the line. */
  lemma MatchInLine(s: string)
    requires |s| > 0 && IsLineBreak(s[0])
    requires SpaceEnd(s, 1) < |s| && IsBullet(s[SpaceEnd(s, 1)])
    requires SpaceEnd(s, SpaceEnd(s, 1) + 1) < |s|
    ensures IsMatch(s, InLineMatch(s))
  {
    var b := SpaceEnd(s, 1);
    var k := SpaceEnd(s, b + 1);
    assert s[k] != '\n' by { assert !IsSpace(s[k]); }
    var e := LineEnd(s, k);
    assert BulletShape(s, k) by {
      assert 1 <= b < k && IsBullet(s[b]) && SpaceBetween(s, 1, b) && SpaceBetween(s, b + 1, k);
    }
    ShapesEndAfterBullet(s);
    MatchIntro(s, k, e);
  }

  /** When the whitespace after the bullet runs to the end of the text, the
      engine backtracks: the group is the last character that is not `\n`. */
  lemma MatchAtEnd(s: string, p: nat)
    requires |s| > 0 && IsLineBreak(s[0])
    requires SpaceEnd(s, 1) < |s| && IsBullet(s[SpaceEnd(s, 1)])
    requires SpaceEnd(s, SpaceEnd(s, 1) + 1) == |s|
    requires LastNonNewline(s, SpaceEnd(s, 1) + 1, |s|) == Some(p)
    ensures IsMatch(s, BulletMatch(p + 1, [s[p]]))
  {
    var b := SpaceEnd(s, 1);
    assert BulletShape(s, p) by {
      assert 1 <= b < p && IsBullet(s[b]) && SpaceBetween(s, 1, b) && SpaceBetween(s, b + 1, p);
    }
    MatchIntro(s, p, p + 1);
    assert s[p..p + 1] == [s[p]];
  }

  /** ... or, when only `\n` follows the bullet, there is no match. */
  lemma NoMatchAtEnd(s: string)
    requires |s| > 0 && IsLineBreak(s[0])
    requires SpaceEnd(s, 1) < |s| && IsBullet(s[SpaceEnd(s, 1)])
    requires SpaceEnd(s, SpaceEnd(s, 1) + 1) == |s|
    requires LastNonNewline(s, SpaceEnd(s, 1) + 1, |s|).None?
    ensures NoMatchAfterBreak(s)
  {
    ShapesEndAfterBullet(s);
  }

  /** The match once the line break and the bullet have been found: the
      group starts after the whitespace that follows the bullet, or, when
      that whitespace runs to the end of the text, at the last character
      that is not `\n`. */
  function MatchAfterBullet(s: string): (r: Option<BulletMatch>)
    requires |s| > 0 && IsLineBreak(s[0])
    requires SpaceEnd(s, 1) < |s| && IsBullet(s[SpaceEnd(s, 1)])
    ensures r.Some? ==> IsMatch(s, r.value)
    ensures r.None? ==> NoMatchAfterBreak(s)
  {
    var b := SpaceEnd(s, 1);
    var k := SpaceEnd(s, b + 1);
    if k < |s| then
      MatchInLine(s);
      Some(InLineMatch(s))
    else
      match LastNonNewline(s, b + 1, |s|)
      case Some(p) =>
        MatchAtEnd(s, p);
        Some(BulletMatch(p + 1, [s[p]]))
      case None =>
        NoMatchAtEnd(s);
        None
  }

  /** The regular expression matched at position 0 with Python's
      backtracking semantics. A match, when there is one, starts its group
      at the last position a bullet prefix can reach that is not a `\n`, and
      the group runs to the end of its line. */
  function MatchBullet(s: string): (r: Option<BulletMatch>)
    ensures r.Some? ==> IsMatch(s, r.value)
    ensures r.None? && |s| > 0 && IsLineBreak(s[0]) ==> NoMatchAfterBreak(s)
  {
    if |s| == 0 || !IsLineBreak(s[0]) then None
    else if SpaceEnd(s, 1) == |s| || !IsBullet(s[SpaceEnd(s, 1)]) then
      NoBulletNoShape(s);
      None
    else
      MatchAfterBullet(s)
  }

  /** Python's `content.replace('"', '\\"')`: every double quote gains a
      backslash in front, nothing else changes. */
  function Escape(g: string): (r: string)
    ensures |r| == |g| + Count(g, '"')
    ensures Count(r, '"') == Count(g, '"')
    ensures forall i :: 0 <= i < |r| && r[i] == '"' ==> i > 0 && r[i - 1] == '\\'
  {
    if g == [] then []
    else
      var head := if g[0] == '"' then "\\\"" else [g[0]];
      var r := head + Escape(g[1..]);
      CountConcat(head, Escape(g[1..]), '"');
      r
  }

  /** Reading a backslash-quote pair back as a quote. */
  function Unescape(t: string): string {
    if |t| >= 2 && t[0] == '\\' && t[1] == '"' then "\"" + Unescape(t[2..])
    else if t == [] then []
    else [t[0]] + Unescape(t[1..])
  }

  /** The escaping loses nothing: reading it back gives the captured text. */
  lemma {:induction false} EscapeRoundTrip(g: string)
    ensures Unescape(Escape(g)) == g
  {
    if g != [] {
      EscapeRoundTrip(g[1..]);
      var rest := Escape(g[1..]);
      if g[0] == '"' {
        assert Escape(g) == "\\\"" + rest;
        assert Escape(g)[2..] == rest;
      } else {
        assert Escape(g) == [g[0]] + rest;
        assert Escape(g)[1..] == rest;
        if g[0] == '\\' && |rest| > 0 {
          assert rest[0] != '"';
        }
      }
    }
  }

  /** The text a match is replaced with. */
  function BulletEntry(content: string): string {
    "\n    \"" + Escape(content) + "\","
  }

  /** The substitution over the whole text: scan left to right, replacing
      each match and resuming after it. */
  function FixUnquotedBullets(s: string): string
    decreases |s|
  {
    if s == [] then []
    else
      match MatchBullet(s)
      case Some(m) => BulletEntry(m.content) + FixUnquotedBullets(s[m.end..])
      case None => [s[0]] + FixUnquotedBullets(s[1..])
  }

  /** With no line break, or with no bullet character, there is nothing to
      match and the text is returned as it came. */
  lemma {:induction false} FixUnquotedBulletsIdentity(s: string)
    requires (forall i :: 0 <= i < |s| ==> !IsLineBreak(s[i]))
          || (forall i :: 0 <= i < |s| ==> !IsBullet(s[i]))
    ensures FixUnquotedBullets(s) == s
    decreases |s|
  {
    if s != [] {
      assert MatchBullet(s).None?;
      FixUnquotedBulletsIdentity(s[1..]);
    }
  }

  /** A matched bullet line comes out as a newline, four spaces and a
      quoted entry whose quotes are all escaped; unescaping the entry gives
      back the rest of the line after the bullet. */
  lemma MatchedLineBecomesEntry(s: string)
    requires MatchBullet(s).Some?
    ensures var m := MatchBullet(s).value;
            var out := FixUnquotedBullets(s);
            var body := Escape(m.content);
            && StartsWith(out, "\n    \"" + body + "\",")
            && Unescape(body) == s[m.end - |m.content|..m.end]
  {
    var m := MatchBullet(s).value;
    EscapeRoundTrip(m.content);
    var out := FixUnquotedBullets(s);
    assert out == BulletEntry(m.content) + FixUnquotedBullets(s[m.end..]);
  }

  /** Text before the first line break is copied as it is: no match can
      start there, and the scan goes on with the rest. */
  lemma {:induction false} PrefixWithoutBreakIsCopied(u: string, v: string)
    requires forall i :: 0 <= i < |u| ==> !IsLineBreak(u[i])
    ensures FixUnquotedBullets(u + v) == u + FixUnquotedBullets(v)
    decreases |u|
  {
    if u == [] {
      assert u + v == v;
    } else {
      CopiedPrefixHead(u, v);
      PrefixWithoutBreakIsCopied(u[1..], v);
      ConsConcat(u, FixUnquotedBullets(v));
    }
  }

  /** The first character of a prefix without line breaks is copied. */
  lemma CopiedPrefixHead(u: string, v: string)
    requires |u| > 0 && !IsLineBreak(u[0])
    ensures FixUnquotedBullets(u + v) == [u[0]] + FixUnquotedBullets(u[1..] + v)
  {
    var s := u + v;
    assert s[0] == u[0] && s[1..] == u[1..] + v;
    CopiedHead(s);
  }

  lemma ConsConcat(u: string, w: string)
    requires |u| > 0
    ensures [u[0]] + (u[1..] + w) == u + w
  {
    assert u == [u[0]] + u[1..];
  }

  /** A character that is not a line break starts no match and is copied. */
  lemma CopiedHead(s: string)
    requires |s| > 0 && !IsLineBreak(s[0])
    ensures FixUnquotedBullets(s) == [s[0]] + FixUnquotedBullets(s[1..])
  {
    assert MatchBullet(s).None?;
  }

  /** A bullet line in the middle of a reply, after text with no line
      break, is rewritten in place: the text before it is kept, the line
      becomes its quoted entry, and the scan resumes after the match. */
  lemma BulletLineAfterPrefix(u: string, s: string)
    requires forall i :: 0 <= i < |u| ==> !IsLineBreak(u[i])
    requires MatchBullet(s).Some?
    ensures var m := MatchBullet(s).value;
            && FixUnquotedBullets(u + s) == u + BulletEntry(m.content) + FixUnquotedBullets(s[m.end..])
            && Unescape(Escape(m.content)) == s[m.end - |m.content|..m.end]
  {
    var m := MatchBullet(s).value;
    PrefixWithoutBreakIsCopied(u, s);
    MatchedLineBecomesEntry(s);
    assert FixUnquotedBullets(s) == BulletEntry(m.content) + FixUnquotedBullets(s[m.end..]);
  }

  /** Text without double quotes is not changed by the escaping. */
  lemma {:induction false} EscapeNoQuotes(g: string)
    requires forall i :: 0 <= i < |g| ==> g[i] != '"'
    ensures Escape(g) == g
  {
    if g != [] {
      EscapeNoQuotes(g[1..]);
      assert Escape(g) == [g[0]] + Escape(g[1..]);
    }
  }

  /** A line `- content` after a line break is matched up to the next line
      break, with `content` as the group. */
  lemma BulletLineMatches(content: string, tail: string)
    requires |content| > 0 && !IsSpace(content[0])
    requires forall i :: 0 <= i < |content| ==> content[i] != '\n'
    requires |tail| > 0 && tail[0] == '\n'
    ensures MatchBullet("\n- " + content + tail) == Some(BulletMatch(3 + |content|, content))
  {
    var s := "\n- " + content + tail;
    var e := 3 + |content|;
    assert s[0] == '\n' && s[1] == '-' && s[2] == ' ' && s[3] == content[0] && s[e] == '\n';
    assert s[3..e] == content;
    assert SpaceEnd(s, 1) == 1;
    assert SpaceEnd(s, 3) == 3;
    assert SpaceEnd(s, 2) == 3;
    var l := LineEnd(s, 3);
    assert forall x :: 3 <= x < e ==> s[x] == content[x - 3];
    assert l == e;
    assert InLineMatch(s) == BulletMatch(e, content);
  }

  /** After the bullet line of the example below only `\n]` is left, and
      it holds no bullet. */
  lemma ArrayCloseIsKept(content: string)
    ensures var s := "\n- " + content + "\n]";
            FixUnquotedBullets(s[3 + |content|..]) == "\n]"
  {
    var s := "\n- " + content + "\n]";
    var rest := s[3 + |content|..];
    assert rest == "\n]";
    assert !IsBullet(rest[0]) && !IsBullet(rest[1]);
    FixUnquotedBulletsIdentity(rest);
  }

  /** The case the rewrite exists for: an array opened on one line with an
      unquoted bullet on the next becomes an array with one quoted entry,
      which the rewrite follows with a comma before the `]`. */
  lemma BulletInsideArray(content: string)
    requires |content| > 0 && !IsSpace(content[0])
    requires forall i :: 0 <= i < |content| ==> content[i] != '\n' && content[i] != '"'
    ensures FixUnquotedBullets("[" + ("\n- " + content + "\n]")) == "[" + ("\n    \"" + content + "\",") + "\n]"
  {
    var s := "\n- " + content + "\n]";
    BulletLineMatches(content, "\n]");
    ArrayCloseIsKept(content);
    EscapeNoQuotes(content);
    BulletLineAfterPrefix("[", s);
  }
}
