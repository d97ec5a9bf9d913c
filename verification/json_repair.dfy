/** `repair_json`: the text clean-up applied to a language model's reply
    before it is parsed as JSON. Five steps, in order: strip surrounding
    whitespace, drop Markdown code fences, delete trailing commas, rename a
    fixed list of misspelled keys, and append missing closing braces and
    brackets. */
module JsonRepair {
  import opened Wrappers
  import opened Text

  const Fence: string := "```"
  const TaggedFence: string := "```json"

  /** Three backticks start at position `i`. */
  predicate FenceAt(s: string, i: nat)
    requires i + 3 <= |s|
  {
    s[i] == '`' && s[i + 1] == '`' && s[i + 2] == '`'
  }

  predicate NoFence(s: string) {
    forall i: nat :: i + 3 <= |s| ==> !FenceAt(s, i)
  }

  lemma NoFenceSlice(s: string, lo: nat, hi: nat)
    requires lo <= hi <= |s|
    requires NoFence(s)
    ensures NoFence(s[lo..hi])
  {
    var t := s[lo..hi];
    forall i: nat | i + 3 <= |t|
      ensures !FenceAt(t, i)
    {
      assert !FenceAt(s, lo + i);
    }
  }

  /** A fence-free text stays fence-free when one character is put in front
      of it, unless that character would complete a run of three backticks. */
  lemma NoFenceCons(c: char, u: string)
    requires NoFence(u)
    requires !(c == '`' && |u| >= 2 && u[0] == '`' && u[1] == '`')
    ensures NoFence([c] + u)
  {
    var t := [c] + u;
    forall i: nat | i + 3 <= |t|
      ensures !FenceAt(t, i)
    {
      if i > 0 {
        assert !FenceAt(u, i - 1);
      }
    }
  }

  /** Deleting every bare fence keeps a leading non-backtick character. */
  lemma {:induction false} DeleteFencesKeepsHead(t: string)
    requires |t| > 0 && t[0] != '`'
    ensures var r := ReplaceAll(t, Fence, ""); |r| > 0 && r[0] == t[0]
  {
    if |t| >= 3 {
      assert t[..3] != Fence by { assert t[..3][0] != '`'; }
    }
  }

  /** `s.replace("```", "")` leaves no run of three backticks behind: what
      survives of a run of backticks is shorter than three and is followed
      by a character that is not a backtick. */
  lemma {:induction false} DeleteFencesLeavesNone(s: string)
    ensures NoFence(ReplaceAll(s, Fence, ""))
    decreases |s|
  {
    var r := ReplaceAll(s, Fence, "");
    if |s| < 3 {
    } else if s[..3] == Fence {
      DeleteFencesLeavesNone(s[3..]);
      assert r == ReplaceAll(s[3..], Fence, "");
    } else {
      var t := s[1..];
      var u := ReplaceAll(t, Fence, "");
      DeleteFencesLeavesNone(t);
      assert r == [s[0]] + u;
      if s[0] == '`' {
        if t[0] != '`' {
          DeleteFencesKeepsHead(t);
        } else {
          assert t[1] != '`' by { assert s[..3][1] == s[1] && s[..3][2] == s[2]; }
          if |t| >= 3 {
            assert t[..3] != Fence by { assert t[..3][1] != '`'; }
            assert u == [t[0]] + ReplaceAll(t[1..], Fence, "");
            DeleteFencesKeepsHead(t[1..]);
          } else {
            assert u == t;
          }
        }
      }
      NoFenceCons(s[0], u);
    }
  }

  /** The characters a fence can consist of: the backtick and the letters
      of its `json` tag. */
  predicate FenceChar(c: char) {
    c == '`' || c == 'j' || c == 's' || c == 'o' || c == 'n'
  }

  /** A character that neither stripping nor fence deletion can remove. */
  predicate Kept(c: char) {
    !IsSpace(c) && !FenceChar(c)
  }

  /** The kept characters of `s`, in order: everything but whitespace and
      fence characters. */
  function Content(s: string): string {
    if s == [] then [] else (if Kept(s[0]) then [s[0]] else []) + Content(s[1..])
  }

  lemma {:induction false} ContentConcat(a: string, b: string)
    ensures Content(a + b) == Content(a) + Content(b)
  {
    if a == [] {
      assert a + b == b;
    } else {
      var head := if Kept(a[0]) then [a[0]] else [];
      assert (a + b)[0] == a[0] && (a + b)[1..] == a[1..] + b;
      ContentConcat(a[1..], b);
      assert Content(a + b) == head + Content(a[1..] + b);
      assert Content(a) == head + Content(a[1..]);
    }
  }

  lemma {:induction false} ContentOfUnkept(s: string)
    requires forall i :: 0 <= i < |s| ==> !Kept(s[i])
    ensures Content(s) == []
  {
    if s != [] {
      ContentOfUnkept(s[1..]);
    }
  }

  lemma SpaceHasNoContent(s: string)
    requires AllSpace(s)
    ensures Content(s) == []
  {
    ContentOfUnkept(s);
  }

  /** Only whitespace is cut off by a strip. */
  lemma StripKeepsContent(s: string)
    ensures Content(Strip(s)) == Content(s)
  {
    var o, r := StripOffset(s), Strip(s);
    SplitAt(s, o, o + |r|);
    PaddingHasNoContent(s[..o], r, s[o + |r|..]);
  }

  lemma PaddingHasNoContent(front: string, r: string, back: string)
    requires AllSpace(front) && AllSpace(back)
    ensures Content(front + (r + back)) == Content(r)
  {
    ContentConcat(front, r + back);
    ContentConcat(r, back);
    SpaceHasNoContent(front);
    SpaceHasNoContent(back);
    assert Content(r) + [] == Content(r);
  }

  /** Deleting every occurrence of a pattern made of fence characters only
      removes fence characters. */
  lemma {:induction false} DeleteKeepsContent(s: string, pattern: string)
    requires |pattern| > 0
    requires forall i :: 0 <= i < |pattern| ==> FenceChar(pattern[i])
    ensures Content(ReplaceAll(s, pattern, "")) == Content(s)
    decreases |s|
  {
    if |s| < |pattern| {
    } else if s[..|pattern|] == pattern {
      var rest := s[|pattern|..];
      DeleteKeepsContent(rest, pattern);
      assert ReplaceAll(s, pattern, "") == ReplaceAll(rest, pattern, "");
      assert s == pattern + rest;
      ContentConcat(pattern, rest);
      ContentOfUnkept(pattern);
    } else {
      DeleteKeepsContent(s[1..], pattern);
      assert ReplaceAll(s, pattern, "") == [s[0]] + ReplaceAll(s[1..], pattern, "");
    }
  }

  /** A kept character is counted the same in a text and in its content. */
  lemma {:induction false} ContentKeepsCount(s: string, c: char)
    requires Kept(c)
    ensures Count(Content(s), c) == Count(s, c)
  {
    if s != [] {
      ContentKeepsCount(s[1..], c);
      CountConcat(if Kept(s[0]) then [s[0]] else [], Content(s[1..]), c);
    }
  }

  /** The fence deletion of step 2 removes fence characters only. */
  lemma FencesOnlyLoseFenceChars(cleaned: string)
    ensures Content(Strip(ReplaceAll(ReplaceAll(cleaned, TaggedFence, ""), Fence, ""))) == Content(cleaned)
  {
    var untagged := ReplaceAll(cleaned, TaggedFence, "");
    DeleteKeepsContent(cleaned, TaggedFence);
    DeleteKeepsContent(untagged, Fence);
    StripKeepsContent(ReplaceAll(untagged, Fence, ""));
  }

  /** Step 1 and 2: strip, then, only when the stripped reply opens with a
      fence, delete every tagged and every bare fence and strip again. Apart
      from whitespace and fence characters, every character of the reply
      survives, in order. */
  function RemoveFences(raw: string): (r: string)
    ensures !StartsWith(Strip(raw), Fence) ==> r == Strip(raw)
    ensures StartsWith(Strip(raw), Fence) ==> NoFence(r)
    ensures r == [] || (!IsSpace(r[0]) && !IsSpace(r[|r| - 1]))
    ensures Content(r) == Content(raw)
  {
    var cleaned := Strip(raw);
    StripKeepsContent(raw);
    if StartsWith(cleaned, Fence) then
      UnfencedHasNoFence(cleaned);
      FencesOnlyLoseFenceChars(cleaned);
      Strip(ReplaceAll(ReplaceAll(cleaned, TaggedFence, ""), Fence, ""))
    else
      cleaned
  }

  predicate NoBacktick(s: string) {
    forall i :: 0 <= i < |s| ==> s[i] != '`'
  }

  /** `k` backticks. */
  function Ticks(k: nat): (r: string)
    ensures |r| == k && forall i :: 0 <= i < k ==> r[i] == '`'
  {
    if k == 0 then [] else Ticks(k - 1) + "`"
  }

  /** The tagged fence cannot be found in at most three backticks
      followed by a text without backticks and a closing fence, unless the
      three backticks and the text's first four characters spell it. */
  lemma {:induction false} NoTagAfterTicks(k: nat, body: string)
    requires k <= 3 && NoBacktick(body)
    requires k == 3 ==> !StartsWith(body, "json")
    ensures ReplaceAll(Ticks(k) + (body + Fence), TaggedFence, "") == Ticks(k) + (body + Fence)
  {
    var w := body + Fence;
    if k == 0 {
      assert Ticks(0) + w == w;
      ReplaceSkipsPlain(body, Fence, TaggedFence, "");
      assert ReplaceAll(Fence, TaggedFence, "") == Fence;
    } else {
      var t := Ticks(k) + w;
      assert t[1..] == Ticks(k - 1) + w by {
        assert Ticks(k) == "`" + Ticks(k - 1);
      }
      if body != [] && |t| >= 7 {
        if k < 3 {
          assert t[..7][k] == body[0];
        } else if |body| >= 4 {
          assert t[..7][3..] == body[..4];
        } else {
          assert t[..7][3 + |body|] == '`';
        }
      }
      ReplaceSkipsHead(t, TaggedFence, "");
      NoTagAfterTicks(k - 1, body);
      assert t == [t[0]] + t[1..];
    }
  }

  /** The tagged fence cannot be found in a bare fence, a text without
      backticks that does not start with `json`, and a closing fence. */
  lemma NoTagInBareFences(body: string)
    requires NoBacktick(body) && !StartsWith(body, "json")
    ensures ReplaceAll(Fence + body + Fence, TaggedFence, "") == Fence + body + Fence
  {
    assert Ticks(3) == Fence;
    assert Fence + body + Fence == Ticks(3) + (body + Fence);
    NoTagAfterTicks(3, body);
  }

  /** Deleting the fences after a text without backticks leaves the
      text. */
  lemma DeleteClosingFence(body: string)
    requires NoBacktick(body)
    ensures ReplaceAll(body + Fence, Fence, "") == body
  {
    ReplaceSkipsPlain(body, Fence, Fence, "");
    assert ReplaceAll(Fence, Fence, "") == "";
  }

  /** Deleting the bare fences around a text without backticks leaves the
      text. */
  lemma DeleteBareFences(body: string)
    requires NoBacktick(body)
    ensures ReplaceAll(Fence + body + Fence, Fence, "") == body
  {
    var x := Fence + body + Fence;
    assert x[..3] == Fence && x[3..] == body + Fence;
    DeleteClosingFence(body);
  }

  /** Deleting the tagged fence in front of a text without backticks and a
      closing fence leaves the text and the closing fence. */
  lemma DeleteTaggedFence(body: string)
    requires NoBacktick(body)
    ensures ReplaceAll(TaggedFence + body + Fence, TaggedFence, "") == body + Fence
  {
    var x := TaggedFence + body + Fence;
    assert x[..7] == TaggedFence && x[7..] == body + Fence;
    ReplaceSkipsPlain(body, Fence, TaggedFence, "");
    assert ReplaceAll(Fence, TaggedFence, "") == Fence;
  }

  /** A reply that is a ```` ```json ```` fence around a text without
      backticks, padded with whitespace, comes back as that text,
      stripped: the tag and both fences are gone. */
  lemma TaggedFenceIsRemoved(pre: string, body: string, post: string)
    requires AllSpace(pre) && AllSpace(post) && NoBacktick(body)
    ensures RemoveFences(pre + (TaggedFence + body + Fence) + post) == Strip(body)
  {
    var x := TaggedFence + body + Fence;
    StripPadded(pre, x, post);
    assert x[..3] == Fence;
    DeleteTaggedFence(body);
    DeleteClosingFence(body);
  }

  /** The same for a bare ```` ``` ```` fence, when the text inside does
      not itself start with `json`. */
  lemma BareFenceIsRemoved(pre: string, body: string, post: string)
    requires AllSpace(pre) && AllSpace(post) && NoBacktick(body)
    requires !StartsWith(body, "json")
    ensures RemoveFences(pre + (Fence + body + Fence) + post) == Strip(body)
  {
    var x := Fence + body + Fence;
    StripPadded(pre, x, post);
    assert x[..3] == Fence;
    NoTagInBareFences(body);
    DeleteBareFences(body);
  }

  /** Braces, brackets, quotes, commas and colons are counted the same
      before and after the fence removal. */
  lemma RemoveFencesKeepsCount(raw: string, c: char)
    requires Kept(c)
    ensures Count(RemoveFences(raw), c) == Count(raw, c)
  {
    ContentKeepsCount(raw, c);
    ContentKeepsCount(RemoveFences(raw), c);
  }

  /** Stripping a fence-free text keeps it fence-free. */
  lemma StripKeepsNoFence(u: string)
    requires NoFence(u)
    ensures NoFence(Strip(u))
  {
    var i, r := StripOffset(u), Strip(u);
    NoFenceSlice(u, i, i + |r|);
    assert u[i..i + |r|] == r;
  }

  /** Deleting the tagged and then the bare fences, and stripping again,
      leaves no run of three backticks. */
  lemma UnfencedHasNoFence(cleaned: string)
    ensures NoFence(Strip(ReplaceAll(ReplaceAll(cleaned, TaggedFence, ""), Fence, "")))
  {
    var untagged := ReplaceAll(cleaned, TaggedFence, "");
    DeleteFencesLeavesNone(untagged);
    StripKeepsNoFence(ReplaceAll(untagged, Fence, ""));
  }

  // ---------------------------------------------------------------------
  // Step 3: re.sub(r',(\s*[}\]])', r'\1', cleaned)

  predicate IsCloser(c: char) {
    c == '}' || c == ']'
  }

  /** Where the group `\s*[}\]]` ends when matched at the start of `t`: the
      index of the closing brace or bracket after a whitespace run. */
  function CloserAfterSpace(t: string): (r: Option<nat>)
    ensures r.Some? ==> r.value < |t| && IsCloser(t[r.value]) && AllSpace(t[..r.value])
    ensures r.None? ==> forall k :: 0 <= k < |t| && IsCloser(t[k]) ==> !AllSpace(t[..k])
  {
    if t == [] then None
    else if IsCloser(t[0]) then Some(0)
    else if IsSpace(t[0]) then
      match CloserAfterSpace(t[1..])
      case Some(k) =>
        assert t[..k + 1] == [t[0]] + t[1..][..k];
        Some(k + 1)
      case None =>
        forall k | 0 <= k < |t| && IsCloser(t[k])
          ensures !AllSpace(t[..k])
        {
          assert k > 0;
          assert IsCloser(t[1..][k - 1]);
          assert t[..k][1..] == t[1..][..k - 1];
        }
        None
    else
      assert forall k :: 1 <= k <= |t| ==> t[..k][0] == t[0];
      None
  }

  /** The substitution as the regular-expression engine performs it: scan
      left to right; at a comma that opens a match, emit the captured
      whitespace and closer and resume after them. */
  function DropTrailingCommas(s: string): string
    decreases |s|
  {
    if s == [] then []
    else if s[0] == ',' && CloserAfterSpace(s[1..]).Some? then
      var k := CloserAfterSpace(s[1..]).value;
      s[1..k + 2] + DropTrailingCommas(s[k + 2..])
    else
      [s[0]] + DropTrailingCommas(s[1..])
  }

  /** The comma at `i` is directly followed by optional whitespace and then
      a `}` or `]`. */
  predicate TrailingCommaAt(s: string, i: nat)
    requires i < |s|
  {
    s[i] == ',' && exists j :: i < j < |s| && IsCloser(s[j]) && AllSpace(s[i + 1..j])
  }

  /** Reference for step 3: the input with exactly its trailing commas
      removed, every other character kept in order. */
  function WithoutTrailingCommas(s: string): string {
    if s == [] then [] else (if TrailingCommaAt(s, 0) then [] else [s[0]]) + WithoutTrailingCommas(s[1..])
  }

  lemma {:induction false} WithoutTrailingCommasPrefix(u: string, v: string)
    requires forall i :: 0 <= i < |u| ==> u[i] != ','
    ensures WithoutTrailingCommas(u + v) == u + WithoutTrailingCommas(v)
  {
    if u != [] {
      assert (u + v)[1..] == u[1..] + v;
      WithoutTrailingCommasPrefix(u[1..], v);
      assert u == [u[0]] + u[1..];
    } else {
      assert u + v == v;
    }
  }

  /** A comma the scan matches is a trailing comma, and the whitespace
      and closer kept after it hold no comma. */
  lemma MatchedCommaIsTrailing(s: string)
    requires |s| > 0 && s[0] == ',' && CloserAfterSpace(s[1..]).Some?
    ensures var k := CloserAfterSpace(s[1..]).value;
            && TrailingCommaAt(s, 0)
            && forall i :: 1 <= i < k + 2 ==> s[i] != ','
  {
    var k := CloserAfterSpace(s[1..]).value;
    assert s[1..][..k] == s[1..k + 1];
    forall i | 1 <= i < k + 2
      ensures s[i] != ','
    {
      if i < k + 1 {
        assert IsSpace(s[1..k + 1][i - 1]);
      }
    }
  }

  /** A character the scan copies is not a trailing comma. */
  lemma UnmatchedIsNotTrailing(s: string)
    requires |s| > 0 && !(s[0] == ',' && CloserAfterSpace(s[1..]).Some?)
    ensures !TrailingCommaAt(s, 0)
  {
    if s[0] == ',' {
      forall j | 0 < j < |s| && IsCloser(s[j])
        ensures !AllSpace(s[1..j])
      {
        assert s[1..][..j - 1] == s[1..j];
      }
    }
  }

  /** A trailing comma followed by a comma-free stretch: the reference
      drops the comma and keeps the stretch. */
  lemma DropCommaKeepStretch(s: string, e: nat)
    requires 1 <= e <= |s| && TrailingCommaAt(s, 0)
    requires forall i :: 1 <= i < e ==> s[i] != ','
    ensures WithoutTrailingCommas(s) == s[1..e] + WithoutTrailingCommas(s[e..])
  {
    var kept := s[1..e];
    assert forall i :: 0 <= i < |kept| ==> kept[i] != ',' by {
      forall i | 0 <= i < |kept|
        ensures kept[i] != ','
      {
        assert kept[i] == s[i + 1];
      }
    }
    SplitAt(s, 1, e);
    WithoutTrailingCommasPrefix(kept, s[e..]);
  }

  /** At a comma the scan matches, both the scan and the reference drop
      the comma and keep the whitespace and closer after it. */
  lemma MatchedStep(s: string)
    requires |s| > 0 && s[0] == ',' && CloserAfterSpace(s[1..]).Some?
    ensures var k := CloserAfterSpace(s[1..]).value;
            && DropTrailingCommas(s) == s[1..k + 2] + DropTrailingCommas(s[k + 2..])
            && WithoutTrailingCommas(s) == s[1..k + 2] + WithoutTrailingCommas(s[k + 2..])
  {
    MatchedCommaIsTrailing(s);
    DropCommaKeepStretch(s, CloserAfterSpace(s[1..]).value + 2);
  }

  /** At any other character both copy it. */
  lemma CopiedStep(s: string)
    requires |s| > 0 && !(s[0] == ',' && CloserAfterSpace(s[1..]).Some?)
    ensures DropTrailingCommas(s) == [s[0]] + DropTrailingCommas(s[1..])
    ensures WithoutTrailingCommas(s) == [s[0]] + WithoutTrailingCommas(s[1..])
  {
    UnmatchedIsNotTrailing(s);
  }

  /** The scanning substitution deletes exactly the trailing commas. */
  lemma {:induction false} DropTrailingCommasDeletesExactlyTrailing(s: string)
    ensures DropTrailingCommas(s) == WithoutTrailingCommas(s)
    decreases |s|
  {
    if s == [] {
    } else if s[0] == ',' && CloserAfterSpace(s[1..]).Some? {
      var k := CloserAfterSpace(s[1..]).value;
      MatchedStep(s);
      DropTrailingCommasDeletesExactlyTrailing(s[k + 2..]);
    } else {
      CopiedStep(s);
      DropTrailingCommasDeletesExactlyTrailing(s[1..]);
    }
  }

  /** Only commas are ever deleted by step 3. */
  lemma {:induction false} WithoutTrailingCommasKeepsOthers(s: string, c: char)
    requires c != ','
    ensures Count(WithoutTrailingCommas(s), c) == Count(s, c)
  {
    if s != [] {
      WithoutTrailingCommasKeepsOthers(s[1..], c);
      CountConcat(if TrailingCommaAt(s, 0) then [] else [s[0]], WithoutTrailingCommas(s[1..]), c);
    }
  }

  // ---------------------------------------------------------------------
  // Step 4: misspelled keys

  /** The key renames, applied in this order with `str.replace`. */
  const TypoFixes: seq<(string, string)> := [
    ("\"Estructure\"", "\"structure\""),
    ("\"Technical_depth\"", "\"technical_depth\""),
    ("\"Impact\"", "\"impact\""),
    ("\"Cliquarity\"", "\"clarity\""),
    ("\"ATS_relevance\"", "\"ats\""),
    ("\"sory\"", "\"summary\""),
    ("\"reasoning\"", "\"summary\"")
  ]

  predicate PatternsNonEmpty(fixes: seq<(string, string)>) {
    forall i :: 0 <= i < |fixes| ==> |fixes[i].0| > 0
  }

  function ApplyFixes(s: string, fixes: seq<(string, string)>): string
    requires PatternsNonEmpty(fixes)
    decreases |fixes|
  {
    if fixes == [] then s else ApplyFixes(ReplaceAll(s, fixes[0].0, fixes[0].1), fixes[1..])
  }

  function FixTypos(s: string): string {
    ApplyFixes(s, TypoFixes)
  }

  predicate IsBracket(c: char) {
    c == '{' || c == '}' || c == '[' || c == ']'
  }

  predicate BracketFree(s: string) {
    forall i :: 0 <= i < |s| ==> !IsBracket(s[i])
  }

  lemma {:induction false} ApplyFixesKeepsBrackets(s: string, fixes: seq<(string, string)>, c: char)
    requires PatternsNonEmpty(fixes)
    requires IsBracket(c)
    requires forall i :: 0 <= i < |fixes| ==> BracketFree(fixes[i].0) && BracketFree(fixes[i].1)
    ensures Count(ApplyFixes(s, fixes), c) == Count(s, c)
    decreases |fixes|
  {
    if fixes != [] {
      CountAbsent(fixes[0].0, c);
      CountAbsent(fixes[0].1, c);
      ReplaceAllKeepsCount(s, fixes[0].0, fixes[0].1, c);
      ApplyFixesKeepsBrackets(ReplaceAll(s, fixes[0].0, fixes[0].1), fixes[1..], c);
    }
  }

  /** None of the key renames changes how many braces or brackets the text
      holds. */
  lemma FixTyposKeepsBrackets(s: string, c: char)
    requires IsBracket(c)
    ensures Count(FixTypos(s), c) == Count(s, c)
  {
    forall i | 0 <= i < |TypoFixes|
      ensures BracketFree(TypoFixes[i].0) && BracketFree(TypoFixes[i].1)
    {
    }
    ApplyFixesKeepsBrackets(s, TypoFixes, c);
  }

  // ---------------------------------------------------------------------
  // Step 5: append missing closers

  function Shortfall(s: string, open: char, close: char): nat {
    if Count(s, close) < Count(s, open) then Count(s, open) - Count(s, close) else 0
  }

  /** Appends `close` characters until there are at least as many as `open`
      characters; an already balanced or over-closed text is returned as is. */
  function CloseMissing(s: string, open: char, close: char): (r: string)
    requires open != close
    ensures |r| >= |s|
    ensures r == s + Repeat(close, |r| - |s|)
    ensures Count(r, open) == Count(s, open)
    ensures Count(r, close) == if Count(s, close) < Count(s, open) then Count(s, open) else Count(s, close)
    ensures forall d :: d != close ==> Count(r, d) == Count(s, d)
  {
    var openCount := Count(s, open);
    var closeCount := Count(s, close);
    if closeCount < openCount then
      var r := s + Repeat(close, openCount - closeCount);
      CountConcat(s, Repeat(close, openCount - closeCount), open);
      CountConcat(s, Repeat(close, openCount - closeCount), close);
      CountRepeat(close, openCount - closeCount, open);
      CountRepeat(close, openCount - closeCount, close);
      assert forall d :: d != close ==> Count(r, d) == Count(s, d) by {
        forall d | d != close
          ensures Count(r, d) == Count(s, d)
        {
          CountConcat(s, Repeat(close, openCount - closeCount), d);
          CountRepeat(close, openCount - closeCount, d);
        }
      }
      r
    else
      assert s + Repeat(close, 0) == s;
      s
  }

  /** Braces first, then brackets: the suffix is `}` repeated by the brace
      shortfall followed by `]` repeated by the bracket shortfall, both
      measured on the input, and afterwards neither kind is under-closed. */
  function Balance(s: string): (r: string)
    ensures r == s + Repeat('}', Shortfall(s, '{', '}')) + Repeat(']', Shortfall(s, '[', ']'))
    ensures Count(r, '}') >= Count(r, '{') && Count(r, ']') >= Count(r, '[')
  {
    CloseMissing(CloseMissing(s, '{', '}'), '[', ']')
  }

  /** The whole of `repair_json`. */
  function RepairJson(raw: string): (r: string)
    ensures Count(r, '}') >= Count(r, '{')
    ensures Count(r, ']') >= Count(r, '[')
  {
    Balance(FixTypos(DropTrailingCommas(RemoveFences(raw))))
  }

  /** What `repair_json` appends is decided by the brace and bracket counts
      of the model's reply alone: neither the fence removal, nor the comma
      deletion, nor the key renames change them. */
  lemma RepairJsonAppendsShortfall(raw: string)
    ensures RepairJson(raw)
            == FixTypos(DropTrailingCommas(RemoveFences(raw)))
               + Repeat('}', Shortfall(raw, '{', '}'))
               + Repeat(']', Shortfall(raw, '[', ']'))
  {
    CleanupAppendsShortfall(RemoveFences(raw));
    RemoveFencesKeepsShortfall(raw, '{', '}');
    RemoveFencesKeepsShortfall(raw, '[', ']');
  }

  lemma RemoveFencesKeepsShortfall(raw: string, open: char, close: char)
    requires IsBracket(open) && IsBracket(close)
    ensures Shortfall(RemoveFences(raw), open, close) == Shortfall(raw, open, close)
  {
    BracketIsKept(open);
    BracketIsKept(close);
    RemoveFencesKeepsCount(raw, open);
    RemoveFencesKeepsCount(raw, close);
  }

  /** The comma deletion and the key renames leave the count of each
      bracket character as it was. */
  lemma CleanupKeepsBrackets(u: string, c: char)
    requires IsBracket(c)
    ensures Count(FixTypos(DropTrailingCommas(u)), c) == Count(u, c)
  {
    DropTrailingCommasDeletesExactlyTrailing(u);
    WithoutTrailingCommasKeepsOthers(u, c);
    FixTyposKeepsBrackets(DropTrailingCommas(u), c);
  }

  /** Braces and brackets are neither whitespace nor fence characters. */
  lemma BracketIsKept(c: char)
    requires IsBracket(c)
    ensures Kept(c)
  {
  }

  lemma CleanupAppendsShortfall(u: string)
    ensures var t := FixTypos(DropTrailingCommas(u));
            Balance(t) == t + Repeat('}', Shortfall(u, '{', '}')) + Repeat(']', Shortfall(u, '[', ']'))
  {
    var t := FixTypos(DropTrailingCommas(u));
    CleanupKeepsBrackets(u, '{');
    CleanupKeepsBrackets(u, '}');
    CleanupKeepsBrackets(u, '[');
    CleanupKeepsBrackets(u, ']');
    assert Shortfall(t, '{', '}') == Shortfall(u, '{', '}');
    assert Shortfall(t, '[', ']') == Shortfall(u, '[', ']');
  }

  /** When the reply already has at least as many closers as openers of
      each kind, `repair_json` appends nothing. */
  lemma RepairJsonAppendsNothingWhenClosed(raw: string)
    requires Count(raw, '}') >= Count(raw, '{') && Count(raw, ']') >= Count(raw, '[')
    ensures RepairJson(raw) == FixTypos(DropTrailingCommas(RemoveFences(raw)))
  {
    RepairJsonAppendsShortfall(raw);
  }
}
