/** The text cleanup of the analysis call: the model's reply goes through
    `repair_json` and then through `fix_unquoted_bullets`, in that order,
    before it is parsed. The bullet rewrite ends every entry with a comma,
    and it runs after the trailing-comma deletion: an array whose last
    line is a bullet therefore reaches the parser with a trailing comma. */
module Cleanup {
  import opened Text
  import opened JsonRepair
  import opened Bullets

  /** The cleanup as the analysis call performs it: repair first, then
      rewrite bullet lines. */
  function CleanReply(raw: string): string {
    FixUnquotedBullets(RepairJson(raw))
  }

  /** The other order: the comma deletion then sees the commas the bullet
      rewrite adds. */
  function CleanReplyReordered(raw: string): string {
    RepairJson(FixUnquotedBullets(raw))
  }

  predicate Lacks(s: string, c: char) {
    forall i :: 0 <= i < |s| ==> s[i] != c
  }

  lemma LacksConcat(a: string, b: string, c: char)
    requires Lacks(a, c) && Lacks(b, c)
    ensures Lacks(a + b, c)
  {
    assert forall i :: |a| <= i < |a + b| ==> (a + b)[i] == b[i - |a|];
  }

  /** Bullet text that no repair step touches: it starts with a visible
      character, stays on its line, and holds no quote, comma, brace or
      bracket. */
  predicate PlainBullet(c: string) {
    && |c| > 0 && !IsSpace(c[0])
    && Lacks(c, '\n') && Lacks(c, '"') && Lacks(c, ',')
    && Lacks(c, '{') && Lacks(c, '}') && Lacks(c, '[') && Lacks(c, ']')
  }

  /** The text is not itself one of the misspelled keys, quoted. */
  predicate NotTypoKey(c: string) {
    forall i :: 0 <= i < |TypoFixes| ==> TypoFixes[i].0 != "\"" + c + "\""
  }

  // ---------------------------------------------------------------------
  // Steps of `repair_json` that leave a bracketed text alone

  /** A text opened by `[` and closed by `]` has nothing to strip and no
      fence. */
  lemma BracketedIsUnfenced(x: string)
    requires |x| > 0 && x[0] == '[' && x[|x| - 1] == ']'
    ensures RemoveFences(x) == x
  {
    assert "" + x + "" == x;
    StripPadded("", x, "");
    assert !StartsWith(x, Fence) by {
      if |x| >= |Fence| {
        assert x[..|Fence|][0] != Fence[0];
      }
    }
  }

  /** A text without commas has no trailing comma to delete. */
  lemma NoCommaIsKept(s: string)
    requires Lacks(s, ',')
    ensures DropTrailingCommas(s) == s
  {
    DropTrailingCommasDeletesExactlyTrailing(s);
    WithoutTrailingCommasPrefix(s, []);
    assert s + [] == s;
  }

  /** A comma before a line break and `]` is deleted, and a text without
      commas in front of it is kept. */
  lemma LastCommaIsDropped(a: string)
    requires Lacks(a, ',')
    ensures DropTrailingCommas(a + ",\n]") == a + "\n]"
  {
    var t := ",\n]";
    DropTrailingCommasDeletesExactlyTrailing(a + t);
    WithoutTrailingCommasPrefix(a, t);
    assert IsCloser(t[2]) && AllSpace(t[1..2]);
    assert TrailingCommaAt(t, 0);
    assert t[1..] == "\n]";
    WithoutTrailingCommasPrefix("\n]", []);
    assert "\n]" + [] == "\n]";
  }

  /** No key rename starts anywhere in a text without quotes. */
  lemma {:induction false} UnquotedFixesKeep(s: string, fixes: seq<(string, string)>)
    requires PatternsNonEmpty(fixes)
    requires forall i :: 0 <= i < |fixes| ==> fixes[i].0[0] == '"'
    requires Lacks(s, '"')
    ensures ApplyFixes(s, fixes) == s
    decreases |fixes|
  {
    if fixes != [] {
      ReplaceSkipsPlain(s, [], fixes[0].0, fixes[0].1);
      assert s + [] == s;
      UnquotedFixesKeep(s, fixes[1..]);
    }
  }

  /** Every misspelled key is a quoted key: a quote, text without quotes,
      and a quote. */
  predicate QuotedKey(p: string) {
    && |p| >= 2 && p[0] == '"' && p[|p| - 1] == '"'
    && forall i :: 0 < i < |p| - 1 ==> p[i] != '"'
  }

  lemma TypoKeysAreQuoted()
    ensures PatternsNonEmpty(TypoFixes)
    ensures forall i :: 0 <= i < |TypoFixes| ==> QuotedKey(TypoFixes[i].0)
  {
    assert QuotedKey(TypoFixes[0].0);
    assert QuotedKey(TypoFixes[1].0);
    assert QuotedKey(TypoFixes[2].0);
    assert QuotedKey(TypoFixes[3].0);
    assert QuotedKey(TypoFixes[4].0);
    assert QuotedKey(TypoFixes[5].0);
    assert QuotedKey(TypoFixes[6].0);
  }

  lemma UnquotedIsNotRenamed(s: string)
    requires Lacks(s, '"')
    ensures FixTypos(s) == s
  {
    TypoKeysAreQuoted();
    UnquotedFixesKeep(s, TypoFixes);
  }

  /** A quoted key other than `"c"` does not start at the opening quote of
      `"c"`. */
  lemma OtherKeyDoesNotStart(c: string, post: string, p: string)
    requires Lacks(c, '"') && Lacks(post, '"')
    requires QuotedKey(p) && p != "\"" + c + "\""
    ensures var w := "\"" + (c + ("\"" + post));
            |w| >= |p| ==> w[..|p|] != p
  {
    var w := "\"" + (c + ("\"" + post));
    if |w| >= |p| {
      if |p| - 2 < |c| {
        assert w[|p| - 1] == c[|p| - 2];
      } else if |p| - 2 > |c| {
        assert w[|c| + 1] == '"';
      } else {
        assert w[..|p|] == "\"" + c + "\"";
      }
    }
  }

  /** A quoted key does not start at a quote that only text without quotes
      follows. */
  lemma KeyDoesNotStartAtLastQuote(post: string, p: string)
    requires Lacks(post, '"') && QuotedKey(p)
    ensures var z := "\"" + post;
            |z| >= |p| ==> z[..|p|] != p
  {
    var z := "\"" + post;
    if |z| >= |p| {
      assert z[|p| - 1] == post[|p| - 2];
    }
  }

  /** Replacing a quoted key other than `"c"` leaves `"c"` and the text
      without quotes after it alone. */
  lemma QuotedTailKept(c: string, post: string, p: string, replacement: string)
    requires Lacks(c, '"') && Lacks(post, '"')
    requires QuotedKey(p) && p != "\"" + c + "\""
    ensures var w := "\"" + (c + ("\"" + post));
            ReplaceAll(w, p, replacement) == w
  {
    var w := "\"" + (c + ("\"" + post));
    var z := "\"" + post;
    OtherKeyDoesNotStart(c, post, p);
    ReplaceSkipsHead(w, p, replacement);
    assert w[1..] == c + z;
    ReplaceSkipsPlain(c, z, p, replacement);
    KeyDoesNotStartAtLastQuote(post, p);
    ReplaceSkipsHead(z, p, replacement);
    assert z[1..] == post + [];
    ReplaceSkipsPlain(post, [], p, replacement);
    assert post + [] == post;
    assert w == [w[0]] + (c + ([z[0]] + post));
  }

  lemma {:induction false} QuotedFixesKeep(pre: string, c: string, post: string, fixes: seq<(string, string)>)
    requires PatternsNonEmpty(fixes)
    requires forall i :: 0 <= i < |fixes| ==> QuotedKey(fixes[i].0) && fixes[i].0 != "\"" + c + "\""
    requires Lacks(pre, '"') && Lacks(c, '"') && Lacks(post, '"')
    ensures var s := pre + ("\"" + (c + ("\"" + post)));
            ApplyFixes(s, fixes) == s
    decreases |fixes|
  {
    if fixes != [] {
      var w := "\"" + (c + ("\"" + post));
      ReplaceSkipsPlain(pre, w, fixes[0].0, fixes[0].1);
      QuotedTailKept(c, post, fixes[0].0, fixes[0].1);
      QuotedFixesKeep(pre, c, post, fixes[1..]);
    }
  }

  /** A text whose only quotes are those of `"c"`, for a `c` that is not a
      misspelled key, is not renamed. */
  lemma QuotedIsNotRenamed(pre: string, c: string, post: string)
    requires NotTypoKey(c)
    requires Lacks(pre, '"') && Lacks(c, '"') && Lacks(post, '"')
    ensures var s := pre + ("\"" + (c + ("\"" + post)));
            FixTypos(s) == s
  {
    TypoKeysAreQuoted();
    QuotedFixesKeep(pre, c, post, TypoFixes);
  }

  /** `[`, text without braces or brackets, and `]` is already closed. */
  lemma BracketedIsBalanced(m: string)
    requires Lacks(m, '{') && Lacks(m, '}') && Lacks(m, '[') && Lacks(m, ']')
    ensures Balance("[" + m + "]") == "[" + m + "]"
  {
    var x := "[" + m + "]";
    CountConcat("[" + m, "]", '{');
    CountConcat("[", m, '{');
    CountAbsent(m, '{');
    CountConcat("[" + m, "]", '[');
    CountConcat("[", m, '[');
    CountAbsent(m, '[');
    CountConcat("[" + m, "]", ']');
    CountConcat("[", m, ']');
    CountAbsent(m, ']');
    assert Shortfall(x, '{', '}') == 0 && Shortfall(x, '[', ']') == 0;
    assert x + Repeat('}', 0) + Repeat(']', 0) == x;
  }

  /** Text between pieces that all lack a character lacks it too. */
  lemma WrappedLacks(pre: string, c: string, post: string, ch: char)
    requires Lacks(pre, ch) && Lacks(c, ch) && Lacks(post, ch)
    ensures Lacks(pre + c + post, ch)
  {
    LacksConcat(pre, c, ch);
    LacksConcat(pre + c, post, ch);
  }

  /** Wrapping bullet text in pieces without braces or brackets keeps it
      without braces or brackets. */
  lemma WrappedBracketFree(pre: string, c: string, post: string)
    requires PlainBullet(c)
    requires Lacks(pre, '{') && Lacks(pre, '}') && Lacks(pre, '[') && Lacks(pre, ']')
    requires Lacks(post, '{') && Lacks(post, '}') && Lacks(post, '[') && Lacks(post, ']')
    ensures var m := pre + c + post;
            Lacks(m, '{') && Lacks(m, '}') && Lacks(m, '[') && Lacks(m, ']')
  {
    WrappedLacks(pre, c, post, '{');
    WrappedLacks(pre, c, post, '}');
    WrappedLacks(pre, c, post, '[');
    WrappedLacks(pre, c, post, ']');
  }

  /** Composed from its steps, `repair_json` returns a bracketed text
      without commas or quotes, and with nothing to close, unchanged. */
  lemma PlainBracketedIsRepaired(m: string)
    requires Lacks(m, '{') && Lacks(m, '}') && Lacks(m, '[') && Lacks(m, ']')
    requires Lacks(m, ',') && Lacks(m, '"')
    ensures RepairJson("[" + m + "]") == "[" + m + "]"
  {
    var s := "[" + m + "]";
    WrappedLacks("[", m, "]", ',');
    WrappedLacks("[", m, "]", '"');
    assert s[0] == '[' && s[|s| - 1] == ']';
    BracketedIsUnfenced(s);
    NoCommaIsKept(s);
    UnquotedIsNotRenamed(s);
    BracketedIsBalanced(m);
  }

  /** A comma followed by a line break and `]` is a trailing comma. */
  lemma CommaBeforeClose(a: string)
    ensures TrailingCommaAt(a + ",\n]", |a|)
  {
    var t := a + ",\n]";
    assert t[|a|] == ',' && t[|a| + 2] == ']';
    assert t[|a| + 1..|a| + 2] == "\n";
    assert AllSpace(t[|a| + 1..|a| + 2]);
  }

  // ---------------------------------------------------------------------
  // The array whose last line is a bullet

  /** `repair_json` has nothing to do on an array whose only line is a
      plain unquoted bullet. */
  lemma BulletArrayIsRepaired(c: string)
    requires PlainBullet(c)
    ensures RepairJson("[" + ("\n- " + c + "\n]")) == "[" + ("\n- " + c + "\n]")
  {
    var m := "\n- " + c + "\n";
    assert "[" + ("\n- " + c + "\n]") == "[" + m + "]";
    WrappedBracketFree("\n- ", c, "\n");
    WrappedLacks("\n- ", c, "\n", ',');
    WrappedLacks("\n- ", c, "\n", '"');
    PlainBracketedIsRepaired(m);
  }

  /** The entry the bullet rewrite leaves is followed by a trailing comma. */
  lemma EntryCommaIsTrailing(c: string)
    ensures var r := "[" + ("\n    \"" + c + "\",") + "\n]";
            TrailingCommaAt(r, |r| - 3)
  {
    var x := "[" + ("\n    \"" + c + "\",");
    var r := x + "\n]";
    assert x[|x| - 1] == ',';
    assert r[|x| - 1] == ',' && r[|x|] == '\n' && r[|x| + 1] == ']';
    assert r[|x|..|x| + 1] == "\n";
    assert AllSpace(r[|x|..|x| + 1]);
  }

  /** As the analysis call cleans it, an array whose only line is an
      unquoted bullet becomes an array with one quoted entry followed by a
      comma before the `]`: the bullet rewrite adds the comma after the
      comma deletion has run. */
  lemma LastBulletKeepsTrailingComma(c: string)
    requires PlainBullet(c)
    ensures var r := CleanReply("[" + ("\n- " + c + "\n]"));
            && r == "[" + ("\n    \"" + c + "\",") + "\n]"
            && TrailingCommaAt(r, |r| - 3)
  {
    BulletArrayIsRepaired(c);
    BulletInsideArray(c);
    EntryCommaIsTrailing(c);
  }

  /** The entry with and without its comma, as the comma deletion sees
      them. */
  lemma EntryShapes(c: string)
    ensures "[" + ("\n    \"" + c + "\",") + "\n]" == "[" + ("\n    \"" + c + "\"") + ",\n]"
    ensures "[" + ("\n    \"" + c + "\"") + "\n]" == "[\n    " + ("\"" + (c + ("\"" + "\n]")))
    ensures "[" + ("\n    \"" + c + "\"") + "\n]" == "[" + ("\n    \"" + c + "\"\n") + "]"
  {
  }

  /** The rewritten array has nothing to strip and no fence. */
  lemma EntryArrayIsUnfenced(c: string)
    ensures var t := "[" + ("\n    \"" + c + "\",") + "\n]";
            RemoveFences(t) == t
  {
    var t := "[" + ("\n    \"" + c + "\",") + "\n]";
    assert t[0] == '[' && t[|t| - 1] == ']';
    BracketedIsUnfenced(t);
  }

  /** The comma after the entry is the only one, and it is deleted. */
  lemma EntryCommaIsDropped(c: string)
    requires PlainBullet(c)
    ensures DropTrailingCommas("[" + ("\n    \"" + c + "\",") + "\n]") == "[" + ("\n    \"" + c + "\"") + "\n]"
  {
    EntryShapes(c);
    WrappedLacks("\n    \"", c, "\"", ',');
    LacksConcat("[", "\n    \"" + c + "\"", ',');
    LastCommaIsDropped("[" + ("\n    \"" + c + "\""));
  }

  /** The entry is not a misspelled key, so nothing is renamed. */
  lemma ClosedEntryIsNotRenamed(c: string)
    requires PlainBullet(c) && NotTypoKey(c)
    ensures var u := "[" + ("\n    \"" + c + "\"") + "\n]";
            FixTypos(u) == u
  {
    EntryShapes(c);
    QuotedIsNotRenamed("[\n    ", c, "\n]");
  }

  /** The closed array has nothing to append. */
  lemma ClosedEntryIsBalanced(c: string)
    requires PlainBullet(c)
    ensures var u := "[" + ("\n    \"" + c + "\"") + "\n]";
            Balance(u) == u
  {
    EntryShapes(c);
    WrappedBracketFree("\n    \"", c, "\"\n");
    BracketedIsBalanced("\n    \"" + c + "\"\n");
  }

  /** `repair_json` deletes the comma the bullet rewrite put after the
      array's only entry, and changes nothing else. */
  lemma EntryArrayIsRepaired(c: string)
    requires PlainBullet(c) && NotTypoKey(c)
    ensures RepairJson("[" + ("\n    \"" + c + "\",") + "\n]") == "[" + ("\n    \"" + c + "\"") + "\n]"
  {
    EntryArrayIsUnfenced(c);
    EntryCommaIsDropped(c);
    ClosedEntryIsNotRenamed(c);
    ClosedEntryIsBalanced(c);
  }

  /** The closed entry holds no comma. */
  lemma ClosedEntryLacksComma(c: string)
    requires PlainBullet(c)
    ensures Lacks("[" + ("\n    \"" + c + "\"") + "\n]", ',')
  {
    WrappedLacks("\n    \"", c, "\"", ',');
    WrappedLacks("[", "\n    \"" + c + "\"", "\n]", ',');
  }

  /** In the other order the same array comes out as one quoted entry and
      no comma at all. */
  lemma ReorderedLastBulletHasNoComma(c: string)
    requires PlainBullet(c) && NotTypoKey(c)
    ensures var r := CleanReplyReordered("[" + ("\n- " + c + "\n]"));
            && r == "[" + ("\n    \"" + c + "\"") + "\n]"
            && Lacks(r, ',')
  {
    BulletInsideArray(c);
    EntryArrayIsRepaired(c);
    ClosedEntryLacksComma(c);
  }
}
