/** What the results page makes of the reports the backend can send: the
    upload route's response always gets past the "no results" guard, the
    fallback report renders as a fixed page, and a feedback list the
    normalisation coerced never breaks its section. */
module EndToEnd {
  import opened Wrappers
  import opened Json
  import opened Normalize
  import opened ResultsView

  /** Every successful analysis response of the upload route reaches the
      results page proper: the analysis is a dictionary, and dictionaries
      are truthy in JavaScript. */
  lemma ResponseIsNeverNoResults(pages: int, parsed: Result<Json, string>, rawText: string)
    ensures Render(Some(Envelope(pages, Analyze(parsed), rawText))) != NoResults
  {
    EnvelopeKeepsAnalysis(pages, parsed, rawText);
  }

  /** The four sections of the fallback report. */
  lemma FallbackSections(message: string)
    ensures var ai := Fallback(message);
            && SectionOf(Prop(ai, "strengths")) == Hidden
            && SectionOf(Prop(ai, "issues")) == Shown([String("AI engine returned malformed output")])
            && SectionOf(Prop(ai, "recommendations")) ==
                 Shown([String("Try again"), String("Reduce resume length"), String("Simplify formatting")])
            && SectionOf(Prop(ai, "improved_bullets")) == Hidden
  {
    FallbackLists(message);
    FallbackHasNoBullets(message);
  }

  /** Everything the fallback page places can be rendered, and it has no
      chips. */
  lemma FallbackRenders(pages: int, message: string, rawText: string)
    ensures var response := Envelope(pages, Fallback(message), rawText);
            var ai := Fallback(message);
            && Prop(response, "ai_feedback") == Some(ai)
            && Chips(Prop(ai, "subscores"), Prop(ai, "score_scale")) == []
            && PageRenders(response, ai)
  {
    var ai := Fallback(message);
    var response := Envelope(pages, ai, rawText);
    FallbackShape(message);
    GetAt(response.fields, "pages_detected", 1);
    GetAt(response.fields, "ai_feedback", 2);
  }

  /** The fallback report renders with a red overall score, no chips (its
      `subscores` is empty but truthy) and no stray `0`, no strengths or bullet sections, and
      the fixed issue and the three fixed recommendations. */
  lemma FallbackPage(pages: int, message: string, rawText: string)
    ensures Render(Some(Envelope(pages, Fallback(message), rawText))) ==
      Page(Red, [], false, Hidden,
           Shown([String("AI engine returned malformed output")]),
           Shown([String("Try again"), String("Reduce resume length"), String("Simplify formatting")]),
           Hidden)
  {
    FallbackShape(message);
    FallbackSections(message);
    FallbackRenders(pages, message, rawText);
  }

  /** A feedback field that arrived as a list comes out of the
      normalisation as strings, so its section is hidden when empty and
      otherwise lists the coerced items; it never breaks the page. */
  lemma CoercedListSection(data: Json, key: string)
    requires data.Object? && Normalize.Normalize(data).Success?
    requires key in ListFields
    requires Get(data.fields, key).Some? && Get(data.fields, key).value.Array?
    ensures var items := NormalizeList(Get(data.fields, key).value.items);
            SectionOf(Prop(Normalize.Normalize(data).value, key)) == if items == [] then Hidden else Shown(items)
  {
    var items := NormalizeList(Get(data.fields, key).value.items);
    NormalizeCoercesLists(data, key);
    var out := Normalize.Normalize(data).value;
    assert Prop(out, key) == Some(Array(items));
    StringListSection(items);
  }

  /** A reply whose `subscores` is the number 0 keeps it: the key is
      present, so no `{}` replaces it, and a falsy `subscores` skips the
      total. The page then prints the stray `0`. */
  lemma ZeroSubscoresSurvive(data: Json)
    requires data.Object? && Get(data.fields, "subscores") == Some(Number(0))
    ensures Normalize.Normalize(data).Success?
    ensures Get(Normalize.Normalize(data).value.fields, "subscores") == Some(Number(0))
  {
    NamedSubscores(data.fields);
    NormalizeFailsExactly(data);
    NormalizeSubscores(data);
  }

  /** Such a reply, once analysed and sent, makes a page that renders
      prints the stray `0` where the chips would be, and has no chips. */
  lemma ZeroSubscoresPrintZero(pages: int, data: Json, rawText: string)
    requires data.Object? && Get(data.fields, "subscores") == Some(Number(0))
    requires Render(Some(Envelope(pages, Analyze(Success(data)), rawText))).Page?
    ensures var view := Render(Some(Envelope(pages, Analyze(Success(data)), rawText)));
            view.strayZero && view.chips == []
  {
    ZeroSubscoresSurvive(data);
    EnvelopeKeepsAnalysis(pages, Success(data), rawText);
    PageChips(Envelope(pages, Analyze(Success(data)), rawText));
  }
}
