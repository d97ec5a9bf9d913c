# Resume evaluator: text repair, report normalisation and the results page

A Dafny model of the decision logic of a resume evaluator. A language
model is asked for a JSON report on an uploaded resume. The backend
repairs the model's text, parses it, normalises the report (or returns a
fixed fallback report), and the web client renders the report as a page
of coloured scores and feedback lists.

The model covers four pieces and the seams between them:

- **Text repair** (`text.dfy`, `json_repair.dfy`, `bullets.dfy`).
  `repair_json` strips the reply and removes Markdown fences when the
  stripped reply opens with one. It then deletes trailing commas before
  `}` or `]`, renames seven misspelled keys, and appends missing `}` and
  then `]`. `fix_unquoted_bullets` turns bullet lines into quoted, escaped
  array entries. The two regular expressions are written as hand-made
  scanners with the engine's greedy matching and backtracking, and each is
  related to an independent character-level reference.
- **The cleanup order** (`cleanup.dfy`). The analysis call runs
  `repair_json` first and `fix_unquoted_bullets` second. The model
  composes the two in that order and in the other order, and follows an
  array whose last line is a bullet through both.
- **Report normalisation** (`json.dfy`, `normalize.dfy`). Parsed JSON is a
  datatype whose objects are ordered key/value lists, as Python
  dictionaries are. The normalisation:
  - renames `scores` to `subscores`;
  - makes sure `subscores` exists;
  - makes `overall_score` agree with the sum of the five categories;
  - coerces every feedback-list item, top-level and per category, to a
    string.

  Every exception the block can raise is a `Fault` that leads to the
  fallback report. `Envelope` is the upload route's response.
- **Results page** (`results_view.dfy`). This file models:
  - the "no results" guard;
  - `getScoreColor`, with JavaScript's `NaN` and infinities and its
    default parameter;
  - one chip per subscore entry;
  - the four feedback sections;
  - React's refusal to render a plain object.

  `end_to_end.dfy` relates the backend's output to what the page shows.

`main.py` holds an older copy of the backend with the same `repair_json`,
`fix_unquoted_bullets`, normalisation block and route (`main.py:51-59`,
`188-260`, `297-353`). Its fallback report (`main.py:280-294`) has the same
keys and texts as the backend's. The model defines each once, and the
table cites either copy. The backend imports its `SCORE_SCALE` from
`app.utils.scoring`, which is not part of this model; the maxima are
`main.py`'s own (`main.py:20-26`).

Three behaviours of the code that a reader might not expect are modelled
as written:

- **A chip whose key is missing from `score_scale` is banded out of 100.**
  `getScoreColor(value, max = 100)` then receives `undefined`, and the
  default parameter applies to `undefined` only
  (`ResultsView.MissingMaxIsOutOf100`). An explicit `null`, `0` or `false`
  maximum is not replaced and divides by zero
  (`ResultsView.ZeroMaxBandsBySign`).
- **A maximum of zero or below is banded as JavaScript bands it.**
  `ScoreColor` is proved equal to the band JavaScript computes from the
  real quotient, its infinities and `NaN` (`ResultsView.ScoreColorMatchesJs`).
- **The total is checked as Python compares it.** `overall_score` is
  rewritten only when it differs from the sum. A missing `overall_score`
  therefore stays missing when the sum is 0, and `True` counts as 1. The
  invariant is stated as `ReportedEquals`, not as plain equality.

## Model

| member | source | states |
|---|---|---|
| `Text.Strip` | backend/app/utils/json_fixers.py:7 | `str.strip` returns a slice of its input. Everything cut off on either side is whitespace, and the result neither starts nor ends with whitespace. |
| `Text.ReplaceAllKeepsCount` | backend/app/utils/json_fixers.py:18-24 | A left-to-right, non-overlapping `str.replace` keeps the count of any character that occurs equally often in the pattern and in the replacement. |
| `JsonRepair.RemoveFences` | backend/app/utils/json_fixers.py:7-11 | Without a leading fence the result is exactly the stripped reply. With one, no run of three backticks survives. Either way the result has no surrounding whitespace, and every character other than whitespace, a backtick or a letter of `json` survives, in the reply's order. |
| `JsonRepair.TaggedFenceIsRemoved` | backend/app/utils/json_fixers.py:7-11 | A reply that is a ```` ```json ```` fence around a text without backticks, padded with whitespace, comes back as that text stripped: the `json` tag and both fences are gone. |
| `JsonRepair.BareFenceIsRemoved` | backend/app/utils/json_fixers.py:7-11 | A reply that is a bare ```` ``` ```` fence around a text without backticks that does not start with `json`, padded with whitespace, comes back as that text stripped. |
| `JsonRepair.RemoveFencesKeepsCount` | backend/app/utils/json_fixers.py:7-11 | The fence removal keeps the count of every brace, bracket, quote, comma, colon and any other character that is neither whitespace nor a fence character. |
| `JsonRepair.DeleteFencesLeavesNone` | backend/app/utils/json_fixers.py:11 | Deleting every bare fence left to right leaves no run of three backticks, even where deleting one fence joins backticks from either side. |
| `JsonRepair.CloserAfterSpace` | backend/app/utils/json_fixers.py:15 | The scanner for `\s*[}\]]` finds the closer that follows only whitespace, and reports none exactly when no closer is reached through whitespace alone. |
| `JsonRepair.DropTrailingCommasDeletesExactlyTrailing` | backend/app/utils/json_fixers.py:15 | The regex substitution equals the reference that deletes exactly the commas followed by optional whitespace and `}` or `]`, and keeps every other character in order. |
| `JsonRepair.WithoutTrailingCommasKeepsOthers` | backend/app/utils/json_fixers.py:15 | Only commas are deleted: the count of every other character is unchanged. |
| `JsonRepair.FixTyposKeepsBrackets` | backend/app/utils/json_fixers.py:18-24 | None of the seven key renames changes how many `{`, `}`, `[` or `]` the text holds. |
| `JsonRepair.CloseMissing` | backend/app/utils/json_fixers.py:26-32 | The result is the input followed by closers only. The closer count is raised to the opener count when it was lower and left alone otherwise, and no other character's count changes. |
| `JsonRepair.Balance` | backend/app/utils/json_fixers.py:26-39 | The suffix is the brace shortfall in `}` followed by the bracket shortfall in `]`. Afterwards neither kind is under-closed. |
| `JsonRepair.RepairJson` | backend/app/utils/json_fixers.py:1-41 | The repaired text has at least as many `}` as `{` and at least as many `]` as `[`. |
| `JsonRepair.RepairJsonAppendsShortfall` | main.py:303-335 | What is appended is the brace and then the bracket shortfall of the model's raw reply, because neither the fence removal, the comma deletion nor the key renames change those counts. |
| `JsonRepair.RepairJsonAppendsNothingWhenClosed` | backend/app/utils/json_fixers.py:7-39 | A reply that already has at least as many closers as openers of each kind gets nothing appended. |
| `Bullets.MatchBullet` | backend/app/utils/json_fixers.py:52 | A match opens with a line break and a whitespace/bullet/whitespace prefix. Its group is a non-empty run without `\n` that ends its line. No longer bullet prefix reaches a character where the group could start. Without a match, no bullet prefix after the line break reaches such a character. |
| `Bullets.Escape` | backend/app/utils/json_fixers.py:53 | Escaping adds one character per `"`, keeps the number of quotes, and puts a backslash before every quote. |
| `Bullets.EscapeRoundTrip` | main.py:349 | Reading `\"` back as `"` recovers the captured text, so escaping loses nothing. |
| `Bullets.FixUnquotedBulletsIdentity` | backend/app/utils/json_fixers.py:51-55 | A text with no `\n`/`\r`, or with neither `•` nor `-`, is returned unchanged. |
| `Bullets.MatchedLineBecomesEntry` | backend/app/utils/json_fixers.py:51-55 | A matched bullet line is rewritten as a newline, four spaces, a quote, the escaped group and `",`. Unescaping that body gives back the group's text from the input. |
| `Bullets.PrefixWithoutBreakIsCopied` | backend/app/utils/json_fixers.py:51-55 | A match needs a line break, so a leading part without `\n` or `\r` is copied unchanged and the rest of the text is rewritten on its own. |
| `Bullets.BulletLineAfterPrefix` | backend/app/utils/json_fixers.py:51-55 | A bullet line anywhere after a part without line breaks becomes the quoted, escaped entry, the text before it is kept, and unescaping the entry gives back the group's text. |
| `Bullets.BulletInsideArray` | backend/app/utils/json_fixers.py:51-55 | A bullet line between `[` and `]` on their own lines becomes the quoted entry `"text",` indented by four spaces, and the brackets are kept. |
| `Cleanup.BulletArrayIsRepaired` | backend/app/utils/json_fixers.py:1-41 | `repair_json` returns an array whose only line is a plain unquoted bullet unchanged: nothing to strip, no comma, no quote to rename, nothing to close. |
| `Cleanup.QuotedIsNotRenamed` | backend/app/utils/json_fixers.py:18-24 | A text whose only quotes enclose a text other than the seven misspelled keys is left alone by the key renames. |
| `Cleanup.EntryArrayIsRepaired` | backend/app/utils/json_fixers.py:1-41 | `repair_json` deletes the comma after an array's only quoted entry and changes nothing else. |
| `Cleanup.LastBulletKeepsTrailingComma` | backend/app/ai/resume_ai.py:120-121 | Cleaned in the order the analysis call uses, `[\n- c\n]` becomes `[\n    "c",\n]`. The comma before `]` is a trailing comma. |
| `Cleanup.ReorderedLastBulletHasNoComma` | backend/app/utils/json_fixers.py:15 | With the bullet rewrite first, the same array becomes `[\n    "c"\n]`, with no comma at all. |
| `Normalize.NormalizeItem` | backend/app/ai/resume_ai.py:188-202 | Every item yields exactly one string; nothing is dropped. A string item passes through unchanged. |
| `Normalize.DictItemUsesFirstTruthyKey` | backend/app/ai/resume_ai.py:191-200 | A dictionary item becomes `str()` of its first truthy value among `improved_bullet`, `bad_bullet`, `text`, `content`, `message`. |
| `Normalize.DictItemWithoutTextIsSerialised` | backend/app/ai/resume_ai.py:193-198 | A dictionary item with none of those keys truthy becomes its own serialisation, a non-empty text starting with `{`. |
| `Normalize.OtherItemIsStringified` | backend/app/ai/resume_ai.py:201-202 | Any other item becomes `str(item)` when truthy and `""` when falsy. |
| `Normalize.NormalizeList` | main.py:236-260 | A coerced list has the input's length and order and holds only strings. Each position holds that item's coercion, and string items are kept as they were. |
| `Normalize.NormalizeCategoriesCoerces` | backend/app/ai/resume_ai.py:162-182 | Every category, whatever its name, keeps its key and position. A dictionary category keeps its keys and has strengths, issues and recommendations coerced, with nothing else changed. Any other category is untouched. |
| `Normalize.NormalizeCategoriesIdempotent` | backend/app/ai/resume_ai.py:162-182 | Normalising the categories a second time changes nothing. |
| `Normalize.RenameScores` | backend/app/ai/resume_ai.py:136-137 | `scores` becomes `subscores` only when `subscores` is absent; when both exist, `scores` is left alone. After a rename `scores` is gone, the other keys keep their order, and `subscores` is the last key, holding the old `scores` value. Other keys keep their values. |
| `Normalize.EnsureSubscores` | main.py:191-193 | Afterwards `subscores` exists. A missing one is `{}`, a present one is kept, and nothing else changes. |
| `Normalize.SumOfScoreKeys` | backend/app/ai/resume_ai.py:145-148 | The `sum` over the five fixed keys succeeds exactly when each key is missing or addable. It then equals structure + technical_depth + impact + clarity + ats, with a missing key counting as 0. |
| `Normalize.ReconcileOverallAgrees` | backend/app/ai/resume_ai.py:144-156 | The total step fails exactly when `subscores` is truthy and is not a dictionary or holds a value `sum` cannot add. Otherwise `overall_score` agrees with the sum; it is rewritten only on a mismatch, and a falsy `subscores` leaves the report alone. |
| `Normalize.NormalizeFeedback` | backend/app/ai/resume_ai.py:162-163 | Only `feedback_by_category` can change, and only when it holds a dictionary. |
| `Normalize.Normalize` | backend/app/ai/resume_ai.py:136-210 | A successful normalisation returns a dictionary that has `subscores`. Data that is not a dictionary always raises. |
| `Normalize.NormalizeFailsExactly` | main.py:196-200 | Normalising a dictionary fails exactly when the total cannot be computed. |
| `Normalize.NormalizeKeepsOtherKeys` | backend/app/ai/resume_ai.py:136-210 | Every key outside `scores`, `subscores`, `overall_score`, `feedback_by_category` and the five list fields keeps its value. |
| `Normalize.NormalizeCoercesLists` | backend/app/ai/resume_ai.py:184-208 | Each of the five top-level list fields comes back coerced when it is a list, and unchanged otherwise. |
| `Normalize.NormalizeCoercesCategories` | main.py:214-234 | `feedback_by_category` comes back with every category normalised when it is a dictionary, and unchanged otherwise. |
| `Normalize.NormalizeSubscores` | backend/app/ai/resume_ai.py:136-141 | The returned `subscores` is the reply's own `subscores`, else its `scores`, else `{}`. |
| `Normalize.NormalizeScores` | backend/app/ai/resume_ai.py:136-137 | The returned report has no `scores` after a rename; otherwise its `scores` is the reply's, or stays absent. |
| `Normalize.NormalizeReconcilesTotal` | backend/app/ai/resume_ai.py:136-154 | Take the reply's `subscores`, else its `scores`, else `{}`. When that is truthy, the returned `overall_score` equals its five-key sum as Python compares values. When it is falsy, `overall_score` is the reply's own value, or stays absent. |
| `Normalize.NormalizeGivesNormalReport` | main.py:188-262 | Every successful result is in normal form: it has `subscores`, its total agrees, its categories are normalised and its lists hold only strings. |
| `Normalize.NormalizeIdempotent` | backend/app/ai/resume_ai.py:136-210 | Normalising an already normalised report changes nothing. |
| `Normalize.ScoreScaleTotals100` | main.py:20-26 | The five category maxima 20, 25, 25, 15, 15 sum to the 100 points of the overall score. |
| `Normalize.FallbackShape` | backend/app/ai/resume_ai.py:228-242 | The fallback report has overall score 0, empty `subscores`, `main.py`'s `score_scale`, the exception text as `reasoning`, and no category feedback. |
| `Normalize.FallbackLists` | main.py:285-291 | The fallback has no strengths, one fixed issue and three fixed recommendations. |
| `Normalize.FallbackIsNormal` | main.py:280-294 | The fallback report is already in normal form, so normalising it changes nothing. |
| `Normalize.Analyze` | backend/app/ai/resume_ai.py:132-242 | The analysis always returns a dictionary with `subscores`. It is the normalised report when parsing and normalisation succeed. It is the fallback built from the error text when parsing fails, and the fallback built from the fault's text when normalisation raises. |
| `Normalize.AnalyzeIsNormal` | backend/app/ai/resume_ai.py:132-242 | Whichever path the analysis takes, its result is in normal form: normalising it once more returns it unchanged. |
| `Normalize.EnvelopeKeepsAnalysis` | backend/app/main.py:25-33 | The route's own `subscores` guard never fires, so the analysis is placed in the response untouched. |
| `Normalize.EnvelopePassesThrough` | main.py:51-59 | An analysis that has `subscores` is placed in the response as it is. |
| `ResultsView.ScoreColorMatchesJs` | resume-ui/src/components/ModernResults.jsx:33-38 | The integer banding equals the band JavaScript computes from `value / max * 100` for every value and maximum, including a zero or negative maximum and `NaN`. |
| `ResultsView.BandThresholds` | resume-ui/src/components/ModernResults.jsx:34-37 | For a positive maximum: green iff the percentage is at least 80, yellow iff it is from 60 up to 80, red iff it is below 60. |
| `ResultsView.BandMonotone` | resume-ui/src/components/ModernResults.jsx:33-38 | For a fixed positive maximum, a higher value never gets a worse band. |
| `ResultsView.NoResultsIff` | resume-ui/src/components/ModernResults.jsx:15-29 | "No results found" is shown exactly when the navigation data is missing or falsy, or its `ai_feedback` is. |
| `ResultsView.Label` | resume-ui/src/components/ModernResults.jsx:87 | The chip label equals the key except that the first `_`, and only the first, becomes a space. |
| `ResultsView.Entries` | resume-ui/src/components/ModernResults.jsx:78 | `Object.entries` returns an object's fields in order. An array or a string of length n is listed under the keys `"0"` to `"n-1"`, in order, each with element i. Other values give nothing. |
| `ResultsView.ArrayEntriesLookup` | resume-ui/src/components/ModernResults.jsx:78 | The index keys of an array's entries are distinct, so looking up index i among them finds element i. |
| `ResultsView.Chips` | resume-ui/src/components/ModernResults.jsx:76-91 | A falsy or missing `subscores` gives no chips. Otherwise there is one chip per entry, in entry order, with the entry's key and value, the label of that key, the `score_scale` maximum under the same key, and the band of the value against that maximum. |
| `ResultsView.ChipsFollowSubscores` | resume-ui/src/components/ModernResults.jsx:76-91 | For a dictionary of subscores, the chips carry its keys in order and each chip shows the score stored under its own key. |
| `ResultsView.PageChips` | resume-ui/src/components/ModernResults.jsx:67-91 | On a rendered page the overall score is banded out of 100. Each chip carries its entry's key and value and the `score_scale` maximum under the same key, and is banded against that maximum. A stray `0` is printed exactly when `subscores` is the number 0. |
| `ResultsView.MissingMaxIsOutOf100` | resume-ui/src/components/ModernResults.jsx:79-83 | A chip whose key has no maximum is banded out of the default 100. |
| `ResultsView.ZeroMaxBandsBySign` | resume-ui/src/components/ModernResults.jsx:33-38 | An explicit `null`, `false` or `0` maximum keeps its value, so the division is by zero: a positive value is green and any other value red, as JavaScript bands `Infinity`, `-Infinity` and `NaN`. |
| `ResultsView.SectionOf` | resume-ui/src/components/ModernResults.jsx:115-127 | A section is shown only for a non-empty array, and then lists exactly that array's items. |
| `ResultsView.StringListSection` | resume-ui/src/components/ModernResults.jsx:130-142 | A list of strings is hidden when empty and otherwise shown item by item. It never breaks the page. |
| `ResultsView.SectionShownIff` | resume-ui/src/components/ModernResults.jsx:115-176 | On a rendered page, each of the four sections is shown iff its field is a non-empty array, with that array's items in order. |
| `ResultsView.StringSectionBreaksPage` | resume-ui/src/components/ModernResults.jsx:130-137 | A non-empty string in `issues` passes the length test and has no `map`, so the page fails to render. |
| `EndToEnd.ResponseIsNeverNoResults` | resume-ui/src/components/ModernResults.jsx:15 | Every successful analysis response of the upload route gets past the "no results" guard. |
| `EndToEnd.FallbackSections` | resume-ui/src/components/ModernResults.jsx:145-157 | The fallback report shows no strengths and no bullet section. It shows the fixed issue and the three recommendations. |
| `EndToEnd.FallbackRenders` | resume-ui/src/components/ModernResults.jsx:62-91 | The fallback response carries the analysis, yields no chips, and every value the page places can be rendered. |
| `EndToEnd.FallbackPage` | backend/app/ai/resume_ai.py:228-239 | The fallback renders as a fixed page: red overall score, no chips, no stray `0`, the fixed issue and recommendations, and no other section. |
| `EndToEnd.ZeroSubscoresSurvive` | backend/app/ai/resume_ai.py:136-144 | A reply whose `subscores` is the number 0 normalises successfully and keeps that 0: no `{}` replaces it and no total is computed. |
| `EndToEnd.ZeroSubscoresPrintZero` | resume-ui/src/components/ModernResults.jsx:76 | When such a reply's response renders as a page, the page has no chips and prints the stray `0`. |
| `EndToEnd.CoercedListSection` | backend/app/ai/resume_ai.py:184-208 | A feedback field that arrived as a list is shown after normalisation as the coerced strings, or hidden when empty. It never breaks the page. |

## Findings

| source | as written | input that shows it | evidently intended | confidence | as-written member | corrected member |
|---|---|---|---|---|---|---|
| backend/app/ai/resume_ai.py:120-121 | `repair_json` deletes trailing commas and only then `fix_unquoted_bullets` ends every entry with `",`, so the comma after an array's last entry stays | `"[\n- a\n]"` is cleaned to `"[\n    \"a\",\n]"`. JSON forbids a comma before `]` (RFC 8259, section 5), so parsing fails and the fallback report is returned | the comma deletion also sees the commas the bullet rewrite adds, as it does when the bullets are rewritten first | not executed | `Cleanup.LastBulletKeepsTrailingComma` | `Cleanup.ReorderedLastBulletHasNoComma` |

`main.py:172-173` has the same order. Parsing is not modelled, so no later
member reads the cleaned text: `Normalize.Analyze` takes the parse result.
`Cleanup.CleanReplyReordered` is the corrected cleanup.

## Left out

- The model call over HTTP, the prompt text and all `print` logging: network and console output.
- `json.loads`: the parsed value, or the error text of whatever raised, is the input of `Normalize.Analyze`.
- PDF text extraction, CORS setup, the `/` route and the non-PDF rejection in the upload route: framework plumbing. Page count and extracted text enter `Normalize.Envelope` as parameters.
- Floating-point numbers: JSON numbers are integers. JavaScript's division is modelled on exact reals, with its infinities and `NaN`, but without rounding.
- Json.Repr: Python's `str()` of a container uses single quotes without escaping here. Python's choice of quote character and its escaping are not reproduced; the properties rely only on the text being non-empty and starting with `{` for a dictionary.
- Normalize.Describe: the fallback's `reasoning` text for a fault is a placeholder. Python's exception wording is not reproduced.
- The unused nested `replacer` in `fix_unquoted_bullets`: it is never called.
- ResultsView.ToNumber: JavaScript's coercion of strings, arrays and objects to numbers is taken as `NaN`, so such a value is banded red even where JavaScript would parse a numeric string.
- ResultsView.Prop: property access reads own fields only. In JavaScript a key such as `constructor`, `toString` or `__proto__` reads an inherited property, so `score_scale?.[key]` is a function and the chip is banded with `NaN`; the model reports `undefined` and bands out of 100. A `score_scale` that is not an object is taken to have no properties.
- ResultsView.Entries: `Object.entries` on a string lists UTF-16 code units; the model lists code points.
- ResultsView.Entries: `Object.entries` lists integer-like keys of an object first in ascending order; the model keeps the parsed order.
- ResultsView.SectionOf: an object field is taken to have no `length` property.
- Normalize.FallbackShape: the backend's `score_scale` is `SCORE_SCALE` from `app.utils.scoring`, which is not part of this model. The maxima are taken from `main.py:20-26`.
- Cleanup.LastBulletKeepsTrailingComma: stated for one bullet whose text starts with a visible character and holds no line break, quote, comma, brace or bracket, because on other texts the repair steps also rewrite the bullet's own characters. `Cleanup.ReorderedLastBulletHasNoComma` also excludes the seven misspelled keys, which the key renames would rewrite.
- Duplicate keys in a JSON object: `Json.Get` returns the first, while `json.loads` keeps the last.
- CSS capitalisation of chip labels, Tailwind class strings, icons and the navigation buttons: presentation only.
- `ResultsPage.jsx`, the upload components, `upload.js`, `bulletFix.js` and `App.jsx`: file picking, requests and routing. They are not part of this model.
