/** The results page of the web client: the "no results" guard, the colour
    band of a score, one chip per subscore, and the feedback sections that
    appear only for non-empty lists. The page receives the upload route's
    response as parsed JSON; JavaScript's truthiness, its arithmetic on a
    missing or zero maximum, and React's refusal to render a plain object
    are spelled out. */
module ResultsView {
  import opened Wrappers
  import opened Json

  /** The three text colours a score can take. */
  datatype Band = Green | Yellow | Red

  /** A JavaScript number as the division can produce it; finite values are
      exact reals (rounding is not modelled). */
  datatype JsNumber = Finite(x: real) | PosInf | NegInf | NaN

  // ---------------------------------------------------------------------
  // getScoreColor

  /** JavaScript's `value / max * 100` on numbers that are integers or NaN
      (`None`). Division by zero gives an infinity of the dividend's sign,
      or NaN for `0 / 0`. */
  function Percent(value: Option<int>, max: Option<int>): JsNumber {
    match (value, max)
    case (Some(v), Some(m)) =>
      if m != 0 then Finite((v as real / m as real) * 100.0)
      else if v > 0 then PosInf
      else if v < 0 then NegInf
      else NaN
    case _ => NaN
  }

  /** The two comparisons `percent >= 80` and `percent >= 60`: every
      comparison with NaN is false, so NaN falls through to red. */
  function BandOf(percent: JsNumber): Band {
    match percent
    case Finite(p) => if p >= 80.0 then Green else if p >= 60.0 then Yellow else Red
    case PosInf => Green
    case NegInf => Red
    case NaN => Red
  }

  /** The band computed on integers by cross-multiplication, without a
      division: for a positive maximum the thresholds are `80 * max` and
      `60 * max` on `100 * value`; a negative maximum turns both comparisons
      round; a zero maximum leaves only the sign of the value. */
  function ScoreColor(value: Option<int>, max: Option<int>): (r: Band)
    ensures value.None? || max.None? ==> r == Red
  {
    match (value, max)
    case (Some(v), Some(m)) =>
      if m > 0 then
        if 100 * v >= 80 * m then Green else if 100 * v >= 60 * m then Yellow else Red
      else if m < 0 then
        if 100 * v <= 80 * m then Green else if 100 * v <= 60 * m then Yellow else Red
      else if v > 0 then Green
      else Red
    case _ => Red
  }

  /** `(v / m) * 100 >= t` decided without dividing. */
  lemma PercentAtLeast(v: int, m: int, t: real)
    requires m != 0
    ensures var p := (v as real / m as real) * 100.0;
            p >= t <==> (if m > 0 then 100.0 * v as real >= t * m as real
                         else 100.0 * v as real <= t * m as real)
  {
    var q := v as real / m as real;
    var p := q * 100.0;
    assert q * m as real == v as real;
    assert p * m as real == 100.0 * v as real;
    if m > 0 {
      if p >= t {
        assert p * m as real >= t * m as real;
      } else {
        assert p * m as real < t * m as real;
      }
    } else {
      if p >= t {
        assert p * m as real <= t * m as real;
      } else {
        assert p * m as real > t * m as real;
      }
    }
  }

  /** The integer banding is exactly the band JavaScript computes from the
      floating-point percentage, for every value and every maximum,
      including a zero or negative maximum and NaN operands. */
  lemma ScoreColorMatchesJs(value: Option<int>, max: Option<int>)
    ensures ScoreColor(value, max) == BandOf(Percent(value, max))
  {
    match (value, max)
    case (Some(v), Some(m)) =>
      if m != 0 {
        PercentAtLeast(v, m, 80.0);
        PercentAtLeast(v, m, 60.0);
      }
    case _ =>
  }

  /** With a positive maximum: green exactly from 80 percent, yellow from
      60 up to 80 percent, red below 60 percent. */
  lemma BandThresholds(v: int, m: int)
    requires m > 0
    ensures var p := (v as real / m as real) * 100.0;
            && (ScoreColor(Some(v), Some(m)) == Green <==> p >= 80.0)
            && (ScoreColor(Some(v), Some(m)) == Yellow <==> 60.0 <= p < 80.0)
            && (ScoreColor(Some(v), Some(m)) == Red <==> p < 60.0)
  {
    ScoreColorMatchesJs(Some(v), Some(m));
  }

  /** Red, yellow, green in increasing order. */
  function Rank(b: Band): (r: nat)
    ensures r <= 2
    ensures (r == 0 <==> b == Red) && (r == 2 <==> b == Green)
  {
    match b
    case Red => 0
    case Yellow => 1
    case Green => 2
  }

  /** For a fixed positive maximum, a higher score never gets a worse
      band. */
  lemma BandMonotone(v1: int, v2: int, m: int)
    requires m > 0 && v1 <= v2
    ensures Rank(ScoreColor(Some(v1), Some(m))) <= Rank(ScoreColor(Some(v2), Some(m)))
  {
    assert 100 * v1 <= 100 * v2;
  }

  // ---------------------------------------------------------------------
  // JavaScript values

  /** JavaScript truthiness of a parsed JSON value: `null`, `false`, `0`
      and `""` are falsy; every array and every object, even an empty one,
      is truthy. */
  predicate JsTruthy(v: Json) {
    match v
    case Null => false
    case Bool(b) => b
    case Number(n) => n != 0
    case String(s) => |s| > 0
    case Array(_) => true
    case Object(_) => true
  }

  /** `v.key` (and `v?.key`): a property of an object, `undefined` (`None`)
      for anything else. */
  function Prop(v: Json, key: string): Option<Json> {
    if v.Object? then Get(v.fields, key) else None
  }

  /** The same lookup on a value that may itself be `undefined`. */
  function PropOf(v: Option<Json>, key: string): Option<Json> {
    match v
    case Some(x) => Prop(x, key)
    case None => None
  }

  /** Numeric coercion as the division applies it; `None` is NaN.
      `undefined` is NaN, `null` is 0, booleans are 0 and 1. Strings,
      arrays and objects are taken as NaN. */
  function ToNumber(v: Option<Json>): Option<int> {
    match v
    case Some(Number(n)) => Some(n)
    case Some(Bool(b)) => Some(if b then 1 else 0)
    case Some(Null) => Some(0)
    case _ => None
  }

  /** The second argument of `getScoreColor(value, max = 100)`: the default
      replaces an `undefined` argument only, so a `null` maximum is 0. */
  function MaxArgument(max: Option<Json>): Option<int> {
    if max.None? then Some(100) else ToNumber(max)
  }

  /** What React can render as a child: anything but a plain object, with
      arrays rendered item by item. */
  predicate Renderable(v: Json)
    decreases v
  {
    match v
    case Object(_) => false
    case Array(items) => forall i :: 0 <= i < |items| ==> Renderable(items[i])
    case _ => true
  }

  predicate RenderableOpt(v: Option<Json>) {
    v.None? || Renderable(v.value)
  }

  // ---------------------------------------------------------------------
  // Chips

  /** `key.replace("_", " ")`: a string pattern replaces its first
      occurrence only. */
  function Label(key: string): (r: string)
    ensures |r| == |key|
    ensures forall i :: 0 <= i < |key| && key[i] != '_' ==> r[i] == key[i]
    ensures forall i :: 0 <= i < |key| && key[i] == '_' ==>
              (r[i] == ' ' <==> forall j :: 0 <= j < i ==> key[j] != '_')
  {
    if key == [] then []
    else if key[0] == '_' then " " + key[1..]
    else [key[0]] + Label(key[1..])
  }

  /** One subscore chip: the key and its label, the value shown over the
      maximum looked up under the same key, and the band of the two. */
  datatype Chip = Chip(key: string, caption: string, value: Json, max: Option<Json>, band: Band)

  /** The property names of an array or a string of length `n`:
      `"0"`, `"1"`, ..., in increasing order. */
  function Indices(n: nat): (r: seq<string>)
    ensures |r| == n
    ensures forall i :: 0 <= i < n ==> r[i] == Decimal(i)
  {
    if n == 0 then [] else Indices(n - 1) + [Decimal(n - 1)]
  }

  /** `Object.entries(v)`: an object's fields in order; an array's items
      and a string's characters under their decimal indices; nothing for
      a number or a boolean. */
  function Entries(v: Json): (r: seq<Field>)
    ensures v.Object? ==> r == v.fields
    ensures v.Array? ==> Keys(r) == Indices(|v.items|)
                         && forall i :: 0 <= i < |r| ==> r[i].value == v.items[i]
    ensures v.String? ==> Keys(r) == Indices(|v.s|)
                          && forall i :: 0 <= i < |r| ==> r[i].value == String([v.s[i]])
    ensures !v.Object? && !v.Array? && !v.String? ==> r == []
  {
    match v
    case Object(fields) => fields
    case Array(items) => seq(|items|, i requires 0 <= i < |items| => Field(Decimal(i), items[i]))
    case String(s) => seq(|s|, i requires 0 <= i < |s| => Field(Decimal(i), String([s[i]])))
    case _ => []
  }

  /** Each entry of an array pairs an index with the element that `a[i]`
      reads: the indices are distinct, so looking one up finds its own
      element. */
  lemma ArrayEntriesLookup(items: seq<Json>, i: nat)
    requires i < |items|
    ensures Get(Entries(Array(items)), Decimal(i)) == Some(items[i])
  {
    var entries := Entries(Array(items));
    assert Keys(entries)[i] == Decimal(i);
    forall j | 0 <= j < i
      ensures entries[j].key != Decimal(i)
    {
      assert Keys(entries)[j] == Decimal(j);
      if Decimal(j) == Decimal(i) {
        DigitsInjective(j, i);
      }
    }
    GetAt(entries, Decimal(i), i);
  }

  /** The chip for one entry, given `ai.score_scale`. */
  function MakeChip(entry: Field, scale: Option<Json>): Chip {
    var max := PropOf(scale, entry.key);
    Chip(entry.key, Label(entry.key), entry.value, max,
         ScoreColor(ToNumber(Some(entry.value)), MaxArgument(max)))
  }

  /** `ai.subscores && Object.entries(ai.subscores).map(...)`: no chip for
      a falsy or missing `subscores`; otherwise one chip per entry, in
      entry order, showing the entry, labelled by its key, paired with the
      maximum `score_scale` holds under the same key and banded against
      it. */
  function Chips(subscores: Option<Json>, scale: Option<Json>): (r: seq<Chip>)
    ensures subscores.None? || !JsTruthy(subscores.value) ==> r == []
    ensures subscores.Some? && JsTruthy(subscores.value) ==>
      var entries := Entries(subscores.value);
      && |r| == |entries|
      && forall i :: 0 <= i < |r| ==>
           && r[i].key == entries[i].key && r[i].value == entries[i].value
           && r[i].caption == Label(r[i].key)
           && r[i].max == PropOf(scale, r[i].key)
           && r[i].band == ScoreColor(ToNumber(Some(r[i].value)), MaxArgument(r[i].max))
  {
    if subscores.None? || !JsTruthy(subscores.value) then []
    else
      var entries := Entries(subscores.value);
      seq(|entries|, i requires 0 <= i < |entries| => MakeChip(entries[i], scale))
  }

  /** For a dictionary of subscores, the chips carry exactly its keys, in
      order, and each chip shows the score stored under its own key. */
  lemma ChipsFollowSubscores(fields: seq<Field>, scale: Option<Json>)
    requires UniqueKeys(fields)
    ensures var chips := Chips(Some(Object(fields)), scale);
            && |chips| == |fields|
            && (forall i :: 0 <= i < |chips| ==> chips[i].key == Keys(fields)[i])
            && (forall i :: 0 <= i < |chips| ==> Get(fields, chips[i].key) == Some(chips[i].value))
  {
    var chips := Chips(Some(Object(fields)), scale);
    forall i | 0 <= i < |chips|
      ensures Get(fields, chips[i].key) == Some(chips[i].value)
    {
      GetUnique(fields, i);
    }
  }

  // ---------------------------------------------------------------------
  // Sections and the page

  /** A feedback section: hidden, shown with its items, or the page fails
      to render. */
  datatype Section = Hidden | Shown(items: seq<Json>) | Broken

  /** `ai.x?.length > 0 && ai.x.map(...)`. An array is shown when it is
      non-empty; a non-empty string passes the length test and then has no
      `map`; anything else has no length and is hidden. Objects are taken
      to have no `length` property. */
  function SectionOf(v: Option<Json>): (r: Section)
    ensures r.Shown? ==> v.Some? && v.value.Array? && r.items == v.value.items && |r.items| > 0
  {
    match v
    case Some(Array(items)) =>
      if |items| == 0 then Hidden
      else if forall i :: 0 <= i < |items| ==> Renderable(items[i]) then Shown(items)
      else Broken
    case Some(String(s)) => if |s| > 0 then Broken else Hidden
    case _ => Hidden
  }

  /** A list of strings is hidden when empty and otherwise listed item by
      item; it never breaks the page. */
  lemma StringListSection(items: seq<Json>)
    requires forall i :: 0 <= i < |items| ==> items[i].String?
    ensures SectionOf(Some(Array(items))) == if items == [] then Hidden else Shown(items)
  {
    forall i | 0 <= i < |items|
      ensures Renderable(items[i])
    {
      assert items[i].String?;
    }
  }

  /** What the page shows. `strayZero` is the text `0` React prints for
      `{ai.subscores && (...)}` when `subscores` is the number 0; the other
      falsy values print nothing. */
  datatype View =
    | NoResults
    | Page(overall: Band, chips: seq<Chip>, strayZero: bool, strengths: Section, issues: Section,
           recommendations: Section, improvedBullets: Section)
    | RenderError

  /** Every value the page places as a child can be rendered. */
  predicate PageRenders(results: Json, ai: Json) {
    && RenderableOpt(Prop(results, "pages_detected"))
    && RenderableOpt(Prop(ai, "overall_score"))
    && RenderableOpt(Prop(ai, "reasoning"))
    && forall c :: c in Chips(Prop(ai, "subscores"), Prop(ai, "score_scale")) ==>
         Renderable(c.value) && RenderableOpt(c.max)
  }

  /** The page for `results`, the value the upload page navigated with
      (`None` when there is none). */
  function Render(results: Option<Json>): View {
    if results.None? || !JsTruthy(results.value) then NoResults
    else
      var ai := Prop(results.value, "ai_feedback");
      if ai.None? || !JsTruthy(ai.value) then NoResults
      else
        var a := ai.value;
        var sections := [SectionOf(Prop(a, "strengths")), SectionOf(Prop(a, "issues")),
                         SectionOf(Prop(a, "recommendations")), SectionOf(Prop(a, "improved_bullets"))];
        if !PageRenders(results.value, a) || Broken in sections then RenderError
        else
          Page(ScoreColor(ToNumber(Prop(a, "overall_score")), Some(100)),
               Chips(Prop(a, "subscores"), Prop(a, "score_scale")),
               Prop(a, "subscores") == Some(Number(0)),
               sections[0], sections[1], sections[2], sections[3])
  }

  /** "No results found" is shown exactly when there is no navigation data,
      it is falsy, or its `ai_feedback` is missing or falsy. */
  lemma NoResultsIff(results: Option<Json>)
    ensures Render(results) == NoResults <==>
      results.None? || !JsTruthy(results.value)
      || Prop(results.value, "ai_feedback").None? || !JsTruthy(Prop(results.value, "ai_feedback").value)
  {
  }

  /** A rendered page has one chip per entry of `ai.subscores`, in the
      entries' order, each paired with the maximum under the same key of
      `ai.score_scale` and banded against it; the overall score is banded
      out of 100; a stray `0` is printed exactly when `subscores` is the
      number 0. */
  lemma PageChips(results: Json)
    requires Render(Some(results)).Page?
    ensures var ai := Prop(results, "ai_feedback").value;
            var view := Render(Some(results));
            var sub := Prop(ai, "subscores");
            && view.overall == ScoreColor(ToNumber(Prop(ai, "overall_score")), Some(100))
            && (sub.Some? && JsTruthy(sub.value) ==>
                  var entries := Entries(sub.value);
                  && |view.chips| == |entries|
                  && forall i :: 0 <= i < |entries| ==>
                       && view.chips[i].key == entries[i].key
                       && view.chips[i].value == entries[i].value
                       && view.chips[i].max == PropOf(Prop(ai, "score_scale"), entries[i].key)
                       && view.chips[i].band ==
                            ScoreColor(ToNumber(Some(entries[i].value)), MaxArgument(view.chips[i].max)))
            && (sub.None? || !JsTruthy(sub.value) ==> view.chips == [])
            && (view.strayZero <==> sub == Some(Number(0)))
  {
  }

  /** A chip whose key has no maximum in `score_scale` is banded out of the
      default 100, not turned red: the default parameter replaces only an
      `undefined` argument. */
  lemma MissingMaxIsOutOf100(entry: Field, scale: Option<Json>)
    requires PropOf(scale, entry.key).None?
    ensures MakeChip(entry, scale).band == ScoreColor(ToNumber(Some(entry.value)), Some(100))
  {
  }

  /** An explicit `null`, `false` or `0` maximum is not replaced by the
      default: the division is by zero, so a positive value is banded green
      (`Infinity`) and any other value red (`-Infinity` or `NaN`). */
  lemma ZeroMaxBandsBySign(entry: Field, scale: Option<Json>)
    requires PropOf(scale, entry.key) in {Some(Null), Some(Bool(false)), Some(Number(0))}
    ensures var v := ToNumber(Some(entry.value));
            MakeChip(entry, scale).band == if v.Some? && v.value > 0 then Green else Red
    ensures MakeChip(entry, scale).band == BandOf(Percent(ToNumber(Some(entry.value)), Some(0)))
  {
    var max := PropOf(scale, entry.key);
    assert MaxArgument(max) == Some(0);
    ScoreColorMatchesJs(ToNumber(Some(entry.value)), Some(0));
  }

  /** Each section of a rendered page is shown exactly when its field is a
      non-empty array, and then lists that array's items in order. */
  lemma SectionShownIff(results: Json)
    requires Render(Some(results)).Page?
    ensures var ai := Prop(results, "ai_feedback").value;
            var view := Render(Some(results));
            && SectionMatches(view.strengths, Prop(ai, "strengths"))
            && SectionMatches(view.issues, Prop(ai, "issues"))
            && SectionMatches(view.recommendations, Prop(ai, "recommendations"))
            && SectionMatches(view.improvedBullets, Prop(ai, "improved_bullets"))
  {
  }

  /** `section` is shown iff `v` is a non-empty array, with its items. */
  predicate SectionMatches(section: Section, v: Option<Json>) {
    && (section.Shown? <==> v.Some? && v.value.Array? && |v.value.items| > 0)
    && (section.Shown? ==> section.items == v.value.items)
    && !section.Broken?
  }

  /** A feedback field that is a non-empty string, which the normalisation
      leaves alone because it is not a list, makes the page fail: the length
      test passes and strings have no `map`. */
  lemma StringSectionBreaksPage(results: Json, s: string)
    requires |s| > 0
    requires Prop(results, "ai_feedback").Some?
    requires JsTruthy(Prop(results, "ai_feedback").value)
    requires Prop(Prop(results, "ai_feedback").value, "issues") == Some(String(s))
    ensures Render(Some(results)) == RenderError
  {
    var a := Prop(results, "ai_feedback").value;
    var sections := [SectionOf(Prop(a, "strengths")), SectionOf(Prop(a, "issues")),
                     SectionOf(Prop(a, "recommendations")), SectionOf(Prop(a, "improved_bullets"))];
    assert sections[1] == Broken;
  }
}
