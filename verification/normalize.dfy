/** The normalisation `ai_resume_analysis` applies to the report once
    `json.loads` has parsed the model's reply, the constant report it
    returns when anything raises, and the envelope the upload route wraps
    around it. */
module Normalize {
  import opened Wrappers
  import opened Json

  /** The five scored categories, in the order the total is summed. */
  const ScoreKeys: seq<string> := ["structure", "technical_depth", "impact", "clarity", "ats"]

  /** Top-level feedback lists whose items are coerced to strings. */
  const ListFields: seq<string> := ["strengths", "issues", "recommendations", "bad_bullets", "improved_bullets"]

  /** Lists coerced inside each entry of `feedback_by_category`. */
  const CategoryListFields: seq<string> := ["strengths", "issues", "recommendations"]

  /** Keys probed, in this order, for the text of a dictionary item. */
  const TextKeys: seq<string> := ["improved_bullet", "bad_bullet", "text", "content", "message"]

  /** What raises inside the normalisation block; each is caught by the
      function's outer handler, which then returns the fallback report. */
  datatype Fault =
    | NotAnObject               // the reply parsed to something other than a dictionary
    | SubscoresNotAnObject      // `subscores` is truthy but has no `.get`
    | NotANumber(key: string)   // `sum` met a value it cannot add

  predicate Distinct(keys: seq<string>) {
    forall i, j :: 0 <= i < j < |keys| ==> keys[i] != keys[j]
  }

  // ---------------------------------------------------------------------
  // Feedback items

  /** The item has a truthy value under `key`. */
  predicate TruthyAt(item: seq<Field>, key: string) {
    Get(item, key).Some? && Truthy(Get(item, key).value)
  }

  /** `item.get(k1) or item.get(k2) or ... or str(item)`. */
  function PickText(item: seq<Field>, keys: seq<string>): (r: Json)
    ensures Truthy(r)
  {
    if keys == [] then String(PyStr(Object(item)))
    else if TruthyAt(item, keys[0]) then Get(item, keys[0]).value
    else PickText(item, keys[1..])
  }

  /** What the loop appends for one item: a string as it is; for a
      dictionary, `str()` of its picked text; for anything else `str(item)`
      when truthy and `""` otherwise. The guard `if text:` never fails, so
      exactly one string is appended for every item. */
  function NormalizeItem(item: Json): (r: seq<Json>)
    ensures |r| == 1 && r[0].String?
    ensures item.String? ==> r[0] == item
  {
    match item
    case String(_) => [item]
    case Object(fields) =>
      var text := PickText(fields, TextKeys);
      if Truthy(text) then [String(PyStr(text))] else []
    case _ => [String(if Truthy(item) then PyStr(item) else "")]
  }

  lemma {:induction false} PickTextFirstTruthy(item: seq<Field>, keys: seq<string>, i: nat)
    requires i < |keys| && TruthyAt(item, keys[i])
    requires forall j :: 0 <= j < i ==> !TruthyAt(item, keys[j])
    ensures PickText(item, keys) == Get(item, keys[i]).value
  {
    if i > 0 {
      assert !TruthyAt(item, keys[0]);
      PickTextFirstTruthy(item, keys[1..], i - 1);
    }
  }

  lemma {:induction false} PickTextNoneTruthy(item: seq<Field>, keys: seq<string>)
    requires forall j :: 0 <= j < |keys| ==> !TruthyAt(item, keys[j])
    ensures PickText(item, keys) == String(PyStr(Object(item)))
  {
    if keys != [] {
      assert !TruthyAt(item, keys[0]);
      PickTextNoneTruthy(item, keys[1..]);
    }
  }

  /** A dictionary item becomes the text of the first truthy value among
      `improved_bullet`, `bad_bullet`, `text`, `content`, `message`. */
  lemma DictItemUsesFirstTruthyKey(item: seq<Field>, i: nat)
    requires i < |TextKeys| && TruthyAt(item, TextKeys[i])
    requires forall j :: 0 <= j < i ==> !TruthyAt(item, TextKeys[j])
    ensures NormalizeItem(Object(item)) == [String(PyStr(Get(item, TextKeys[i]).value))]
  {
    PickTextFirstTruthy(item, TextKeys, i);
  }

  /** A dictionary item with none of those keys truthy is kept as its own
      serialisation, which is a non-empty text starting with `{`. */
  lemma DictItemWithoutTextIsSerialised(item: seq<Field>)
    requires forall j :: 0 <= j < |TextKeys| ==> !TruthyAt(item, TextKeys[j])
    ensures NormalizeItem(Object(item)) == [String(Repr(Object(item)))]
    ensures Repr(Object(item))[0] == '{'
  {
    PickTextNoneTruthy(item, TextKeys);
  }

  /** An item that is neither a string nor a dictionary becomes `str(item)`
      when truthy and the empty string otherwise. */
  lemma OtherItemIsStringified(item: Json)
    requires !item.String? && !item.Object?
    ensures Truthy(item) ==> NormalizeItem(item) == [String(Repr(item))]
    ensures !Truthy(item) ==> NormalizeItem(item) == [String("")]
  {
  }

  /** The loop over one list: same length, same order, strings only, and
      every string item passed through unchanged. */
  function NormalizeList(xs: seq<Json>): (r: seq<Json>)
    ensures |r| == |xs|
    ensures forall i :: 0 <= i < |r| ==> r[i].String?
    ensures forall i :: 0 <= i < |xs| ==> [r[i]] == NormalizeItem(xs[i])
    ensures forall i :: 0 <= i < |xs| && xs[i].String? ==> r[i] == xs[i]
  {
    if xs == [] then [] else NormalizeItem(xs[0]) + NormalizeList(xs[1..])
  }

  predicate AllStrings(xs: seq<Json>) {
    forall i :: 0 <= i < |xs| ==> xs[i].String?
  }

  /** A list that holds only strings is already normal. */
  lemma NormalizeListKeepsStrings(xs: seq<Json>)
    requires AllStrings(xs)
    ensures NormalizeList(xs) == xs
  {
  }

  // ---------------------------------------------------------------------
  // Coercing named list fields of a dictionary

  /** The value a list field has after coercion: a list is coerced, any
      other value (or a missing key) is left alone. */
  function Coerced(v: Option<Json>): Option<Json> {
    match v
    case Some(Array(xs)) => Some(Array(NormalizeList(xs)))
    case _ => v
  }

  /** `if key in d and isinstance(d[key], list): d[key] = normalized`. */
  function CoerceField(fields: seq<Field>, key: string): (r: seq<Field>)
    ensures Keys(r) == Keys(fields)
    ensures Get(r, key) == Coerced(Get(fields, key))
    ensures forall k :: k != key ==> Get(r, k) == Get(fields, k)
  {
    match Get(fields, key)
    case Some(Array(xs)) => Set(fields, key, Array(NormalizeList(xs)))
    case _ => fields
  }

  /** Coerces each named field in turn; every other field, and the key
      order, stay as they were. */
  function CoerceFields(fields: seq<Field>, keys: seq<string>): (r: seq<Field>)
    requires Distinct(keys)
    ensures Keys(r) == Keys(fields)
    ensures forall k :: k in keys ==> Get(r, k) == Coerced(Get(fields, k))
    ensures forall k :: k !in keys ==> Get(r, k) == Get(fields, k)
    decreases |keys|
  {
    if keys == [] then fields
    else
      var once := CoerceField(fields, keys[0]);
      var r := CoerceFields(once, keys[1..]);
      assert keys == [keys[0]] + keys[1..];
      assert keys[0] !in keys[1..];
      r
  }

  /** The field, when it holds a list, holds only strings. */
  predicate StringListAt(fields: seq<Field>, key: string) {
    match Get(fields, key)
    case Some(Array(xs)) => AllStrings(xs)
    case _ => true
  }

  /** Every named field that holds a list holds only strings. */
  predicate ListsAreStrings(fields: seq<Field>, keys: seq<string>) {
    forall k :: k in keys ==> StringListAt(fields, k)
  }

  lemma ListsAreStringsAt(fields: seq<Field>, keys: seq<string>)
    requires forall i :: 0 <= i < |keys| ==> StringListAt(fields, keys[i])
    ensures ListsAreStrings(fields, keys)
  {
  }

  lemma {:induction false} SetExisting(fields: seq<Field>, key: string, value: Json)
    requires Get(fields, key) == Some(value)
    ensures Set(fields, key, value) == fields
  {
    if fields != [] && fields[0].key != key {
      SetExisting(fields[1..], key, value);
    }
  }

  lemma CoerceFieldKeepsNormal(fields: seq<Field>, key: string)
    requires StringListAt(fields, key)
    ensures CoerceField(fields, key) == fields
  {
    match Get(fields, key)
    case Some(Array(xs)) =>
      NormalizeListKeepsStrings(xs);
      SetExisting(fields, key, Array(xs));
    case _ =>
  }

  /** Coercing fields that are already string lists changes nothing. */
  lemma {:induction false} CoerceFieldsKeepsNormal(fields: seq<Field>, keys: seq<string>)
    requires Distinct(keys)
    requires ListsAreStrings(fields, keys)
    ensures CoerceFields(fields, keys) == fields
    decreases |keys|
  {
    if keys != [] {
      assert keys[0] in keys;
      CoerceFieldKeepsNormal(fields, keys[0]);
      assert forall j :: j in keys[1..] ==> j in keys;
      CoerceFieldsKeepsNormal(fields, keys[1..]);
    }
  }

  lemma CoercedIsStrings(fields: seq<Field>, keys: seq<string>)
    requires Distinct(keys)
    ensures ListsAreStrings(CoerceFields(fields, keys), keys)
  {
    var r := CoerceFields(fields, keys);
    forall k | k in keys
      ensures StringListAt(r, k)
    {
      assert Get(r, k) == Coerced(Get(fields, k));
    }
  }

  // ---------------------------------------------------------------------
  // feedback_by_category

  /** One category: a dictionary has its three lists coerced; any other
      value is left alone. */
  function NormalizeCategory(v: Json): Json {
    match v
    case Object(feedback) => Object(CoerceFields(feedback, CategoryListFields))
    case _ => v
  }

  /** Each category in turn, in place. */
  function NormalizeCategories(categories: seq<Field>): (r: seq<Field>)
    ensures |r| == |categories|
    ensures forall i :: 0 <= i < |categories| ==>
      r[i] == Field(categories[i].key, NormalizeCategory(categories[i].value))
  {
    seq(|categories|, i requires 0 <= i < |categories| =>
      Field(categories[i].key, NormalizeCategory(categories[i].value)))
  }

  /** Every category, whatever its name, keeps its key and position; a
      dictionary-valued one keeps its own keys, gets its three lists
      coerced and nothing else; any other value is untouched. */
  lemma NormalizeCategoriesCoerces(categories: seq<Field>, i: nat)
    requires i < |categories|
    ensures var r := NormalizeCategories(categories);
            Keys(r) == Keys(categories)
    ensures var before, after := categories[i].value, NormalizeCategories(categories)[i].value;
            && (!before.Object? ==> after == before)
            && (before.Object? ==>
                  && after.Object?
                  && Keys(after.fields) == Keys(before.fields)
                  && (forall k :: k in CategoryListFields ==> Get(after.fields, k) == Coerced(Get(before.fields, k)))
                  && (forall k :: k !in CategoryListFields ==> Get(after.fields, k) == Get(before.fields, k)))
  {
    var r := NormalizeCategories(categories);
    assert Keys(r) == Keys(categories);
    ListFieldsDistinct();
  }

  predicate CategoryIsNormal(v: Json) {
    v.Object? ==> ListsAreStrings(v.fields, CategoryListFields)
  }

  lemma NormalizeCategoriesKeepsNormal(categories: seq<Field>)
    requires forall i :: 0 <= i < |categories| ==> CategoryIsNormal(categories[i].value)
    ensures NormalizeCategories(categories) == categories
  {
    var r := NormalizeCategories(categories);
    forall i | 0 <= i < |categories|
      ensures r[i] == categories[i]
    {
      if categories[i].value.Object? {
        CoerceFieldsKeepsNormal(categories[i].value.fields, CategoryListFields);
      }
    }
  }

  /** The value `feedback_by_category` has after its step: a dictionary
      has every category normalised, any other value is left alone. */
  function CategoriesAfter(v: Option<Json>): Option<Json> {
    match v
    case Some(Object(categories)) => Some(Object(NormalizeCategories(categories)))
    case _ => v
  }

  /** The `feedback_by_category` step on the whole report: only that key
      can change, and only when it holds a dictionary. */
  function NormalizeFeedback(fields: seq<Field>): (r: seq<Field>)
    ensures forall k :: k != "feedback_by_category" ==> Get(r, k) == Get(fields, k)
    ensures Get(r, "feedback_by_category") == CategoriesAfter(Get(fields, "feedback_by_category"))
  {
    match Get(fields, "feedback_by_category")
    case Some(Object(categories)) =>
      Set(fields, "feedback_by_category", Object(NormalizeCategories(categories)))
    case _ => fields
  }

  // ---------------------------------------------------------------------
  // scores -> subscores, and the total

  /** `scores` is renamed to `subscores` only when `subscores` is absent;
      the renamed key moves to the end, as `pop` then assignment does. */
  function RenameScores(fields: seq<Field>): (r: seq<Field>)
    ensures HasKey(r, "subscores") <==> HasKey(fields, "subscores") || HasKey(fields, "scores")
    ensures HasKey(fields, "subscores") || !HasKey(fields, "scores") ==> r == fields
    ensures !HasKey(fields, "subscores") && HasKey(fields, "scores") ==>
      && Get(r, "subscores") == Get(fields, "scores") && !HasKey(r, "scores")
      && Keys(r) == Keys(Remove(fields, "scores")) + ["subscores"]
      && r[|r| - 1] == Field("subscores", Get(fields, "scores").value)
    ensures forall k :: k != "scores" && k != "subscores" ==> Get(r, k) == Get(fields, k)
  {
    if HasKey(fields, "scores") && !HasKey(fields, "subscores") then
      Set(Remove(fields, "scores"), "subscores", Get(fields, "scores").value)
    else fields
  }

  /** A missing `subscores` becomes `{}`; a present one is kept. */
  function EnsureSubscores(fields: seq<Field>): (r: seq<Field>)
    ensures HasKey(r, "subscores")
    ensures HasKey(fields, "subscores") ==> r == fields
    ensures !HasKey(fields, "subscores") ==> Get(r, "subscores") == Some(Object([]))
    ensures forall k :: k != "subscores" ==> Get(r, k) == Get(fields, k)
  {
    if !HasKey(fields, "subscores") then Set(fields, "subscores", Object([])) else fields
  }

  /** What `sum` can add: numbers, and booleans as 0 and 1. */
  function AsInt(v: Json): Option<int> {
    match v
    case Number(n) => Some(n)
    case Bool(b) => Some(if b then 1 else 0)
    case _ => None
  }

  /** `subscores.get(key, 0)` is absent or addable. */
  predicate Addable(subscores: seq<Field>, key: string) {
    Get(subscores, key).None? || AsInt(Get(subscores, key).value).Some?
  }

  /** The contribution of one category to the total; a missing key counts
      as 0. */
  function ScoreOf(subscores: seq<Field>, key: string): int {
    match Get(subscores, key)
    case None => 0
    case Some(v) => AsInt(v).GetOr(0)
  }

  /** `sum(subscores.get(key, 0) for key in keys)`, failing on the first
      value it cannot add. */
  function SumScores(subscores: seq<Field>, keys: seq<string>): (r: Result<int, Fault>)
    ensures r.Success? <==> forall k :: k in keys ==> Addable(subscores, k)
  {
    if keys == [] then Success(0)
    else if !Addable(subscores, keys[0]) then Failure(NotANumber(keys[0]))
    else
      var rest := SumScores(subscores, keys[1..]);
      assert forall k :: k in keys ==> k == keys[0] || k in keys[1..];
      if rest.Failure? then rest else Success(ScoreOf(subscores, keys[0]) + rest.value)
  }

  /** `calculated == data.get("overall_score", 0)` as Python compares an
      integer with a JSON value: `True == 1`, and text never equals a
      number. */
  predicate ReportedEquals(reported: Option<Json>, total: int) {
    match reported
    case None => total == 0
    case Some(Number(n)) => n == total
    case Some(Bool(b)) => (if b then 1 else 0) == total
    case _ => false
  }

  /** The sum of the five categories, written out. */
  function FiveSum(subscores: seq<Field>): int {
    ScoreOf(subscores, "structure") + ScoreOf(subscores, "technical_depth")
    + ScoreOf(subscores, "impact") + ScoreOf(subscores, "clarity") + ScoreOf(subscores, "ats")
  }

  /** Every one of the five categories is absent or addable. */
  predicate AllAddable(subscores: seq<Field>) {
    && Addable(subscores, "structure") && Addable(subscores, "technical_depth")
    && Addable(subscores, "impact") && Addable(subscores, "clarity") && Addable(subscores, "ats")
  }

  /** The generator over the five fixed keys adds up to their written-out
      sum, and fails exactly when one of them cannot be added. */
  lemma SumOfScoreKeys(subscores: seq<Field>)
    ensures SumScores(subscores, ScoreKeys).Success? <==> AllAddable(subscores)
    ensures SumScores(subscores, ScoreKeys).Success? ==> SumScores(subscores, ScoreKeys).value == FiveSum(subscores)
  {
    var s5 := SumScores(subscores, ["ats"]);
    assert ["ats"][1..] == [];
    assert SumScores(subscores, []) == Success(0);
    assert s5.Success? ==> s5.value == ScoreOf(subscores, "ats");
    var s4 := SumScores(subscores, ["clarity", "ats"]);
    assert ["clarity", "ats"][1..] == ["ats"];
    assert s4.Success? ==> s4.value == ScoreOf(subscores, "clarity") + s5.value;
    var s3 := SumScores(subscores, ["impact", "clarity", "ats"]);
    assert ["impact", "clarity", "ats"][1..] == ["clarity", "ats"];
    assert s3.Success? ==> s3.value == ScoreOf(subscores, "impact") + s4.value;
    var s2 := SumScores(subscores, ["technical_depth", "impact", "clarity", "ats"]);
    assert ["technical_depth", "impact", "clarity", "ats"][1..] == ["impact", "clarity", "ats"];
    assert s2.Success? ==> s2.value == ScoreOf(subscores, "technical_depth") + s3.value;
    assert ScoreKeys[1..] == ["technical_depth", "impact", "clarity", "ats"];
  }

  /** The reconciliation fails exactly when `subscores` is truthy and is
      not a dictionary, or holds a value `sum` cannot add. */
  predicate ReconcileFails(fields: seq<Field>) {
    match Get(fields, "subscores")
    case Some(sub) => Truthy(sub) && (!sub.Object? || !AllAddable(sub.fields))
    case None => false
  }

  /** `subscores` is present and truthy. */
  predicate HasScores(fields: seq<Field>) {
    Get(fields, "subscores").Some? && Truthy(Get(fields, "subscores").value)
  }

  /** The total step: when `subscores` is truthy, `overall_score` is
      recomputed; whatever happens, no other key changes. */
  function ReconcileOverall(fields: seq<Field>): (r: Result<seq<Field>, Fault>)
    ensures r.Success? ==> forall k :: k != "overall_score" ==> Get(r.value, k) == Get(fields, k)
  {
    var sub := Get(fields, "subscores").GetOr(Null);
    if !Truthy(sub) then Success(fields)
    else if !sub.Object? then Failure(SubscoresNotAnObject)
    else
      var total := SumScores(sub.fields, ScoreKeys);
      if total.Failure? then Failure(total.error)
      else if ReportedEquals(Get(fields, "overall_score"), total.value) then Success(fields)
      else Success(Set(fields, "overall_score", Number(total.value)))
  }

  /** When `subscores` is truthy, `overall_score` is made to agree with the
      sum of the five categories (missing ones count as 0, extra keys are
      ignored), and it is rewritten only on a mismatch; the step fails
      exactly when `subscores` is not a dictionary or holds a value `sum`
      cannot add. A falsy `subscores` leaves the report alone. */
  lemma ReconcileOverallAgrees(fields: seq<Field>)
    ensures ReconcileOverall(fields).Failure? <==> ReconcileFails(fields)
    ensures var r := ReconcileOverall(fields);
            r.Success? && HasScores(fields) ==>
              ReportedEquals(Get(r.value, "overall_score"), FiveSum(Get(fields, "subscores").value.fields))
    ensures var r := ReconcileOverall(fields);
            r.Success? && !HasScores(fields) ==> r.value == fields
    ensures var r := ReconcileOverall(fields);
            r.Success? && HasScores(fields)
            && ReportedEquals(Get(fields, "overall_score"), FiveSum(Get(fields, "subscores").value.fields)) ==>
              r.value == fields
  {
    var sub := Get(fields, "subscores").GetOr(Null);
    if Truthy(sub) && sub.Object? {
      SumOfScoreKeys(sub.fields);
    }
  }

  // ---------------------------------------------------------------------
  // The whole block

  /** Keys the normalisation may touch; every other key keeps its value. */
  predicate Touched(key: string) {
    key == "scores" || key == "subscores" || key == "overall_score"
    || key == "feedback_by_category" || key in ListFields
  }

  lemma ListFieldsDistinct()
    ensures Distinct(ListFields) && Distinct(CategoryListFields)
  {
  }

  /** The keys the steps write differ from one another, so each step's
      write is invisible to the others' lookups. Established once here,
      each by one differing character, so that later proofs need not
      compare the literals themselves. */
  lemma ReportKeysDiffer()
    ensures "subscores" !in ListFields && "overall_score" !in ListFields
    ensures "feedback_by_category" !in ListFields
    ensures "subscores" != "feedback_by_category" && "overall_score" != "feedback_by_category"
    ensures "subscores" != "overall_score" && "feedback_by_category" != "scores"
    ensures "overall_score" != "scores" && "scores" !in ListFields
  {
    assert "subscores"[1] != "strengths"[1];
    assert "scores"[1] != "strengths"[1];
    assert "overall_score"[0] != "improved_bullets"[0];
    assert "feedback_by_category"[0] != "improved_bullets"[0];
  }

  /** The report after the two `subscores` guards. */
  function Named(fields: seq<Field>): (r: seq<Field>)
    ensures HasKey(r, "subscores")
    ensures forall k :: k != "scores" && k != "subscores" ==> Get(r, k) == Get(fields, k)
  {
    EnsureSubscores(RenameScores(fields))
  }

  /** The `subscores` a reply ends up with: its own, else its `scores`,
      else an empty dictionary. */
  function ReplySubscores(fields: seq<Field>): Json {
    if HasKey(fields, "subscores") then Get(fields, "subscores").value
    else if HasKey(fields, "scores") then Get(fields, "scores").value
    else Object([])
  }

  /** Whether the reply's `scores` is renamed. */
  predicate Renames(fields: seq<Field>) {
    HasKey(fields, "scores") && !HasKey(fields, "subscores")
  }

  lemma NamedSubscores(fields: seq<Field>)
    ensures Get(Named(fields), "subscores") == Some(ReplySubscores(fields))
  {
  }

  lemma NamedScores(fields: seq<Field>)
    ensures Get(Named(fields), "scores") == if Renames(fields) then None else Get(fields, "scores")
  {
    ReportKeysDiffer();
  }

  lemma NamedAt(fields: seq<Field>, key: string)
    requires key != "scores" && key != "subscores"
    ensures Get(Named(fields), key) == Get(fields, key)
  {
  }

  lemma ReconcileAt(fields: seq<Field>, key: string)
    requires ReconcileOverall(fields).Success? && key != "overall_score"
    ensures Get(ReconcileOverall(fields).value, key) == Get(fields, key)
  {
  }

  /** The steps after the total: the category lists, then the top-level
      lists. Each named key is coerced, `feedback_by_category` is
      normalised, and nothing else changes. */
  function Finish(scored: seq<Field>): (r: seq<Field>)
    ensures forall k :: k in ListFields ==> Get(r, k) == Coerced(Get(scored, k))
    ensures Get(r, "feedback_by_category") == CategoriesAfter(Get(scored, "feedback_by_category"))
    ensures forall k :: k !in ListFields && k != "feedback_by_category" ==> Get(r, k) == Get(scored, k)
  {
    ListFieldsDistinct();
    FinishCoerces(scored);
    FinishNormalizesCategories(scored);
    FinishKeepsOthers(scored);
    CoerceFields(NormalizeFeedback(scored), ListFields)
  }

  lemma FinishCoerces(scored: seq<Field>)
    requires Distinct(ListFields)
    ensures var r := CoerceFields(NormalizeFeedback(scored), ListFields);
            forall k :: k in ListFields ==> Get(r, k) == Coerced(Get(scored, k))
  {
    ReportKeysDiffer();
  }

  lemma FinishNormalizesCategories(scored: seq<Field>)
    requires Distinct(ListFields)
    ensures var r := CoerceFields(NormalizeFeedback(scored), ListFields);
            Get(r, "feedback_by_category") == CategoriesAfter(Get(scored, "feedback_by_category"))
  {
    ReportKeysDiffer();
    CoerceFieldsAt(NormalizeFeedback(scored), ListFields, "feedback_by_category");
  }

  lemma FinishKeepsOthers(scored: seq<Field>)
    requires Distinct(ListFields)
    ensures var r := CoerceFields(NormalizeFeedback(scored), ListFields);
            forall k :: k !in ListFields && k != "feedback_by_category" ==> Get(r, k) == Get(scored, k)
  {
  }

  lemma CoerceFieldsAt(fields: seq<Field>, keys: seq<string>, key: string)
    requires Distinct(keys) && key !in keys
    ensures Get(CoerceFields(fields, keys), key) == Get(fields, key)
  {
  }

  lemma FinishListAt(scored: seq<Field>, key: string)
    requires key in ListFields
    ensures Get(Finish(scored), key) == Coerced(Get(scored, key))
  {
  }

  lemma FinishAt(scored: seq<Field>, key: string)
    requires key !in ListFields && key != "feedback_by_category"
    ensures Get(Finish(scored), key) == Get(scored, key)
  {
  }

  /** Everything from `if "scores" in data` to `return data`: the result is
      a dictionary with `subscores`, unless the data was not a dictionary
      or the total could not be computed. */
  function Normalize(data: Json): (r: Result<Json, Fault>)
    ensures r.Success? ==> r.value.Object? && HasKey(r.value.fields, "subscores")
    ensures !data.Object? ==> r == Failure(NotAnObject)
  {
    if !data.Object? then Failure(NotAnObject)
    else
      var named := Named(data.fields);
      match ReconcileOverall(named)
      case Failure(fault) => Failure(fault)
      case Success(scored) =>
        ReportKeysDiffer();
        ReconcileAt(named, "subscores");
        FinishAt(scored, "subscores");
        Success(Object(Finish(scored)))
  }

  /** The normalisation of a dictionary fails exactly when the total
      cannot be computed. */
  lemma NormalizeFailsExactly(data: Json)
    requires data.Object?
    ensures Normalize(data).Failure? <==> ReconcileFails(Named(data.fields))
  {
    ReconcileOverallAgrees(Named(data.fields));
  }

  /** Keys outside the ones the normalisation names come back with the
      value they had. */
  lemma NormalizeKeepsOtherKeys(data: Json, key: string)
    requires data.Object? && Normalize(data).Success?
    requires !Touched(key)
    ensures Get(Normalize(data).value.fields, key) == Get(data.fields, key)
  {
    var named := Named(data.fields);
    var scored := ReconcileOverall(named).value;
    assert Get(scored, key) == Get(named, key);
  }

  /** Each top-level feedback list that is a list comes back coerced: same
      length, same order, strings only; a non-list value is left alone. */
  lemma NormalizeCoercesLists(data: Json, key: string)
    requires data.Object? && Normalize(data).Success?
    requires key in ListFields
    ensures Get(Normalize(data).value.fields, key) == Coerced(Get(data.fields, key))
  {
    ReportKeysDiffer();
    var named := Named(data.fields);
    var scored := ReconcileOverall(named).value;
    NamedAt(data.fields, key);
    ReconcileAt(named, key);
    FinishListAt(scored, key);
  }

  /** `feedback_by_category`, when a dictionary, has every category
      normalised; any other value is left alone. */
  lemma NormalizeCoercesCategories(data: Json)
    requires data.Object? && Normalize(data).Success?
    ensures Get(Normalize(data).value.fields, "feedback_by_category") ==
            CategoriesAfter(Get(data.fields, "feedback_by_category"))
  {
    ReportKeysDiffer();
    var named := Named(data.fields);
    var scored := ReconcileOverall(named).value;
    ReconcileAt(named, "feedback_by_category");
    NamedAt(data.fields, "feedback_by_category");
  }

  /** The returned `subscores` is the reply's own, else its renamed
      `scores`, else `{}`. */
  lemma NormalizeSubscores(data: Json)
    requires data.Object? && Normalize(data).Success?
    ensures Get(Normalize(data).value.fields, "subscores") == Some(ReplySubscores(data.fields))
  {
    ReportKeysDiffer();
    var named := Named(data.fields);
    NamedSubscores(data.fields);
    ReconcileAt(named, "subscores");
    FinishAt(ReconcileOverall(named).value, "subscores");
  }

  /** `scores` is gone after a rename and kept as it was otherwise. */
  lemma NormalizeScores(data: Json)
    requires data.Object? && Normalize(data).Success?
    ensures Get(Normalize(data).value.fields, "scores") ==
            if Renames(data.fields) then None else Get(data.fields, "scores")
  {
    ReportKeysDiffer();
    var named := Named(data.fields);
    NamedScores(data.fields);
    ReconcileAt(named, "scores");
    FinishAt(ReconcileOverall(named).value, "scores");
  }

  /** With truthy `subscores` (the reply's own, or its renamed `scores`),
      the returned `overall_score` agrees with the sum of the five
      categories as Python compares them; with falsy `subscores` it is
      whatever the model reported (or absent). */
  lemma NormalizeReconcilesTotal(data: Json)
    requires data.Object? && Normalize(data).Success?
    ensures var out := Normalize(data).value.fields;
            var sub := ReplySubscores(data.fields);
            && (Truthy(sub) ==> sub.Object? && ReportedEquals(Get(out, "overall_score"), FiveSum(sub.fields)))
            && (!Truthy(sub) ==> Get(out, "overall_score") == Get(data.fields, "overall_score"))
  {
    NormalizeSubscores(data);
    ReportKeysDiffer();
    var named := Named(data.fields);
    ReconcileOverallAgrees(named);
    var scored := ReconcileOverall(named).value;
    ReconcileAt(named, "subscores");
    FinishAt(scored, "subscores");
    FinishAt(scored, "overall_score");
    NamedAt(data.fields, "overall_score");
  }

  /** Normalising the categories twice is normalising them once. */
  lemma NormalizeCategoriesIdempotent(categories: seq<Field>)
    ensures NormalizeCategories(NormalizeCategories(categories)) == NormalizeCategories(categories)
  {
    var normal := NormalizeCategories(categories);
    forall i | 0 <= i < |normal|
      ensures CategoryIsNormal(normal[i].value)
    {
      if categories[i].value.Object? {
        CoercedIsStrings(categories[i].value.fields, CategoryListFields);
      }
    }
    NormalizeCategoriesKeepsNormal(normal);
  }

  /** A coerced list field holds only strings. */
  lemma CoercedIsStringList(v: Option<Json>)
    ensures match Coerced(v)
            case Some(Array(xs)) => AllStrings(xs)
            case _ => true
  {
  }

  /** A report in normal form: it has `subscores`, the total can be
      computed and agrees with the reported one, the categories are
      normalised, and every list field holds only strings. */
  predicate IsNormalReport(fields: seq<Field>) {
    && HasKey(fields, "subscores")
    && !ReconcileFails(fields)
    && (HasScores(fields) ==>
          ReportedEquals(Get(fields, "overall_score"), FiveSum(Get(fields, "subscores").value.fields)))
    && CategoriesAfter(Get(fields, "feedback_by_category")) == Get(fields, "feedback_by_category")
    && ListsAreStrings(fields, ListFields)
  }

  /** A report in normal form is returned as it came. */
  lemma NormalReportIsFixed(fields: seq<Field>)
    requires IsNormalReport(fields)
    ensures Normalize(Object(fields)) == Success(Object(fields))
  {
    ListFieldsDistinct();
    assert Named(fields) == fields;
    ReconcileOverallAgrees(fields);
    assert ReconcileOverall(fields) == Success(fields);
    assert NormalizeFeedback(fields) == fields by {
      match Get(fields, "feedback_by_category")
      case Some(Object(categories)) =>
        SetExisting(fields, "feedback_by_category", Object(NormalizeCategories(categories)));
      case _ =>
    }
    CoerceFieldsKeepsNormal(fields, ListFields);
    assert Finish(fields) == fields;
  }

  /** The lists the last step writes hold only strings. */
  lemma FinishListsAreStrings(scored: seq<Field>)
    ensures ListsAreStrings(Finish(scored), ListFields)
  {
    forall k | k in ListFields
      ensures StringListAt(Finish(scored), k)
    {
      CoercedIsStringList(Get(scored, k));
    }
  }

  /** The categories the last step writes are normalised already. */
  lemma FinishCategoriesAreNormal(scored: seq<Field>)
    ensures var v := Get(Finish(scored), "feedback_by_category");
            CategoriesAfter(v) == v
  {
    match Get(scored, "feedback_by_category")
    case Some(Object(categories)) =>
      NormalizeCategoriesIdempotent(categories);
    case _ =>
  }

  /** Everything the normalisation returns is in normal form. */
  lemma NormalizeGivesNormalReport(data: Json)
    requires Normalize(data).Success?
    ensures IsNormalReport(Normalize(data).value.fields)
  {
    ReportKeysDiffer();
    var named := Named(data.fields);
    ReconcileOverallAgrees(named);
    var scored := ReconcileOverall(named).value;
    ReconcileAt(named, "subscores");
    FinishAt(scored, "subscores");
    FinishAt(scored, "overall_score");
    FinishCategoriesAreNormal(scored);
    FinishListsAreStrings(scored);
  }

  /** Normalising a normalised report changes nothing. */
  lemma NormalizeIdempotent(data: Json)
    requires Normalize(data).Success?
    ensures Normalize(Normalize(data).value) == Normalize(data)
  {
    NormalizeGivesNormalReport(data);
    NormalReportIsFixed(Normalize(data).value.fields);
  }

  // ---------------------------------------------------------------------
  // Fallback report and the route's envelope

  /** The category maxima as `main.py` defines them. The backend imports
      its own `SCORE_SCALE` from `app.utils.scoring`, which is not part of
      this model. */
  const ScoreScale: seq<Field> := [
    Field("structure", Number(20)),
    Field("technical_depth", Number(25)),
    Field("impact", Number(25)),
    Field("clarity", Number(15)),
    Field("ats", Number(15))
  ]

  /** The category maxima add up to the 100 points the overall score is
      out of. */
  lemma ScoreScaleTotals100()
    ensures SumScores(ScoreScale, ScoreKeys) == Success(100)
  {
    SumOfScoreKeys(ScoreScale);
    assert ScoreOf(ScoreScale, "structure") == 20;
    assert ScoreOf(ScoreScale, "technical_depth") == 25;
    assert ScoreOf(ScoreScale, "impact") == 25;
    assert ScoreOf(ScoreScale, "clarity") == 15;
    assert ScoreOf(ScoreScale, "ats") == 15;
  }

  /** The report returned when the model call, the parse or the
      normalisation raises; `message` is the exception's text. */
  function Fallback(message: string): Json {
    Object([
      Field("overall_score", Number(0)),
      Field("subscores", Object([])),
      Field("score_scale", Object(ScoreScale)),
      Field("summary", String("AI failed to produce valid JSON")),
      Field("strengths", Array([])),
      Field("issues", Array([String("AI engine returned malformed output")])),
      Field("recommendations", Array([
        String("Try again"), String("Reduce resume length"), String("Simplify formatting")])),
      Field("reasoning", String(message)),
      Field("raw_error", String(message))
    ])
  }

  /** The fallback has a zero score, no subscores, the fixed scale, and
      the exception's text as its reasoning; it has no category
      feedback. */
  lemma FallbackShape(message: string)
    ensures var fields := Fallback(message).fields;
            && Get(fields, "overall_score") == Some(Number(0))
            && Get(fields, "subscores") == Some(Object([]))
            && Get(fields, "score_scale") == Some(Object(ScoreScale))
            && Get(fields, "reasoning") == Some(String(message))
            && Get(fields, "feedback_by_category") == None
  {
    var fields := Fallback(message).fields;
    GetAt(fields, "overall_score", 0);
    GetAt(fields, "subscores", 1);
    GetAt(fields, "score_scale", 2);
    GetAt(fields, "reasoning", 7);
    GetAbsent(fields, "feedback_by_category");
  }

  /** The fallback's feedback lists: no strengths, the fixed issue, the
      three fixed recommendations. */
  lemma FallbackLists(message: string)
    ensures var fields := Fallback(message).fields;
            && Get(fields, "strengths") == Some(Array([]))
            && Get(fields, "issues") == Some(Array([String("AI engine returned malformed output")]))
            && Get(fields, "recommendations") ==
                 Some(Array([String("Try again"), String("Reduce resume length"), String("Simplify formatting")]))
  {
    FallbackStrengths(message);
    FallbackIssues(message);
    FallbackRecommendations(message);
  }

  lemma FallbackStrengths(message: string)
    ensures Get(Fallback(message).fields, "strengths") == Some(Array([]))
  {
    GetAtBy(Fallback(message).fields, "strengths", 4, 1);
  }

  lemma FallbackIssues(message: string)
    ensures Get(Fallback(message).fields, "issues") == Some(Array([String("AI engine returned malformed output")]))
  {
    GetAtBy(Fallback(message).fields, "issues", 5, 0);
  }

  lemma FallbackRecommendations(message: string)
    ensures Get(Fallback(message).fields, "recommendations") ==
              Some(Array([String("Try again"), String("Reduce resume length"), String("Simplify formatting")]))
  {
    GetAtBy(Fallback(message).fields, "recommendations", 6, 0);
  }

  /** The fallback has no bullet lists. */
  lemma FallbackHasNoBullets(message: string)
    ensures var fields := Fallback(message).fields;
            Get(fields, "bad_bullets") == None && Get(fields, "improved_bullets") == None
  {
    FallbackHasNoBadBullets(message);
    FallbackHasNoImprovedBullets(message);
  }

  lemma FallbackHasNoBadBullets(message: string)
    ensures Get(Fallback(message).fields, "bad_bullets") == None
  {
    GetAbsentBy(Fallback(message).fields, "bad_bullets", 0);
  }

  lemma FallbackHasNoImprovedBullets(message: string)
    ensures Get(Fallback(message).fields, "improved_bullets") == None
  {
    GetAbsentBy(Fallback(message).fields, "improved_bullets", 1);
  }

  /** Every list field of the fallback already holds only strings. */
  lemma FallbackListsAreStrings(message: string)
    ensures ListsAreStrings(Fallback(message).fields, ListFields)
  {
    FallbackLists(message);
    FallbackHasNoBullets(message);
    ListsAreStringsAt(Fallback(message).fields, ListFields);
  }


  /** The fallback is already in normal form: normalising it changes
      nothing. */
  lemma FallbackIsNormal(message: string)
    ensures Normalize(Fallback(message)) == Success(Fallback(message))
  {
    FallbackShape(message);
    FallbackListsAreStrings(message);
    NormalReportIsFixed(Fallback(message).fields);
  }

  /** Placeholder text for the exception a fault raises; Python's own
      wording is not reproduced. */
  function Describe(fault: Fault): string {
    match fault
    case NotAnObject => "parsed reply is not a dictionary"
    case SubscoresNotAnObject => "subscores has no attribute 'get'"
    case NotANumber(key) => "unsupported operand type for +: subscore " + key
  }

  /** `ai_resume_analysis` after the model has replied: `parsed` is the
      outcome of `json.loads` on the repaired text (or the text of whatever
      raised before it). The result always carries `subscores`. */
  function Analyze(parsed: Result<Json, string>): (r: Json)
    ensures r.Object? && HasKey(r.fields, "subscores")
    ensures parsed.Success? && Normalize(parsed.value).Success? ==> r == Normalize(parsed.value).value
    ensures parsed.Failure? ==> r == Fallback(parsed.error)
    ensures parsed.Success? && Normalize(parsed.value).Failure? ==>
              r == Fallback(Describe(Normalize(parsed.value).error))
  {
    match parsed
    case Failure(message) => Fallback(message)
    case Success(data) =>
      match Normalize(data)
      case Success(report) => report
      case Failure(fault) => Fallback(Describe(fault))
  }

  /** Whatever path the analysis takes, its result is a report in normal
      form: normalising it once more returns it unchanged. */
  lemma AnalyzeIsNormal(parsed: Result<Json, string>)
    ensures Normalize(Analyze(parsed)) == Success(Analyze(parsed))
  {
    match parsed
    case Failure(message) =>
      FallbackIsNormal(message);
    case Success(data) =>
      match Normalize(data)
      case Success(report) =>
        NormalizeIdempotent(data);
      case Failure(fault) =>
        FallbackIsNormal(Describe(fault));
  }

  /** The upload route's response around the analysis; it re-adds
      `subscores` should the analysis lack it. */
  function Envelope(pages: int, ai: Json, rawText: string): Json {
    var feedback := if ai.Object? && !HasKey(ai.fields, "subscores")
                    then Object(Set(ai.fields, "subscores", Object([]))) else ai;
    Object([
      Field("status", String("success")),
      Field("pages_detected", Number(pages)),
      Field("ai_feedback", feedback),
      Field("raw_text", String(rawText))
    ])
  }

  /** The route's extra `subscores` guard never fires: the analysis is
      passed through untouched. */
  lemma EnvelopeKeepsAnalysis(pages: int, parsed: Result<Json, string>, rawText: string)
    ensures Get(Envelope(pages, Analyze(parsed), rawText).fields, "ai_feedback") == Some(Analyze(parsed))
  {
    EnvelopePassesThrough(pages, Analyze(parsed), rawText);
  }

  /** An analysis that has `subscores` is placed in the response as it is. */
  lemma EnvelopePassesThrough(pages: int, ai: Json, rawText: string)
    requires ai.Object? && HasKey(ai.fields, "subscores")
    ensures Get(Envelope(pages, ai, rawText).fields, "ai_feedback") == Some(ai)
  {
    GetAt(Envelope(pages, ai, rawText).fields, "ai_feedback", 2);
  }
}
