/** Parsed JSON values as the backend sees them after `json.loads`, with
    the few pieces of Python's object model the normalisation relies on:
    dictionaries keep insertion order, `dict.get`, assignment to a key,
    `dict.pop`, truthiness, and `str()`. */
module Json {
  import opened Wrappers

  /** Numbers are integers; floating-point values are not modelled. */
  datatype Json =
    | Null
    | Bool(b: bool)
    | Number(n: int)
    | String(s: string)
    | Array(items: seq<Json>)
    | Object(fields: seq<Field>)

  /** One key/value pair of an object, in insertion order. */
  datatype Field = Field(key: string, value: Json)

  function Keys(fields: seq<Field>): (r: seq<string>)
    ensures |r| == |fields|
    ensures forall i :: 0 <= i < |fields| ==> r[i] == fields[i].key
  {
    seq(|fields|, i requires 0 <= i < |fields| => fields[i].key)
  }

  /** `d.get(key)`: the value of the first field with that key. */
  function Get(fields: seq<Field>, key: string): Option<Json> {
    if fields == [] then None
    else if fields[0].key == key then Some(fields[0].value)
    else Get(fields[1..], key)
  }

  /** A key no field carries is not found. */
  lemma {:induction false} GetAbsent(fields: seq<Field>, key: string)
    requires forall i :: 0 <= i < |fields| ==> fields[i].key != key
    ensures Get(fields, key) == None
  {
    if fields != [] {
      GetAbsent(fields[1..], key);
    }
  }

  /** The lookup finds the first field carrying the key. */
  lemma {:induction false} GetAt(fields: seq<Field>, key: string, i: nat)
    requires i < |fields| && fields[i].key == key
    requires forall j :: 0 <= j < i ==> fields[j].key != key
    ensures Get(fields, key) == Some(fields[i].value)
  {
    if i > 0 {
      GetAt(fields[1..], key, i - 1);
    }
  }

  /** The same, when the character at position `c` of the key tells it
      apart from every earlier key. Comparing one character is much cheaper
      for the verifier than comparing whole string literals. */
  lemma GetAtBy(fields: seq<Field>, key: string, i: nat, c: nat)
    requires i < |fields| && fields[i].key == key && c < |key|
    requires forall j :: 0 <= j < i ==> |fields[j].key| <= c || fields[j].key[c] != key[c]
    ensures Get(fields, key) == Some(fields[i].value)
  {
    GetAt(fields, key, i);
  }

  /** A key that differs at position `c` from every key present is not
      found (again a one-character comparison in place of whole strings). */
  lemma GetAbsentBy(fields: seq<Field>, key: string, c: nat)
    requires c < |key|
    requires forall j :: 0 <= j < |fields| ==> |fields[j].key| <= c || fields[j].key[c] != key[c]
    ensures Get(fields, key) == None
  {
    GetAbsent(fields, key);
  }

  /** No key occurs twice, as in every dictionary Python builds. */
  predicate UniqueKeys(fields: seq<Field>) {
    forall i, j :: 0 <= i < j < |fields| ==> fields[i].key != fields[j].key
  }

  /** With unique keys, looking up a field's key finds that field. */
  lemma GetUnique(fields: seq<Field>, i: nat)
    requires UniqueKeys(fields) && i < |fields|
    ensures Get(fields, fields[i].key) == Some(fields[i].value)
  {
    GetAt(fields, fields[i].key, i);
  }

  /** `key in d`. */
  predicate HasKey(fields: seq<Field>, key: string) {
    Get(fields, key).Some?
  }

  /** `d[key] = value`: an existing key keeps its position and takes the
      new value; a new key is appended at the end. */
  function Set(fields: seq<Field>, key: string, value: Json): (r: seq<Field>)
    ensures Get(r, key) == Some(value)
    ensures forall k :: k != key ==> Get(r, k) == Get(fields, k)
    ensures HasKey(fields, key) ==> Keys(r) == Keys(fields)
    ensures !HasKey(fields, key) ==> Keys(r) == Keys(fields) + [key]
    ensures !HasKey(fields, key) ==> r == fields + [Field(key, value)]
  {
    if fields == [] then [Field(key, value)]
    else if fields[0].key == key then [Field(key, value)] + fields[1..]
    else [fields[0]] + Set(fields[1..], key, value)
  }

  /** `d.pop(key)`, leaving the value aside: the key is gone and nothing
      else changes. */
  function Remove(fields: seq<Field>, key: string): (r: seq<Field>)
    ensures !HasKey(r, key)
    ensures forall k :: k != key ==> Get(r, k) == Get(fields, k)
  {
    if fields == [] then []
    else if fields[0].key == key then Remove(fields[1..], key)
    else [fields[0]] + Remove(fields[1..], key)
  }

  /** Python's truth value: `None`, `False`, `0`, `""`, `[]` and `{}` are
      false. */
  predicate Truthy(v: Json) {
    match v
    case Null => false
    case Bool(b) => b
    case Number(n) => n != 0
    case String(s) => |s| > 0
    case Array(items) => |items| > 0
    case Object(fields) => |fields| > 0
  }

  function Digits(n: nat): (r: string)
    ensures |r| > 0
  {
    var d := ['0', '1', '2', '3', '4', '5', '6', '7', '8', '9'][n % 10];
    if n < 10 then [d] else Digits(n / 10) + [d]
  }

  function Decimal(n: int): (r: string)
    ensures |r| > 0
  {
    if n < 0 then "-" + Digits(-n) else Digits(n)
  }

  /** Different natural numbers have different decimal texts. */
  lemma {:induction false} DigitsInjective(a: nat, b: nat)
    requires Digits(a) == Digits(b)
    ensures a == b
  {
    var da, db := Digits(a), Digits(b);
    assert da[|da| - 1] == ['0', '1', '2', '3', '4', '5', '6', '7', '8', '9'][a % 10];
    assert db[|db| - 1] == ['0', '1', '2', '3', '4', '5', '6', '7', '8', '9'][b % 10];
    assert a % 10 == b % 10;
    if a >= 10 && b >= 10 {
      assert Digits(a / 10) == da[..|da| - 1];
      assert Digits(b / 10) == db[..|db| - 1];
      DigitsInjective(a / 10, b / 10);
    } else if a >= 10 || b >= 10 {
      assert false;
    }
  }

  function Join(parts: seq<string>, separator: string): string {
    if parts == [] then ""
    else if |parts| == 1 then parts[0]
    else parts[0] + separator + Join(parts[1..], separator)
  }

  /** `repr(v)` as it appears inside `str()` of a container. Strings are
      shown between single quotes; Python's choice of quote character and
      its escaping of special characters are not modelled. */
  function Repr(v: Json): (r: string)
    ensures |r| > 0
    ensures v.Object? ==> r[0] == '{' && r[|r| - 1] == '}'
    ensures v.Array? ==> r[0] == '[' && r[|r| - 1] == ']'
    decreases v
  {
    match v
    case Null => "None"
    case Bool(b) => if b then "True" else "False"
    case Number(n) => Decimal(n)
    case String(s) => "'" + s + "'"
    case Array(items) =>
      "[" + Join(seq(|items|, i requires 0 <= i < |items| => Repr(items[i])), ", ") + "]"
    case Object(fields) =>
      "{" + Join(seq(|fields|, i requires 0 <= i < |fields| =>
                       "'" + fields[i].key + "': " + Repr(fields[i].value)), ", ") + "}"
  }

  /** `str(v)`: a string is itself, anything else is its `repr`. The text
      of a dictionary is never empty. */
  function PyStr(v: Json): (r: string)
    ensures v.String? ==> r == v.s
    ensures !v.String? ==> |r| > 0
    ensures v.Object? ==> r[0] == '{'
  {
    if v.String? then v.s else Repr(v)
  }
}
