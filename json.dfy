/**
 * JSON values as both halves of the service see them: the AI service decodes
 * the model's reply with `json.loads` and compares values with Python's `==`;
 * the page receives the same values through `response.json()` and compares
 * them with JavaScript's `===`.
 */
module Json {

  /** A decoded JSON value. Numbers are kept as exact reals: `1` and `1.0` are the same number on both sides. */
  datatype Json =
    | JNull
    | JBool(boolean: bool)
    | JNum(number: real)
    | JStr(text: string)
    | JArr(items: seq<Json>)
    | JObj(fields: map<string, Json>)

  /** The number a Python `bool` stands for when it is compared with a number (`True == 1`). */
  function BoolAsNumber(b: bool): real
  {
    if b then 1.0 else 0.0
  }

  /**
   * Python's `==` on decoded JSON: `bool` is a subclass of `int`, so `True == 1`
   * and `False == 0.0`; lists compare element by element and dicts key by key.
   */
  predicate PyEquals(a: Json, b: Json)
    decreases a
  {
    match a
    case JNull => b.JNull?
    case JBool(x) => (b.JBool? && b.boolean == x) || (b.JNum? && b.number == BoolAsNumber(x))
    case JNum(x) => (b.JNum? && b.number == x) || (b.JBool? && x == BoolAsNumber(b.boolean))
    case JStr(s) => b.JStr? && b.text == s
    case JArr(xs) =>
      b.JArr? && |xs| == |b.items| && forall i :: 0 <= i < |xs| ==> PyEquals(xs[i], b.items[i])
    case JObj(m) =>
      b.JObj? && m.Keys == b.fields.Keys && forall k :: k in m ==> PyEquals(m[k], b.fields[k])
  }

  /** Python's `x in items` on a list: some element is `==` to `x`. */
  predicate PyIn(x: Json, items: seq<Json>)
  {
    exists i :: 0 <= i < |items| && PyEquals(x, items[i])
  }

  /**
   * JavaScript's `===` on values produced by `JSON.parse`: primitives compare by
   * value, and two arrays or objects are equal only when they are the same
   * object, which two separately parsed values never are.
   */
  predicate StrictEquals(a: Json, b: Json)
  {
    match a
    case JNull => b.JNull?
    case JBool(x) => b.JBool? && b.boolean == x
    case JNum(x) => b.JNum? && b.number == x
    case JStr(s) => b.JStr? && b.text == s
    case JArr(_) => false
    case JObj(_) => false
  }

  /** Whatever `===` equates, Python's `==` equates too; the converse fails for `True` against `1` and for lists and dicts. */
  lemma StrictImpliesPyEquals(a: Json, b: Json)
    requires StrictEquals(a, b)
    ensures PyEquals(a, b)
  {
  }

  /** On strings the two equalities agree: both mean the other value is the same string. */
  lemma StringEqualitiesAgree(s: string, b: Json)
    ensures PyEquals(JStr(s), b) <==> b == JStr(s)
    ensures StrictEquals(JStr(s), b) <==> b == JStr(s)
  {
  }
}
