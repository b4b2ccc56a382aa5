/**
 * User documents as the route handlers see them: a parsed JSON request body and a stored
 * record are both a map from field name to JSON value.
 */
module Documents {
  import opened Wrappers

  /** A store-assigned identifier, as the string a route receives in `:id`. */
  type Id = string

  /** The kinds of JavaScript number that matter here: `typeof v === "number"` holds for all three. */
  datatype Number = Finite(value: real) | Infinite(negative: bool) | NaN

  datatype Json =
    | JNull
    | JBool(b: bool)
    | JNumber(n: Number)
    | JString(s: string)
    | JArray(items: seq<Json>)
    | JObject(fields: map<string, Json>)

  type Doc = map<string, Json>

  const EmailField := "email"
  const PasswordField := "password"

  /** `doc[key]`, with `None` for a field the document does not have (`undefined`). */
  function Field(doc: Doc, key: string): (r: Option<Json>)
    ensures r.Some? <==> key in doc
    ensures r.Some? ==> r.value == doc[key]
  {
    if key in doc then Some(doc[key]) else None
  }

  /**
   * Whether the filter `{ email: value }` selects `doc`. Equality on the field, where a null
   * filter value also selects documents that lack the field.
   */
  predicate Matches(doc: Doc, value: Json)
    ensures value != JNull ==> (Matches(doc, value) <==> Field(doc, EmailField) == Some(value))
    ensures value == JNull ==> (Matches(doc, value) <==> Field(doc, EmailField) in {None, Some(JNull)})
  {
    if value == JNull then EmailField !in doc || doc[EmailField] == JNull
    else EmailField in doc && doc[EmailField] == value
  }

  /** The value a destructured `const { email } = body` puts into a filter: null when absent. */
  function FilterValue(body: Doc, key: string): (r: Json)
    ensures key in body ==> r == body[key]
    ensures key !in body ==> r == JNull
  {
    if key in body then body[key] else JNull
  }

  /** `{ a, b, ... }` built from `body`: exactly the named fields the body has, with its values. */
  function Pick(body: Doc, keys: set<string>): (r: Doc)
    ensures r.Keys == body.Keys * keys
    ensures forall k :: k in r ==> r[k] == body[k]
  {
    map k | k in body && k in keys :: body[k]
  }
}
