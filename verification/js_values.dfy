/** The JavaScript values that arrive in a parsed JSON request body, and
    the truthiness test the route handlers apply to them. */
module JsValues {

  import Options

  /** A field of a parsed request body. JSON numbers are restricted to
      integers; `Composite` stands for any object or array. */
  datatype JsValue =
    | Undefined
    | Null
    | Bool(b: bool)
    | Num(n: int)
    | Str(s: string)
    | Composite

  /** JavaScript truthiness: `undefined`, `null`, `false`, `0` and `""` are
      falsy; every object and array is truthy. */
  predicate Truthy(v: JsValue)
  {
    match v
    case Undefined => false
    case Null => false
    case Bool(b) => b
    case Num(n) => n != 0
    case Str(s) => s != ""
    case Composite => true
  }

  /** A parsed request body. `request.json()` either throws (`NotJson`),
      yields `null` (destructuring it throws), or yields a value whose named
      properties can be read; arrays, numbers and strings have none of the
      keys the handlers read and behave as an object with no fields. */
  datatype RequestBody =
    | NotJson
    | JsonNull
    | JsonObject(fields: map<string, JsValue>)

  /** Reading a property in a destructuring pattern: a missing key is
      `undefined`. */
  function Field(fields: map<string, JsValue>, key: string): (v: JsValue)
    ensures key !in fields ==> v == Undefined
    ensures key in fields ==> v == fields[key]
  {
    if key in fields then fields[key] else Undefined
  }

  /** The string a value holds, or `None` when the ORM would refuse it as
      the value of a string column. */
  function AsString(v: JsValue): (r: Options.Option<string>)
    ensures r.Some? <==> v.Str?
    ensures r.Some? ==> r.value == v.s
  {
    if v.Str? then Options.Some(v.s) else Options.None
  }

  /** A truthy string value is a non-empty string. */
  lemma TruthyString(v: JsValue)
    requires v.Str?
    ensures Truthy(v) <==> |v.s| > 0
  {
  }
}
