/**
 * TYPE_VALIDATORS: the table of type predicates that the `type` and
 * `disallow` keywords look names up in.
 */
module TypeValidators {
  import opened Wrappers
  import opened JsonInstance

  /** The names the table registers; any other name has no predicate. */
  const TypeNames: seq<string> := ["string", "number", "integer", "boolean", "object", "array", "null", "any"]

  predicate Registered(name: string) {
    name in TypeNames
  }

  /** A number with no fractional part (the source inspects the number's decimal text instead). */
  predicate IsIntegral(x: real) {
    x.Floor as real == x
  }

  /** The name getType() reports for a tag. */
  function TagName(t: TypeTag): string {
    match t
    case TString => "string"
    case TNumber => "number"
    case TBoolean => "boolean"
    case TObject => "object"
    case TArray => "array"
    case TNull => "null"
    case TUndefined => "undefined"
  }

  /** TYPE_VALIDATORS[name](instance). */
  function TypeHolds(name: string, v: Instance): (r: bool)
    requires Registered(name)
    ensures name == "any" ==> r
    ensures name == "integer" ==> (r <==> TypeOf(v) == TNumber && IsIntegral(v.json.n))
    ensures name != "any" && name != "integer" ==> (r <==> TagName(TypeOf(v)) == name)
  {
    if name == "string" then TypeOf(v) == TString
    else if name == "number" then TypeOf(v) == TNumber
    else if name == "integer" then TypeOf(v) == TNumber && IsIntegral(v.json.n)
    else if name == "boolean" then TypeOf(v) == TBoolean
    else if name == "object" then TypeOf(v) == TObject
    else if name == "array" then TypeOf(v) == TArray
    else if name == "null" then TypeOf(v) == TNull
    else true
  }

  /**
   * The property name JavaScript looks up when a JSON value indexes the table:
   * a string is itself, `null` and booleans print as words, and a one-element
   * array prints as its element (a `null` element as ""). None stands for the
   * texts that can never be a registered name: numbers, "[object Object]" and
   * comma-joined arrays of two or more elements.
   */
  function KeyName(j: Json): (r: Option<string>)
    ensures j.JString? ==> r == Some(j.s)
    ensures j.JNumber? || j.JObject? ==> r.None?
  {
    match j
    case JString(s) => Some(s)
    case JNull => Some("null")
    case JBool(b) => Some(if b then "true" else "false")
    case JNumber(_) => None
    case JObject(_) => None
    case JArray(xs) =>
      if |xs| == 0 then Some("")
      else if |xs| == 1 then (if xs[0].JNull? then Some("") else KeyName(xs[0]))
      else None
  }

  /** A value with its one-element array wrappers removed: `[["x"]]` and `["x"]` become `"x"`. */
  function Unwrapped(j: Json): Json {
    match j
    case JArray(xs) => if |xs| == 1 then Unwrapped(xs[0]) else j
    case _ => j
  }

  /**
   * A registered name is looked up only for the string of that name, however
   * deeply wrapped in one-element arrays, or for a bare `null` under "null";
   * no boolean, number, object, empty or longer array, and no wrapped `null`,
   * reaches a predicate.
   */
  lemma {:induction false} KeyNameRegistered(j: Json, n: string)
    requires Registered(n)
    ensures KeyName(j) == Some(n) <==> Unwrapped(j) == JString(n) || (j == JNull && n == "null")
    decreases j
  {
    match j
    case JArray(xs) =>
      if |xs| == 1 {
        KeyNameRegistered(xs[0], n);
      }
    case _ =>
  }
}
