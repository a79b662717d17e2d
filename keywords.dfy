/**
 * What each keyword's `validator` appends to the report, and what the
 * meta-schema's dispatching validator appends in all, as functions of the
 * instance, the schema and the parent. The imperative validators in module
 * Validator are proved to append exactly these sequences.
 */
module Keywords {
  import opened Wrappers
  import opened JsonInstance
  import opened TypeValidators
  import opened Schemas
  import opened Sequences

  /** The keyword-specific detail value of an error. */
  datatype Detail =
    | TypesDetail(types: seq<TypeAlt>)       // `type`: the list of required types
    | DisallowedDetail(names: seq<Json>)     // `disallow`: the list of disallowed types
    | NotAllowed                             // the literal false (`optional`, `additionalProperties`)
    | Bound(bound: real)                     // the violated bound or divisor
    | SiblingName(name: string)              // `requires`: the missing sibling
    | IndexPair(x: nat, y: nat)              // `uniqueItems`: the positions of two equal items
    | PatternSource(source: string)          // `pattern`: the expression the string failed
    | PatternError(source: string)           // `pattern`: the expression that did not compile
    | EnumValues(values: seq<Json>)          // `enum`: the permitted values
    | FormatName(format: string)             // `format`: the name of the format

  /** report.addError(instance, schema, keyword, message, detail), less the message text. */
  datatype Error = Error(instance: Instance, schema: Schema, keyword: string, detail: Detail)

  /** The keywords whose keyword-schema carries a `validator`. */
  datatype Keyword =
    | KType | KProperties | KItems | KOptional | KAdditionalProperties | KRequires
    | KMinimum | KMaximum | KMinItems | KMaxItems | KUniqueItems | KPattern
    | KMinLength | KMaxLength | KEnum | KFormat | KDivisibleBy | KDisallow | KExtends

  /** The names declared in the meta-schema's `properties`. */
  const DeclaredKeywords: set<string> := {
    "type", "properties", "items", "optional", "additionalProperties", "requires",
    "minimum", "maximum", "minimumCanEqual", "maximumCanEqual", "minItems", "maxItems",
    "uniqueItems", "pattern", "minLength", "maxLength", "enum", "title", "description",
    "format", "contentEncoding", "default", "divisibleBy", "disallow", "extends"}

  /** The names whose keyword-schema says `validationRequired`. */
  const ValidationRequired: seq<string> := ["optional"]

  /**
   * The validator declared for a keyword name. Names the meta-schema does not
   * declare, and declared names without a validator (title, default, ...), have none.
   */
  function ValidatorOf(name: string): (r: Option<Keyword>)
    ensures r.Some? ==> name in DeclaredKeywords
    ensures name in ValidationRequired ==> r.Some?
  {
    if name == "type" then Some(KType)
    else if name == "properties" then Some(KProperties)
    else if name == "items" then Some(KItems)
    else if name == "optional" then Some(KOptional)
    else if name == "additionalProperties" then Some(KAdditionalProperties)
    else if name == "requires" then Some(KRequires)
    else if name == "minimum" then Some(KMinimum)
    else if name == "maximum" then Some(KMaximum)
    else if name == "minItems" then Some(KMinItems)
    else if name == "maxItems" then Some(KMaxItems)
    else if name == "uniqueItems" then Some(KUniqueItems)
    else if name == "pattern" then Some(KPattern)
    else if name == "minLength" then Some(KMinLength)
    else if name == "maxLength" then Some(KMaxLength)
    else if name == "enum" then Some(KEnum)
    else if name == "format" then Some(KFormat)
    else if name == "divisibleBy" then Some(KDivisibleBy)
    else if name == "disallow" then Some(KDisallow)
    else if name == "extends" then Some(KExtends)
    else None
  }

  /** JSV.pushUnique: append `x` unless it is already there. */
  function PushUnique(names: seq<string>, x: string): (r: seq<string>)
    ensures x in r && forall y :: y in names ==> y in r
    ensures forall y :: y in r ==> y in names || y == x
    ensures x in names ==> r == names
  {
    if x in names then names else names + [x]
  }

  /** The names the dispatcher runs: the document's keys, then every validationRequired name not among them. */
  function Dispatched(names: seq<string>): seq<string> {
    PushUnique(names, "optional")
  }

  /** The errors validating `v` against `s` appends (the meta-schema's `validator`). */
  function Errors(v: Instance, s: Schema, parent: Option<Instance>, host: Host): seq<Error>
    decreases s, 4
  {
    RunNames(v, s, parent, host, Dispatched(s.names))
  }

  /** The dispatch loop over a list of names: what each name's validator appends, in order. */
  function RunNames(v: Instance, s: Schema, parent: Option<Instance>, host: Host, names: seq<string>): seq<Error>
    decreases s, 3, |names|
  {
    if |names| == 0 then []
    else RunNames(v, s, parent, host, names[..|names| - 1]) + NameErrors(v, s, parent, host, names[|names| - 1])
  }

  /** The validator a name selects, or nothing for a name without one. */
  function NameErrors(v: Instance, s: Schema, parent: Option<Instance>, host: Host, name: string): seq<Error>
    decreases s, 2
  {
    match ValidatorOf(name)
    case None => []
    case Some(k) => KeywordErrors(k, v, s, parent, host)
  }

  /** The errors one keyword's validator appends. */
  function KeywordErrors(k: Keyword, v: Instance, s: Schema, parent: Option<Instance>, host: Host): seq<Error>
    decreases s, 1
  {
    match k
    case KType => TypeErrors(v, s, parent, host)
    case KProperties => PropertiesErrors(v, s, host)
    case KItems => ItemsErrors(v, s, host)
    case KOptional => OptionalErrors(v, s)
    case KAdditionalProperties => AdditionalErrors(v, s, host)
    case KRequires => RequiresErrors(v, s, parent, host)
    case KMinimum => MinimumErrors(v, s)
    case KMaximum => MaximumErrors(v, s)
    case KMinItems => MinItemsErrors(v, s)
    case KMaxItems => MaxItemsErrors(v, s)
    case KUniqueItems => UniqueErrors(v, s)
    case KPattern => PatternErrors(v, s, host)
    case KMinLength => MinLengthErrors(v, s)
    case KMaxLength => MaxLengthErrors(v, s)
    case KEnum => EnumErrors(v, s)
    case KFormat => FormatErrors(v, s, host)
    case KDivisibleBy => DivisibleByErrors(v, s)
    case KDisallow => DisallowErrors(v, s)
    case KExtends => ExtendsErrors(v, s, parent, host)
  }

  // ---------------------------------------------------------------- type

  /**
   * The name a type alternative is looked up under. A nested array prints as
   * its single element, or as "" when empty; a schema prints as
   * "[object Object]" and a longer array with commas, neither of which is a
   * registered name (None).
   */
  function AltName(a: TypeAlt): Option<string> {
    match a
    case TypeName(n) => Some(n)
    case TypeSchema(_) => None
    case TypeList(xs) =>
      if |xs| == 0 then Some("")
      else if |xs| == 1 then AltName(xs[0])
      else None
  }

  /** A non-schema alternative accepts when its name has no predicate, or its predicate holds. */
  predicate NameAccepts(a: TypeAlt, v: Instance) {
    match AltName(a)
    case None => true
    case Some(n) => !Registered(n) || TypeHolds(n, v)
  }

  function TypeErrors(v: Instance, s: Schema, parent: Option<Instance>, host: Host): seq<Error>
    decreases s, 0
  {
    if v.Undefined? || |s.types| == 0 then []
    else if TypeAccepted(v, s, parent, host, 0) then []
    else [Error(v, s, "type", TypesDetail(s.types))]
  }

  /** One alternative of `type` accepts `v`: a schema one when it reports nothing, a name by its predicate. */
  predicate AltAccepts(a: TypeAlt, v: Instance, parent: Option<Instance>, host: Host)
    decreases a
  {
    match a
    case TypeSchema(sub) => Errors(v, sub, parent, host) == []
    case _ => NameAccepts(a, v)
  }

  /** Some alternative from position `i` on accepts `v`. */
  predicate TypeAccepted(v: Instance, s: Schema, parent: Option<Instance>, host: Host, i: nat)
    decreases s, 0, |s.types| - i
  {
    if i >= |s.types| then false
    else AltAccepts(s.types[i], v, parent, host) || TypeAccepted(v, s, parent, host, i + 1)
  }

  // ---------------------------------------------------------------- disallow

  /** A disallowed entry matches when a predicate is registered under its name and holds. */
  predicate DisallowMatches(d: Json, v: Instance) {
    match KeyName(d)
    case None => false
    case Some(n) => Registered(n) && TypeHolds(n, v)
  }

  function DisallowErrors(v: Instance, s: Schema): seq<Error> {
    if v.Undefined? || |s.disallowed| == 0 then []
    else if DisallowFrom(v, s.disallowed, 0) then [Error(v, s, "disallow", DisallowedDetail(s.disallowed))]
    else []
  }

  predicate DisallowFrom(v: Instance, ds: seq<Json>, i: nat)
    decreases |ds| - i
  {
    i < |ds| && (DisallowMatches(ds[i], v) || DisallowFrom(v, ds, i + 1))
  }

  // ---------------------------------------------------------------- properties

  function PropertiesErrors(v: Instance, s: Schema, host: Host): seq<Error>
    decreases s, 0
  {
    if TypeOf(v) == TObject then PropertiesFrom(v, s, host, 0) else []
  }

  /** Each declared property's value (possibly undefined) validated against its schema, the object as parent. */
  function PropertiesFrom(v: Instance, s: Schema, host: Host, i: nat): seq<Error>
    decreases s, 0, |s.properties| - i
  {
    if i >= |s.properties| then []
    else
      var p := s.properties[i];
      Errors(GetProperty(v, p.name), p.schema, Some(v), host) + PropertiesFrom(v, s, host, i + 1)
  }

  // ---------------------------------------------------------------- items

  function ItemsErrors(v: Instance, s: Schema, host: Host): seq<Error>
    decreases s, 0
  {
    if TypeOf(v) == TArray then ItemsFrom(v, s, host, 0) else []
  }

  /** Element `i` onwards, each against the schema `items` gives it. */
  function ItemsFrom(v: Instance, s: Schema, host: Host, i: nat): seq<Error>
    requires TypeOf(v) == TArray
    decreases s, 0, |v.json.elems| - i
  {
    if i >= |v.json.elems| then []
    else ElementErrors(v, s, host, i) + ItemsFrom(v, s, host, i + 1)
  }

  /** Element `i`: against `items[i]`, else `additionalProperties`; or against the one `items` schema. */
  function ElementErrors(v: Instance, s: Schema, host: Host, i: nat): seq<Error>
    requires TypeOf(v) == TArray && i < |v.json.elems|
    decreases s, 0, 0, 1
  {
    var e := v.json.elems[i];
    match s.items
    case ItemsTuple(ts) =>
      if i < |ts| then Errors(Value(e), ts[i], Some(v), host)
      else ElementFallback(v, s, e, host)
    case ItemsSchema(one) => Errors(Value(e), one, Some(v), host)
    case ItemsAny => EmptySchemaErrors(Value(e))
  }

  /** An element past the end of an `items` tuple: `additionalProperties` applies to it. */
  function ElementFallback(v: Instance, s: Schema, e: Json, host: Host): seq<Error>
    decreases s, 0, 0, 0
  {
    match s.additional
    case AdditionalSchema(a) => Errors(Value(e), a, Some(v), host)
    case AdditionalFalse => [Error(v, s, "additionalProperties", NotAllowed)]
    case AdditionalAny => EmptySchemaErrors(Value(e))
  }

  // ---------------------------------------------------------------- additionalProperties

  /** The names `properties` declares. */
  function DeclaredNames(s: Schema): (r: seq<string>)
    ensures |r| == |s.properties|
    ensures forall i :: 0 <= i < |r| ==> r[i] == s.properties[i].name
  {
    seq(|s.properties|, i requires 0 <= i < |s.properties| => s.properties[i].name)
  }

  function AdditionalErrors(v: Instance, s: Schema, host: Host): seq<Error>
    decreases s, 0
  {
    if TypeOf(v) == TObject then AdditionalFrom(v, s, host, 0) else []
  }

  /** Each own member whose key `properties` does not declare, against `additionalProperties`. */
  function AdditionalFrom(v: Instance, s: Schema, host: Host, i: nat): seq<Error>
    requires TypeOf(v) == TObject
    decreases s, 0, |v.json.members| - i
  {
    var ms := v.json.members;
    if i >= |ms| then []
    else
      var here :=
        if ms[i].key in DeclaredNames(s) then []
        else match s.additional
          case AdditionalSchema(a) => Errors(Value(ms[i].value), a, Some(v), host)
          case AdditionalFalse => [Error(v, s, "additionalProperties", NotAllowed)]
          case AdditionalAny => EmptySchemaErrors(Value(ms[i].value));
      here + AdditionalFrom(v, s, host, i + 1)
  }

  // ---------------------------------------------------------------- optional, requires

  /**
   * What validating against createEmptySchema() appends: the empty schema has
   * no keys, so its dispatch runs only the validationRequired `optional` check.
   */
  function EmptySchemaErrors(v: Instance): seq<Error> {
    OptionalErrors(v, EmptySchema)
  }

  function OptionalErrors(v: Instance, s: Schema): seq<Error> {
    if v.Undefined? && !s.optional then [Error(v, s, "optional", NotAllowed)] else []
  }

  /** A defined instance with a defined parent: the sibling must exist, or the parent must satisfy the schema. */
  function RequiresErrors(v: Instance, s: Schema, parent: Option<Instance>, host: Host): seq<Error>
    decreases s, 0
  {
    if v.Undefined? || parent.None? || parent.value.Undefined? then []
    else
      match s.requirement
      case None => []
      case Some(RequiresSibling(n)) =>
        if GetProperty(parent.value, n).Undefined? then [Error(v, s, "requires", SiblingName(n))] else []
      case Some(RequiresSchema(r)) => Errors(parent.value, r, None, host)
  }

  // ---------------------------------------------------------------- numbers

  function MinimumErrors(v: Instance, s: Schema): seq<Error> {
    if TypeOf(v) == TNumber && s.minimum.Some?
      && (v.json.n < s.minimum.value || (!s.minimumCanEqual && v.json.n == s.minimum.value))
    then [Error(v, s, "minimum", Bound(s.minimum.value))]
    else []
  }

  function MaximumErrors(v: Instance, s: Schema): seq<Error> {
    if TypeOf(v) == TNumber && s.maximum.Some?
      && (v.json.n > s.maximum.value || (!s.maximumCanEqual && v.json.n == s.maximum.value))
    then [Error(v, s, "maximum", Bound(s.maximum.value))]
    else []
  }

  /** Divisor 0 always fails; divisor 1 always passes; otherwise the quotient must be whole. */
  function DivisibleByErrors(v: Instance, s: Schema): seq<Error> {
    if TypeOf(v) != TNumber then []
    else if s.divisibleBy == 0.0 then [Error(v, s, "divisibleBy", Bound(0.0))]
    else if s.divisibleBy != 1.0 && !IsIntegral(v.json.n / s.divisibleBy) then [Error(v, s, "divisibleBy", Bound(s.divisibleBy))]
    else []
  }

  // ---------------------------------------------------------------- arrays

  function MinItemsErrors(v: Instance, s: Schema): seq<Error> {
    if TypeOf(v) == TArray && (|v.json.elems| as real) < s.minItems
    then [Error(v, s, "minItems", Bound(s.minItems))]
    else []
  }

  function MaxItemsErrors(v: Instance, s: Schema): seq<Error> {
    if TypeOf(v) == TArray && s.maxItems.Some? && (|v.json.elems| as real) > s.maxItems.value
    then [Error(v, s, "maxItems", Bound(s.maxItems.value))]
    else []
  }

  function UniqueErrors(v: Instance, s: Schema): seq<Error> {
    if TypeOf(v) == TArray && s.uniqueItems then PairsFrom(v, s, 0) else []
  }

  /** Rows x, x+1, ... of the pairwise scan: for each x < n - 1, the pairs (x, y) with y > x. */
  function PairsFrom(v: Instance, s: Schema, x: nat): seq<Error>
    requires TypeOf(v) == TArray
    decreases |v.json.elems| - x
  {
    if x + 1 >= |v.json.elems| then [] else RowFrom(v, s, x, x + 1) + PairsFrom(v, s, x + 1)
  }

  /** One error for each y from `y` on whose element equals element x. */
  function RowFrom(v: Instance, s: Schema, x: nat, y: nat): seq<Error>
    requires TypeOf(v) == TArray && x < |v.json.elems|
    decreases |v.json.elems| - y
  {
    var es := v.json.elems;
    if y >= |es| then []
    else
      (if Equal(es[x], es[y]) then [Error(v, s, "uniqueItems", IndexPair(x, y))] else [])
      + RowFrom(v, s, x, y + 1)
  }

  // ---------------------------------------------------------------- strings

  /** A pattern that did not compile is reported whatever the instance; a compiled one is tested on strings. */
  function PatternErrors(v: Instance, s: Schema, host: Host): seq<Error> {
    match s.pattern
    case None => []
    case Some(InvalidRegex(src)) => [Error(v, s, "pattern", PatternError(src))]
    case Some(Regex(src)) =>
      if TypeOf(v) == TString && !host.matches(src, v.json.s)
      then [Error(v, s, "pattern", PatternSource(src))]
      else []
  }

  function MinLengthErrors(v: Instance, s: Schema): seq<Error> {
    if TypeOf(v) == TString && (|v.json.s| as real) < s.minLength
    then [Error(v, s, "minLength", Bound(s.minLength))]
    else []
  }

  function MaxLengthErrors(v: Instance, s: Schema): seq<Error> {
    if TypeOf(v) == TString && s.maxLength.Some? && (|v.json.s| as real) > s.maxLength.value
    then [Error(v, s, "maxLength", Bound(s.maxLength.value))]
    else []
  }

  /** A string whose format has a registered validator must pass it; unknown formats are not checked. */
  function FormatErrors(v: Instance, s: Schema, host: Host): seq<Error> {
    if TypeOf(v) == TString && s.format.Some? && s.format.value in host.formats
      && !host.formats[s.format.value](v.json.s)
    then [Error(v, s, "format", FormatName(s.format.value))]
    else []
  }

  // ---------------------------------------------------------------- enum

  function EnumErrors(v: Instance, s: Schema): seq<Error> {
    match s.enumValues
    case None => []
    case Some(vals) => if EnumFrom(v, vals, 0) then [] else [Error(v, s, "enum", EnumValues(vals))]
  }

  /** Some listed value from position `i` on equals the instance. */
  predicate EnumFrom(v: Instance, vals: seq<Json>, i: nat)
    decreases |vals| - i
  {
    i < |vals| && ((v.Value? && Equal(v.json, vals[i])) || EnumFrom(v, vals, i + 1))
  }

  // ---------------------------------------------------------------- extends

  /** The same instance and parent validated against each extension in turn. */
  function ExtendsErrors(v: Instance, s: Schema, parent: Option<Instance>, host: Host): seq<Error>
    decreases s, 0
  {
    match s.extensions
    case None => []
    case Some(ExtendsSchema(e)) => Errors(v, e, parent, host)
    case Some(ExtendsList(es)) => ExtendsFrom(v, s, parent, host, 0)
  }

  function ExtendsFrom(v: Instance, s: Schema, parent: Option<Instance>, host: Host, i: nat): seq<Error>
    requires s.extensions.Some? && s.extensions.value.ExtendsList?
    decreases s, 0, |s.extensions.value.schemas| - i
  {
    var es := s.extensions.value.schemas;
    if i >= |es| then [] else Errors(v, es[i], parent, host) + ExtendsFrom(v, s, parent, host, i + 1)
  }
}
