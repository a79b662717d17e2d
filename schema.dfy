/**
 * The compiled form of a schema document: one typed attribute per keyword of
 * the draft-02 meta-schema, produced by that keyword's `parser`.
 */
module Schemas {
  import opened Wrappers
  import opened JsonInstance

  /**
   * Collaborators outside the keyword table: the regular-expression engine
   * and the pluggable table of format validators (formatValidators).
   */
  datatype Host = Host(
    compiles: string -> bool,             // `new RegExp(source)` does not throw
    matches: (string, string) -> bool,    // `new RegExp(source).test(subject)`
    formats: map<string, string -> bool>)  // formatValidators, by format name

  /** One alternative of a `type` list: a type name, a nested schema, or a nested array. */
  datatype TypeAlt =
    | TypeName(name: string)
    | TypeSchema(schema: Schema)
    | TypeList(alts: seq<TypeAlt>)

  /** One entry of the `properties` attribute. */
  datatype Property = Property(name: string, schema: Schema)

  /** `items`: one schema for every element, a tuple of schemas, or the empty schema `{}`. */
  datatype Items = ItemsSchema(schema: Schema) | ItemsTuple(schemas: seq<Schema>) | ItemsAny

  /** `additionalProperties`: a schema, the literal `false`, or the empty schema `{}`. */
  datatype Additional = AdditionalSchema(schema: Schema) | AdditionalFalse | AdditionalAny

  /** `requires`: the name of a sibling property, or a schema for the parent. */
  datatype Requirement = RequiresSibling(name: string) | RequiresSchema(schema: Schema)

  /** `pattern`: a compiled regular expression, or the error its compilation raised. */
  datatype Pattern = Regex(source: string) | InvalidRegex(source: string)

  /** `extends`: one schema or an array of schemas. */
  datatype Extension = ExtendsSchema(schema: Schema) | ExtendsList(schemas: seq<Schema>)

  /**
   * A compiled schema. `names` are the keys of the schema document in order
   * (getPropertyNames); every other field is the attribute of one keyword.
   * `types` and `disallowed` are held in their array form (JSV.toArray).
   */
  datatype Schema = Schema(
    names: seq<string>,
    types: seq<TypeAlt>,
    properties: seq<Property>,
    items: Items,
    optional: bool,
    additional: Additional,
    requirement: Option<Requirement>,
    minimum: Option<real>,
    maximum: Option<real>,
    minimumCanEqual: bool,
    maximumCanEqual: bool,
    minItems: real,
    maxItems: Option<real>,
    uniqueItems: bool,
    pattern: Option<Pattern>,
    minLength: real,
    maxLength: Option<real>,
    enumValues: Option<seq<Json>>,
    format: Option<string>,
    divisibleBy: real,
    disallowed: seq<Json>,
    extensions: Option<Extension>)

  /** createEmptySchema(): the schema of `{}`, every attribute at its parser's default. */
  const EmptySchema: Schema := Schema(
    [], [TypeName("any")], [], ItemsAny, false, AdditionalAny, None, None, None, true, true,
    0.0, None, false, None, 0.0, None, None, None, 1.0, [], None)

  /**
   * The meta-schema's own parser: every keyword's attribute is its parser
   * applied to the document's member of that name, which is `undefined`
   * when the keyword is absent (so the parsers' fallbacks are the defaults).
   */
  function Compile(doc: Json, host: Host): (r: Schema)
    ensures doc.JObject? ==> r.names == Keys(doc.members)
    ensures !doc.JObject? ==> r == EmptySchema
    decreases doc, 1
  {
    Schema(
      if doc.JObject? then Keys(doc.members) else [],
      ParseType(Field(doc, "type"), host, doc),
      ParseProperties(Field(doc, "properties"), host, doc),
      ParseItems(Field(doc, "items"), host, doc),
      Truthy(Field(doc, "optional")),
      ParseAdditional(Field(doc, "additionalProperties"), host, doc),
      ParseRequires(Field(doc, "requires"), host, doc),
      ParseNumber(Field(doc, "minimum")),
      ParseNumber(Field(doc, "maximum")),
      ParseCanEqual(Field(doc, "minimumCanEqual")),
      ParseCanEqual(Field(doc, "maximumCanEqual")),
      ParseNumberOr(Field(doc, "minItems"), 0.0),
      ParseNumber(Field(doc, "maxItems")),
      Truthy(Field(doc, "uniqueItems")),
      ParsePattern(Field(doc, "pattern"), host),
      ParseNumberOr(Field(doc, "minLength"), 0.0),
      ParseNumber(Field(doc, "maxLength")),
      ParseEnum(Field(doc, "enum")),
      ParseFormat(Field(doc, "format")),
      ParseNumberOr(Field(doc, "divisibleBy"), 1.0),
      ParseDisallow(Field(doc, "disallow")),
      ParseExtends(Field(doc, "extends"), host, doc))
  }

  /** `type` parser, already in array form: a name, a schema, a mapped array, else "any". */
  function ParseType(p: Instance, host: Host, ghost within: Json): seq<TypeAlt>
    requires p.Value? ==> p.json < within
    decreases within, 0
  {
    match p
    case Value(JString(s)) => [TypeName(s)]
    case Value(JObject(_)) => [TypeSchema(Compile(p.json, host))]
    case Value(JArray(es)) => seq(|es|, i requires 0 <= i < |es| => ParseTypeAlt(es[i], host, within))
    case _ => [TypeName("any")]
  }

  /** The `type` parser applied to one element of a type array. */
  function ParseTypeAlt(j: Json, host: Host, ghost within: Json): TypeAlt
    requires j < within
    decreases within, 0, j
  {
    match j
    case JString(s) => TypeName(s)
    case JObject(_) => TypeSchema(Compile(j, host))
    case JArray(xs) => TypeList(seq(|xs|, i requires 0 <= i < |xs| => ParseTypeAlt(xs[i], host, within)))
    case _ => TypeName("any")
  }

  /** `properties` parser: each member's value compiled as a schema; `{}` for non-objects. */
  function ParseProperties(p: Instance, host: Host, ghost within: Json): seq<Property>
    requires p.Value? ==> p.json < within
    decreases within, 0
  {
    match p
    case Value(JObject(ms)) =>
      seq(|ms|, i requires 0 <= i < |ms| => Property(ms[i].key, Compile(ms[i].value, host)))
    case _ => []
  }

  /** `items` parser: a schema, an array of schemas, else the empty schema. */
  function ParseItems(p: Instance, host: Host, ghost within: Json): Items
    requires p.Value? ==> p.json < within
    decreases within, 0
  {
    match p
    case Value(JObject(_)) => ItemsSchema(Compile(p.json, host))
    case Value(JArray(es)) => ItemsTuple(seq(|es|, i requires 0 <= i < |es| => Compile(es[i], host)))
    case _ => ItemsAny
  }

  /** `additionalProperties` parser: a schema, the literal false, else the empty schema. */
  function ParseAdditional(p: Instance, host: Host, ghost within: Json): Additional
    requires p.Value? ==> p.json < within
    decreases within, 0
  {
    match p
    case Value(JObject(_)) => AdditionalSchema(Compile(p.json, host))
    case Value(JBool(false)) => AdditionalFalse
    case _ => AdditionalAny
  }

  /** `requires` parser: a sibling name, a schema, else undefined. */
  function ParseRequires(p: Instance, host: Host, ghost within: Json): Option<Requirement>
    requires p.Value? ==> p.json < within
    decreases within, 0
  {
    match p
    case Value(JString(s)) => Some(RequiresSibling(s))
    case Value(JObject(_)) => Some(RequiresSchema(Compile(p.json, host)))
    case _ => None
  }

  /** `extends` parser: a schema, an array of schemas, else undefined. */
  function ParseExtends(p: Instance, host: Host, ghost within: Json): Option<Extension>
    requires p.Value? ==> p.json < within
    decreases within, 0
  {
    match p
    case Value(JObject(_)) => Some(ExtendsSchema(Compile(p.json, host)))
    case Value(JArray(es)) => Some(ExtendsList(seq(|es|, i requires 0 <= i < |es| => Compile(es[i], host))))
    case _ => None
  }

  /** Parser of `minimum`, `maximum`, `maxItems` and `maxLength`: the number, else undefined. */
  function ParseNumber(p: Instance): Option<real> {
    match p
    case Value(JNumber(n)) => Some(n)
    case _ => None
  }

  /** Parser of `minItems`, `minLength` (fallback 0) and `divisibleBy` (fallback 1). */
  function ParseNumberOr(p: Instance, fallback: real): real {
    match p
    case Value(JNumber(n)) => n
    case _ => fallback
  }

  /** Parser of `minimumCanEqual` and `maximumCanEqual`: the boolean, else true. */
  function ParseCanEqual(p: Instance): bool {
    match p
    case Value(JBool(b)) => b
    case _ => true
  }

  /** `pattern` parser: compiles a string eagerly, keeping a compilation error as the attribute. */
  function ParsePattern(p: Instance, host: Host): Option<Pattern> {
    match p
    case Value(JString(s)) => Some(if host.compiles(s) then Regex(s) else InvalidRegex(s))
    case _ => None
  }

  /** `enum` parser: the array of values, else undefined. */
  function ParseEnum(p: Instance): Option<seq<Json>> {
    match p
    case Value(JArray(es)) => Some(es)
    case _ => None
  }

  /** `format` parser: the format name, else undefined. */
  function ParseFormat(p: Instance): Option<string> {
    match p
    case Value(JString(s)) => Some(s)
    case _ => None
  }

  /** `disallow` parser followed by JSV.toArray: a string, an array, else nothing. */
  function ParseDisallow(p: Instance): seq<Json> {
    match p
    case Value(JString(_)) => [p.json]
    case Value(JArray(es)) => es
    case _ => []
  }
}
