/**
 * What each keyword's parser makes of a schema document, stated from the
 * document's side: a keyword given a value of the type its parser accepts
 * comes back in typed form (nested schemas compiled), and a keyword that is
 * absent or of another type gets the attribute createEmptySchema() has.
 */
module ParserProperties {
  import opened Wrappers
  import opened JsonInstance
  import opened Schemas

  /** The document's value for a keyword, or undefined. */
  function Keyword(doc: Json, name: string): Instance {
    Field(doc, name)
  }

  /** A scalar JSON value: neither a string, an object nor an array. */
  predicate Scalar(j: Json) {
    j.JNull? || j.JBool? || j.JNumber?
  }

  /** Each attribute of a compiled document is its keyword's parser applied to the document's value for it. */
  lemma CompileFields(doc: Json, host: Host)
    ensures var s := Compile(doc, host);
      && s.types == ParseType(Keyword(doc, "type"), host, doc)
      && s.properties == ParseProperties(Keyword(doc, "properties"), host, doc)
      && s.items == ParseItems(Keyword(doc, "items"), host, doc)
      && s.optional == Truthy(Keyword(doc, "optional"))
      && s.additional == ParseAdditional(Keyword(doc, "additionalProperties"), host, doc)
      && s.requirement == ParseRequires(Keyword(doc, "requires"), host, doc)
      && s.minimum == ParseNumber(Keyword(doc, "minimum"))
      && s.maximum == ParseNumber(Keyword(doc, "maximum"))
      && s.minimumCanEqual == ParseCanEqual(Keyword(doc, "minimumCanEqual"))
      && s.maximumCanEqual == ParseCanEqual(Keyword(doc, "maximumCanEqual"))
      && s.minItems == ParseNumberOr(Keyword(doc, "minItems"), 0.0)
      && s.maxItems == ParseNumber(Keyword(doc, "maxItems"))
      && s.uniqueItems == Truthy(Keyword(doc, "uniqueItems"))
      && s.pattern == ParsePattern(Keyword(doc, "pattern"), host)
      && s.minLength == ParseNumberOr(Keyword(doc, "minLength"), 0.0)
      && s.maxLength == ParseNumber(Keyword(doc, "maxLength"))
      && s.enumValues == ParseEnum(Keyword(doc, "enum"))
      && s.format == ParseFormat(Keyword(doc, "format"))
      && s.divisibleBy == ParseNumberOr(Keyword(doc, "divisibleBy"), 1.0)
      && s.disallowed == ParseDisallow(Keyword(doc, "disallow"))
      && s.extensions == ParseExtends(Keyword(doc, "extends"), host, doc)
  {
  }

  // ---------------------------------------------------------------- the parsers, value by value

  lemma TypeParsed(p: Instance, host: Host, within: Json, r: seq<TypeAlt>)
    requires p.Value? ==> p.json < within
    requires r == ParseType(p, host, within)
    ensures p.Value? && p.json.JString? ==> r == [TypeName(p.json.s)]
    ensures p.Value? && p.json.JObject? ==> r == [TypeSchema(Compile(p.json, host))]
    ensures p.Value? && p.json.JArray? ==>
      && |r| == |p.json.elems|
      && forall i :: 0 <= i < |r| ==>
           && (p.json.elems[i].JString? ==> r[i] == TypeName(p.json.elems[i].s))
           && (p.json.elems[i].JObject? ==> r[i] == TypeSchema(Compile(p.json.elems[i], host)))
           && (p.json.elems[i].JArray? ==> r[i].TypeList? && |r[i].alts| == |p.json.elems[i].elems|)
           && (Scalar(p.json.elems[i]) ==> r[i] == TypeName("any"))
    ensures p.Undefined? || Scalar(p.json) ==> r == EmptySchema.types
  {
    if p.Value? && p.json.JArray? {
      var es := p.json.elems;
      forall i | 0 <= i < |r|
        ensures && (es[i].JString? ==> r[i] == TypeName(es[i].s))
                && (es[i].JObject? ==> r[i] == TypeSchema(Compile(es[i], host)))
                && (es[i].JArray? ==> r[i].TypeList? && |r[i].alts| == |es[i].elems|)
                && (Scalar(es[i]) ==> r[i] == TypeName("any"))
      {
        assert es[i] < p.json;
        TypeAltParsed(es[i], host, within, r[i]);
      }
    }
  }

  lemma TypeAltParsed(j: Json, host: Host, within: Json, r: TypeAlt)
    requires j < within
    requires r == ParseTypeAlt(j, host, within)
    ensures j.JString? ==> r == TypeName(j.s)
    ensures j.JObject? ==> r == TypeSchema(Compile(j, host))
    ensures j.JArray? ==> r.TypeList? && |r.alts| == |j.elems|
    ensures Scalar(j) ==> r == TypeName("any")
  {
  }

  lemma PropertiesParsed(p: Instance, host: Host, within: Json, r: seq<Property>)
    requires p.Value? ==> p.json < within
    requires r == ParseProperties(p, host, within)
    ensures p.Value? && p.json.JObject? ==>
      && |r| == |p.json.members|
      && forall i :: 0 <= i < |r| ==> r[i] == Property(p.json.members[i].key, Compile(p.json.members[i].value, host))
    ensures !(p.Value? && p.json.JObject?) ==> r == EmptySchema.properties
  {
  }

  lemma ItemsParsed(p: Instance, host: Host, within: Json, r: Items)
    requires p.Value? ==> p.json < within
    requires r == ParseItems(p, host, within)
    ensures p.Value? && p.json.JObject? ==> r == ItemsSchema(Compile(p.json, host))
    ensures p.Value? && p.json.JArray? ==>
      && r.ItemsTuple? && |r.schemas| == |p.json.elems|
      && forall i :: 0 <= i < |p.json.elems| ==> r.schemas[i] == Compile(p.json.elems[i], host)
    ensures p.Undefined? || Scalar(p.json) || p.json.JString? ==> r == EmptySchema.items
  {
  }

  lemma AdditionalParsed(p: Instance, host: Host, within: Json, r: Additional)
    requires p.Value? ==> p.json < within
    requires r == ParseAdditional(p, host, within)
    ensures p.Value? && p.json.JObject? ==> r == AdditionalSchema(Compile(p.json, host))
    ensures r == AdditionalFalse <==> p == Value(JBool(false))
    ensures !(p.Value? && p.json.JObject?) && p != Value(JBool(false)) ==> r == EmptySchema.additional
  {
    if p.Value? && p.json.JObject? {
      assert r.AdditionalSchema?;
    } else if p == Value(JBool(false)) {
      assert r == AdditionalFalse;
    } else {
      assert r == AdditionalAny;
    }
  }

  lemma RequiresParsed(p: Instance, host: Host, within: Json, r: Option<Requirement>)
    requires p.Value? ==> p.json < within
    requires r == ParseRequires(p, host, within)
    ensures p.Value? && p.json.JString? ==> r == Some(RequiresSibling(p.json.s))
    ensures p.Value? && p.json.JObject? ==> r == Some(RequiresSchema(Compile(p.json, host)))
    ensures r.None? <==> !(p.Value? && (p.json.JString? || p.json.JObject?))
  {
  }

  lemma ExtendsParsed(p: Instance, host: Host, within: Json, r: Option<Extension>)
    requires p.Value? ==> p.json < within
    requires r == ParseExtends(p, host, within)
    ensures p.Value? && p.json.JObject? ==> r == Some(ExtendsSchema(Compile(p.json, host)))
    ensures p.Value? && p.json.JArray? ==>
      && r.Some? && r.value.ExtendsList? && |r.value.schemas| == |p.json.elems|
      && forall i :: 0 <= i < |p.json.elems| ==> r.value.schemas[i] == Compile(p.json.elems[i], host)
    ensures r.None? <==> !(p.Value? && (p.json.JObject? || p.json.JArray?))
  {
  }

  lemma PatternValueParsed(p: Instance, host: Host, r: Option<Pattern>)
    requires r == ParsePattern(p, host)
    ensures r.Some? <==> TypeOf(p) == TString
    ensures r.Some? ==> r.value.source == p.json.s && (r.value.Regex? <==> host.compiles(p.json.s))
  {
  }

  lemma NumberParsed(p: Instance, r: Option<real>)
    requires r == ParseNumber(p)
    ensures r.Some? <==> TypeOf(p) == TNumber
    ensures r.Some? ==> p == Value(JNumber(r.value))
  {
  }

  lemma NumberOrParsed(p: Instance, fallback: real, r: real)
    requires r == ParseNumberOr(p, fallback)
    ensures TypeOf(p) == TNumber ==> p == Value(JNumber(r))
    ensures TypeOf(p) != TNumber ==> r == fallback
  {
  }

  lemma EnumParsed(p: Instance, r: Option<seq<Json>>)
    requires r == ParseEnum(p)
    ensures r.Some? <==> TypeOf(p) == TArray
    ensures r.Some? ==> p == Value(JArray(r.value))
  {
  }

  lemma FormatParsed(p: Instance, r: Option<string>)
    requires r == ParseFormat(p)
    ensures r.Some? <==> TypeOf(p) == TString
    ensures r.Some? ==> p == Value(JString(r.value))
  {
  }

  lemma DisallowParsed(p: Instance, r: seq<Json>)
    requires r == ParseDisallow(p)
    ensures TypeOf(p) == TString ==> r == [p.json]
    ensures TypeOf(p) == TArray ==> r == p.json.elems
    ensures TypeOf(p) != TString && TypeOf(p) != TArray ==> r == []
  {
  }

  // ---------------------------------------------------------------- the document's side

  /**
   * `type`: a name is kept, a schema compiled, an array mapped element by
   * element (names kept, schemas compiled, nested arrays mapped, and null,
   * booleans and numbers read as "any"); anything else is "any".
   */
  lemma CompileType(doc: Json, host: Host)
    ensures var p, s := Keyword(doc, "type"), Compile(doc, host);
      && (p.Value? && p.json.JString? ==> s.types == [TypeName(p.json.s)])
      && (p.Value? && p.json.JObject? ==> s.types == [TypeSchema(Compile(p.json, host))])
      && (p.Value? && p.json.JArray? ==>
            && |s.types| == |p.json.elems|
            && forall i :: 0 <= i < |s.types| ==>
                 && (p.json.elems[i].JString? ==> s.types[i] == TypeName(p.json.elems[i].s))
                 && (p.json.elems[i].JObject? ==> s.types[i] == TypeSchema(Compile(p.json.elems[i], host)))
                 && (p.json.elems[i].JArray? ==> s.types[i].TypeList? && |s.types[i].alts| == |p.json.elems[i].elems|)
                 && (Scalar(p.json.elems[i]) ==> s.types[i] == TypeName("any")))
      && (p.Undefined? || Scalar(p.json) ==> s.types == EmptySchema.types)
  {
    CompileFields(doc, host);
    TypeParsed(Keyword(doc, "type"), host, doc, Compile(doc, host).types);
  }

  /**
   * `properties`: an object declares its keys, in order, each with its value
   * compiled as a schema; anything else declares nothing.
   */
  lemma CompileProperties(doc: Json, host: Host)
    ensures var p, s := Keyword(doc, "properties"), Compile(doc, host);
      && (p.Value? && p.json.JObject? ==>
            && |s.properties| == |p.json.members|
            && forall i :: 0 <= i < |s.properties| ==>
                 s.properties[i] == Property(p.json.members[i].key, Compile(p.json.members[i].value, host)))
      && (!(p.Value? && p.json.JObject?) ==> s.properties == EmptySchema.properties)
  {
    CompileFields(doc, host);
    PropertiesParsed(Keyword(doc, "properties"), host, doc, Compile(doc, host).properties);
  }

  /** `items`: an object is the one schema for every element, an array a tuple of schemas; else the empty schema. */
  lemma CompileItems(doc: Json, host: Host)
    ensures var p, s := Keyword(doc, "items"), Compile(doc, host);
      && (p.Value? && p.json.JObject? ==> s.items == ItemsSchema(Compile(p.json, host)))
      && (p.Value? && p.json.JArray? ==>
            && s.items.ItemsTuple? && |s.items.schemas| == |p.json.elems|
            && forall i :: 0 <= i < |p.json.elems| ==> s.items.schemas[i] == Compile(p.json.elems[i], host))
      && (p.Undefined? || Scalar(p.json) || p.json.JString? ==> s.items == EmptySchema.items)
  {
    CompileFields(doc, host);
    ItemsParsed(Keyword(doc, "items"), host, doc, Compile(doc, host).items);
  }

  /** `optional` and `uniqueItems`: the truthiness of the value; absent means required, and duplicates allowed. */
  lemma CompileFlags(doc: Json, host: Host)
    ensures var s := Compile(doc, host);
      && (s.optional <==> Truthy(Keyword(doc, "optional")))
      && (s.uniqueItems <==> Truthy(Keyword(doc, "uniqueItems")))
      && (Keyword(doc, "optional").Undefined? ==> s.optional == EmptySchema.optional == false)
      && (Keyword(doc, "uniqueItems").Undefined? ==> s.uniqueItems == EmptySchema.uniqueItems == false)
  {
    CompileFields(doc, host);
  }

  /** `additionalProperties`: an object is a schema, the literal false forbids; anything else is the empty schema. */
  lemma CompileAdditional(doc: Json, host: Host)
    ensures var p, s := Keyword(doc, "additionalProperties"), Compile(doc, host);
      && (p.Value? && p.json.JObject? ==> s.additional == AdditionalSchema(Compile(p.json, host)))
      && (s.additional == AdditionalFalse <==> p == Value(JBool(false)))
      && (!(p.Value? && p.json.JObject?) && p != Value(JBool(false)) ==> s.additional == EmptySchema.additional)
  {
    CompileFields(doc, host);
    AdditionalParsed(Keyword(doc, "additionalProperties"), host, doc, Compile(doc, host).additional);
  }

  /** `requires`: a string names a sibling, an object is a schema for the parent; anything else requires nothing. */
  lemma CompileRequires(doc: Json, host: Host)
    ensures var p, s := Keyword(doc, "requires"), Compile(doc, host);
      && (p.Value? && p.json.JString? ==> s.requirement == Some(RequiresSibling(p.json.s)))
      && (p.Value? && p.json.JObject? ==> s.requirement == Some(RequiresSchema(Compile(p.json, host))))
      && (s.requirement.None? <==> !(p.Value? && (p.json.JString? || p.json.JObject?)))
      && (s.requirement.None? ==> s.requirement == EmptySchema.requirement)
  {
    CompileFields(doc, host);
    RequiresParsed(Keyword(doc, "requires"), host, doc, Compile(doc, host).requirement);
  }

  /** `minimum`, `maximum`, `maxItems` and `maxLength`: a number is the bound; anything else sets none. */
  lemma CompileUpperBounds(doc: Json, host: Host)
    ensures var s := Compile(doc, host);
      && (s.minimum.Some? <==> TypeOf(Keyword(doc, "minimum")) == TNumber)
      && (s.minimum.Some? ==> Keyword(doc, "minimum") == Value(JNumber(s.minimum.value)))
      && (s.maximum.Some? <==> TypeOf(Keyword(doc, "maximum")) == TNumber)
      && (s.maximum.Some? ==> Keyword(doc, "maximum") == Value(JNumber(s.maximum.value)))
      && (s.maxItems.Some? <==> TypeOf(Keyword(doc, "maxItems")) == TNumber)
      && (s.maxItems.Some? ==> Keyword(doc, "maxItems") == Value(JNumber(s.maxItems.value)))
      && (s.maxLength.Some? <==> TypeOf(Keyword(doc, "maxLength")) == TNumber)
      && (s.maxLength.Some? ==> Keyword(doc, "maxLength") == Value(JNumber(s.maxLength.value)))
      && EmptySchema.minimum.None? && EmptySchema.maximum.None?
      && EmptySchema.maxItems.None? && EmptySchema.maxLength.None?
  {
    CompileFields(doc, host);
    var s := Compile(doc, host);
    NumberParsed(Keyword(doc, "minimum"), s.minimum);
    NumberParsed(Keyword(doc, "maximum"), s.maximum);
    NumberParsed(Keyword(doc, "maxItems"), s.maxItems);
    NumberParsed(Keyword(doc, "maxLength"), s.maxLength);
  }

  /** `minimumCanEqual` and `maximumCanEqual`: a boolean is kept; anything else makes the bound inclusive. */
  lemma CompileCanEqual(doc: Json, host: Host)
    ensures var s := Compile(doc, host);
      && (!s.minimumCanEqual <==> Keyword(doc, "minimumCanEqual") == Value(JBool(false)))
      && (!s.maximumCanEqual <==> Keyword(doc, "maximumCanEqual") == Value(JBool(false)))
      && EmptySchema.minimumCanEqual && EmptySchema.maximumCanEqual
  {
    CompileFields(doc, host);
  }

  /** `minItems`, `minLength` (0 unless a number) and `divisibleBy` (1 unless a number, and 1 passes every number). */
  lemma CompileLowerBounds(doc: Json, host: Host)
    ensures var s := Compile(doc, host);
      && (TypeOf(Keyword(doc, "minItems")) == TNumber ==> Keyword(doc, "minItems") == Value(JNumber(s.minItems)))
      && (TypeOf(Keyword(doc, "minItems")) != TNumber ==> s.minItems == EmptySchema.minItems == 0.0)
      && (TypeOf(Keyword(doc, "minLength")) == TNumber ==> Keyword(doc, "minLength") == Value(JNumber(s.minLength)))
      && (TypeOf(Keyword(doc, "minLength")) != TNumber ==> s.minLength == EmptySchema.minLength == 0.0)
      && (TypeOf(Keyword(doc, "divisibleBy")) == TNumber ==> Keyword(doc, "divisibleBy") == Value(JNumber(s.divisibleBy)))
      && (TypeOf(Keyword(doc, "divisibleBy")) != TNumber ==> s.divisibleBy == EmptySchema.divisibleBy == 1.0)
  {
    CompileFields(doc, host);
    var s := Compile(doc, host);
    NumberOrParsed(Keyword(doc, "minItems"), 0.0, s.minItems);
    NumberOrParsed(Keyword(doc, "minLength"), 0.0, s.minLength);
    NumberOrParsed(Keyword(doc, "divisibleBy"), 1.0, s.divisibleBy);
  }

  /** `pattern`: a string is compiled eagerly, its compilation error kept; anything else sets no pattern. */
  lemma CompilePattern(doc: Json, host: Host)
    ensures var p, s := Keyword(doc, "pattern"), Compile(doc, host);
      && (s.pattern.Some? <==> TypeOf(p) == TString)
      && (s.pattern.Some? ==> s.pattern.value.source == p.json.s && (s.pattern.value.Regex? <==> host.compiles(p.json.s)))
      && EmptySchema.pattern.None?
  {
    CompileFields(doc, host);
    PatternValueParsed(Keyword(doc, "pattern"), host, Compile(doc, host).pattern);
  }

  /** `enum`: an array is the list of permitted values; anything else sets none. */
  lemma CompileEnum(doc: Json, host: Host)
    ensures var p, s := Keyword(doc, "enum"), Compile(doc, host);
      && (s.enumValues.Some? <==> TypeOf(p) == TArray)
      && (s.enumValues.Some? ==> p == Value(JArray(s.enumValues.value)))
      && EmptySchema.enumValues.None?
  {
    CompileFields(doc, host);
    EnumParsed(Keyword(doc, "enum"), Compile(doc, host).enumValues);
  }

  /** `format`: a string names the format; anything else sets none. */
  lemma CompileFormat(doc: Json, host: Host)
    ensures var p, s := Keyword(doc, "format"), Compile(doc, host);
      && (s.format.Some? <==> TypeOf(p) == TString)
      && (s.format.Some? ==> p == Value(JString(s.format.value)))
      && EmptySchema.format.None?
  {
    CompileFields(doc, host);
    FormatParsed(Keyword(doc, "format"), Compile(doc, host).format);
  }

  /** `disallow`: a string is a list of one, an array is the list; anything else disallows nothing. */
  lemma CompileDisallow(doc: Json, host: Host)
    ensures var p, s := Keyword(doc, "disallow"), Compile(doc, host);
      && (TypeOf(p) == TString ==> s.disallowed == [p.json])
      && (TypeOf(p) == TArray ==> s.disallowed == p.json.elems)
      && (TypeOf(p) != TString && TypeOf(p) != TArray ==> s.disallowed == EmptySchema.disallowed == [])
  {
    CompileFields(doc, host);
    DisallowParsed(Keyword(doc, "disallow"), Compile(doc, host).disallowed);
  }

  /** `extends`: an object is one schema, an array a list of schemas; anything else extends nothing. */
  lemma CompileExtends(doc: Json, host: Host)
    ensures var p, s := Keyword(doc, "extends"), Compile(doc, host);
      && (p.Value? && p.json.JObject? ==> s.extensions == Some(ExtendsSchema(Compile(p.json, host))))
      && (p.Value? && p.json.JArray? ==>
            && s.extensions.Some? && s.extensions.value.ExtendsList?
            && |s.extensions.value.schemas| == |p.json.elems|
            && forall i :: 0 <= i < |p.json.elems| ==> s.extensions.value.schemas[i] == Compile(p.json.elems[i], host))
      && (s.extensions.None? <==> !(p.Value? && (p.json.JObject? || p.json.JArray?)))
      && EmptySchema.extensions.None?
  {
    CompileFields(doc, host);
    ExtendsParsed(Keyword(doc, "extends"), host, doc, Compile(doc, host).extensions);
  }
}
