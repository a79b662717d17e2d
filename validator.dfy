/**
 * The validators as the meta-schema runs them: each appends to a shared
 * report inside its loops. Every method is proved to append exactly the
 * sequence the matching function of module Keywords describes.
 */
module Validator {
  import opened Wrappers
  import opened JsonInstance
  import opened TypeValidators
  import opened Schemas
  import opened Keywords
  import opened Sequences

  /** The report validators append to; only its error list is modelled. */
  class Report {
    var errors: seq<Error>

    constructor ()
      ensures errors == []
    {
      errors := [];
    }

    /** report.addError: the new error goes at the end, earlier ones are kept. */
    method AddError(instance: Instance, schema: Schema, keyword: string, detail: Detail)
      modifies this
      ensures errors == old(errors) + [Error(instance, schema, keyword, detail)]
    {
      errors := errors + [Error(instance, schema, keyword, detail)];
    }
  }

  /**
   * The meta-schema's validator: the schema's own keys, then every
   * validationRequired name not among them, each run through its keyword's
   * validator when the meta-schema declares one.
   */
  method Validate(v: Instance, s: Schema, report: Report, parent: Option<Instance>, host: Host)
    modifies report
    ensures report.errors == old(report.errors) + Errors(v, s, parent, host)
    decreases s, 4
  {
    var names := s.names;
    for x := 0 to |ValidationRequired|
      invariant names == if x == 0 then s.names else Dispatched(s.names)
    {
      names := PushUnique(names, ValidationRequired[x]);
    }
    var i := 0;
    while i < |names|
      invariant 0 <= i <= |names|
      invariant report.errors == old(report.errors) + RunNames(v, s, parent, host, names[..i])
      decreases |names| - i
    {
      ghost var before := report.errors;
      RunName(v, s, report, parent, host, names[i]);
      RunNamesStep(v, s, parent, host, names, i);
      Appended(old(report.errors), RunNames(v, s, parent, host, names[..i]), NameErrors(v, s, parent, host, names[i]));
      i := i + 1;
    }
    assert names[..i] == names;
    assert names == Dispatched(s.names);
  }

  /** Running one more name appends that name's errors to those of the names before it. */
  lemma RunNamesStep(v: Instance, s: Schema, parent: Option<Instance>, host: Host, names: seq<string>, i: nat)
    requires i < |names|
    ensures RunNames(v, s, parent, host, names[..i + 1])
         == RunNames(v, s, parent, host, names[..i]) + NameErrors(v, s, parent, host, names[i])
  {
    assert names[..i + 1][..i] == names[..i];
  }

  /** One step of the dispatch loop: the validator the name selects, if any. */
  method RunName(v: Instance, s: Schema, report: Report, parent: Option<Instance>, host: Host, name: string)
    modifies report
    ensures report.errors == old(report.errors) + NameErrors(v, s, parent, host, name)
    decreases s, 2
  {
    match ValidatorOf(name) {
      case None =>
      case Some(k) => ValidateKeyword(k, v, s, report, parent, host);
    }
  }

  /** The `validator` function stored under one keyword. */
  method ValidateKeyword(k: Keyword, v: Instance, s: Schema, report: Report, parent: Option<Instance>, host: Host)
    modifies report
    ensures report.errors == old(report.errors) + KeywordErrors(k, v, s, parent, host)
    decreases s, 1
  {
    match k
    case KType => ValidateType(v, s, report, parent, host);
    case KProperties => ValidateProperties(v, s, report, host);
    case KItems => ValidateItems(v, s, report, host);
    case KOptional => ValidateOptional(v, s, report);
    case KAdditionalProperties => ValidateAdditional(v, s, report, host);
    case KRequires => ValidateRequires(v, s, report, parent, host);
    case KMinimum => ValidateMinimum(v, s, report);
    case KMaximum => ValidateMaximum(v, s, report);
    case KMinItems => ValidateMinItems(v, s, report);
    case KMaxItems => ValidateMaxItems(v, s, report);
    case KUniqueItems => ValidateUnique(v, s, report);
    case KPattern => ValidatePattern(v, s, report, host);
    case KMinLength => ValidateMinLength(v, s, report);
    case KMaxLength => ValidateMaxLength(v, s, report);
    case KEnum => ValidateEnum(v, s, report);
    case KFormat => ValidateFormat(v, s, report, host);
    case KDivisibleBy => ValidateDivisibleBy(v, s, report);
    case KDisallow => ValidateDisallow(v, s, report);
    case KExtends => ValidateExtends(v, s, report, parent, host);
  }

  /**
   * `type`: the first alternative that accepts ends the check; a schema
   * alternative is tried on a fresh report, so its errors are discarded.
   */
  method ValidateType(v: Instance, s: Schema, report: Report, parent: Option<Instance>, host: Host)
    modifies report
    ensures report.errors == old(report.errors) + TypeErrors(v, s, parent, host)
    decreases s, 0, 1
  {
    if v.Undefined? || |s.types| == 0 {
      return;
    }
    var accepted := AcceptsType(v, s, parent, host);
    if !accepted {
      report.AddError(v, s, "type", TypesDetail(s.types));
    }
  }

  /** The loop over `type`'s alternatives: true at the first one that accepts `v`. */
  method AcceptsType(v: Instance, s: Schema, parent: Option<Instance>, host: Host) returns (accepted: bool)
    ensures accepted == TypeAccepted(v, s, parent, host, 0)
    decreases s, 0, 0
  {
    var x := 0;
    while x < |s.types|
      invariant 0 <= x <= |s.types|
      invariant TypeAccepted(v, s, parent, host, 0) == TypeAccepted(v, s, parent, host, x)
      decreases |s.types| - x
    {
      var ok := AltAccepted(v, s.types[x], parent, host);
      if ok {
        return true;
      }
      x := x + 1;
    }
    return false;
  }

  /** One alternative: a schema is tried on a fresh report, a name by its type predicate. */
  method AltAccepted(v: Instance, a: TypeAlt, parent: Option<Instance>, host: Host) returns (ok: bool)
    ensures ok == AltAccepts(a, v, parent, host)
    decreases a
  {
    match a {
      case TypeSchema(sub) =>
        var subreport := new Report();
        Validate(v, sub, subreport, parent, host);
        ok := |subreport.errors| == 0;
      case _ =>
        ok := NameAccepts(a, v);
    }
  }

  /** `disallow`: one error, at the first entry whose registered predicate holds. */
  method ValidateDisallow(v: Instance, s: Schema, report: Report)
    modifies report
    ensures report.errors == old(report.errors) + DisallowErrors(v, s)
  {
    if v.Undefined? || |s.disallowed| == 0 {
      return;
    }
    var x := 0;
    while x < |s.disallowed|
      invariant 0 <= x <= |s.disallowed|
      invariant report.errors == old(report.errors)
      invariant DisallowFrom(v, s.disallowed, 0) == DisallowFrom(v, s.disallowed, x)
      decreases |s.disallowed| - x
    {
      var key := KeyName(s.disallowed[x]);
      if key.Some? && Registered(key.value) && TypeHolds(key.value, v) {
        report.AddError(v, s, "disallow", DisallowedDetail(s.disallowed));
        return;
      }
      x := x + 1;
    }
  }

  /** `properties`: each declared property of an object instance against its schema. */
  method ValidateProperties(v: Instance, s: Schema, report: Report, host: Host)
    modifies report
    ensures report.errors == old(report.errors) + PropertiesErrors(v, s, host)
    decreases s, 0
  {
    if TypeOf(v) != TObject {
      return;
    }
    var i := 0;
    while i < |s.properties|
      invariant 0 <= i <= |s.properties|
      invariant report.errors + PropertiesFrom(v, s, host, i) == old(report.errors) + PropertiesFrom(v, s, host, 0)
      decreases |s.properties| - i
    {
      var p := s.properties[i];
      ghost var before := report.errors;
      ghost var here := Errors(GetProperty(v, p.name), p.schema, Some(v), host);
      assert PropertiesFrom(v, s, host, i) == here + PropertiesFrom(v, s, host, i + 1);
      Validate(GetProperty(v, p.name), p.schema, report, Some(v), host);
      Appended(before, here, PropertiesFrom(v, s, host, i + 1));
      i := i + 1;
    }
  }

  /** The empty schema's dispatch: it has no keys, so only `optional` runs. */
  method ValidateEmpty(v: Instance, report: Report)
    modifies report
    ensures report.errors == old(report.errors) + EmptySchemaErrors(v)
  {
    ValidateOptional(v, EmptySchema, report);
  }

  /** `items`: a tuple applies position by position, falling back to `additionalProperties`. */
  method ValidateItems(v: Instance, s: Schema, report: Report, host: Host)
    modifies report
    ensures report.errors == old(report.errors) + ItemsErrors(v, s, host)
    decreases s, 0
  {
    if TypeOf(v) != TArray {
      return;
    }
    var es := v.json.elems;
    var x := 0;
    while x < |es|
      invariant 0 <= x <= |es|
      invariant report.errors + ItemsFrom(v, s, host, x) == old(report.errors) + ItemsFrom(v, s, host, 0)
      decreases |es| - x
    {
      ghost var before := report.errors;
      ghost var here := ElementErrors(v, s, host, x);
      assert ItemsFrom(v, s, host, x) == here + ItemsFrom(v, s, host, x + 1);
      ValidateElement(v, s, report, host, x);
      Appended(before, here, ItemsFrom(v, s, host, x + 1));
      x := x + 1;
    }
  }

  /** The body of the `items` loop for element x. */
  method ValidateElement(v: Instance, s: Schema, report: Report, host: Host, x: nat)
    requires TypeOf(v) == TArray && x < |v.json.elems|
    modifies report
    ensures report.errors == old(report.errors) + ElementErrors(v, s, host, x)
    decreases s, 0, 0, 1
  {
    var e := v.json.elems[x];
    match s.items {
      case ItemsTuple(ts) =>
        if x < |ts| {
          Validate(Value(e), ts[x], report, Some(v), host);
        } else {
          match s.additional
          case AdditionalSchema(a) => Validate(Value(e), a, report, Some(v), host);
          case AdditionalFalse => report.AddError(v, s, "additionalProperties", NotAllowed);
          case AdditionalAny => ValidateEmpty(Value(e), report);
        }
      case ItemsSchema(one) => Validate(Value(e), one, report, Some(v), host);
      case ItemsAny => ValidateEmpty(Value(e), report);
    }
  }

  /** `additionalProperties`: each own key `properties` does not declare. */
  method ValidateAdditional(v: Instance, s: Schema, report: Report, host: Host)
    modifies report
    ensures report.errors == old(report.errors) + AdditionalErrors(v, s, host)
    decreases s, 0
  {
    if TypeOf(v) != TObject {
      return;
    }
    var ms := v.json.members;
    var declared := DeclaredNames(s);
    var i := 0;
    while i < |ms|
      invariant 0 <= i <= |ms|
      invariant report.errors + AdditionalFrom(v, s, host, i) == old(report.errors) + AdditionalFrom(v, s, host, 0)
      decreases |ms| - i
    {
      ghost var before := report.errors;
      ghost var here := if ms[i].key in declared then [] else ElementFallback(v, s, ms[i].value, host);
      assert AdditionalFrom(v, s, host, i) == here + AdditionalFrom(v, s, host, i + 1);
      if ms[i].key !in declared {
        match s.additional
        case AdditionalSchema(a) => Validate(Value(ms[i].value), a, report, Some(v), host);
        case AdditionalFalse => report.AddError(v, s, "additionalProperties", NotAllowed);
        case AdditionalAny => ValidateEmpty(Value(ms[i].value), report);
      }
      assert report.errors == before + here;
      Appended(before, here, AdditionalFrom(v, s, host, i + 1));
      i := i + 1;
    }
  }

  /** `optional`: an undefined instance is an error unless the schema says optional. */
  method ValidateOptional(v: Instance, s: Schema, report: Report)
    modifies report
    ensures report.errors == old(report.errors) + OptionalErrors(v, s)
  {
    if v.Undefined? && !s.optional {
      report.AddError(v, s, "optional", NotAllowed);
    }
  }

  /** `requires`: a sibling name that must be defined, or a schema the parent must meet. */
  method ValidateRequires(v: Instance, s: Schema, report: Report, parent: Option<Instance>, host: Host)
    modifies report
    ensures report.errors == old(report.errors) + RequiresErrors(v, s, parent, host)
    decreases s, 0
  {
    if v.Undefined? || parent.None? || parent.value.Undefined? {
      return;
    }
    match s.requirement
    case None =>
    case Some(RequiresSibling(n)) =>
      if GetProperty(parent.value, n).Undefined? {
        report.AddError(v, s, "requires", SiblingName(n));
      }
    case Some(RequiresSchema(r)) =>
      Validate(parent.value, r, report, None, host);
  }

  method ValidateMinimum(v: Instance, s: Schema, report: Report)
    modifies report
    ensures report.errors == old(report.errors) + MinimumErrors(v, s)
  {
    if TypeOf(v) == TNumber && s.minimum.Some? {
      var n := v.json.n;
      if n < s.minimum.value || (!s.minimumCanEqual && n == s.minimum.value) {
        report.AddError(v, s, "minimum", Bound(s.minimum.value));
      }
    }
  }

  method ValidateMaximum(v: Instance, s: Schema, report: Report)
    modifies report
    ensures report.errors == old(report.errors) + MaximumErrors(v, s)
  {
    if TypeOf(v) == TNumber && s.maximum.Some? {
      var n := v.json.n;
      if n > s.maximum.value || (!s.maximumCanEqual && n == s.maximum.value) {
        report.AddError(v, s, "maximum", Bound(s.maximum.value));
      }
    }
  }

  method ValidateDivisibleBy(v: Instance, s: Schema, report: Report)
    modifies report
    ensures report.errors == old(report.errors) + DivisibleByErrors(v, s)
  {
    if TypeOf(v) == TNumber {
      var divisor := s.divisibleBy;
      if divisor == 0.0 {
        report.AddError(v, s, "divisibleBy", Bound(divisor));
      } else if divisor != 1.0 && !IsIntegral(v.json.n / divisor) {
        report.AddError(v, s, "divisibleBy", Bound(divisor));
      }
    }
  }

  method ValidateMinItems(v: Instance, s: Schema, report: Report)
    modifies report
    ensures report.errors == old(report.errors) + MinItemsErrors(v, s)
  {
    if TypeOf(v) == TArray && (|v.json.elems| as real) < s.minItems {
      report.AddError(v, s, "minItems", Bound(s.minItems));
    }
  }

  method ValidateMaxItems(v: Instance, s: Schema, report: Report)
    modifies report
    ensures report.errors == old(report.errors) + MaxItemsErrors(v, s)
  {
    if TypeOf(v) == TArray && s.maxItems.Some? && (|v.json.elems| as real) > s.maxItems.value {
      report.AddError(v, s, "maxItems", Bound(s.maxItems.value));
    }
  }

  /** `uniqueItems`: the pairwise scan, one error per equal pair in (x, y) order. */
  method ValidateUnique(v: Instance, s: Schema, report: Report)
    modifies report
    ensures report.errors == old(report.errors) + UniqueErrors(v, s)
  {
    if TypeOf(v) != TArray || !s.uniqueItems {
      return;
    }
    var es := v.json.elems;
    var x := 0;
    while x < |es| - 1
      invariant 0 <= x <= |es|
      invariant report.errors + PairsFrom(v, s, x) == old(report.errors) + PairsFrom(v, s, 0)
      decreases |es| - x
    {
      ghost var before := report.errors;
      assert PairsFrom(v, s, x) == RowFrom(v, s, x, x + 1) + PairsFrom(v, s, x + 1);
      ScanRow(v, s, x, report);
      Appended(before, RowFrom(v, s, x, x + 1), PairsFrom(v, s, x + 1));
      x := x + 1;
    }
  }

  /** The inner loop of the `uniqueItems` scan: element x against every later element. */
  method ScanRow(v: Instance, s: Schema, x: nat, report: Report)
    requires TypeOf(v) == TArray && x < |v.json.elems|
    modifies report
    ensures report.errors == old(report.errors) + RowFrom(v, s, x, x + 1)
  {
    var es := v.json.elems;
    var y := x + 1;
    while y < |es|
      invariant x + 1 <= y <= |es|
      invariant report.errors + RowFrom(v, s, x, y) == old(report.errors) + RowFrom(v, s, x, x + 1)
      decreases |es| - y
    {
      ghost var before := report.errors;
      ghost var here := if Equal(es[x], es[y]) then [Error(v, s, "uniqueItems", IndexPair(x, y))] else [];
      assert RowFrom(v, s, x, y) == here + RowFrom(v, s, x, y + 1);
      if Equal(es[x], es[y]) {
        report.AddError(v, s, "uniqueItems", IndexPair(x, y));
      }
      Appended(before, here, RowFrom(v, s, x, y + 1));
      y := y + 1;
    }
  }

  method ValidatePattern(v: Instance, s: Schema, report: Report, host: Host)
    modifies report
    ensures report.errors == old(report.errors) + PatternErrors(v, s, host)
  {
    match s.pattern
    case None =>
    case Some(InvalidRegex(src)) => report.AddError(v, s, "pattern", PatternError(src));
    case Some(Regex(src)) =>
      if TypeOf(v) == TString && !host.matches(src, v.json.s) {
        report.AddError(v, s, "pattern", PatternSource(src));
      }
  }

  method ValidateMinLength(v: Instance, s: Schema, report: Report)
    modifies report
    ensures report.errors == old(report.errors) + MinLengthErrors(v, s)
  {
    if TypeOf(v) == TString && (|v.json.s| as real) < s.minLength {
      report.AddError(v, s, "minLength", Bound(s.minLength));
    }
  }

  method ValidateMaxLength(v: Instance, s: Schema, report: Report)
    modifies report
    ensures report.errors == old(report.errors) + MaxLengthErrors(v, s)
  {
    if TypeOf(v) == TString && s.maxLength.Some? && (|v.json.s| as real) > s.maxLength.value {
      report.AddError(v, s, "maxLength", Bound(s.maxLength.value));
    }
  }

  method ValidateFormat(v: Instance, s: Schema, report: Report, host: Host)
    modifies report
    ensures report.errors == old(report.errors) + FormatErrors(v, s, host)
  {
    if TypeOf(v) == TString && s.format.Some? && s.format.value in host.formats {
      var check := host.formats[s.format.value];
      if !check(v.json.s) {
        report.AddError(v, s, "format", FormatName(s.format.value));
      }
    }
  }

  /** `enum`: the scan stops at the first equal value; otherwise one error. */
  method ValidateEnum(v: Instance, s: Schema, report: Report)
    modifies report
    ensures report.errors == old(report.errors) + EnumErrors(v, s)
  {
    if s.enumValues.None? {
      return;
    }
    var vals := s.enumValues.value;
    var x := 0;
    while x < |vals|
      invariant 0 <= x <= |vals|
      invariant EnumFrom(v, vals, 0) == EnumFrom(v, vals, x)
      invariant report.errors == old(report.errors)
      decreases |vals| - x
    {
      if v.Value? && Equal(v.json, vals[x]) {
        return;
      }
      x := x + 1;
    }
    report.AddError(v, s, "enum", EnumValues(vals));
  }

  /** `extends`: the same instance and parent against each extension in turn. */
  method ValidateExtends(v: Instance, s: Schema, report: Report, parent: Option<Instance>, host: Host)
    modifies report
    ensures report.errors == old(report.errors) + ExtendsErrors(v, s, parent, host)
    decreases s, 0
  {
    match s.extensions
    case None =>
    case Some(ExtendsSchema(e)) => Validate(v, e, report, parent, host);
    case Some(ExtendsList(es)) =>
      var i := 0;
      while i < |es|
        invariant 0 <= i <= |es|
        invariant report.errors + ExtendsFrom(v, s, parent, host, i) == old(report.errors) + ExtendsFrom(v, s, parent, host, 0)
        decreases |es| - i
      {
        ghost var before := report.errors;
        ghost var here := Errors(v, es[i], parent, host);
        assert ExtendsFrom(v, s, parent, host, i) == here + ExtendsFrom(v, s, parent, host, i + 1);
        Validate(v, es[i], report, parent, host);
        Appended(before, here, ExtendsFrom(v, s, parent, host, i + 1));
        i := i + 1;
      }
  }
}
