/**
 * What the keyword validators promise, proved about the functions of module
 * Keywords (and so, through the Validator methods' postconditions, about the
 * errors a report collects).
 */
module KeywordProperties {
  import opened Wrappers
  import opened JsonInstance
  import opened TypeValidators
  import opened Schemas
  import opened Keywords
  import opened Sequences

  // ---------------------------------------------------------------- type

  lemma {:induction false} TypeAcceptedFrom(v: Instance, s: Schema, parent: Option<Instance>, host: Host, i: nat)
    requires i <= |s.types|
    ensures TypeAccepted(v, s, parent, host, i)
        <==> exists j :: i <= j < |s.types| && AltAccepts(s.types[j], v, parent, host)
    decreases |s.types| - i
  {
    if i < |s.types| {
      TypeAcceptedFrom(v, s, parent, host, i + 1);
      if AltAccepts(s.types[i], v, parent, host) {
        assert i <= i < |s.types|;
      } else if TypeAccepted(v, s, parent, host, i + 1) {
        var j :| i + 1 <= j < |s.types| && AltAccepts(s.types[j], v, parent, host);
        assert i <= j;
      } else {
        forall j | i <= j < |s.types| ensures !AltAccepts(s.types[j], v, parent, host) {
          if j > i {
            assert i + 1 <= j;
          }
        }
      }
    }
  }

  /**
   * `type` appends exactly one error, carrying the list of types, when the
   * instance is defined, the list is non-empty and no alternative accepts it;
   * otherwise nothing (what a schema alternative reports is never kept).
   */
  lemma TypeErrorsSpec(v: Instance, s: Schema, parent: Option<Instance>, host: Host)
    ensures TypeErrors(v, s, parent, host)
         == if v.Value? && |s.types| > 0
               && forall j :: 0 <= j < |s.types| ==> !AltAccepts(s.types[j], v, parent, host)
            then [Error(v, s, "type", TypesDetail(s.types))]
            else []
  {
    TypeAcceptedFrom(v, s, parent, host, 0);
  }

  /** A type name without a registered predicate accepts every instance. */
  lemma UnknownTypeAccepts(v: Instance, s: Schema, parent: Option<Instance>, host: Host, j: nat)
    requires j < |s.types| && s.types[j].TypeName? && !Registered(s.types[j].name)
    ensures TypeErrors(v, s, parent, host) == []
  {
    TypeErrorsSpec(v, s, parent, host);
    assert AltAccepts(s.types[j], v, parent, host);
  }

  /** An alternative whose schema the instance satisfies accepts it, whatever the others say. */
  lemma SchemaAlternativeAccepts(v: Instance, s: Schema, parent: Option<Instance>, host: Host, j: nat)
    requires j < |s.types| && s.types[j].TypeSchema?
    requires Errors(v, s.types[j].schema, parent, host) == []
    ensures TypeErrors(v, s, parent, host) == []
  {
    TypeErrorsSpec(v, s, parent, host);
    assert AltAccepts(s.types[j], v, parent, host);
  }

  // ---------------------------------------------------------------- disallow

  lemma {:induction false} DisallowFromExists(v: Instance, ds: seq<Json>, i: nat)
    requires i <= |ds|
    ensures DisallowFrom(v, ds, i) <==> exists j :: i <= j < |ds| && DisallowMatches(ds[j], v)
    decreases |ds| - i
  {
    if i < |ds| {
      DisallowFromExists(v, ds, i + 1);
    }
  }

  /**
   * `disallow` appends one error, carrying the disallowed list, exactly when
   * the instance is defined and some entry names a registered predicate that
   * holds; otherwise nothing.
   */
  lemma DisallowErrorsSpec(v: Instance, s: Schema)
    ensures DisallowErrors(v, s)
         == if v.Value? && exists j :: 0 <= j < |s.disallowed| && DisallowMatches(s.disallowed[j], v)
            then [Error(v, s, "disallow", DisallowedDetail(s.disallowed))]
            else []
  {
    DisallowFromExists(v, s.disallowed, 0);
  }

  /**
   * A `disallow` entry matches exactly when it is the name of a registered
   * type (possibly wrapped in one-element arrays) that the instance has, or a
   * bare `null` and the instance is null.
   */
  lemma DisallowEntryMatches(d: Json, v: Instance)
    ensures DisallowMatches(d, v)
        <==> (Unwrapped(d).JString? && Registered(Unwrapped(d).s) && TypeHolds(Unwrapped(d).s, v))
             || (d == JNull && TypeOf(v) == TNull)
  {
    if KeyName(d).Some? && Registered(KeyName(d).value) {
      KeyNameRegistered(d, KeyName(d).value);
    }
    if Unwrapped(d).JString? && Registered(Unwrapped(d).s) {
      KeyNameRegistered(d, Unwrapped(d).s);
    }
    if d == JNull {
      assert Registered("null");
    }
  }

  /** Entries without a registered predicate never cause a `disallow` error. */
  lemma DisallowUnregistered(v: Instance, s: Schema)
    requires forall j :: 0 <= j < |s.disallowed| ==>
               KeyName(s.disallowed[j]).None? || !Registered(KeyName(s.disallowed[j]).value)
    ensures DisallowErrors(v, s) == []
  {
    DisallowErrorsSpec(v, s);
  }

  // ---------------------------------------------------------------- enum

  lemma {:induction false} EnumFromExists(v: Instance, vals: seq<Json>, i: nat)
    requires i <= |vals|
    ensures EnumFrom(v, vals, i) <==> v.Value? && exists j :: i <= j < |vals| && Equal(v.json, vals[j])
    decreases |vals| - i
  {
    if i < |vals| {
      EnumFromExists(v, vals, i + 1);
    }
  }

  /** `enum` appends one error exactly when the instance equals none of the listed values. */
  lemma EnumErrorsSpec(v: Instance, s: Schema)
    ensures EnumErrors(v, s)
         == if s.enumValues.Some?
               && !(v.Value? && exists j :: 0 <= j < |s.enumValues.value| && Equal(v.json, s.enumValues.value[j]))
            then [Error(v, s, "enum", EnumValues(s.enumValues.value))]
            else []
  {
    if s.enumValues.Some? {
      EnumFromExists(v, s.enumValues.value, 0);
    }
  }

  /** Every value listed in `enum` passes it. */
  lemma EnumAcceptsListed(j: Json, s: Schema, k: nat)
    requires s.enumValues.Some? && k < |s.enumValues.value| && s.enumValues.value[k] == j
    requires WellFormed(j)
    ensures EnumErrors(Value(j), s) == []
  {
    EqualReflexive(j);
    EnumErrorsSpec(Value(j), s);
  }

  // ---------------------------------------------------------------- dispatch

  predicate Distinct(names: seq<string>) {
    forall i, j :: 0 <= i < j < |names| ==> names[i] != names[j]
  }

  /** Dispatch runs the schema's keys and `optional`, each once when the keys are distinct. */
  lemma DispatchedNames(names: seq<string>)
    ensures forall n :: n in Dispatched(names) <==> n in names || n == "optional"
    ensures Distinct(names) ==> Distinct(Dispatched(names))
  {
    if Distinct(names) && "optional" !in names {
      var d := Dispatched(names);
      assert d == names + ["optional"];
      forall i, j | 0 <= i < j < |d| ensures d[i] != d[j] {
        if j == |names| {
          assert d[i] == names[i];
        }
      }
    }
  }

  /** Dispatching a list of names appends, name by name, what each name's validator appends. */
  lemma {:induction false} RunNamesAppend(v: Instance, s: Schema, parent: Option<Instance>, host: Host,
                                          a: seq<string>, b: seq<string>)
    ensures RunNames(v, s, parent, host, a + b)
         == RunNames(v, s, parent, host, a) + RunNames(v, s, parent, host, b)
    decreases |b|
  {
    if |b| == 0 {
      assert a + b == a;
    } else {
      var init := b[..|b| - 1];
      assert (a + b)[..|a + b| - 1] == a + init;
      assert (a + b)[|a + b| - 1] == b[|b| - 1];
      RunNamesAppend(v, s, parent, host, a, init);
      Appended(RunNames(v, s, parent, host, a), RunNames(v, s, parent, host, init), NameErrors(v, s, parent, host, b[|b| - 1]));
    }
  }

  /** A single name contributes what its validator appends. */
  lemma RunSingleName(v: Instance, s: Schema, parent: Option<Instance>, host: Host, x: string)
    ensures RunNames(v, s, parent, host, [x]) == NameErrors(v, s, parent, host, x)
  {
    assert [x][..0] == [];
  }

  /** A name the meta-schema does not declare contributes nothing, wherever it stands. */
  lemma UnknownNameIgnored(v: Instance, s: Schema, parent: Option<Instance>, host: Host,
                           a: seq<string>, x: string, b: seq<string>)
    requires ValidatorOf(x).None?
    ensures RunNames(v, s, parent, host, a + [x] + b) == RunNames(v, s, parent, host, a + b)
  {
    RunNamesAppend(v, s, parent, host, a + [x], b);
    RunNamesAppend(v, s, parent, host, a, [x]);
    RunNamesAppend(v, s, parent, host, a, b);
    RunSingleName(v, s, parent, host, x);
  }

  /** The validationRequired `optional` check runs after the schema's own keys, unless it is one of them. */
  lemma ErrorsDispatch(v: Instance, s: Schema, parent: Option<Instance>, host: Host)
    ensures "optional" !in s.names ==>
      Errors(v, s, parent, host) == RunNames(v, s, parent, host, s.names) + OptionalErrors(v, s)
    ensures "optional" in s.names ==>
      Errors(v, s, parent, host) == RunNames(v, s, parent, host, s.names)
  {
    if "optional" !in s.names {
      RunNamesAppend(v, s, parent, host, s.names, ["optional"]);
      RunSingleName(v, s, parent, host, "optional");
    }
  }

  // ---------------------------------------------------------------- undefined instances

  /** The keywords that act on an undefined instance besides `optional` are absent. */
  predicate QuietOnUndefined(s: Schema) {
    s.pattern.None? && s.enumValues.None? && s.extensions.None?
  }

  lemma KeywordOnUndefined(k: Keyword, s: Schema, parent: Option<Instance>, host: Host)
    requires QuietOnUndefined(s)
    ensures KeywordErrors(k, Undefined, s, parent, host) == if k == KOptional then OptionalErrors(Undefined, s) else []
  {
  }

  lemma {:induction false} UndefinedRun(s: Schema, parent: Option<Instance>, host: Host, names: seq<string>)
    requires QuietOnUndefined(s) && Distinct(names)
    ensures RunNames(Undefined, s, parent, host, names)
         == if "optional" in names then OptionalErrors(Undefined, s) else []
    decreases |names|
  {
    if |names| > 0 {
      var init, last := names[..|names| - 1], names[|names| - 1];
      assert names == init + [last];
      DistinctInit(init, last);
      UndefinedRun(s, parent, host, init);
      NameOnUndefined(s, parent, host, last);
      OptionalOnce(init, last, RunNames(Undefined, s, parent, host, init),
                   NameErrors(Undefined, s, parent, host, last), OptionalErrors(Undefined, s));
    }
  }

  /** Dropping the last name keeps the names distinct. */
  lemma DistinctInit(init: seq<string>, last: string)
    requires Distinct(init + [last])
    ensures Distinct(init) && last !in init
  {
    var names := init + [last];
    forall p | 0 <= p < |init| ensures init[p] != last {
      assert init[p] == names[p] && last == names[|init|];
    }
    forall p, q | 0 <= p < q < |init| ensures init[p] != init[q] {
      assert init[p] == names[p] && init[q] == names[q];
    }
  }

  /** Among distinct names `optional` contributes its errors once: from the prefix or from the last name. */
  lemma OptionalOnce(init: seq<string>, last: string, before: seq<Error>, here: seq<Error>, e: seq<Error>)
    requires last !in init
    requires before == if "optional" in init then e else []
    requires here == if last == "optional" then e else []
    ensures before + here == if "optional" in init + [last] then e else []
  {
    assert "optional" in init + [last] <==> "optional" in init || last == "optional";
  }

  /** On an undefined instance a name reports the `optional` check if it is `optional`, else nothing. */
  lemma NameOnUndefined(s: Schema, parent: Option<Instance>, host: Host, name: string)
    requires QuietOnUndefined(s)
    ensures NameErrors(Undefined, s, parent, host, name)
         == if name == "optional" then OptionalErrors(Undefined, s) else []
  {
    match ValidatorOf(name) {
      case None =>
      case Some(k) => KeywordOnUndefined(k, s, parent, host);
    }
  }

  /**
   * An undefined instance (a missing property) is reported by `optional`
   * alone, and only when the schema is not optional; the other keywords
   * skip undefined instances.
   */
  lemma UndefinedErrors(s: Schema, parent: Option<Instance>, host: Host)
    requires QuietOnUndefined(s) && Distinct(s.names)
    ensures Errors(Undefined, s, parent, host)
         == if s.optional then [] else [Error(Undefined, s, "optional", NotAllowed)]
  {
    DispatchedNames(s.names);
    UndefinedRun(s, parent, host, Dispatched(s.names));
  }

  /** A defined instance never gets an `optional` error. */
  lemma DefinedNeverMissing(j: Json, s: Schema)
    ensures OptionalErrors(Value(j), s) == []
  {
  }

  // ---------------------------------------------------------------- properties

  /** Whatever validating one declared property reports is part of what `properties` reports. */
  lemma {:induction false} PropertiesFromContains(v: Instance, s: Schema, host: Host, i: nat, k: nat, e: Error)
    requires i <= k < |s.properties|
    requires e in Errors(GetProperty(v, s.properties[k].name), s.properties[k].schema, Some(v), host)
    ensures e in PropertiesFrom(v, s, host, i)
    decreases k - i
  {
    if i < k {
      PropertiesFromContains(v, s, host, i + 1, k, e);
    }
  }

  /** A list of names that contains `optional` reports, among others, what the `optional` check reports. */
  lemma {:induction false} OptionalRuns(v: Instance, s: Schema, parent: Option<Instance>, host: Host, names: seq<string>)
    requires "optional" in names
    ensures forall e :: e in OptionalErrors(v, s) ==> e in RunNames(v, s, parent, host, names)
    decreases |names|
  {
    var init, last := names[..|names| - 1], names[|names| - 1];
    assert names == init + [last];
    assert RunNames(v, s, parent, host, names) == RunNames(v, s, parent, host, init) + NameErrors(v, s, parent, host, last);
    if last == "optional" {
      assert NameErrors(v, s, parent, host, last) == OptionalErrors(v, s);
    } else {
      assert "optional" in init;
      OptionalRuns(v, s, parent, host, init);
    }
  }

  /**
   * Whatever its other keywords, a schema that is not optional reports an
   * undefined instance with its `optional` error.
   */
  lemma MissingReported(s: Schema, parent: Option<Instance>, host: Host)
    requires !s.optional
    ensures Error(Undefined, s, "optional", NotAllowed) in Errors(Undefined, s, parent, host)
  {
    DispatchedNames(s.names);
    OptionalRuns(Undefined, s, parent, host, Dispatched(s.names));
  }

  /**
   * A declared property missing from an object is reported as missing by
   * its own schema, unless that schema is optional.
   */
  lemma MissingPropertyReported(v: Instance, s: Schema, host: Host, k: nat)
    requires TypeOf(v) == TObject && k < |s.properties|
    requires s.properties[k].name !in Keys(v.json.members)
    requires !s.properties[k].schema.optional
    ensures Error(Undefined, s.properties[k].schema, "optional", NotAllowed) in PropertiesErrors(v, s, host)
  {
    var p := s.properties[k];
    assert GetProperty(v, p.name) == Undefined;
    MissingReported(p.schema, Some(v), host);
    PropertiesFromContains(v, s, host, 0, k, Error(Undefined, p.schema, "optional", NotAllowed));
  }

  // ---------------------------------------------------------------- additionalProperties

  /** The keys of `ks` that `declared` does not list, in order. */
  function Undeclared(ks: seq<string>, declared: seq<string>): seq<string> {
    if |ks| == 0 then []
    else (if ks[0] in declared then [] else [ks[0]]) + Undeclared(ks[1..], declared)
  }

  lemma {:induction false} UndeclaredMembers(ks: seq<string>, declared: seq<string>)
    ensures forall x :: x in Undeclared(ks, declared) <==> x in ks && x !in declared
    decreases |ks|
  {
    if |ks| > 0 {
      UndeclaredMembers(ks[1..], declared);
      assert ks == [ks[0]] + ks[1..];
    }
  }

  lemma {:induction false} AdditionalFalseFrom(v: Instance, s: Schema, host: Host, i: nat)
    requires TypeOf(v) == TObject && s.additional == AdditionalFalse && i <= |v.json.members|
    ensures AdditionalFrom(v, s, host, i)
         == seq(|Undeclared(Keys(v.json.members)[i..], DeclaredNames(s))|,
                _ => Error(v, s, "additionalProperties", NotAllowed))
    decreases |v.json.members| - i
  {
    var ks := Keys(v.json.members);
    if i < |ks| {
      AdditionalFalseFrom(v, s, host, i + 1);
      assert ks[i..][1..] == ks[i + 1..];
    }
  }

  /**
   * With `additionalProperties: false`, an object gets one error per own key
   * that `properties` does not declare, and no other error from this keyword.
   */
  lemma AdditionalFalseErrors(v: Instance, s: Schema, host: Host)
    requires TypeOf(v) == TObject && s.additional == AdditionalFalse
    ensures AdditionalErrors(v, s, host)
         == seq(|Undeclared(Keys(v.json.members), DeclaredNames(s))|,
                _ => Error(v, s, "additionalProperties", NotAllowed))
    ensures forall x :: x in Undeclared(Keys(v.json.members), DeclaredNames(s))
                    <==> x in Keys(v.json.members) && x !in DeclaredNames(s)
  {
    AdditionalFalseFrom(v, s, host, 0);
    assert Keys(v.json.members)[0..] == Keys(v.json.members);
    UndeclaredMembers(Keys(v.json.members), DeclaredNames(s));
  }

  lemma {:induction false} AdditionalDeclaredFrom(v: Instance, s: Schema, host: Host, i: nat)
    requires TypeOf(v) == TObject && i <= |v.json.members|
    requires forall k :: i <= k < |v.json.members| ==> v.json.members[k].key in DeclaredNames(s)
    ensures AdditionalFrom(v, s, host, i) == []
    decreases |v.json.members| - i
  {
    if i < |v.json.members| {
      AdditionalDeclaredFrom(v, s, host, i + 1);
    }
  }

  /** The members of `ms` whose keys `declared` does not list, in order. */
  function ExtraMembers(ms: seq<Member>, declared: seq<string>): seq<Member> {
    if |ms| == 0 then []
    else (if ms[0].key in declared then [] else [ms[0]]) + ExtraMembers(ms[1..], declared)
  }

  lemma {:induction false} ExtraMembersSpec(ms: seq<Member>, declared: seq<string>)
    ensures forall m :: m in ExtraMembers(ms, declared) <==> m in ms && m.key !in declared
    decreases |ms|
  {
    if |ms| > 0 {
      ExtraMembersSpec(ms[1..], declared);
      assert ms == [ms[0]] + ms[1..];
    }
  }

  /** Each member's value checked against `additionalProperties` (a schema, false, or the empty schema), in order. */
  function FallbackAll(v: Instance, s: Schema, host: Host, ms: seq<Member>): seq<Error> {
    if |ms| == 0 then [] else ElementFallback(v, s, ms[0].value, host) + FallbackAll(v, s, host, ms[1..])
  }

  lemma {:induction false} AdditionalUndeclaredFrom(v: Instance, s: Schema, host: Host, i: nat)
    requires TypeOf(v) == TObject && i <= |v.json.members|
    ensures AdditionalFrom(v, s, host, i)
         == FallbackAll(v, s, host, ExtraMembers(v.json.members[i..], DeclaredNames(s)))
    decreases |v.json.members| - i
  {
    var ms, d := v.json.members, DeclaredNames(s);
    if i < |ms| {
      AdditionalUndeclaredFrom(v, s, host, i + 1);
      assert ms[i..][0] == ms[i] && ms[i..][1..] == ms[i + 1..];
      var rest := ExtraMembers(ms[i + 1..], d);
      if ms[i].key in d {
        assert ExtraMembers(ms[i..], d) == rest;
      } else {
        assert ExtraMembers(ms[i..], d) == [ms[i]] + rest;
        assert ([ms[i]] + rest)[1..] == rest;
        assert AdditionalFrom(v, s, host, i) == ElementFallback(v, s, ms[i].value, host) + AdditionalFrom(v, s, host, i + 1);
      }
    } else {
      assert ms[i..] == [];
    }
  }

  /**
   * `additionalProperties` checks exactly the own members whose keys
   * `properties` does not declare, in order, each against the
   * additionalProperties schema (or reporting the literal false); keys that
   * `properties` declares are never checked against it.
   */
  lemma AdditionalOnlyUndeclared(v: Instance, s: Schema, host: Host)
    requires TypeOf(v) == TObject
    ensures AdditionalErrors(v, s, host)
         == FallbackAll(v, s, host, ExtraMembers(v.json.members, DeclaredNames(s)))
    ensures forall m :: m in ExtraMembers(v.json.members, DeclaredNames(s))
                    <==> m in v.json.members && m.key !in DeclaredNames(s)
  {
    AdditionalUndeclaredFrom(v, s, host, 0);
    assert v.json.members[0..] == v.json.members;
    ExtraMembersSpec(v.json.members, DeclaredNames(s));
  }

  // ---------------------------------------------------------------- items

  lemma {:induction false} ItemsFromClean(v: Instance, s: Schema, host: Host, i: nat)
    requires TypeOf(v) == TArray && i <= |v.json.elems|
    ensures ItemsFrom(v, s, host, i) == []
        <==> forall k :: i <= k < |v.json.elems| ==> ElementErrors(v, s, host, k) == []
    decreases |v.json.elems| - i
  {
    if i < |v.json.elems| {
      ItemsFromClean(v, s, host, i + 1);
      var here := ElementErrors(v, s, host, i);
      var rest := ItemsFrom(v, s, host, i + 1);
      assert ItemsFrom(v, s, host, i) == here + rest;
      if here + rest == [] {
        assert |here| == 0 && |rest| == 0;
        forall k | i <= k < |v.json.elems| ensures ElementErrors(v, s, host, k) == [] {
          if k > i {
            assert i + 1 <= k;
          }
        }
      } else if here != [] {
        assert ElementErrors(v, s, host, i) != [];
      } else {
        assert rest != [];
      }
    }
  }

  /** With a single `items` schema, an array passes `items` exactly when every element passes that schema. */
  lemma ItemsSchemaClean(v: Instance, s: Schema, host: Host)
    requires TypeOf(v) == TArray && s.items.ItemsSchema?
    ensures ItemsErrors(v, s, host) == []
        <==> forall k :: 0 <= k < |v.json.elems| ==>
               Errors(Value(v.json.elems[k]), s.items.schema, Some(v), host) == []
  {
    ItemsFromClean(v, s, host, 0);
    var es := v.json.elems;
    if ItemsErrors(v, s, host) == [] {
      forall k | 0 <= k < |es| ensures Errors(Value(es[k]), s.items.schema, Some(v), host) == [] {
        assert ElementErrors(v, s, host, k) == [];
      }
    } else {
      var k :| 0 <= k < |es| && ElementErrors(v, s, host, k) != [];
      assert Errors(Value(es[k]), s.items.schema, Some(v), host) != [];
    }
  }

  /** An element past the end of the tuple passes `additionalProperties`: its schema, never false, always the empty schema. */
  predicate SurplusAccepted(v: Instance, s: Schema, host: Host, e: Json) {
    match s.additional
    case AdditionalSchema(a) => Errors(Value(e), a, Some(v), host) == []
    case AdditionalFalse => false
    case AdditionalAny => true
  }

  lemma ElementClean(v: Instance, s: Schema, host: Host, k: nat)
    requires TypeOf(v) == TArray && s.items.ItemsTuple? && k < |v.json.elems|
    ensures ElementErrors(v, s, host, k) == []
        <==> if k < |s.items.schemas| then Errors(Value(v.json.elems[k]), s.items.schemas[k], Some(v), host) == []
             else SurplusAccepted(v, s, host, v.json.elems[k])
  {
  }

  /**
   * In tuple form an array passes `items` exactly when each element within
   * the tuple passes its schema `items[k]` and each surplus element passes
   * `additionalProperties`: its schema when it is one, always when it is
   * the empty schema, never when it is false.
   */
  lemma ItemsTupleClean(v: Instance, s: Schema, host: Host)
    requires TypeOf(v) == TArray && s.items.ItemsTuple?
    ensures ItemsErrors(v, s, host) == []
        <==> (forall k :: 0 <= k < |v.json.elems| && k < |s.items.schemas| ==>
                Errors(Value(v.json.elems[k]), s.items.schemas[k], Some(v), host) == [])
             && (forall k :: |s.items.schemas| <= k < |v.json.elems| ==>
                SurplusAccepted(v, s, host, v.json.elems[k]))
    ensures s.additional == AdditionalFalse && |v.json.elems| > |s.items.schemas| ==> ItemsErrors(v, s, host) != []
  {
    ItemsFromClean(v, s, host, 0);
    var es, ts := v.json.elems, s.items.schemas;
    if s.additional == AdditionalFalse && |es| > |ts| {
      ElementClean(v, s, host, |ts|);
    }
    if ItemsErrors(v, s, host) == [] {
      forall k | 0 <= k < |es| && k < |ts| ensures Errors(Value(es[k]), ts[k], Some(v), host) == [] {
        ElementClean(v, s, host, k);
      }
      forall k | |ts| <= k < |es| ensures SurplusAccepted(v, s, host, es[k]) {
        ElementClean(v, s, host, k);
      }
    } else {
      var k :| 0 <= k < |es| && ElementErrors(v, s, host, k) != [];
      ElementClean(v, s, host, k);
    }
  }

  /**
   * A tuple with `additionalProperties: false`: from the end of the tuple
   * on, each surplus element adds exactly one `additionalProperties` error.
   */
  lemma {:induction false} ItemsSurplus(v: Instance, s: Schema, host: Host, i: nat)
    requires TypeOf(v) == TArray && s.items.ItemsTuple? && s.additional == AdditionalFalse
    requires |s.items.schemas| <= i <= |v.json.elems|
    ensures ItemsFrom(v, s, host, i)
         == seq(|v.json.elems| - i, _ => Error(v, s, "additionalProperties", NotAllowed))
    decreases |v.json.elems| - i
  {
    var err := Error(v, s, "additionalProperties", NotAllowed);
    if i < |v.json.elems| {
      ItemsSurplus(v, s, host, i + 1);
      assert ElementErrors(v, s, host, i) == [err];
      assert ItemsFrom(v, s, host, i) == [err] + ItemsFrom(v, s, host, i + 1);
      assert seq(|v.json.elems| - i, _ => err) == [err] + seq(|v.json.elems| - (i + 1), _ => err);
    }
  }

  // ---------------------------------------------------------------- uniqueItems

  /** The `uniqueItems` error for positions x and y. */
  function PairError(v: Instance, s: Schema, x: nat, y: nat): Error {
    Error(v, s, "uniqueItems", IndexPair(x, y))
  }

  lemma {:induction false} RowFromSpec(v: Instance, s: Schema, x: nat, y: nat)
    requires TypeOf(v) == TArray && x < |v.json.elems|
    ensures forall e :: e in RowFrom(v, s, x, y) ==>
              e.detail.IndexPair? && e == PairError(v, s, x, e.detail.y)
              && y <= e.detail.y < |v.json.elems| && Equal(v.json.elems[x], v.json.elems[e.detail.y])
    ensures forall z :: y <= z < |v.json.elems| && Equal(v.json.elems[x], v.json.elems[z]) ==>
              PairError(v, s, x, z) in RowFrom(v, s, x, y)
    decreases |v.json.elems| - y
  {
    if y < |v.json.elems| {
      RowFromSpec(v, s, x, y + 1);
    }
  }

  lemma {:induction false} PairsFromSpec(v: Instance, s: Schema, x: nat)
    requires TypeOf(v) == TArray
    ensures forall e :: e in PairsFrom(v, s, x) ==>
              e.detail.IndexPair? && e == PairError(v, s, e.detail.x, e.detail.y)
              && x <= e.detail.x < e.detail.y < |v.json.elems|
              && Equal(v.json.elems[e.detail.x], v.json.elems[e.detail.y])
    ensures forall p, q :: x <= p < q < |v.json.elems| && Equal(v.json.elems[p], v.json.elems[q]) ==>
              PairError(v, s, p, q) in PairsFrom(v, s, x)
    decreases |v.json.elems| - x
  {
    if x + 1 < |v.json.elems| {
      RowFromSpec(v, s, x, x + 1);
      PairsFromSpec(v, s, x + 1);
    }
  }

  /** Detail `a` names a pair the scan reaches before the pair `b` names: an earlier row, or a later column of the same row. */
  predicate PairBefore(a: Detail, b: Detail) {
    a.IndexPair? && b.IndexPair? && (a.x < b.x || (a.x == b.x && a.y < b.y))
  }

  /** Index-pair errors in strictly increasing scan order (so no pair twice). */
  predicate ScanOrdered(es: seq<Error>) {
    forall i, j :: 0 <= i < j < |es| ==> PairBefore(es[i].detail, es[j].detail)
  }

  lemma OrderedConcat(a: seq<Error>, b: seq<Error>)
    requires ScanOrdered(a) && ScanOrdered(b)
    requires forall i, j :: 0 <= i < |a| && 0 <= j < |b| ==> PairBefore(a[i].detail, b[j].detail)
    ensures ScanOrdered(a + b)
  {
    var c := a + b;
    forall i, j | 0 <= i < j < |c| ensures PairBefore(c[i].detail, c[j].detail) {
      if j < |a| {
        assert c[i] == a[i] && c[j] == a[j];
      } else if i >= |a| {
        assert c[i] == b[i - |a|] && c[j] == b[j - |a|];
      } else {
        assert c[i] == a[i] && c[j] == b[j - |a|];
      }
    }
  }

  lemma {:induction false} RowFromOrdered(v: Instance, s: Schema, x: nat, y: nat)
    requires TypeOf(v) == TArray && x < |v.json.elems|
    ensures ScanOrdered(RowFrom(v, s, x, y))
    decreases |v.json.elems| - y
  {
    var es := v.json.elems;
    if y < |es| {
      RowFromOrdered(v, s, x, y + 1);
      RowFromSpec(v, s, x, y + 1);
      var head := if Equal(es[x], es[y]) then [PairError(v, s, x, y)] else [];
      var rest := RowFrom(v, s, x, y + 1);
      assert RowFrom(v, s, x, y) == head + rest;
      forall i, j | 0 <= i < |head| && 0 <= j < |rest| ensures PairBefore(head[i].detail, rest[j].detail) {
        assert rest[j] in rest;
      }
      OrderedConcat(head, rest);
    }
  }

  lemma {:induction false} PairsFromOrdered(v: Instance, s: Schema, x: nat)
    requires TypeOf(v) == TArray
    ensures ScanOrdered(PairsFrom(v, s, x))
    decreases |v.json.elems| - x
  {
    if x + 1 < |v.json.elems| {
      RowFromOrdered(v, s, x, x + 1);
      RowFromSpec(v, s, x, x + 1);
      PairsFromOrdered(v, s, x + 1);
      PairsFromSpec(v, s, x + 1);
      var row, rest := RowFrom(v, s, x, x + 1), PairsFrom(v, s, x + 1);
      forall i, j | 0 <= i < |row| && 0 <= j < |rest| ensures PairBefore(row[i].detail, rest[j].detail) {
        assert row[i] in row && rest[j] in rest;
      }
      OrderedConcat(row, rest);
    }
  }

  /**
   * On an array with `uniqueItems` set, the errors are exactly the pairs
   * x < y of positions holding equal elements, each with detail {x, y},
   * reported once each, row by row and within a row by increasing y.
   */
  lemma UniqueErrorsSpec(v: Instance, s: Schema)
    requires TypeOf(v) == TArray && s.uniqueItems
    ensures forall e :: e in UniqueErrors(v, s) ==>
              e.detail.IndexPair? && e == PairError(v, s, e.detail.x, e.detail.y)
              && e.detail.x < e.detail.y < |v.json.elems|
              && Equal(v.json.elems[e.detail.x], v.json.elems[e.detail.y])
    ensures forall p, q :: 0 <= p < q < |v.json.elems| && Equal(v.json.elems[p], v.json.elems[q]) ==>
              PairError(v, s, p, q) in UniqueErrors(v, s)
    ensures ScanOrdered(UniqueErrors(v, s))
    ensures forall i, j :: 0 <= i < j < |UniqueErrors(v, s)| ==> UniqueErrors(v, s)[i] != UniqueErrors(v, s)[j]
  {
    PairsFromSpec(v, s, 0);
    PairsFromOrdered(v, s, 0);
  }

  lemma {:induction false} DistinctRow(v: Instance, s: Schema, x: nat, y: nat)
    requires TypeOf(v) == TArray && x < |v.json.elems|
    requires forall q :: y <= q < |v.json.elems| ==> !Equal(v.json.elems[x], v.json.elems[q])
    ensures RowFrom(v, s, x, y) == []
    decreases |v.json.elems| - y
  {
    if y < |v.json.elems| {
      DistinctRow(v, s, x, y + 1);
    }
  }

  lemma {:induction false} DistinctPairs(v: Instance, s: Schema, x: nat)
    requires TypeOf(v) == TArray
    requires forall p, q :: x <= p < q < |v.json.elems| ==> !Equal(v.json.elems[p], v.json.elems[q])
    ensures PairsFrom(v, s, x) == []
    decreases |v.json.elems| - x
  {
    if x + 1 < |v.json.elems| {
      DistinctRow(v, s, x, x + 1);
      DistinctPairs(v, s, x + 1);
    }
  }

  /** An array of pairwise unequal elements passes `uniqueItems`. */
  lemma DistinctItemsPass(v: Instance, s: Schema)
    requires TypeOf(v) == TArray
    requires forall p, q :: 0 <= p < q < |v.json.elems| ==> !Equal(v.json.elems[p], v.json.elems[q])
    ensures UniqueErrors(v, s) == []
  {
    DistinctPairs(v, s, 0);
  }

  /** A repeated (well-formed) element is reported at the pair of its positions. */
  lemma RepeatedItemReported(v: Instance, s: Schema, p: nat, q: nat)
    requires TypeOf(v) == TArray && s.uniqueItems && p < q < |v.json.elems|
    requires v.json.elems[p] == v.json.elems[q] && WellFormed(v.json.elems[p])
    ensures PairError(v, s, p, q) in UniqueErrors(v, s)
  {
    EqualReflexive(v.json.elems[p]);
    UniqueErrorsSpec(v, s);
  }

  // ---------------------------------------------------------------- divisibleBy

  /**
   * For a divisor other than 0 and 1, a number passes `divisibleBy` exactly
   * when it is a whole multiple of the divisor.
   */
  lemma DivisibleByMultiple(v: Instance, s: Schema)
    requires TypeOf(v) == TNumber && s.divisibleBy != 0.0 && s.divisibleBy != 1.0
    ensures DivisibleByErrors(v, s) == [] <==> exists k: int :: v.json.n == Multiple(k, s.divisibleBy)
  {
    var n, d := v.json.n, s.divisibleBy;
    if IsIntegral(n / d) {
      var k := (n / d).Floor;
      assert Multiple(k, d) == (n / d) * d == n;
    }
    if exists k: int :: n == Multiple(k, d) {
      var k: int :| n == Multiple(k, d);
      assert n / d == k as real;
    }
  }

  /** The k-th multiple of d. */
  function Multiple(k: int, d: real): real {
    k as real * d
  }

  /** Divisor 0 rejects every number; divisor 1 (the default) accepts every number. */
  lemma DivisibleByZeroAndOne(v: Instance, s: Schema)
    requires TypeOf(v) == TNumber
    ensures s.divisibleBy == 0.0 ==> DivisibleByErrors(v, s) == [Error(v, s, "divisibleBy", Bound(0.0))]
    ensures s.divisibleBy == 1.0 ==> DivisibleByErrors(v, s) == []
  {
  }

  // ---------------------------------------------------------------- extends

  lemma {:induction false} ExtendsFromClean(v: Instance, s: Schema, parent: Option<Instance>, host: Host, i: nat)
    requires s.extensions.Some? && s.extensions.value.ExtendsList? && i <= |s.extensions.value.schemas|
    ensures ExtendsFrom(v, s, parent, host, i) == []
        <==> forall k :: i <= k < |s.extensions.value.schemas| ==>
               Errors(v, s.extensions.value.schemas[k], parent, host) == []
    decreases |s.extensions.value.schemas| - i
  {
    var es := s.extensions.value.schemas;
    if i < |es| {
      ExtendsFromClean(v, s, parent, host, i + 1);
      var here := Errors(v, es[i], parent, host);
      var rest := ExtendsFrom(v, s, parent, host, i + 1);
      assert ExtendsFrom(v, s, parent, host, i) == here + rest;
      if here + rest == [] {
        assert |here| == 0 && |rest| == 0;
        forall k | i <= k < |es| ensures Errors(v, es[k], parent, host) == [] {
          if k > i {
            assert i + 1 <= k;
          }
        }
      } else if here != [] {
        assert Errors(v, es[i], parent, host) != [];
      } else {
        assert rest != [];
      }
    }
  }

  /** An instance passes `extends` exactly when it passes every extended schema, with the same parent. */
  lemma ExtendsClean(v: Instance, s: Schema, parent: Option<Instance>, host: Host)
    ensures ExtendsErrors(v, s, parent, host) == []
        <==> forall e :: e in Extended(s) ==> Errors(v, e, parent, host) == []
  {
    match s.extensions {
      case None =>
      case Some(ExtendsSchema(x)) =>
        assert Extended(s) == [x];
        if Errors(v, x, parent, host) != [] {
          assert x in Extended(s);
        }
      case Some(ExtendsList(es)) => ExtendsFromClean(v, s, parent, host, 0);
    }
  }

  /** The schemas `extends` names. */
  function Extended(s: Schema): seq<Schema> {
    match s.extensions
    case None => []
    case Some(ExtendsSchema(e)) => [e]
    case Some(ExtendsList(es)) => es
  }

  // ---------------------------------------------------------------- the empty schema

  /** The schema of `{}` is the one createEmptySchema() returns. */
  lemma EmptyDocumentCompiles(host: Host)
    ensures Compile(JObject([]), host) == EmptySchema
  {
  }

  /** Validating against the empty schema runs `optional` alone, so every defined value passes. */
  lemma EmptySchemaValidates(v: Instance, parent: Option<Instance>, host: Host)
    ensures Errors(v, EmptySchema, parent, host) == EmptySchemaErrors(v)
    ensures v.Value? ==> Errors(v, EmptySchema, parent, host) == []
  {
    RunSingleName(v, EmptySchema, parent, host, "optional");
    assert Dispatched(EmptySchema.names) == ["optional"];
  }

  // ---------------------------------------------------------------- compiled documents

  /** A defined instance against a schema of two keywords other than `optional`: those two validators, in order. */
  lemma TwoKeywords(s: Schema, v: Instance, parent: Option<Instance>, host: Host)
    requires |s.names| == 2 && "optional" !in s.names && v.Value?
    ensures Errors(v, s, parent, host)
         == NameErrors(v, s, parent, host, s.names[0]) + NameErrors(v, s, parent, host, s.names[1])
  {
    ErrorsDispatch(v, s, parent, host);
    assert s.names == [s.names[0]] + [s.names[1]];
    RunNamesAppend(v, s, parent, host, [s.names[0]], [s.names[1]]);
    RunSingleName(v, s, parent, host, s.names[0]);
    RunSingleName(v, s, parent, host, s.names[1]);
  }

  /**
   * A schema with the keys `minimum` and `minimumCanEqual`: a number fails
   * it exactly when it is below the minimum, or equal to it while
   * minimumCanEqual is false; the error carries the minimum.
   */
  lemma MinimumSchema(s: Schema, m: real, n: real, parent: Option<Instance>, host: Host)
    requires s.names == ["minimum", "minimumCanEqual"] && s.minimum == Some(m)
    ensures Errors(Value(JNumber(n)), s, parent, host)
         == if n < m || (!s.minimumCanEqual && n == m) then [Error(Value(JNumber(n)), s, "minimum", Bound(m))] else []
  {
    TwoKeywords(s, Value(JNumber(n)), parent, host);
    MinimumNames(Value(JNumber(n)), s, parent, host);
  }

  lemma MinimumNames(v: Instance, s: Schema, parent: Option<Instance>, host: Host)
    ensures NameErrors(v, s, parent, host, "minimum") == MinimumErrors(v, s)
    ensures NameErrors(v, s, parent, host, "minimumCanEqual") == []
  {
  }

  /** The mirror image for `maximum` and `maximumCanEqual`. */
  lemma MaximumSchema(s: Schema, m: real, n: real, parent: Option<Instance>, host: Host)
    requires s.names == ["maximum", "maximumCanEqual"] && s.maximum == Some(m)
    ensures Errors(Value(JNumber(n)), s, parent, host)
         == if n > m || (!s.maximumCanEqual && n == m) then [Error(Value(JNumber(n)), s, "maximum", Bound(m))] else []
  {
    TwoKeywords(s, Value(JNumber(n)), parent, host);
    MaximumNames(Value(JNumber(n)), s, parent, host);
  }

  lemma MaximumNames(v: Instance, s: Schema, parent: Option<Instance>, host: Host)
    ensures NameErrors(v, s, parent, host, "maximum") == MaximumErrors(v, s)
    ensures NameErrors(v, s, parent, host, "maximumCanEqual") == []
  {
  }

  /**
   * A schema with the key `minimum` alone keeps the parser's default for
   * `minimumCanEqual`, so the bound itself passes.
   */
  lemma MinimumInclusiveByDefault(s: Schema, m: real, parent: Option<Instance>, host: Host)
    requires s.names == ["minimum"] && s.minimum == Some(m)
    requires s.minimumCanEqual == ParseCanEqual(Undefined)
    ensures Errors(Value(JNumber(m)), s, parent, host) == []
  {
    ErrorsDispatch(Value(JNumber(m)), s, parent, host);
    RunSingleName(Value(JNumber(m)), s, parent, host, "minimum");
  }

  /** A schema with the keys `minLength` and `maxLength` compares a string's length with both. */
  lemma LengthSchema(s: Schema, a: real, b: real, str: string, parent: Option<Instance>, host: Host)
    requires s.names == ["minLength", "maxLength"] && s.minLength == a && s.maxLength == Some(b)
    ensures Errors(Value(JString(str)), s, parent, host)
         == (if (|str| as real) < a then [Error(Value(JString(str)), s, "minLength", Bound(a))] else [])
          + (if (|str| as real) > b then [Error(Value(JString(str)), s, "maxLength", Bound(b))] else [])
  {
    TwoKeywords(s, Value(JString(str)), parent, host);
    LengthNames(Value(JString(str)), s, parent, host);
  }

  lemma LengthNames(v: Instance, s: Schema, parent: Option<Instance>, host: Host)
    ensures NameErrors(v, s, parent, host, "minLength") == MinLengthErrors(v, s)
    ensures NameErrors(v, s, parent, host, "maxLength") == MaxLengthErrors(v, s)
  {
  }

  /** A schema with the keys `minItems` and `maxItems` compares an array's length with both. */
  lemma CountSchema(s: Schema, a: real, b: real, es: seq<Json>, parent: Option<Instance>, host: Host)
    requires s.names == ["minItems", "maxItems"] && s.minItems == a && s.maxItems == Some(b)
    ensures Errors(Value(JArray(es)), s, parent, host)
         == (if (|es| as real) < a then [Error(Value(JArray(es)), s, "minItems", Bound(a))] else [])
          + (if (|es| as real) > b then [Error(Value(JArray(es)), s, "maxItems", Bound(b))] else [])
  {
    var v := Value(JArray(es));
    TwoKeywords(s, v, parent, host);
    assert s.names[0] == "minItems" && s.names[1] == "maxItems";
    CountNames(v, s, parent, host);
  }

  lemma CountNames(v: Instance, s: Schema, parent: Option<Instance>, host: Host)
    ensures NameErrors(v, s, parent, host, "minItems") == MinItemsErrors(v, s)
    ensures NameErrors(v, s, parent, host, "maxItems") == MaxItemsErrors(v, s)
  {
  }

  /**
   * Each keyword ignores instances of the types it does not constrain, and
   * `uniqueItems` checks nothing unless it is set.
   */
  lemma BoundsOwnTypeOnly(v: Instance, s: Schema, host: Host)
    ensures TypeOf(v) != TNumber ==> MinimumErrors(v, s) == [] && MaximumErrors(v, s) == [] && DivisibleByErrors(v, s) == []
    ensures TypeOf(v) != TArray ==> MinItemsErrors(v, s) == [] && MaxItemsErrors(v, s) == [] && UniqueErrors(v, s) == []
    ensures TypeOf(v) != TString ==> MinLengthErrors(v, s) == [] && MaxLengthErrors(v, s) == []
    ensures TypeOf(v) != TObject ==> PropertiesErrors(v, s, host) == [] && AdditionalErrors(v, s, host) == []
    ensures TypeOf(v) != TArray ==> ItemsErrors(v, s, host) == []
    ensures !s.uniqueItems ==> UniqueErrors(v, s) == []
  {
  }

  // ---------------------------------------------------------------- requires, pattern, format

  /**
   * A sibling requirement fails exactly when the parent lacks the named
   * property: an object lacks the member, or an array has neither an element
   * under that index name nor the name "length"; other parents lack every name.
   */
  lemma RequiresSiblingSpec(v: Instance, s: Schema, p: Instance, host: Host, n: string)
    requires v.Value? && p.Value? && s.requirement == Some(RequiresSibling(n))
    ensures RequiresErrors(v, s, Some(p), host)
         == if || (p.json.JObject? && n in Keys(p.json.members))
               || (p.json.JArray? && (n == "length" || (ArrayIndex(n).Some? && ArrayIndex(n).value < |p.json.elems|)))
            then [] else [Error(v, s, "requires", SiblingName(n))]
  {
  }

  /**
   * Under `items` the parent is the array itself: a requirement naming an
   * index of the array, written as String(index), is met, one past the end is not.
   */
  lemma RequiresArrayIndex(v: Instance, s: Schema, es: seq<Json>, host: Host, i: nat)
    requires v.Value? && s.requirement == Some(RequiresSibling(Decimal(i)))
    ensures RequiresErrors(v, s, Some(Value(JArray(es))), host) == []
        <==> i < |es|
  {
    IndexOfDecimal(i);
    RequiresSiblingSpec(v, s, Value(JArray(es)), host, Decimal(i));
  }

  /** A schema requirement validates the parent, with no parent of its own. */
  lemma RequiresSchemaSpec(v: Instance, s: Schema, p: Instance, host: Host, r: Schema)
    requires v.Value? && p.Value? && s.requirement == Some(RequiresSchema(r))
    ensures RequiresErrors(v, s, Some(p), host) == Errors(p, r, None, host)
  {
  }

  /** An undefined instance, or one without a defined parent, is never checked by `requires`. */
  lemma RequiresNeedsBoth(v: Instance, s: Schema, parent: Option<Instance>, host: Host)
    requires v.Undefined? || parent.None? || parent.value.Undefined?
    ensures RequiresErrors(v, s, parent, host) == []
  {
  }

  /**
   * `pattern` appends at most one error: always when the expression did not
   * compile, otherwise exactly when the instance is a string it does not match.
   */
  lemma PatternSpec(v: Instance, s: Schema, host: Host)
    ensures |PatternErrors(v, s, host)| <= 1
    ensures PatternErrors(v, s, host) != []
        <==> s.pattern.Some?
             && (s.pattern.value.InvalidRegex? || (TypeOf(v) == TString && !host.matches(s.pattern.value.source, v.json.s)))
    ensures forall e :: e in PatternErrors(v, s, host) ==> e.keyword == "pattern"
  {
  }

  /** The `pattern` attribute of a string is a compiled expression exactly when the engine accepts it. */
  lemma PatternParsed(src: string, host: Host)
    ensures ParsePattern(Value(JString(src)), host) == Some(if host.compiles(src) then Regex(src) else InvalidRegex(src))
    ensures ParsePattern(Undefined, host).None?
  {
  }

  /** `format` reports a string its registered format validator rejects; unknown formats never fail. */
  lemma FormatSpec(v: Instance, s: Schema, host: Host)
    ensures FormatErrors(v, s, host) != []
        <==> TypeOf(v) == TString && s.format.Some? && s.format.value in host.formats
             && !host.formats[s.format.value](v.json.s)
    ensures s.format.Some? && s.format.value !in host.formats ==> FormatErrors(v, s, host) == []
    ensures FormatErrors(v, s, host) != [] ==> FormatErrors(v, s, host) == [Error(v, s, "format", FormatName(s.format.value))]
  {
  }
}
