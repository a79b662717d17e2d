/**
 * Two places where lib/json-schema-draft-02.js does not do what it evidently
 * means to, each modelled as written beside the input that shows the
 * difference. The rest of the model uses the corrected definitions
 * (Keywords.AdditionalErrors and HyperLinks.Expand).
 */
module Findings {
  import opened Wrappers
  import opened JsonInstance
  import opened Schemas
  import opened Keywords
  import opened HyperLinks

  // ---------------------------------------------------------------- additionalProperties

  /**
   * Names every plain JavaScript object inherits from Object.prototype. Looking
   * one of them up in the `properties` attribute yields a truthy function (or
   * the prototype itself) even when the schema declares no such property.
   */
  const PrototypeNames: seq<string> := [
    "constructor", "hasOwnProperty", "isPrototypeOf", "propertyIsEnumerable",
    "toLocaleString", "toString", "valueOf",
    "__defineGetter__", "__defineSetter__", "__lookupGetter__", "__lookupSetter__"]

  /**
   * The additionalProperties validator as written: a key counts as declared
   * when `propertySchemas[key]` is truthy, which every inherited name is.
   */
  function AdditionalAsWritten(v: Instance, s: Schema, host: Host): seq<Error> {
    if TypeOf(v) == TObject then AdditionalAsWrittenFrom(v, s, host, 0) else []
  }

  function AdditionalAsWrittenFrom(v: Instance, s: Schema, host: Host, i: nat): seq<Error>
    requires TypeOf(v) == TObject
    decreases |v.json.members| - i
  {
    var ms := v.json.members;
    if i >= |ms| then []
    else
      var here :=
        if ms[i].key in DeclaredNames(s) || ms[i].key in PrototypeNames then []
        else match s.additional
          case AdditionalSchema(a) => Errors(Value(ms[i].value), a, Some(v), host)
          case AdditionalFalse => [Error(v, s, "additionalProperties", NotAllowed)]
          case AdditionalAny => EmptySchemaErrors(Value(ms[i].value));
      here + AdditionalAsWrittenFrom(v, s, host, i + 1)
  }

  /**
   * `{"constructor": 1}` against a schema that declares no properties and sets
   * additionalProperties to false: the validator as written reports nothing,
   * the corrected one reports the extra key.
   */
  lemma InheritedNameSlipsThrough(s: Schema, host: Host)
    requires s.properties == [] && s.additional == AdditionalFalse
    ensures var v := Value(JObject([Member("constructor", JNumber(1.0))]));
      AdditionalAsWritten(v, s, host) == []
      && AdditionalErrors(v, s, host) == [Error(v, s, "additionalProperties", NotAllowed)]
  {
    var v := Value(JObject([Member("constructor", JNumber(1.0))]));
    assert v.json.members[0].key in PrototypeNames;
    assert DeclaredNames(s) == [];
    assert AdditionalFrom(v, s, host, 1) == [];
    assert AdditionalAsWrittenFrom(v, s, host, 1) == [];
  }

  /** On objects without inherited names as keys the two validators agree. */
  lemma {:induction false} AsWrittenAgreesFrom(v: Instance, s: Schema, host: Host, i: nat)
    requires TypeOf(v) == TObject
    requires forall k :: 0 <= k < |v.json.members| ==> v.json.members[k].key !in PrototypeNames
    ensures AdditionalAsWrittenFrom(v, s, host, i) == AdditionalFrom(v, s, host, i)
    decreases |v.json.members| - i
  {
    if i < |v.json.members| {
      AsWrittenAgreesFrom(v, s, host, i + 1);
    }
  }

  lemma AsWrittenAgrees(v: Instance, s: Schema, host: Host)
    requires TypeOf(v) == TObject
    requires forall k :: 0 <= k < |v.json.members| ==> v.json.members[k].key !in PrototypeNames
    ensures AdditionalAsWritten(v, s, host) == AdditionalErrors(v, s, host)
  {
    AsWrittenAgreesFrom(v, s, host, 0);
  }

  // ---------------------------------------------------------------- links href templates

  predicate LineTerminator(c: char) {
    c == '\n' || c == '\r' || c == '\U{2028}' || c == '\U{2029}'
  }

  /** Index of the first line terminator at or after `i`, or |s|: where `.` stops matching. */
  function LineEnd(s: string, i: nat): (r: nat)
    requires i <= |s|
    ensures i <= r <= |s|
    ensures forall k :: i <= k < r ==> !LineTerminator(s[k])
    ensures r < |s| ==> LineTerminator(s[r])
    decreases |s| - i
  {
    if i == |s| || LineTerminator(s[i]) then i else LineEnd(s, i + 1)
  }

  /** Index of the last `}` in s[lo..hi]. */
  function LastClose(s: string, lo: nat, hi: nat): (r: Option<nat>)
    requires lo <= hi <= |s|
    ensures r.Some? ==> lo <= r.value < hi && s[r.value] == '}'
    ensures r.Some? ==> forall k :: r.value < k < hi ==> s[k] != '}'
    ensures r.None? ==> forall k :: lo <= k < hi ==> s[k] != '}'
    decreases hi
  {
    if hi == lo then None
    else if s[hi - 1] == '}' then Some(hi - 1)
    else LastClose(s, lo, hi - 1)
  }

  /**
   * The placeholder `\{(.+)\}` matched at the start of `s`: the greedy `.+`
   * runs to the end of the line and backs off to the LAST `}` on it.
   */
  function GreedyPlaceholder(s: string): (r: Option<nat>)
    ensures r.Some? ==> 2 <= r.value < |s| && s[0] == '{' && s[r.value] == '}'
    ensures r.Some? ==> r.value < LineEnd(s, 1) && forall k :: r.value < k < LineEnd(s, 1) ==> s[k] != '}'
    ensures r.None? && 0 < |s| && s[0] == '{' ==> forall k :: 2 <= k < LineEnd(s, 1) ==> s[k] != '}'
  {
    if |s| == 0 || s[0] != '{' then None
    else
      var e := LineEnd(s, 1);
      if e < 2 then None else LastClose(s, 2, e)
  }

  /** `href.replace(/\{(.+)\}/g, ...)` as written. */
  function ExpandAsWritten(s: string, lookup: string -> string): string
    decreases |s|
  {
    if |s| == 0 then ""
    else match GreedyPlaceholder(s)
      case Some(j) => lookup(s[1..j]) + ExpandAsWritten(s[j + 1..], lookup)
      case None => [s[0]] + ExpandAsWritten(s[1..], lookup)
  }

  /**
   * The href `{a}/{b}` as written makes ONE lookup, of the name `a}/{b`;
   * the intended expansion looks up `a` and `b` separately.
   */
  lemma TwoPlaceholdersMerge(lookup: string -> string)
    ensures ExpandAsWritten("{a}/{b}", lookup) == lookup("a}/{b")
    ensures Expand("{a}/{b}", lookup) == lookup("a") + "/" + lookup("b")
  {
    MergedAsWritten(lookup);
    SeparateIntended(lookup);
  }

  /** As written, `{a}/{b}` is one greedy placeholder spanning the whole href. */
  lemma MergedAsWritten(lookup: string -> string)
    ensures ExpandAsWritten("{a}/{b}", lookup) == lookup("a}/{b")
  {
    var s := "{a}/{b}";
    assert LineEnd(s, 1) == 7;
    assert GreedyPlaceholder(s) == Some(6);
    assert s[1..6] == "a}/{b";
    assert s[7..] == "";
  }

  /** As intended, `{a}/{b}` is the template hole a, text "/", hole b. */
  lemma SeparateIntended(lookup: string -> string)
    ensures Expand("{a}/{b}", lookup) == lookup("a") + "/" + lookup("b")
  {
    FirstHole(lookup);
    SecondHole(lookup);
  }

  /** The first placeholder `{a}` is replaced and the rest expanded. */
  lemma FirstHole(lookup: string -> string)
    ensures Expand("{a}/{b}", lookup) == lookup("a") + Expand("/{b}", lookup)
  {
    assert "{a}/{b}" == "{" + "a" + "}" + "/{b}";
    ExpandHole("a", "/{b}", lookup);
  }

  /** The rest `/{b}` keeps its text and replaces `{b}`. */
  lemma SecondHole(lookup: string -> string)
    ensures Expand("/{b}", lookup) == "/" + lookup("b")
  {
    assert "/{b}" == "/" + "{b}";
    ExpandText("/", "{b}", lookup);
    assert "{b}" == "{" + "b" + "}" + "";
    ExpandHole("b", "", lookup);
  }

  /** With the identity lookup the two expansions of `{a}/{b}` differ. */
  lemma TwoPlaceholdersDiffer()
    ensures ExpandAsWritten("{a}/{b}", name => name) != Expand("{a}/{b}", name => name)
  {
    var id := (name: string) => name;
    TwoPlaceholdersMerge(id);
    assert ExpandAsWritten("{a}/{b}", id)[1] == '}';
    assert Expand("{a}/{b}", id) == "a/b";
  }

  /** Hrefs without `{` are left alone by both versions. */
  lemma {:induction false} NoPlaceholderAgrees(t: string, lookup: string -> string)
    requires '{' !in t
    ensures ExpandAsWritten(t, lookup) == t
    ensures Expand(t, lookup) == t
    decreases |t|
  {
    if |t| > 0 {
      NoPlaceholderAgrees(t[1..], lookup);
    }
  }
}
