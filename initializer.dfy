/**
 * The meta-schema's `initializer`: run on every schema object the environment
 * creates, it canonicalises the object by following its `full` and
 * `describedby` links, merging a single `extends` schema into a new object,
 * and adopting the URI of its `self` link.
 */
module Initializer {
  import opened Wrappers
  import opened JsonInstance

  /** A JSONSchema object: its document, the schema describing it, and its URI. */
  class SchemaObject {
    const value: Json
    var meta: SchemaObject?
    var uri: string

    constructor (value: Json, meta: SchemaObject?, uri: string)
      ensures this.value == value && this.meta == meta && this.uri == uri
    {
      this.value := value;
      this.meta := meta;
      this.uri := uri;
    }
  }

  /**
   * getLink(rel, instance) of a schema, as a function of the describing
   * schema's document, the relation and the instance's document; "" when
   * there is no such link (a falsy result in the source).
   */
  type LinkOf = (Json, string, Json) -> string

  /** How the initializer finished. */
  datatype Outcome =
    | Redirected(link: string)  // returned the registered schema behind the `full` link
    | Settled                   // no further link applies; extends merged and self adopted
    | Unsettled                 // the bound on `describedby` steps ran out

  /**
   * The extension to merge: the `extends` attribute when it is a single schema
   * (an object), which isJSONSchema accepts; an array of schemas is not merged.
   */
  function Extension(doc: Json): (r: Option<Json>)
    ensures r.Some? <==> Field(doc, "extends").Value? && Field(doc, "extends").json.JObject?
    ensures r.Some? ==> r.value == Field(doc, "extends").json && r.value < doc
  {
    match Field(doc, "extends")
    case Value(JObject(ms)) => Some(JObject(ms))
    case _ => None
  }

  /** The `full` link leads to a different URI that the environment has registered. */
  predicate FullApplies(o: SchemaObject, registry: map<string, SchemaObject>, getLink: LinkOf)
    requires o.meta != null
    reads o, o.meta
  {
    var link := getLink(o.meta.value, "full", o.value);
    link != "" && o.uri != link && link in registry
  }

  /** The `describedby` link leads to a registered schema other than the current one. */
  predicate DescribedApplies(o: SchemaObject, registry: map<string, SchemaObject>, getLink: LinkOf)
    requires o.meta != null
    reads o, o.meta
  {
    var link := getLink(o.meta.value, "describedby", o.value);
    link != "" && o.meta.uri != link && link in registry
  }

  /** The URI the `self` link gives, else the one already held. */
  function SelfUri(self: string, uri: string): (r: string)
    ensures self != "" ==> r == self
    ensures self == "" ==> r == uri
  {
    if self != "" then self else uri
  }

  /**
   * The `do ... while (true)` loop. The source loops for ever when
   * `describedby` links form a cycle; here at most `fuel` describedby steps
   * are taken before the outcome is Unsettled. createSchema(merged, meta, uri)
   * is a fresh object with those fields.
   */
  method Resolve(inst: SchemaObject, registry: map<string, SchemaObject>, getLink: LinkOf,
                 merge: (Json, Json) -> Json, fuel: nat)
    returns (r: SchemaObject, outcome: Outcome)
    requires inst.meta != null
    modifies inst
    ensures inst.meta != null && inst.uri == old(inst.uri)
    ensures inst.meta == old(inst.meta) || inst.meta in registry.Values
    ensures outcome.Redirected? ==>
      && outcome.link == getLink(inst.meta.value, "full", inst.value)
      && FullApplies(inst, registry, getLink)
      && r == registry[outcome.link]
    ensures outcome.Unsettled? ==> r == inst && DescribedApplies(inst, registry, getLink)
    ensures outcome.Settled? ==>
      && !FullApplies(inst, registry, getLink)
      && !DescribedApplies(inst, registry, getLink)
      && match Extension(inst.value) {
        case Some(ext) =>
          fresh(r) && r.value == merge(ext, inst.value) && r.meta == inst.meta && r.uri == inst.uri
        case None => r == inst
      }
    ensures (forall m, rel, d :: getLink(m, rel, d) == "") ==> outcome.Settled? && inst.meta == old(inst.meta)
  {
    var remaining := fuel;
    while true
      invariant inst.meta != null
      invariant inst.meta == old(inst.meta) || inst.meta in registry.Values
      invariant inst.uri == old(inst.uri)
      invariant (forall m, rel, d :: getLink(m, rel, d) == "") ==> inst.meta == old(inst.meta)
      decreases remaining
    {
      // a link to the full representation replaces the instance
      var full := getLink(inst.meta.value, "full", inst.value);
      if full != "" && inst.uri != full && full in registry {
        return registry[full], Redirected(full);
      }
      // a link to a different describing schema rebinds it, and the loop starts over
      var described := getLink(inst.meta.value, "describedby", inst.value);
      if described != "" && inst.meta.uri != described && described in registry {
        if remaining == 0 {
          return inst, Unsettled;
        }
        inst.meta := registry[described];
        remaining := remaining - 1;
      } else {
        break;
      }
    }
    r := inst;
    match Extension(inst.value) {
      case Some(ext) =>
        r := new SchemaObject(merge(ext, inst.value), inst.meta, inst.uri);
      case None =>
    }
    outcome := Settled;
  }

  /**
   * The initializer: Resolve, then, unless the `full` link redirected, the
   * resulting object takes the URI of its `self` link when it has one.
   */
  method Initialize(inst: SchemaObject, registry: map<string, SchemaObject>, getLink: LinkOf,
                    merge: (Json, Json) -> Json, fuel: nat)
    returns (r: SchemaObject, outcome: Outcome)
    requires inst.meta != null
    modifies inst
    ensures r.meta != null || outcome.Redirected?
    ensures outcome.Redirected? ==> outcome.link in registry && r == registry[outcome.link] && inst.uri == old(inst.uri)
    ensures outcome.Unsettled? ==> r == inst && inst.uri == old(inst.uri)
    ensures outcome.Settled? ==>
      && r.meta == inst.meta
      && r.uri == SelfUri(getLink(r.meta.value, "self", r.value), old(inst.uri))
      && match Extension(inst.value) {
        case Some(ext) => fresh(r) && r.value == merge(ext, inst.value) && inst.uri == old(inst.uri)
        case None => r == inst
      }
    ensures (forall m, rel, d :: getLink(m, rel, d) == "") && Extension(inst.value).None? ==>
      outcome.Settled? && r == inst && inst.meta == old(inst.meta) && inst.uri == old(inst.uri)
  {
    r, outcome := Resolve(inst, registry, getLink, merge, fuel);
    if outcome.Settled? {
      var self := getLink(r.meta.value, "self", r.value);
      if self != "" {
        r.uri := self;
      }
    }
  }
}
