/**
 * The hyper-schema `links` parser: selects a schema's link descriptions by
 * relation and, given an instance, expands each `href` template against it.
 */
module HyperLinks {
  import opened Wrappers
  import opened JsonInstance

  /** A link description object: its relation (if any) and its href template. */
  datatype Link = Link(rel: Option<string>, href: string)

  /** What the parser returns: the link objects, or their expanded targets. */
  datatype LinksValue = Links(links: seq<Link>) | Hrefs(hrefs: seq<string>)

  /** One piece of an href template: literal text, or a `{name}` placeholder. */
  datatype Piece = Text(text: string) | Hole(name: string)

  // ---------------------------------------------------------------- href templates

  /** Index of the first `}` at or after `i`. */
  function FirstClose(s: string, i: nat): (r: Option<nat>)
    requires i <= |s|
    ensures r.Some? ==> i <= r.value < |s| && s[r.value] == '}'
    ensures r.Some? ==> forall k :: i <= k < r.value ==> s[k] != '}'
    ensures r.None? ==> forall k :: i <= k < |s| ==> s[k] != '}'
    decreases |s| - i
  {
    if i == |s| then None
    else if s[i] == '}' then Some(i)
    else FirstClose(s, i + 1)
  }

  /**
   * The placeholder `\{([^}]+)\}` matched at the start of `s`: the index of
   * its closing brace. The name between the braces is non-empty and holds no `}`.
   */
  function Placeholder(s: string): (r: Option<nat>)
    ensures r.Some? ==> 2 <= r.value < |s| && s[0] == '{' && s[r.value] == '}'
    ensures r.Some? ==> forall k :: 1 <= k < r.value ==> s[k] != '}'
    ensures r.None? && 0 < |s| && s[0] == '{' ==> |s| < 2 || s[1] == '}' || forall k :: 1 <= k < |s| ==> s[k] != '}'
  {
    if |s| == 0 || s[0] != '{' then None
    else match FirstClose(s, 1)
      case Some(j) => if j >= 2 then Some(j) else None
      case None => None
  }

  /**
   * `href.replace(/\{([^}]+)\}/g, ...)`: every placeholder, scanning left to
   * right, is replaced by `lookup` of its name; all other text is kept.
   */
  function Expand(s: string, lookup: string -> string): string
    decreases |s|
  {
    if |s| == 0 then ""
    else match Placeholder(s)
      case Some(j) => lookup(s[1..j]) + Expand(s[j + 1..], lookup)
      case None => [s[0]] + Expand(s[1..], lookup)
  }

  /** The href text a template is written as. */
  function Render(ps: seq<Piece>): string {
    if |ps| == 0 then ""
    else
      match ps[0]
      case Text(t) => t + Render(ps[1..])
      case Hole(n) => "{" + n + "}" + Render(ps[1..])
  }

  /** The text a template denotes once each placeholder is replaced by `lookup` of its name. */
  function Fill(ps: seq<Piece>, lookup: string -> string): string {
    if |ps| == 0 then ""
    else
      match ps[0]
      case Text(t) => t + Fill(ps[1..], lookup)
      case Hole(n) => lookup(n) + Fill(ps[1..], lookup)
  }

  /** Literal text holds no `{`; placeholder names are non-empty and hold no `}`. */
  predicate Plain(p: Piece) {
    match p
    case Text(t) => '{' !in t
    case Hole(n) => n != "" && '}' !in n
  }

  /** Text without `{` passes through expansion unchanged. */
  lemma {:induction false} ExpandText(t: string, rest: string, lookup: string -> string)
    requires '{' !in t
    ensures Expand(t + rest, lookup) == t + Expand(rest, lookup)
    decreases |t|
  {
    if |t| > 0 {
      var s := t + rest;
      assert s[0] == t[0] && Placeholder(s).None?;
      assert s[1..] == t[1..] + rest;
      ExpandText(t[1..], rest, lookup);
    } else {
      assert t + rest == rest;
    }
  }

  /** Text without `}`, stray `{` included, has no placeholder and is kept as it is. */
  lemma {:induction false} ExpandNoClose(t: string, lookup: string -> string)
    requires '}' !in t
    ensures Expand(t, lookup) == t
    decreases |t|
  {
    if |t| > 0 {
      assert Placeholder(t).None?;
      assert t == [t[0]] + t[1..];
      ExpandNoClose(t[1..], lookup);
    }
  }

  /** A placeholder whose name is non-empty and holds no `}` is replaced by `lookup` of that name. */
  lemma ExpandHole(n: string, rest: string, lookup: string -> string)
    requires n != "" && '}' !in n
    ensures Expand("{" + n + "}" + rest, lookup) == lookup(n) + Expand(rest, lookup)
  {
    var s := "{" + n + "}" + rest;
    var j := |n| + 1;
    assert s[j] == '}';
    forall k | 1 <= k < j ensures s[k] != '}' {
      assert s[k] == n[k - 1];
    }
    assert FirstClose(s, 1) == Some(j);
    assert s[1..j] == n;
    assert s[j + 1..] == rest;
  }

  /** Expanding a well-formed template substitutes exactly its placeholders. */
  lemma {:induction false} ExpandRender(ps: seq<Piece>, lookup: string -> string)
    requires forall i :: 0 <= i < |ps| ==> Plain(ps[i])
    ensures Expand(Render(ps), lookup) == Fill(ps, lookup)
  {
    if |ps| > 0 {
      ExpandRender(ps[1..], lookup);
      match ps[0]
      case Text(t) =>
        ExpandText(t, Render(ps[1..]), lookup);
      case Hole(n) =>
        assert "{" + n + "}" + Render(ps[1..]) == Render(ps);
        ExpandHole(n, Render(ps[1..]), lookup);
    }
  }

  // ---------------------------------------------------------------- the parser

  /** The value substituted for `{name}`: String(value) of the instance's property, or "" when undefined. */
  function Substitution(target: Json, show: Json -> string, name: string): (r: string)
    ensures GetProperty(Value(target), name).Undefined? ==> r == ""
    ensures GetProperty(Value(target), name).Value? ==> r == show(GetProperty(Value(target), name).json)
  {
    match GetProperty(Value(target), name)
    case Undefined => ""
    case Value(j) => show(j)
  }

  /** The replacement function handed to `replace` for an instance. */
  function Lookup(target: Json, show: Json -> string): string -> string {
    name => Substitution(target, show, name)
  }

  /**
   * The target of one link: the href with its placeholders replaced; an empty
   * result stays empty, any other is resolved against the instance and formatted.
   */
  function Target(l: Link, target: Json, show: Json -> string, resolve: string -> string): string {
    var href := Expand(l.href, Lookup(target, show));
    if href == "" then "" else resolve(href)
  }

  /** The links whose `rel` is `rel`, in their order. */
  function Filter(links: seq<Link>, rel: string): (r: seq<Link>)
    ensures |r| <= |links|
  {
    if |links| == 0 then []
    else (if links[0].rel == Some(rel) then [links[0]] else []) + Filter(links[1..], rel)
  }

  /**
   * The parser with arg = [rel, instance]: a truthy `rel` keeps only the links
   * of that relation; a given instance turns each kept link into its target.
   */
  function ParseLinks(links: seq<Link>, rel: Option<string>, target: Option<Json>,
                      show: Json -> string, resolve: string -> string): (r: LinksValue)
    ensures target.None? <==> r.Links?
    ensures rel.None? || rel.value == "" ==>
      if target.None? then r.links == links else |r.hrefs| == |links|
  {
    var kept := if rel.Some? && rel.value != "" then Filter(links, rel.value) else links;
    match target
    case None => Links(kept)
    case Some(t) => Hrefs(seq(|kept|, i requires 0 <= i < |kept| => Target(kept[i], t, show, resolve)))
  }

  // ---------------------------------------------------------------- properties

  /** Filtering keeps exactly the links of the relation. */
  lemma {:induction false} FilterMembers(links: seq<Link>, rel: string, l: Link)
    ensures l in Filter(links, rel) <==> l in links && l.rel == Some(rel)
  {
    if |links| > 0 {
      FilterMembers(links[1..], rel, l);
      assert links == [links[0]] + links[1..];
    }
  }

  /** Filtering keeps the links in their order and drops none of the relation. */
  lemma {:induction false} FilterAll(links: seq<Link>, rel: string)
    ensures (forall i :: 0 <= i < |links| ==> links[i].rel == Some(rel)) <==> Filter(links, rel) == links
  {
    if |links| > 0 {
      FilterAll(links[1..], rel);
      if links[0].rel != Some(rel) {
        assert |Filter(links, rel)| < |links|;
      }
    }
  }

  /** Filtering a concatenation filters each part, in order. */
  lemma {:induction false} FilterAppend(a: seq<Link>, b: seq<Link>, rel: string)
    ensures Filter(a + b, rel) == Filter(a, rel) + Filter(b, rel)
    decreases |a|
  {
    if |a| > 0 {
      assert (a + b)[1..] == a[1..] + b;
      FilterAppend(a[1..], b, rel);
    } else {
      assert a + b == b;
    }
  }

  /** One link is kept, once, exactly when it has the relation. */
  lemma FilterSingle(l: Link, rel: string)
    ensures Filter([l], rel) == if l.rel == Some(rel) then [l] else []
  {
    assert [l][1..] == [];
  }

  /** Links none of which has the relation are all dropped. */
  lemma {:induction false} FilterNone(links: seq<Link>, rel: string)
    requires forall k :: 0 <= k < |links| ==> links[k].rel != Some(rel)
    ensures Filter(links, rel) == []
  {
    if |links| > 0 {
      FilterNone(links[1..], rel);
    }
  }

  /** The last link kept is the last link of the relation. */
  lemma FilterLast(links: seq<Link>, rel: string, j: nat)
    requires j < |links| && links[j].rel == Some(rel)
    requires forall k :: j < k < |links| ==> links[k].rel != Some(rel)
    ensures var kept := Filter(links, rel); |kept| > 0 && kept[|kept| - 1] == links[j]
  {
    var before, after := links[..j], links[j + 1..];
    assert links == before + [links[j]] + after;
    FilterAppend(before + [links[j]], after, rel);
    FilterAppend(before, [links[j]], rel);
    FilterSingle(links[j], rel);
    FilterNone(after, rel);
  }

  /**
   * With a relation and an instance, which is how getLink asks, the hrefs
   * are the targets of the links of that relation, in their order.
   */
  lemma ParseFilteredTargets(links: seq<Link>, rel: string, t: Json, show: Json -> string, resolve: string -> string)
    requires rel != ""
    ensures var r, kept := ParseLinks(links, Some(rel), Some(t), show, resolve), Filter(links, rel);
      && r.Hrefs? && |r.hrefs| == |kept|
      && forall i :: 0 <= i < |kept| ==> r.hrefs[i] == Target(kept[i], t, show, resolve)
  {
  }

  /** The last href of that answer is the target of the last link of the relation. */
  lemma ParseLastTarget(links: seq<Link>, rel: string, j: nat, t: Json, show: Json -> string, resolve: string -> string)
    requires rel != "" && j < |links| && links[j].rel == Some(rel)
    requires forall k :: j < k < |links| ==> links[k].rel != Some(rel)
    ensures var r := ParseLinks(links, Some(rel), Some(t), show, resolve);
      r.Hrefs? && |r.hrefs| > 0 && r.hrefs[|r.hrefs| - 1] == Target(links[j], t, show, resolve)
  {
    FilterLast(links, rel, j);
    ParseFilteredTargets(links, rel, t, show, resolve);
  }

  /** With a relation and no instance, the parser returns the links of that relation. */
  lemma ParseFilters(links: seq<Link>, rel: string, show: Json -> string, resolve: string -> string, l: Link)
    requires rel != ""
    ensures ParseLinks(links, Some(rel), None, show, resolve).Links?
    ensures ParseLinks(links, Some(rel), None, show, resolve).links == Filter(links, rel)
    ensures l in ParseLinks(links, Some(rel), None, show, resolve).links <==> l in links && l.rel == Some(rel)
  {
    FilterMembers(links, rel, l);
  }

  /**
   * With an instance and no relation, the i-th target is the i-th link's
   * template with each placeholder replaced by String() of the instance's
   * property of that name ("" when absent), resolved unless it came out empty.
   */
  lemma ParseTargets(links: seq<Link>, ps: seq<Piece>, i: nat, target: Json,
                     show: Json -> string, resolve: string -> string)
    requires i < |links| && links[i].href == Render(ps)
    requires forall k :: 0 <= k < |ps| ==> Plain(ps[k])
    ensures var r := ParseLinks(links, None, Some(target), show, resolve);
      var href := Fill(ps, Lookup(target, show));
      r.Hrefs? && |r.hrefs| == |links| && r.hrefs[i] == if href == "" then "" else resolve(href)
  {
    ExpandRender(ps, Lookup(target, show));
    var r := ParseLinks(links, None, Some(target), show, resolve);
    assert r.hrefs[i] == Target(links[i], target, show, resolve);
  }

  /** A link whose href is one placeholder for a property the instance lacks has the empty target. */
  lemma AbsentPropertyEmptyTarget(l: Link, name: string, target: Json, show: Json -> string, resolve: string -> string)
    requires name != "" && '}' !in name && l.href == "{" + name + "}"
    requires GetProperty(Value(target), name).Undefined?
    ensures Target(l, target, show, resolve) == ""
  {
    ExpandHole(name, "", Lookup(target, show));
    assert Lookup(target, show)(name) == "";
    assert l.href == "{" + name + "}" + "";
  }

  /** A link whose href is one placeholder for a property the instance has targets String() of that property, resolved unless empty. */
  lemma PresentPropertyTarget(l: Link, name: string, target: Json, show: Json -> string, resolve: string -> string)
    requires name != "" && '}' !in name && l.href == "{" + name + "}"
    requires GetProperty(Value(target), name).Value?
    ensures var text := show(GetProperty(Value(target), name).json);
      Target(l, target, show, resolve) == if text == "" then "" else resolve(text)
  {
    var lookup := Lookup(target, show);
    ExpandHole(name, "", lookup);
    assert l.href == "{" + name + "}" + "";
    assert Expand("", lookup) == "";
    assert Expand(l.href, lookup) == lookup(name) + "";
    assert lookup(name) + "" == lookup(name);
    assert lookup(name) == show(GetProperty(Value(target), name).json);
  }
}
