/** Option type shared by the whole model. */
module Wrappers {
  datatype Option<+T> = None | Some(value: T)
}

/**
 * The instance view of a JSON value (JSONInstance in the jsv module): a runtime
 * type tag, total property access that yields `undefined` for absent keys,
 * the children in order, and deep structural equality.
 */
module JsonInstance {
  import opened Wrappers

  /** A parsed JSON value. Numbers are exact reals; objects keep their key order. */
  datatype Json =
    | JNull
    | JBool(b: bool)
    | JNumber(n: real)
    | JString(s: string)
    | JArray(elems: seq<Json>)
    | JObject(members: seq<Member>)

  datatype Member = Member(key: string, value: Json)

  /** What validators see: a JSON value, or `undefined` for an absent property. */
  datatype Instance = Undefined | Value(json: Json)

  /** The tags returned by getType(). */
  datatype TypeTag = TString | TNumber | TBoolean | TObject | TArray | TNull | TUndefined

  function TypeOf(v: Instance): TypeTag {
    match v
    case Undefined => TUndefined
    case Value(j) =>
      match j
      case JNull => TNull
      case JBool(_) => TBoolean
      case JNumber(_) => TNumber
      case JString(_) => TString
      case JArray(_) => TArray
      case JObject(_) => TObject
  }

  /** The keys of an object, in order. */
  function Keys(ms: seq<Member>): (ks: seq<string>)
    ensures |ks| == |ms|
    ensures forall i :: 0 <= i < |ms| ==> ks[i] == ms[i].key
  {
    seq(|ms|, i requires 0 <= i < |ms| => ms[i].key)
  }

  /** Index of the first member at or after `i` whose key is `k`. */
  function Find(ms: seq<Member>, k: string, i: nat): (r: Option<nat>)
    requires i <= |ms|
    ensures r.Some? ==> i <= r.value < |ms| && ms[r.value].key == k
    ensures r.Some? ==> forall j :: i <= j < r.value ==> ms[j].key != k
    ensures r.None? ==> forall j :: i <= j < |ms| ==> ms[j].key != k
    decreases |ms| - i
  {
    if i == |ms| then None
    else if ms[i].key == k then Some(i)
    else Find(ms, k, i + 1)
  }

  /** The value of an object's member `key`, or undefined when the value is not an object or lacks the key. */
  function Field(doc: Json, key: string): (r: Instance)
    ensures r.Value? ==> r.json < doc
    ensures r.Value? <==> doc.JObject? && key in Keys(doc.members)
  {
    if doc.JObject? then
      match Find(doc.members, key, 0)
      case None => Undefined
      case Some(i) => Value(doc.members[i].value)
    else Undefined
  }

  /** A canonical array-index name: decimal digits without a leading zero ("0" itself allowed). */
  predicate IsIndexName(key: string) {
    && |key| > 0
    && (forall k :: 0 <= k < |key| ==> '0' <= key[k] <= '9')
    && (|key| == 1 || key[0] != '0')
  }

  /** The number a string of decimal digits denotes. */
  function DigitsValue(key: string): nat
    requires forall k :: 0 <= k < |key| ==> '0' <= key[k] <= '9'
    decreases |key|
  {
    if |key| == 0 then 0
    else DigitsValue(key[..|key| - 1]) * 10 + ((key[|key| - 1] as int) - ('0' as int))
  }

  /** String(n) for a non-negative integer: its canonical decimal name. */
  function Decimal(n: nat): (r: string)
    ensures IsIndexName(r)
    ensures r[0] == '0' ==> n == 0
  {
    if n < 10 then [(('0' as int) + n) as char]
    else Decimal(n / 10) + [(('0' as int) + n % 10) as char]
  }

  /** The array index a property name denotes, if it is a canonical index name. */
  function ArrayIndex(key: string): (r: Option<nat>)
    ensures r.Some? <==> IsIndexName(key)
    ensures r.Some? ==> Decimal(r.value) == key
  {
    if IsIndexName(key) then
      DecimalOfDigits(key);
      Some(DigitsValue(key))
    else None
  }

  /** Digits with the last one split off denote ten times the rest plus that digit. */
  lemma DigitsAppend(s: string, c: char)
    requires forall k :: 0 <= k < |s| ==> '0' <= s[k] <= '9'
    requires '0' <= c <= '9'
    ensures DigitsValue(s + [c]) == DigitsValue(s) * 10 + ((c as int) - ('0' as int))
  {
    assert (s + [c])[..|s|] == s;
  }

  /** Digits that start with a non-zero digit denote at least 1. */
  lemma {:induction false} LeadingDigitPositive(s: string)
    requires |s| > 0 && (forall k :: 0 <= k < |s| ==> '0' <= s[k] <= '9') && s[0] != '0'
    ensures DigitsValue(s) >= 1
    decreases |s|
  {
    if |s| > 1 {
      LeadingDigitPositive(s[..|s| - 1]);
    }
  }

  /** Rendering the number a canonical index name denotes gives the name back. */
  lemma {:induction false} DecimalOfDigits(key: string)
    requires IsIndexName(key)
    ensures Decimal(DigitsValue(key)) == key
    decreases |key|
  {
    if |key| > 1 {
      var init, c := key[..|key| - 1], key[|key| - 1];
      assert key == init + [c];
      DigitsAppend(init, c);
      LeadingDigitPositive(init);
      DecimalOfDigits(init);
    }
  }

  /** Reading back the canonical name of n gives n. */
  lemma {:induction false} DigitsOfDecimal(n: nat)
    ensures forall k :: 0 <= k < |Decimal(n)| ==> '0' <= Decimal(n)[k] <= '9'
    ensures DigitsValue(Decimal(n)) == n
  {
    if n >= 10 {
      DigitsOfDecimal(n / 10);
      DigitsAppend(Decimal(n / 10), (('0' as int) + n % 10) as char);
    }
  }

  /** Every element index is found under its canonical name. */
  lemma IndexOfDecimal(n: nat)
    ensures ArrayIndex(Decimal(n)) == Some(n)
  {
    DigitsOfDecimal(n);
  }

  /**
   * getProperty(key), which reads `value[key]`: an object's member; an array's
   * element under its canonical index name, or its length under "length";
   * `undefined` otherwise.
   */
  function GetProperty(v: Instance, key: string): (r: Instance)
    ensures r.Value? ==> v.Value? && (v.json.JObject? || v.json.JArray?)
    ensures r.Value? ==> r.json < v.json || (v.json.JArray? && key == "length")
    ensures v.Value? && v.json.JObject? ==> (r.Value? <==> key in Keys(v.json.members))
    ensures v.Value? && v.json.JArray? ==>
      (r.Value? <==> key == "length" || (ArrayIndex(key).Some? && ArrayIndex(key).value < |v.json.elems|))
    ensures v.Value? && v.json.JArray? && key == "length" ==> r == Value(JNumber(|v.json.elems| as real))
    ensures v.Value? && v.json.JArray? && ArrayIndex(key).Some? && ArrayIndex(key).value < |v.json.elems| ==>
      r == Value(v.json.elems[ArrayIndex(key).value])
  {
    if v.Value? && v.json.JObject? then Field(v.json, key)
    else if v.Value? && v.json.JArray? then
      var es := v.json.elems;
      if key == "length" then Value(JNumber(|es| as real))
      else match ArrayIndex(key)
        case Some(i) => if i < |es| then Value(es[i]) else Undefined
        case None => Undefined
    else Undefined
  }

  /** The keys of an object are pairwise distinct at every level, as in any JavaScript object. */
  ghost predicate WellFormed(j: Json) {
    match j
    case JArray(es) => forall i :: 0 <= i < |es| ==> WellFormed(es[i])
    case JObject(ms) =>
      && (forall i, k :: 0 <= i < k < |ms| ==> ms[i].key != ms[k].key)
      && (forall i :: 0 <= i < |ms| ==> WellFormed(ms[i].value))
    case _ => true
  }

  /**
   * equals(): deep structural equality. Numbers compare numerically; arrays by
   * length and position; objects by key set and member-wise equality, whatever
   * the key order.
   */
  predicate Equal(a: Json, b: Json)
    decreases a
  {
    match a
    case JNull => b.JNull?
    case JBool(x) => b.JBool? && b.b == x
    case JNumber(x) => b.JNumber? && b.n == x
    case JString(x) => b.JString? && b.s == x
    case JArray(xs) =>
      && b.JArray?
      && |xs| == |b.elems|
      && forall i :: 0 <= i < |xs| ==> Equal(xs[i], b.elems[i])
    case JObject(xs) =>
      && b.JObject?
      && (set i | 0 <= i < |xs| :: xs[i].key) == (set i | 0 <= i < |b.members| :: b.members[i].key)
      && forall i :: 0 <= i < |xs| ==>
           var f := Find(b.members, xs[i].key, 0);
           f.Some? && Equal(xs[i].value, b.members[f.value].value)
  }

  /** JavaScript truthiness (`!!value`) of an instance's value. */
  predicate Truthy(v: Instance) {
    match v
    case Undefined => false
    case Value(j) =>
      match j
      case JNull => false
      case JBool(b) => b
      case JNumber(n) => n != 0.0
      case JString(s) => s != ""
      case _ => true
  }

  lemma {:induction false} FindDistinct(ms: seq<Member>, i: nat, from: nat)
    requires from <= i < |ms|
    requires forall p, q :: 0 <= p < q < |ms| ==> ms[p].key != ms[q].key
    ensures Find(ms, ms[i].key, from) == Some(i)
    decreases i - from
  {
    if from < i {
      FindDistinct(ms, i, from + 1);
    }
  }

  /** Every well-formed value equals itself, so equals() is reflexive on what JSON parsing yields. */
  lemma {:induction false} EqualReflexive(j: Json)
    requires WellFormed(j)
    ensures Equal(j, j)
  {
    match j
    case JArray(es) =>
      forall i | 0 <= i < |es| ensures Equal(es[i], es[i]) {
        EqualReflexive(es[i]);
      }
    case JObject(ms) =>
      forall i | 0 <= i < |ms|
        ensures var f := Find(ms, ms[i].key, 0); f.Some? && Equal(ms[i].value, ms[f.value].value)
      {
        FindDistinct(ms, i, 0);
        EqualReflexive(ms[i].value);
      }
    case _ =>
  }
}
