/** JSON values as request bodies deliver them and responses carry them, and
    the few JavaScript rules the handlers and hooks apply to such values:
    truthiness, property access (`o.k`, `v?.k`), nullish defaulting (`??`),
    object spread (`{ ...a, ...b }`) and strict equality (`===`).

    Numbers are abstracted to integers: every number the modelled code
    compares or produces is an integer id or a status code.
 */
module Json {
  import opened Outcomes

  datatype Json =
    | JNull
    | JBool(b: bool)
    | JNum(n: int)
    | JStr(s: string)
    | JArr(items: seq<Json>)
    | JObj(fields: map<string, Json>)

  /** A plain object: property name to value.  A missing name reads as `undefined`. */
  type Obj = map<string, Json>

  /** JavaScript truthiness: `null`, `false`, `0` and `""` are falsy,
      every other value (including empty arrays and objects) is truthy. */
  predicate Truthy(v: Json)
  {
    match v
    case JNull => false
    case JBool(b) => b
    case JNum(n) => n != 0
    case JStr(s) => s != ""
    case JArr(_) => true
    case JObj(_) => true
  }

  /** Truthiness of an optional value, `undefined` (None) being falsy. */
  predicate TruthyOpt(v: Option<Json>)
  {
    v.Some? && Truthy(v.value)
  }

  /** `o.k` on a plain object. */
  function Get(o: Obj, k: string): (r: Option<Json>)
    ensures r.Some? <==> k in o
    ensures r.Some? ==> r.value == o[k]
  {
    if k in o then Some(o[k]) else None
  }

  /** Truthiness of `o.k`; an absent property is `undefined` and so falsy. */
  predicate TruthyAt(o: Obj, k: string)
  {
    TruthyOpt(Get(o, k))
  }

  /** `v?.k`: `undefined` unless `v` is an object that has property `k`.
      (On a non-object primitive JavaScript also yields `undefined`.) */
  function Prop(v: Json, k: string): (r: Option<Json>)
    ensures r.Some? <==> v.JObj? && k in v.fields
    ensures r.Some? ==> r.value == v.fields[k]
  {
    match v
    case JObj(f) => Get(f, k)
    case _ => None
  }

  /** `x ?? null`: `undefined` and `null` both become `null`. */
  function OrNull(x: Option<Json>): (r: Json)
    ensures x.None? ==> r == JNull
    ensures x.Some? ==> r == x.value
  {
    match x
    case None => JNull
    case Some(v) => v
  }

  /** The own properties `{ ...v }` contributes: those of an object, none for
      `null`.  (Spreading a string or array would contribute its indices;
      the modelled code only spreads objects and `null`.) */
  function Spread(v: Json): (r: Obj)
    ensures v.JObj? ==> r == v.fields
    ensures !v.JObj? ==> r == map[]
  {
    match v
    case JObj(f) => f
    case _ => map[]
  }

  /** `a === b` for values read from separately parsed JSON documents:
      primitives compare by value, `undefined` equals only `undefined`, and two
      objects or arrays are never the same reference. */
  predicate StrictEq(a: Option<Json>, b: Option<Json>)
  {
    match (a, b)
    case (None, None) => true
    case (Some(x), Some(y)) => !x.JArr? && !x.JObj? && x == y
    case _ => false
  }

  /** A JSON array of strings. */
  function Strings(ss: seq<string>): (r: Json)
    ensures r.JArr? && |r.items| == |ss|
    ensures forall i :: 0 <= i < |ss| ==> r.items[i] == JStr(ss[i])
  {
    JArr(seq(|ss|, i requires 0 <= i < |ss| => JStr(ss[i])))
  }

  /** Different string lists give different JSON arrays. */
  lemma StringsInjective(a: seq<string>, b: seq<string>)
    requires Strings(a) == Strings(b)
    ensures a == b
  {
    assert |a| == |b|;
    forall i | 0 <= i < |a|
      ensures a[i] == b[i]
    {
      assert Strings(a).items[i] == JStr(a[i]);
      assert Strings(b).items[i] == JStr(b[i]);
    }
  }
}
