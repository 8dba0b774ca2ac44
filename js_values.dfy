/**
 * The JavaScript values the core handles after `JSON.parse`: the parsed `user` profile,
 * request bodies and the locale tables. Numbers are restricted to integers.
 */
module JsValues {
  import opened Wrappers
  import opened JsStrings

  datatype Json =
    | JNull
    | JBool(b: bool)
    | JNum(n: int)
    | JStr(s: string)
    | JArr(items: seq<Json>)
    | JObj(fields: map<string, Json>)

  /** Falsy values are `null`, `false`, `0` and `""`; every array and object is truthy. */
  predicate Truthy(v: Json)
  {
    match v
    case JNull => false
    case JBool(b) => b
    case JNum(n) => n != 0
    case JStr(s) => s != ""
    case _ => true
  }

  /** `String(v)`, also what a template literal `${v}` inserts. */
  function JsString(v: Json): string
  {
    match v
    case JNull => "null"
    case JBool(b) => if b then "true" else "false"
    case JNum(n) => Decimal(n)
    case JStr(s) => s
    case JArr(items) =>
      // `Array.prototype.join` renders `null` elements as the empty string
      Join(seq(|items|, i requires 0 <= i < |items| => if items[i] == JNull then "" else JsString(items[i])), ",")
    case JObj(_) => "[object Object]"
  }

  /** The index an array-index property key denotes, when it is below `length`. */
  function ArrayIndex(key: string, length: nat): Option<nat>
  {
    if length == 0 then None
    else if key == Decimal(length - 1) then Some(length - 1)
    else ArrayIndex(key, length - 1)
  }

  lemma {:induction false} ArrayIndexSound(key: string, length: nat)
    ensures ArrayIndex(key, length).Some? ==>
      ArrayIndex(key, length).value < length && Decimal(ArrayIndex(key, length).value) == key
    ensures forall i :: 0 <= i < length && Decimal(i) == key ==> ArrayIndex(key, length).Some?
  {
    if length > 0 {
      ArrayIndexSound(key, length - 1);
      if key != Decimal(length - 1) {
        assert ArrayIndex(key, length) == ArrayIndex(key, length - 1);
        forall i | 0 <= i < length && Decimal(i) == key
          ensures ArrayIndex(key, length).Some?
        {
          assert i < length - 1;
        }
      }
    }
  }

  /** `key in v` and `v[key]` for an object or array `v`, own properties only; None when absent. */
  function Child(v: Json, key: string): Option<Json>
  {
    match v
    case JObj(m) => if key in m then Some(m[key]) else None
    case JArr(items) =>
      var i := ArrayIndex(key, |items|);
      ArrayIndexSound(key, |items|);
      if i.Some? then Some(items[i.value]) else None
    case _ => None
  }

  /** The outcome of reading `v.key`: a `TypeError` on `null`, `undefined`, or a value. */
  datatype Prop = Throws | Undefined | Defined(value: Json)

  function GetProp(v: Json, key: string): (p: Prop)
    ensures p.Throws? <==> v == JNull
    ensures v.JObj? ==> (p.Defined? <==> key in v.fields)
  {
    if v == JNull then Throws
    else match Child(v, key)
      case Some(c) => Defined(c)
      case None => Undefined
  }

  /** The truthiness of a property that was read without an exception; `undefined` is falsy. */
  predicate PropTruthy(p: Prop)
  {
    p.Defined? && Truthy(p.value)
  }

  /** `p.toString()`: None when it throws (on `undefined`, `null`, or a failed access). */
  function CallToString(p: Prop): (r: Option<string>)
    ensures r.Some? <==> p.Defined? && p.value != JNull
    ensures r.Some? && p.value.JNum? ==> r.value == Decimal(p.value.n)
  {
    match p
    case Defined(v) => if v == JNull then None else Some(JsString(v))
    case _ => None
  }

  /** `${p}` for a value that was read without an exception. */
  function TemplateString(p: Prop): string
    requires !p.Throws?
  {
    if p.Undefined? then "undefined" else JsString(p.value)
  }
}
