/** JavaScript values as far as the core handles them: everything `JSON.parse`
    can produce (RFC 8259 section 3), plus `undefined`, which the frontend meets
    when it reads a property that is not there. Numbers are unbounded reals; the
    model never relies on floating point. */
module Json {
  import opened Basics

  datatype Value =
    | Undefined
    | Null
    | Bool(b: bool)
    | Num(n: real)
    | Str(s: string)
    | Arr(items: seq<Value>)
    | Obj(fields: map<string, Value>)

  /** Reading `v[key]` (`v.key`): `None` when the read throws a TypeError, which
      it does exactly on `null` and `undefined`; a key an object lacks, and any
      key of a primitive or an array that the model does not track, reads as
      `undefined`. */
  function Member(v: Value, key: string): (r: Option<Value>)
    ensures r.None? <==> v.Null? || v.Undefined?
    ensures v.Obj? && key in v.fields ==> r == Some(v.fields[key])
    ensures v.Obj? && key !in v.fields ==> r == Some(Undefined)
  {
    match v
    case Undefined => None
    case Null => None
    case Obj(m) => Some(if key in m then m[key] else Undefined)
    case _ => Some(Undefined)
  }

  /** JavaScript truthiness: `undefined`, `null`, `false`, `0` and `""` are falsy. */
  predicate Truthy(v: Value)
  {
    match v
    case Undefined => false
    case Null => false
    case Bool(b) => b
    case Num(n) => n != 0.0
    case Str(s) => s != ""
    case _ => true
  }

  /** The part of JavaScript's ToNumber coercion used by a relational comparison
      such as `v >= 80`; `None` stands for NaN, against which every comparison is
      false. Strings, arrays and objects are taken as NaN. */
  function ToNumber(v: Value): Option<real>
  {
    match v
    case Num(n) => Some(n)
    case Null => Some(0.0)
    case Bool(b) => Some(if b then 1.0 else 0.0)
    case _ => None
  }

  /** A JSON array of strings, the shape `JSON.stringify` gives a list of rules. */
  function Strings(xs: seq<string>): (r: Value)
    ensures r.Arr? && |r.items| == |xs|
    ensures forall i :: 0 <= i < |xs| ==> r.items[i] == Str(xs[i])
  {
    Arr(seq(|xs|, i requires 0 <= i < |xs| => Str(xs[i])))
  }
}
