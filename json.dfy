/** Decoded JSON as the Python code sees it, with the handful of Python
    operations the quote logic applies to it. A Python exception is `None`. */
module Json {
  import opened Wrappers

  datatype Json =
    | Null
    | Bool(b: bool)
    | Num(n: real)
    | Str(s: string)
    | Arr(items: seq<Json>)
    | Obj(fields: map<string, Json>)

  /** Python truthiness: `null`, `false`, zero and empty containers are false. */
  predicate Truthy(j: Json)
    ensures !Truthy(j) <==> j in {Null, Bool(false), Num(0.0), Str(""), Arr([]), Obj(map[])}
  {
    match j
    case Null => false
    case Bool(b) => b
    case Num(n) => n != 0.0
    case Str(s) => s != ""
    case Arr(items) => items != []
    case Obj(fields) => fields != map[]
  }

  /** `j.get(key, default)`; only a dict has `get`. */
  function GetOr(j: Json, key: string, default: Json): (r: Option<Json>)
    ensures r.Some? <==> j.Obj?
    ensures r.Some? && key in j.fields ==> r.value == j.fields[key]
    ensures r.Some? && key !in j.fields ==> r.value == default
  {
    match j
    case Obj(fields) => Some(if key in fields then fields[key] else default)
    case _ => None
  }

  /** `j[key]`: a KeyError on a dict without the key and a TypeError on
      anything that is not a dict. */
  function Lookup(j: Json, key: string): (r: Option<Json>)
    ensures r.Some? <==> j.Obj? && key in j.fields
    ensures r.Some? ==> r.value == j.fields[key]
    ensures j.Obj? && key in j.fields ==> GetOr(j, key, Null) == r
  {
    match j
    case Obj(fields) => if key in fields then Some(fields[key]) else None
    case _ => None
  }

  /** Python's `float(j)`; `parse` is how `float` reads a string. */
  function ToFloat(j: Json, parse: string -> Option<real>): (r: Option<real>)
    ensures j.Null? || j.Arr? || j.Obj? ==> r.None?
    ensures j.Num? ==> r == Some(j.n)
    ensures j.Bool? ==> r == Some(if j.b then 1.0 else 0.0)
    ensures j.Str? ==> r == parse(j.s)
  {
    match j
    case Bool(b) => Some(if b then 1.0 else 0.0)
    case Num(n) => Some(n)
    case Str(s) => parse(s)
    case _ => None
  }
}
