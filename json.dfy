/**
 * The JSON request body as the validators see it. `Absent` stands for a
 * field that is not there at all (JavaScript's `undefined`), which is
 * distinct from an explicit `null`. Every JSON number is a `Num`; an
 * integer is a number whose value has no fractional part.
 */
module Json {

  datatype Value =
    | Absent
    | Null
    | Bool(b: bool)
    | Num(n: real)
    | Str(s: string)
    | Arr(items: seq<Value>)
    | Obj(fields: map<string, Value>)

  /** Member access `v.key`: undefined unless `v` is an object holding `key`. */
  function Get(v: Value, key: string): Value
  {
    if v.Obj? && key in v.fields then v.fields[key] else Absent
  }

  predicate IsInteger(v: Value)
  {
    v.Num? && v.n.Floor as real == v.n
  }
}
