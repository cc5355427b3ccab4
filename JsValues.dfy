/** The JavaScript values that flow through the runtime and appear in JSON schemas. */
module JsValues {
  import opened Wrappers

  /** A JavaScript runtime value as it appears in a workflow variable or a JSON document.
      NaN and the identity of objects are not represented. */
  datatype Value =
    | Undefined
    | Null
    | Bool(b: bool)
    | Num(n: real)
    | Str(s: string)
    | Arr(items: seq<Value>)
    | Obj(fields: map<string, Value>)

  /** lodash `isNil`: the value is `null` or `undefined`. */
  predicate IsNil(v: Value)
  {
    v.Undefined? || v.Null?
  }

  /** JavaScript truthiness: `undefined`, `null`, `false`, `0` and `""` are falsy. */
  predicate Truthy(v: Value)
  {
    match v
    case Undefined => false
    case Null => false
    case Bool(b) => b
    case Num(n) => n != 0.0
    case Str(s) => s != ""
    case Arr(_) => true
    case Obj(_) => true
  }

  /** An optional text as JavaScript tests it: missing and "" are falsy. */
  predicate TruthyText(t: Option<string>)
  {
    t.Some? && t.value != ""
  }
}
