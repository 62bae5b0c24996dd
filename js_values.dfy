/**
 * JavaScript values as they flow through the viewer and the configuration:
 * primitives, arrays and plain objects (own properties, in insertion order).
 * Numbers are reals: NaN and the infinities are not modelled.
 */
module JsValues {

  datatype Json =
    | JUndefined
    | JNull
    | JBool(b: bool)
    | JNum(n: real)
    | JStr(s: string)
    | JArr(items: seq<Json>)
    | JObj(fields: seq<(string, Json)>)

  /** JavaScript truthiness (`!!v`). */
  predicate Truthy(v: Json) {
    match v
    case JUndefined => false
    case JNull => false
    case JBool(b) => b
    case JNum(n) => n != 0.0
    case JStr(s) => s != ""
    case JArr(_) => true
    case JObj(_) => true
  }

  /** `typeof v === "object" && v` : arrays and plain objects, never null. */
  predicate IsObject(v: Json) {
    v.JArr? || v.JObj?
  }
}
