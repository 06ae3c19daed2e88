/** Values as the request handlers see them once the framework has parsed a
    request: optional fields (JavaScript `undefined` or `null`) and the
    store's object identifiers. */
module JsValues {

  /** A value that may be absent (`undefined` or `null`). */
  datatype Option<+T> = None | Some(value: T)

  /** A store-native object identifier. Only equality and freshness matter,
      so identifiers are modelled as natural numbers handed out in order. */
  type ObjectId = nat

  /** JavaScript falsiness of an optional string field: absent, or the empty string. */
  predicate Falsy(v: Option<string>)
  {
    v.None? || v.value == ""
  }
}
