/** Values shared by the whole model: optional values (JavaScript's
    `undefined`/`null` versus a present value) and the untyped JSON values
    that the view model passes through without looking inside. */
module Values {

  /** A value that may be missing: `None` stands for `undefined` or `null`. */
  datatype Option<+T> = None | Some(value: T)

  /** An arbitrary JSON value: what the helpers this model does not look
      inside (result formatting, user formatting, authorization details)
      hand back, and what raw results are made of. */
  datatype Json =
    | JNull
    | JBool(b: bool)
    | JNumber(n: int)
    | JString(s: string)
    | JArray(items: seq<Json>)
    | JObject(fields: seq<(string, Json)>)
}
