/** The review record a user's history holds. */
module Records {
  import opened JsValues

  /** `{code, language, review, timestamp}` as posted to the memory object's `/store`.
      `language` is missing when the client sent none; `timestamp` is epoch milliseconds. */
  datatype Record = Record(code: string, language: Option<string>, review: string, timestamp: int)
}
