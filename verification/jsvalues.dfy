/** JavaScript values the reviewer touches, reduced to what its logic inspects:
    a possibly missing value, and the `x || fallback` idiom on strings. */
module JsValues {

  /** A value that may be `undefined` (a missing JSON field, a missing storage key). */
  datatype Option<+T> = None | Some(value: T) {

    /** `x || fallback` for a value whose every present form is truthy (an array). */
    function GetOr(fallback: T): T {
      match this
      case Some(v) => v
      case None => fallback
    }
  }

  /** A string is truthy in JavaScript when it is present and non-empty;
      a string of blanks is truthy. */
  predicate Truthy(s: Option<string>) {
    s.Some? && s.value != ""
  }

  /** `s || fallback` on an optional string. */
  function OrElse(s: Option<string>, fallback: string): (r: string)
    ensures Truthy(s) ==> r == s.value
    ensures !Truthy(s) ==> r == fallback
    ensures fallback != "" ==> r != ""
  {
    if Truthy(s) then s.value else fallback
  }
}
