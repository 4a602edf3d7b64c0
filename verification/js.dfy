/**
 * The few JavaScript runtime notions the lookup engine depends on:
 * `Date` values, string truthiness, the outcome of a `fetch`, and the
 * exceptions that can escape a lookup.
 */
module Js {
  import opened Wrappers

  /**
   * A JavaScript `Date`: either a time value in milliseconds since the epoch
   * or an Invalid Date (time value NaN). Every `Date` object is truthy,
   * including an Invalid one.
   */
  datatype JsDate = Valid(ms: int) | InvalidDate

  /** `a > b` on two `Date` objects: a comparison with NaN is false. */
  predicate Later(a: JsDate, b: JsDate) {
    a.Valid? && b.Valid? && a.ms > b.ms
  }

  /** A string-valued field is truthy when present and non-empty. */
  predicate Truthy(field: Option<string>) {
    field.Some? && field.value != ""
  }

  /** What `response.json()` produced: a syntax error, or a value of shape `T`. */
  datatype Json<+T> = Unparseable | Parsed(value: T)

  /**
   * The settled outcome of one `fetch`: the promise was rejected (network
   * failure), the response was not `ok` (non-2xx status), or it was `ok` and
   * its body is what `json()` would yield.
   */
  datatype Fetch<+T> = Rejected | NotOk | Ok(body: Json<T>)

  /** Exceptions that the lookup code does not catch locally. */
  datatype Uncaught =
    | JsonSyntaxError      // `response.json()` rejected
    | NullPropertyAccess   // a property read on `null`
}
