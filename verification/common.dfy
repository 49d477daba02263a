/** Shared vocabulary: optional values, bytes, and the JavaScript notion of a
    "truthy" optional string that the handler's guards rely on. */
module Common {

  /** An optional value: an absent query parameter, an unset environment
      variable, a cookie file that was never created. */
  datatype Option<+T> = None | Some(value: T)

  /** One byte of the download tool's standard output. */
  newtype byte = x: int | 0 <= x < 256

  /** JavaScript truthiness of a possibly-undefined string: `undefined` and
      the empty string are falsy, every other string is truthy. */
  predicate Truthy(s: Option<string>)
  {
    s.Some? && s.value != ""
  }
}
