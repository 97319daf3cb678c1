/** Values as the JavaScript code sees them: nullable values, thrown errors and the `||` idiom. */
module Js {

  /** A value that may be `null` or `undefined`. */
  datatype Option<+T> = None | Some(value: T)

  /** The outcome of an async call: the value it resolved to, or the message of the error it threw. */
  datatype Result<+T> = Ok(value: T) | Err(message: string)

  /** JavaScript truthiness of a nullable string: `null`, `undefined` and `""` are falsy. */
  predicate Truthy(s: Option<string>) {
    s.Some? && s.value != ""
  }

  /** `s || d` for a nullable string `s` and a string default `d`. */
  function OrElse(s: Option<string>, d: string): string {
    if Truthy(s) then s.value else d
  }

  /** `s || null` for a nullable string `s`. */
  function OrNull(s: Option<string>): Option<string> {
    if Truthy(s) then s else None
  }
}
