/** JavaScript values as the site's scripts use them: references that may be
    `null` or `undefined`, and the `a || b` fallback on strings. */
module Js {

  /** A reference that may be missing. `null` and `undefined` are one case:
      every test the site performs on them (`!x`, `x || d`, `x ?? d`)
      treats them alike. */
  datatype Nullable<+T> = Null | Some(value: T)

  /** JavaScript truthiness of a nullable string: `null`, `undefined` and
      `""` are falsy, every other string is truthy. */
  predicate Truthy(s: Nullable<string>) {
    s.Some? && s.value != ""
  }

  /** `s || fallback` on a nullable string. */
  function Or(s: Nullable<string>, fallback: string): string {
    if Truthy(s) then s.value else fallback
  }

  /** `s || null`: a falsy string becomes `null`. */
  function OrNull(s: Nullable<string>): Nullable<string> {
    if Truthy(s) then s else Null
  }
}
