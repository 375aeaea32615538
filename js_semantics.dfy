/**
 * The few pieces of JavaScript semantics the modelled code depends on:
 * what a `throw` carries, how a call completes, and which strings are truthy.
 */
module JsSemantics {
  import opened Wrappers

  /** A thrown value: an `Error` object with its message, or anything else. */
  datatype Thrown = Error(message: string) | NonError

  /** How a call or an awaited promise completes: with a value, or by throwing. */
  datatype Completion<+T> = Normal(value: T) | Throw(thrown: Thrown)

  /** `if (s)` on a `string | null`: the falsy values are exactly null and the empty string. */
  function Truthy(s: Option<string>): (truthy: bool)
    ensures truthy <==> s != None && s != Some("")
  {
    s.Some? && s.value != ""
  }

  /** `err instanceof Error ? err.message : fallback`. */
  function MessageOr(t: Thrown, fallback: string): string {
    match t
    case Error(message) => message
    case NonError => fallback
  }
}
