/**
 * What the HR pages' `onSubmit` handlers share: how an awaited call into
 * `lib/auth` or `lib/api` ends, and JavaScript's `message || fallback` for the
 * error text shown in the red banner.
 */
module Submission {
  import opened Wrappers

  /** How the awaited `signIn` / `registerUser` call ends; `message` is `err.message`, None when undefined. */
  datatype CallOutcome = Returned | Threw(message: Option<string>)

  /** A string value is truthy when it is defined and non-empty. */
  predicate Truthy(s: Option<string>) {
    s.Some? && s.value != []
  }

  /** `s || fallback` on an optional string. */
  function OrElse(s: Option<string>, fallback: string): (text: string)
    ensures Truthy(s) ==> text == s.value
    ensures !Truthy(s) ==> text == fallback
  {
    if Truthy(s) then s.value else fallback
  }

  /** With a non-empty fallback the banner always has text to show. */
  lemma OrElseNonEmpty(s: Option<string>, fallback: string)
    requires fallback != []
    ensures OrElse(s, fallback) != []
  {
  }
}
