/**
 * The two JavaScript fallback operators the reducers use on a value of type
 * `string | null | undefined` (`None` stands for both `null` and `undefined`).
 */
module JsOperators {
  import opened Wrappers

  /** A string is falsy exactly when it is absent or empty. */
  predicate Truthy(a: Option<string>) {
    a.Some? && a.value != ""
  }

  /** `a || fallback`: the fallback replaces every falsy value, the empty string included. */
  function LogicalOr(a: Option<string>, fallback: string): (r: string)
    ensures Truthy(a) ==> r == a.value
    ensures !Truthy(a) ==> r == fallback
    ensures fallback != "" ==> r != ""
  {
    if a.Some? && a.value != "" then a.value else fallback
  }

  /** `a ?? fallback`: the fallback replaces only an absent value; an empty string is kept. */
  function NullishCoalesce(a: Option<string>, fallback: string): (r: string)
    ensures a.Some? ==> r == a.value
    ensures a.None? ==> r == fallback
  {
    match a
    case Some(v) => v
    case None => fallback
  }

  /** The two operators disagree exactly on a present empty string with a non-empty fallback. */
  lemma OrDiffersFromNullishOnlyOnEmpty(a: Option<string>, fallback: string)
    ensures LogicalOr(a, fallback) != NullishCoalesce(a, fallback) <==> a == Some("") && fallback != ""
  {
  }
}
