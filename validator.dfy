/**
 * The validator package's accumulated errors, seen as the set of field keys
 * that failed at least one check. Which message is kept for a key is not modelled.
 */
module Validator {

  type Errors = set<string>

  /** `validator.New()`: no errors yet. */
  const New: Errors := {}

  /** `v.Check(ok, key, message)`: records `key` as failing when `ok` is false. */
  function Check(v: Errors, ok: bool, key: string): (r: Errors)
    ensures key in r <==> key in v || !ok
    ensures r - {key} == v - {key}
  {
    if ok then v else v + {key}
  }
}
