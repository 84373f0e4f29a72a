/**
 The JavaScript value conventions the dashboard's code leans on: a field that
 may be `undefined` or `null`, the truthiness tests written with `||` and
 `if (x)`, and the nullish fallback written with `??`.
 */
module Js {

  /** A value that may be absent, as `undefined` or `null`. The truthiness
      tests and `??` treat the two alike. A default parameter applies only to
      `undefined` and a template literal prints the two differently; the model
      reads an absent value as `undefined` in both places, and no call site
      passes `null` for a defaulted parameter. */
  datatype Option<+T> = None | Some(value: T) {

    /** `x ?? fallback`: the value when present, otherwise the fallback. */
    function GetOr(fallback: T): T {
      match this
      case Some(v) => v
      case None => fallback
    }
  }

  /** A possibly-absent string is truthy when present and non-empty. */
  predicate Truthy(s: Option<string>) {
    s.Some? && s.value != ""
  }

  /** A possibly-absent number is truthy when present and non-zero (NaN never reaches here). */
  predicate TruthyNumber(n: Option<int>) {
    n.Some? && n.value != 0
  }

  /** `a || b` where `b` is a string: `a` when it is truthy, otherwise `b`. */
  function OrElse(a: Option<string>, b: string): string {
    if Truthy(a) then a.value else b
  }
}
