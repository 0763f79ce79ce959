/** `defaultTo` of src/utilities.ts. */
module Utilities {

  /** A value that may be `undefined`. */
  datatype Option<+T> = None | Some(value: T)

  /**
   * `defaultTo(def, x)`: `x` unless it is `undefined`, then `def`. In the
   * source the type `T | undefined` lets `def` itself be `undefined`, so both
   * arguments are optional here.
   */
  function DefaultTo<T>(def: Option<T>, x: Option<T>): (r: Option<T>)
    ensures x.Some? ==> r == x
    ensures x.None? ==> r == def
    ensures r.None? <==> def.None? && x.None?
  {
    if x.None? then def else x
  }

  /** Applying the same default twice changes nothing. */
  lemma DefaultToIdempotent<T>(def: Option<T>, x: Option<T>)
    ensures DefaultTo(def, DefaultTo(def, x)) == DefaultTo(def, x)
  {
  }
}
