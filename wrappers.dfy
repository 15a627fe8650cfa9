/** Optional values as the TypeScript source sees them. */
module Wrappers {

  /** A value that is either present or absent. */
  datatype Option<+T> = None | Some(value: T)

  /** An optional field of a JavaScript record: it may be left out
      (`undefined`), set to `null`, or hold a value. */
  datatype Nullable<+T> = Undefined | Null | Present(value: T) {

    /** `v === undefined || v === null`, the test behind `??` and `?.`. */
    predicate IsNullish() {
      !Present?
    }

    /** The value, or `fallback` when the field is nullish (`v ?? fallback`). */
    function Or(fallback: T): T {
      if Present? then value else fallback
    }
  }
}
