/** The optional values the rest of the model shares. */
module Wrappers {
  /** `None` stands for both `null` and `undefined`: the modelled code reads them only through
      `??`, `?.` and truthiness, which do not tell them apart. */
  datatype Option<+T> = None | Some(value: T) {
    /** The `??` operator. */
    function GetOr(default: T): T {
      match this
      case Some(v) => v
      case None => default
    }

    /** The `a ?? b` of two optional values. */
    function Or(other: Option<T>): Option<T> {
      if this.Some? then this else other
    }
  }

  datatype Result<+T, +E> = Ok(value: T) | Err(error: E)

  /** The truthiness of an optional string: an empty string is as absent as a missing one. */
  predicate Truthy(s: Option<string>) {
    s.Some? && s.value != ""
  }

  /** An optional string with the falsy values folded together. */
  function Normal(s: Option<string>): Option<string> {
    if Truthy(s) then s else None
  }
}
