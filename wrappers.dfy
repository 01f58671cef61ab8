/** Small value wrappers shared by the other modules. */
module Wrappers {

  /** A value that may be missing: a nullable column or a lookup that found nothing. */
  datatype Option<+T> = None | Some(value: T)

  /** One field of a partial update: either left out of the payload or set to a value.
      This is what a payload dumped with "exclude unset" looks like, field by field. */
  datatype Patch<+T> = Unset | Set(value: T) {

    /** The value after applying this field of the update to `current`. */
    function Over(current: T): T {
      match this
      case Unset => current
      case Set(v) => v
    }
  }
}
