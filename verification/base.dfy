/** Shared vocabulary of the effort model: identifiers, calendar dates and
    the optional value that stands for Ruby's `nil`. */
module Base {

  /** A project's database id. */
  type ProjectId = int

  /** A workforce profile's database id. */
  type ProfileId = int

  /** A calendar date, as a day number; subtracting two dates gives whole days. */
  type Date = int

  /** A value that may be `nil`. */
  datatype Option<+T> = None | Some(value: T) {

    /** The value, or `default` when it is `nil`. */
    function GetOr(default: T): T {
      match this
      case Some(v) => v
      case None => default
    }
  }

  /** An operation that either produces a value or raises. */
  datatype Result<+T, +E> = Success(value: T) | Failure(error: E)
}
