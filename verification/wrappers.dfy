/** Failure-carrying datatypes shared by every module of the model. */
module Wrappers {

  /** A value that may be absent: JavaScript's `undefined`/`null`. */
  datatype Option<+T> = None | Some(value: T) {

    /** The wrapped value, or `default` when absent (JavaScript's `??`). */
    function GetOr(default: T): T {
      match this
      case Some(v) => v
      case None => default
    }

    /** This value when present, else `other`. */
    function Or(other: Option<T>): Option<T> {
      match this
      case Some(_) => this
      case None => other
    }
  }

  /**
   * `stored` updated with `given` the way Prisma's `update` treats a column:
   * a value is written, `undefined` leaves the stored value in place.
   */
  predicate Patched<T(==)>(stored: Option<T>, given: Option<T>, result: Option<T>) {
    (given.Some? ==> result == given) && (given.None? ==> result == stored)
  }

  /** An operation that either produces a value or fails with a message. */
  datatype Result<+T> = Ok(value: T) | Err(message: string)
}
