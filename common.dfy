/** Shared result types for the CodeMingle model. */
module Common {

  /** A value that may be absent: Java's `null`, JavaScript's `undefined`/`null`. */
  datatype Option<+T> = None | Some(value: T) {
    function GetOr(default: T): T {
      match this
      case Some(v) => v
      case None => default
    }
  }

  /** The failures a controller reports instead of a response body. */
  datatype Error =
    | NotFound              // ResourceNotFoundException: an id or username that resolves to no row
    | Duplicate             // "User already enrolled in this course"
    | InvalidInput          // a null id handed to findById, a null string dereferenced, an unparsable date
    | ConstraintViolation   // the database refuses the row: a NOT NULL or UNIQUE column

  datatype Result<+T> = Ok(value: T) | Err(error: Error)

  /** Database and JSON ids are Java `Long`s. */
  type Id = int
}
