/** Optional values and failure-carrying results shared by the whole model.
    A Java `null` becomes `None`; a thrown exception becomes `Err`. */
module Wrappers {

  datatype Option<+T> = None | Some(value: T) {
    function GetOr(default: T): T {
      match this
      case Some(v) => v
      case None => default
    }
  }

  /** The exceptions the modelled code can raise, one variant per cause. */
  datatype Error =
    | InvalidDate          // java.time.DateTimeException from LocalDate.of / plusMonths / plusYears
    | InvalidDirection     // IllegalArgumentException from Sort.Direction.fromString
    | EmptySortProperty    // IllegalArgumentException from Sort.Order: property without text
    | ExpenseNotFound      // ExpenseNotFoundException
    | NullValue            // NullPointerException when a null Float is unboxed

  datatype Result<+T> = Ok(value: T) | Err(error: Error)
}
