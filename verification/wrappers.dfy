/** Optional values and success/failure results shared by the model. */
module Wrappers {

  /** `None` stands for an absent value; in a callback's update record it is Dash's `no_update`. */
  datatype Option<+T> = None | Some(value: T) {

    /** The carried value, or `default` when there is none. */
    function GetOr(default: T): T {
      match this
      case Some(v) => v
      case None => default
    }
  }

  /** Either a computed value or the error the source reports instead. */
  datatype Result<+R, +E> = Success(value: R) | Failure(error: E)
}
