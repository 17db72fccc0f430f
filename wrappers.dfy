/** Small value wrappers shared by the model. */
module Wrappers {

  /** Python's `None` or a present value. */
  datatype Option<+T> = None | Some(value: T) {
    /** The value, or `default` when absent (as `dict.get(key, default)`). */
    function GetOr(default: T): T {
      match this
      case Some(v) => v
      case None => default
    }
  }

  /**
   * The outcome of fetching and parsing one page: any exception raised by the
   * request, by `raise_for_status` or by the parser is `Failed`.
   */
  datatype Fetch<+T> = Failed | Fetched(value: T)
}
