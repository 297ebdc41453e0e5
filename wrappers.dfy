/** Small helper datatypes shared by the two models. */
module Wrappers {

  /** `None` stands for JavaScript's `undefined`/`null`; `Some(v)` for a present value. */
  datatype Option<+T> = None | Some(value: T) {

    /** The value, or `default` when absent (the `??` operator). */
    function GetOr(default: T): T
    {
      match this
      case Some(v) => v
      case None => default
    }
  }
}
