/** Small value wrappers shared by every module of the model. */
module Wrappers {

  /** An optional value: JavaScript's `undefined`/`null` versus a present value. */
  datatype Option<+T> = None | Some(value: T) {
    function GetOr(default: T): T {
      match this
      case Some(v) => v
      case None => default
    }
  }

  /** A field of a parsed JSON request body. A body key can be missing (`undefined`,
      which the ORM skips), explicitly `null` (which the ORM writes), or hold a value. */
  datatype Field<+T> = Absent | Null | Present(value: T) {
    /** The field as a nullable value: a missing key and `null` both read as no value. */
    function AsOption(): Option<T> {
      match this
      case Present(v) => Some(v)
      case _ => None
    }
  }
}
