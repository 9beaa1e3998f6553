/** Small shared vocabulary: optional values and the abstract clock. */
module Base {

  /** A value that may be absent (JavaScript's `null`, or `NaN` from a failed parse). */
  datatype Option<+T> = None | Some(value: T) {
    function GetOr(default: T): T {
      match this
      case Some(v) => v
      case None => default
    }
  }

  /**
    * Points in time. The application stores `new Date().toISOString()`
    * strings; ISO-8601 strings of one time zone compare like the instants
    * they denote, so an ordered number stands for them here.
    */
  type Timestamp = nat
}
